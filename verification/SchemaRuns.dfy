/**
  Whole runs of the schema coordinator: any number of callers, any interleaving of their
  steps, leaders and followers cancelled at any suspension point.
 */
module SchemaRuns {
  import opened Basics
  import opened SchemaFlights

  const EMPTY: State := State(map[], map[], map[], map[], map[], {}, map[], map[], [])

  ghost predicate StepBetween(s: State, step: Step, s': State) {
    Enabled(s, step) && s' == Next(s, step)
  }

  /** `states` are the states of a run from a new coordinator, `steps` the steps between them. */
  ghost predicate IsRun(states: seq<State>, steps: seq<Step>) {
    && |states| == |steps| + 1 && states[0] == EMPTY
    && forall i | 0 <= i < |steps| :: StepBetween(states[i], steps[i], states[i + 1])
  }

  lemma StepNotified(s: State, step: Step)
    requires Enabled(s, step)
    ensures s.notified <= Next(s, step).notified
  {
  }

  lemma StepLeader(s: State, step: Step)
    requires Enabled(s, step)
    ensures Next(s, step).leader ==
            if step.Begin? && NextPhase(s, step).Leading? then s.leader[step.flight := step.caller] else s.leader
  {
  }

  lemma {:induction false} RunKeepsInv(states: seq<State>, steps: seq<Step>, n: nat)
    requires IsRun(states, steps) && n < |states|
    ensures Inv(states[n])
  {
    if n > 0 {
      RunKeepsInv(states, steps, n - 1);
      assert StepBetween(states[n - 1], steps[n - 1], states[n - 1 + 1]);
      StepKeepsInv(states[n - 1], steps[n - 1]);
    }
  }

  // ---- order of operations ----

  /** The keys whose operation returned Ok, in the order the operations returned. */
  function Successes(states: seq<State>, steps: seq<Step>): seq<Key>
    requires |states| == |steps| + 1
    requires forall i | 0 <= i < |steps| && steps[i].Operated? :: steps[i].caller in states[i].calls
  {
    if steps == [] then [] else
      var n := |steps| - 1;
      Successes(states[..n + 1], steps[..n]) +
      if steps[n].Operated? && steps[n].outcome.Ok? then [states[n].calls[steps[n].caller].key] else []
  }

  lemma RunPrefix(states: seq<State>, steps: seq<Step>, n: nat)
    requires IsRun(states, steps) && n <= |steps|
    ensures IsRun(states[..n + 1], steps[..n])
  {
    forall i | 0 <= i < n ensures StepBetween(states[..n + 1][i], steps[..n][i], states[..n + 1][i + 1]) {
      assert StepBetween(states[i], steps[i], states[i + 1]);
    }
  }

  lemma RunCallers(states: seq<State>, steps: seq<Step>)
    requires IsRun(states, steps)
    ensures forall i | 0 <= i < |steps| && steps[i].Operated? :: steps[i].caller in states[i].calls
  {
    forall i | 0 <= i < |steps| && steps[i].Operated? ensures steps[i].caller in states[i].calls {
      assert StepBetween(states[i], steps[i], states[i + 1]);
    }
  }

  lemma {:induction false} LogIsSuccesses(states: seq<State>, steps: seq<Step>)
    requires IsRun(states, steps)
    requires forall i | 0 <= i < |steps| && steps[i].Operated? :: steps[i].caller in states[i].calls
    ensures states[|steps|].log == Successes(states, steps)
    decreases |steps|
  {
    if steps != [] {
      var n := |steps| - 1;
      RunPrefix(states, steps, n);
      LogIsSuccesses(states[..n + 1], steps[..n]);
      assert StepBetween(states[n], steps[n], states[n + 1]);
      StepLog(states[n], steps[n]);
    }
  }

  /** In every run, the versions whose operation succeeded for one (scope, namespace) strictly increase. */
  lemma SuccessesIncrease(states: seq<State>, steps: seq<Step>)
    requires IsRun(states, steps)
    ensures forall i | 0 <= i < |steps| && steps[i].Operated? :: steps[i].caller in states[i].calls
    ensures Increasing(Successes(states, steps))
  {
    RunCallers(states, steps);
    RunKeepsInv(states, steps, |steps|);
    LogIsSuccesses(states, steps);
  }

  /** In every reachable state, at most one operation of a (scope, namespace) is running. */
  lemma OperationsNeverOverlap(states: seq<State>, steps: seq<Step>, n: nat, c: Caller, d: Caller)
    requires IsRun(states, steps) && n < |states| && c in states[n].calls && d in states[n].calls
    requires states[n].calls[c].phase.Operating? && states[n].calls[d].phase.Operating?
    requires states[n].calls[c].key.space == states[n].calls[d].key.space
    ensures c == d
  {
    RunKeepsInv(states, steps, n);
    assert CallOk(states[n], c) && CallOk(states[n], d);
  }

  // ---- flights and results ----

  /** In every reachable state, a flight in the map is led by a caller that is still to record its result. */
  lemma FlightsAreLed(states: seq<State>, steps: seq<Step>, n: nat, key: Key)
    requires IsRun(states, steps) && n < |states| && key in states[n].flights
    ensures exists c | c in states[n].calls ::
              && states[n].calls[c].key == key && InFlight(states[n].calls[c].phase)
              && states[n].calls[c].phase.flight == states[n].flights[key]
  {
    RunKeepsInv(states, steps, n);
    assert FlightOk(states[n], key);
  }

  predicate Finished(p: Phase) {
    p.Returned? || p.Dropped?
  }

  /** A leader never turns to anything but its own flight. */
  ghost predicate LeaderStays(s: State, f: Flight)
    requires f in s.leader
  {
    && s.leader[f] in s.calls
    && var p := s.calls[s.leader[f]].phase;
       (Leads(p) && p.flight == f) || (Finished(p) && p.via == Some(f))
  }

  ghost predicate Faithful(s: State) {
    forall f | f in s.leader :: LeaderStays(s, f)
  }

  /** A caller that leads a flight goes on leading it until it returns or drops with it. */
  lemma LeaderPhase(s: State, step: Step)
    requires Enabled(s, step) && !step.Arrive?
    ensures var p, p' := s.calls[step.caller].phase, NextPhase(s, step);
            Leads(p) ==> (Leads(p') && p'.flight == p.flight) || (Finished(p') && p'.via == Some(p.flight))
    ensures !Finished(s.calls[step.caller].phase)
  {
  }

  lemma StepFaithful(s: State, step: Step)
    requires Enabled(s, step) && Faithful(s) && FlightsKnown(s)
    ensures Faithful(Next(s, step))
  {
    var s' := Next(s, step);
    StepLeader(s, step);
    if !step.Arrive? { LeaderPhase(s, step); }
    forall f | f in s'.leader ensures LeaderStays(s', f) {
      if f in s.leader { assert f in s.keyOf && LeaderStays(s, f); }
    }
  }

  lemma {:induction false} RunFaithful(states: seq<State>, steps: seq<Step>, n: nat)
    requires IsRun(states, steps) && n < |states|
    ensures Faithful(states[n])
  {
    if n > 0 {
      RunFaithful(states, steps, n - 1);
      RunKeepsInv(states, steps, n - 1);
      assert StepBetween(states[n - 1], steps[n - 1], states[n - 1 + 1]);
      StepFaithful(states[n - 1], steps[n - 1]);
    }
  }

  /** What the leader of a flight returns, or is about to return; a cancelled leader returns nothing. */
  function LeaderOutcome(p: Phase): Option<Outcome> {
    if p.Completing? || p.Recorded? || p.Notifying? || p.Leaving? then Some(p.outcome)
    else if p.Returned? then Some(p.outcome)
    else None
  }

  /**
    In every reachable state, a follower that returned has exactly its leader's result, and an error
    if the leader was cancelled.
   */
  lemma FollowersShareTheResult(states: seq<State>, steps: seq<Step>, n: nat, c: Caller, f: Flight)
    requires IsRun(states, steps) && n < |states| && c in states[n].calls
    requires states[n].calls[c].phase.Returned? && states[n].calls[c].phase.via == Some(f)
    ensures f in states[n].leader && states[n].leader[f] in states[n].calls
    ensures var p := states[n].calls[states[n].leader[f]].phase;
            if p.Dropped? then states[n].calls[c].phase.outcome.Err?
            else LeaderOutcome(p) == Some(states[n].calls[c].phase.outcome)
  {
    RunKeepsInv(states, steps, n);
    RunFaithful(states, steps, n);
    assert CallOk(states[n], c);
    assert LeaderStays(states[n], f) && LeaderOk(states[n], f);
    assert CallOk(states[n], states[n].leader[f]);
  }

  /** In every reachable state, Ok means that the requested version or a later one is published. */
  lemma OkMeansPublished(states: seq<State>, steps: seq<Step>, n: nat, c: Caller)
    requires IsRun(states, steps) && n < |states| && c in states[n].calls
    requires states[n].calls[c].phase.Returned? && states[n].calls[c].phase.outcome.Ok?
    ensures Published(states[n], states[n].calls[c].key)
  {
    RunKeepsInv(states, steps, n);
    assert CallOk(states[n], c);
  }

  // ---- nobody sleeps forever ----

  /** A step the program takes by itself: not a new call, and not a cancellation. */
  predicate Spontaneous(step: Step) {
    !step.Arrive? && !step.Cancel?
  }

  lemma {:induction false} Unused(used: set<Flight>) returns (f: Flight)
    ensures forall u | u in used :: u < f
  {
    if used == {} {
      f := 0;
    } else {
      var u :| u in used;
      var g := Unused(used - {u});
      f := if g <= u then u + 1 else g;
      forall v | v in used ensures v < f { assert v == u || v in used - {u}; }
    }
  }

  /** A caller that leads a flight, or waits for nobody, can go on unless it waits for the namespace lock. */
  lemma OwnStep(s: State, c: Caller) returns (step: Step)
    requires Inv(s) && c in s.calls && !Finished(s.calls[c].phase)
    requires !s.calls[c].phase.Sleeping? && !s.calls[c].phase.Leading?
    ensures Enabled(s, step) && Spontaneous(step)
  {
    match s.calls[c].phase
    case Fresh => { var f := Unused(s.keyOf.Keys); assert f !in s.keyOf; step := Begin(c, f); }
    case Following(_) => { step := Listen(c); }
    case Checking(_, _) => { step := Check(c); }
    case Locked(_) => { step := Recheck(c); }
    case Operating(_) => { step := Operated(c, Ok(())); }
    case Completing(_, _, _) => { step := Complete(c); }
    case Recorded(_, _, _) => { step := SetResult(c); }
    case Notifying(_, _, _) => { step := Notify(c); }
    case Leaving(_, _, _) => { step := Return(c); }
  }

  lemma LeaderGoesOn(s: State, c: Caller) returns (step: Step)
    requires Inv(s) && c in s.calls && s.calls[c].phase.Leading?
    ensures Enabled(s, step) && Spontaneous(step)
  {
    var space := s.calls[c].key.space;
    if space in s.locks {
      assert LockOk(s, space);
      step := OwnStep(s, s.locks[space]);
    } else {
      step := Acquire(c);
    }
  }

  /** As long as some caller has not finished, some caller can take a step: the protocol never deadlocks. */
  lemma NoDeadlock(s: State, c: Caller) returns (step: Step)
    requires Inv(s) && c in s.calls && !Finished(s.calls[c].phase)
    ensures Enabled(s, step) && Spontaneous(step)
  {
    var p := s.calls[c].phase;
    if p.Leading? {
      step := LeaderGoesOn(s, c);
    } else if p.Sleeping? {
      assert CallOk(s, c) && LeaderOk(s, p.flight);
      if p.flight in s.notified {
        step := Wake(c);
      } else if s.calls[s.leader[p.flight]].phase.Leading? {
        step := LeaderGoesOn(s, s.leader[p.flight]);
      } else {
        step := OwnStep(s, s.leader[p.flight]);
      }
    } else {
      step := OwnStep(s, c);
    }
  }

  /** How many more steps of its own a caller in phase `p` can take. */
  function Rank(p: Phase, notified: set<Flight>): nat {
    match p
    case Fresh => 8
    case Leading(_) => 7
    case Locked(_) => 6
    case Operating(_) => 5
    case Completing(_, _, _) => 4
    case Recorded(_, _, _) => 3
    case Notifying(_, _, _) => 2
    case Leaving(_, _, _) => 1
    case Following(f) => if f in notified then 2 else 5
    case Checking(_, late) => if late then 1 else 4
    case Sleeping(_, _) => 3
    case Returned(_, _) => 0
    case Dropped(_) => 0
  }

  /** A step costs its caller at least one unit. */
  lemma PhaseLowersRank(s: State, step: Step)
    requires Enabled(s, step) && !step.Arrive? && FollowingOk(s, step.caller)
    ensures Rank(NextPhase(s, step), s.notified) < Rank(s.calls[step.caller].phase, s.notified)
  {
  }

  function RankOf(s: State, c: Caller): nat
    requires c in s.calls
  {
    Rank(s.calls[c].phase, s.notified)
  }

  /** Caller `c` has moved to a phase with fewer steps ahead, and no flight has become unnotified. */
  ghost predicate Advanced(s: State, c: Caller, s': State) {
    && s.notified <= s'.notified && s.calls.Keys <= s'.calls.Keys
    && (forall d | d in s.calls && d != c :: s'.calls[d] == s.calls[d])
    && (c in s.calls ==> RankOf(s', c) < RankOf(s, c))
  }

  lemma StepAdvances(s: State, step: Step)
    requires Inv(s) && Enabled(s, step)
    ensures Advanced(s, step.caller, Next(s, step))
  {
    StepNotified(s, step);
    if !step.Arrive? {
      assert CallOk(s, step.caller);
      PhaseLowersRank(s, step);
      RankFalls(NextPhase(s, step), s.notified, Next(s, step).notified);
    }
  }

  lemma RankFalls(p: Phase, notified: set<Flight>, notified': set<Flight>)
    requires notified <= notified'
    ensures Rank(p, notified') <= Rank(p, notified)
  {
  }

  /** Callers in the order in which they arrived. */
  function Arrivals(steps: seq<Step>): seq<Caller> {
    if steps == [] then [] else
      var n := |steps| - 1;
      Arrivals(steps[..n]) + if steps[n].Arrive? then [steps[n].caller] else []
  }

  function Total(s: State, callers: seq<Caller>): nat
    requires forall c | c in callers :: c in s.calls
  {
    if callers == [] then 0 else Total(s, callers[..|callers| - 1]) + RankOf(s, callers[|callers| - 1])
  }

  lemma {:induction false} TotalFalls(s: State, c: Caller, s': State, callers: seq<Caller>)
    requires Advanced(s, c, s') && (forall d | d in callers :: d in s.calls)
    ensures Total(s', callers) + (if c in callers then 1 else 0) <= Total(s, callers)
    decreases |callers|
  {
    if callers != [] {
      var n := |callers| - 1;
      TotalFalls(s, c, s', callers[..n]);
      RankFalls(s.calls[callers[n]].phase, s.notified, s'.notified);
    }
  }

  /** One step more: either one more caller with eight steps ahead, or one step fewer ahead. */
  lemma StepTotal(s: State, step: Step, before: seq<Caller>)
    requires Inv(s) && Enabled(s, step) && (forall c :: c in before <==> c in s.calls)
    ensures var after := before + if step.Arrive? then [step.caller] else [];
            && (forall c :: c in after <==> c in Next(s, step).calls)
            && Total(Next(s, step), after) + 1 <= Total(s, before) + if step.Arrive? then 9 else 0
  {
    StepAdvances(s, step);
    TotalFalls(s, step.caller, Next(s, step), before);
    if step.Arrive? {
      assert (before + [step.caller])[..|before|] == before;
    } else {
      assert before + [] == before && step.caller in before;
    }
  }

  /** A call costs at most nine steps, so a run is never longer than nine times its number of calls. */
  lemma {:induction false} RunsAreBounded(states: seq<State>, steps: seq<Step>)
    requires IsRun(states, steps)
    ensures forall c :: c in Arrivals(steps) <==> c in states[|steps|].calls
    ensures |steps| + Total(states[|steps|], Arrivals(steps)) <= 9 * |Arrivals(steps)|
    decreases |steps|
  {
    if steps != [] {
      var n := |steps| - 1;
      var s, step, before := states[n], steps[n], Arrivals(steps[..n]);
      RunPrefix(states, steps, n);
      RunsAreBounded(states[..n + 1], steps[..n]);
      RunKeepsInv(states, steps, n);
      assert StepBetween(s, step, states[n + 1]);
      StepTotal(s, step, before);
    }
  }

  /** Every run can be driven, by spontaneous steps only, to a state in which every call has returned. */
  lemma {:induction false} EveryCallReturns(states: seq<State>, steps: seq<Step>)
    returns (states': seq<State>, steps': seq<Step>)
    requires IsRun(states, steps)
    ensures IsRun(states', steps') && states <= states' && steps <= steps' && Arrivals(steps') == Arrivals(steps)
    ensures forall i | |steps| <= i < |steps'| :: Spontaneous(steps'[i])
    ensures forall c | c in states'[|steps'|].calls :: Finished(states'[|steps'|].calls[c].phase)
    decreases 9 * |Arrivals(steps)| - |steps|
  {
    var s := states[|steps|];
    if c :| c in s.calls && !Finished(s.calls[c].phase) {
      RunKeepsInv(states, steps, |steps|);
      var step := NoDeadlock(s, c);
      var states1, steps1 := states + [Next(s, step)], steps + [step];
      Extends(states, steps, step);
      assert steps1[..|steps|] == steps;
      RunsAreBounded(states1, steps1);
      states', steps' := EveryCallReturns(states1, steps1);
    } else {
      states', steps' := states, steps;
    }
  }

  lemma Extends(states: seq<State>, steps: seq<Step>, step: Step)
    requires IsRun(states, steps) && Enabled(states[|steps|], step)
    ensures IsRun(states + [Next(states[|steps|], step)], steps + [step])
  {
    var states1, steps1 := states + [Next(states[|steps|], step)], steps + [step];
    forall i | 0 <= i < |steps1| ensures StepBetween(states1[i], steps1[i], states1[i + 1]) {
      if i < |steps| { assert StepBetween(states[i], steps[i], states[i + 1]); }
    }
  }
}
