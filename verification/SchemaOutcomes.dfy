/**
  What a call of the coordinator returns, and why: where every error comes from, when a call is
  answered without an operation, and which versions count as published.
 */
module SchemaOutcomes {
  import opened Basics
  import opened SchemaFlights
  import opened SchemaRuns

  // ---- the step that settles a flight ----

  /**
    The step gives caller `c`, a leader, the outcome `o`: its operation returned it, it was cancelled
    with that error, or it found its version published when it had the namespace lock.
   */
  ghost predicate Settles(s: State, step: Step, c: Caller, o: Outcome) {
    && step.caller == c && c in s.calls
    && match step
       case Operated(_, outcome) => o == outcome
       case Cancel(_, reason) => Leads(s.calls[c].phase) && o == Err(reason)
       case Recheck(_) => Published(s, s.calls[c].key) && o == Ok(())
       case _ => false
  }

  ghost predicate SettlesAt(states: seq<State>, steps: seq<Step>, i: int, c: Caller, o: Outcome) {
    0 <= i < |steps| && i < |states| && Settles(states[i], steps[i], c, o)
  }

  ghost predicate SettledBy(states: seq<State>, steps: seq<Step>, n: nat, c: Caller, o: Outcome) {
    exists i :: i < n && SettlesAt(states, steps, i, c, o)
  }

  ghost predicate Unsettled(states: seq<State>, steps: seq<Step>, n: nat, c: Caller) {
    forall i, o :: SettlesAt(states, steps, i, c, o) ==> n <= i
  }

  /** The caller entered `coordinate` when its version was published. */
  ghost predicate EnteredPublished(states: seq<State>, steps: seq<Step>, i: int, c: Caller) {
    && 0 <= i < |steps| && i < |states| && steps[i].Begin? && steps[i].caller == c
    && c in states[i].calls && Published(states[i], states[i].calls[c].key)
  }

  ghost predicate EnteredBy(states: seq<State>, steps: seq<Step>, n: nat, c: Caller) {
    exists i :: i < n && EnteredPublished(states, steps, i, c)
  }

  /** A leader on its way out with an outcome. */
  function OutcomeOf(p: Phase): Option<Outcome> {
    if p.Completing? || p.Recorded? || p.Notifying? || p.Leaving? then Some(p.outcome) else None
  }

  predicate Undecided(p: Phase) {
    p.Fresh? || Follows(p) || p.Leading? || p.Locked? || p.Operating?
  }

  // ---- an invariant over runs ----

  ghost predicate CallEarned(states: seq<State>, steps: seq<Step>, n: nat, c: Caller)
    requires n < |states|
  {
    if c !in states[n].calls then Unsettled(states, steps, n, c)
    else
      var p := states[n].calls[c].phase;
      && (Undecided(p) ==> Unsettled(states, steps, n, c))
      && (OutcomeOf(p).Some? ==> SettledBy(states, steps, n, c, OutcomeOf(p).value))
      && (p.Returned? && p.via.None? ==> p.outcome == Ok(()) && EnteredBy(states, steps, n, c))
  }

  ghost predicate ResultEarned(states: seq<State>, steps: seq<Step>, n: nat, f: Flight)
    requires n < |states|
  {
    f in states[n].results ==>
      f in states[n].leader && SettledBy(states, steps, n, states[n].leader[f], states[n].results[f])
  }

  ghost predicate Earned(states: seq<State>, steps: seq<Step>, n: nat)
    requires n < |states|
  {
    (forall c :: CallEarned(states, steps, n, c)) && forall f :: ResultEarned(states, steps, n, f)
  }

  lemma LaterSettled(states: seq<State>, steps: seq<Step>, n: nat, c: Caller)
    ensures forall o | SettledBy(states, steps, n, c, o) :: SettledBy(states, steps, n + 1, c, o)
    ensures EnteredBy(states, steps, n, c) ==> EnteredBy(states, steps, n + 1, c)
  {
    forall o | SettledBy(states, steps, n, c, o) ensures SettledBy(states, steps, n + 1, c, o) {
      var i :| i < n && SettlesAt(states, steps, i, c, o);
    }
    if EnteredBy(states, steps, n, c) {
      var i :| i < n && EnteredPublished(states, steps, i, c);
    }
  }

  /** A step that is not the caller's, or settles nothing, leaves the caller unsettled. */
  lemma StillUnsettled(states: seq<State>, steps: seq<Step>, n: nat, c: Caller)
    requires n < |steps| && n < |states| && Unsettled(states, steps, n, c)
    requires forall o :: !Settles(states[n], steps[n], c, o)
    ensures Unsettled(states, steps, n + 1, c)
  {
    forall i, o | SettlesAt(states, steps, i, c, o) ensures n + 1 <= i {
      assert i != n;
    }
  }

  /** What a step makes of its caller's phase, as far as outcomes go. */
  lemma OwnOutcome(s: State, step: Step)
    requires Enabled(s, step)
    ensures var p', c := NextPhase(s, step), step.caller;
            && (Undecided(p') ==> forall o :: !Settles(s, step, c, o))
            && (Undecided(p') && !step.Arrive? ==> Undecided(s.calls[c].phase))
            && (OutcomeOf(p').Some? ==>
                  Settles(s, step, c, OutcomeOf(p').value) || (!step.Arrive? && OutcomeOf(s.calls[c].phase) == OutcomeOf(p')))
            && (p'.Returned? && p'.via.None? ==>
                  p'.outcome == Ok(()) && step.Begin? && c in s.calls && Published(s, s.calls[c].key))
  {
  }

  lemma OwnEarned(states: seq<State>, steps: seq<Step>, n: nat)
    requires IsRun(states, steps) && n < |steps| && CallEarned(states, steps, n, steps[n].caller)
    ensures CallEarned(states, steps, n + 1, steps[n].caller)
  {
    var s, step, c := states[n], steps[n], steps[n].caller;
    assert StepBetween(s, step, states[n + 1]);
    var p' := NextPhase(s, step);
    assert states[n + 1].calls[c].phase == p';
    OwnOutcome(s, step);
    LaterSettled(states, steps, n, c);
    if Undecided(p') { StillUnsettled(states, steps, n, c); }
    if OutcomeOf(p').Some? && Settles(s, step, c, OutcomeOf(p').value) {
      assert SettlesAt(states, steps, n, c, OutcomeOf(p').value);
    }
    if p'.Returned? && p'.via.None? { assert EnteredPublished(states, steps, n, c); }
  }

  lemma OtherEarned(states: seq<State>, steps: seq<Step>, n: nat, c: Caller)
    requires IsRun(states, steps) && n < |steps| && c != steps[n].caller && CallEarned(states, steps, n, c)
    ensures CallEarned(states, steps, n + 1, c)
  {
    assert StepBetween(states[n], steps[n], states[n + 1]);
    assert c in states[n + 1].calls <==> c in states[n].calls;
    LaterSettled(states, steps, n, c);
    if Unsettled(states, steps, n, c) { StillUnsettled(states, steps, n, c); }
  }

  lemma ResultsEarned(states: seq<State>, steps: seq<Step>, n: nat, f: Flight)
    requires IsRun(states, steps) && n < |steps| && Earned(states, steps, n) && Inv(states[n])
    ensures ResultEarned(states, steps, n + 1, f)
  {
    var s, step := states[n], steps[n];
    assert StepBetween(s, step, states[n + 1]);
    StepLeader(s, step);
    if f in states[n + 1].results {
      if step.SetResult? && s.calls[step.caller].phase.flight == f {
        assert CallEarned(states, steps, n, step.caller) && CallOk(s, step.caller);
        LaterSettled(states, steps, n, step.caller);
      } else {
        assert ResultEarned(states, steps, n, f) && f in s.leader;
        LaterSettled(states, steps, n, s.leader[f]);
      }
    }
  }

  lemma {:induction false} RunEarned(states: seq<State>, steps: seq<Step>, n: nat)
    requires IsRun(states, steps) && n < |states|
    ensures Earned(states, steps, n)
  {
    if n > 0 {
      RunEarned(states, steps, n - 1);
      RunKeepsInv(states, steps, n - 1);
      forall c ensures CallEarned(states, steps, n, c) {
        assert CallEarned(states, steps, n - 1, c);
        if c == steps[n - 1].caller { OwnEarned(states, steps, n - 1); } else { OtherEarned(states, steps, n - 1, c); }
      }
      forall f ensures ResultEarned(states, steps, n, f) { ResultsEarned(states, steps, n - 1, f); }
    }
  }

  // ---- what a return means ----

  /**
    In every run a call returns Ok at once because it entered when its version was published, or it
    returns what settled its flight: the operation's result, the cancellation of the leader, or Ok
    because the leader found the version published.
   */
  lemma ReturnsAreEarned(states: seq<State>, steps: seq<Step>, n: nat, c: Caller)
    requires IsRun(states, steps) && n < |states| && c in states[n].calls && states[n].calls[c].phase.Returned?
    ensures var Returned(o, via) := states[n].calls[c].phase;
            if via.None? then o == Ok(()) && EnteredBy(states, steps, n, c)
            else via.value in states[n].leader && SettledBy(states, steps, n, states[n].leader[via.value], o)
  {
    RunEarned(states, steps, n);
    RunKeepsInv(states, steps, n);
    assert CallEarned(states, steps, n, c) && CallOk(states[n], c);
    var via := states[n].calls[c].phase.via;
    if via.Some? { assert ResultEarned(states, steps, n, via.value); }
  }

  /** A leader is settled by one step only. */
  lemma SettledOnce(states: seq<State>, steps: seq<Step>, i: nat, j: nat, c: Caller, o: Outcome, u: Outcome)
    requires IsRun(states, steps) && SettlesAt(states, steps, i, c, o) && SettlesAt(states, steps, j, c, u)
    ensures i == j && o == u
  {
    NotSettledBefore(states, steps, i, c, o);
    NotSettledBefore(states, steps, j, c, u);
  }

  lemma NotSettledBefore(states: seq<State>, steps: seq<Step>, j: nat, c: Caller, o: Outcome)
    requires IsRun(states, steps) && SettlesAt(states, steps, j, c, o)
    ensures Unsettled(states, steps, j, c)
  {
    RunEarned(states, steps, j);
    assert StepBetween(states[j], steps[j], states[j + 1]) && CallEarned(states, steps, j, c);
  }

  /** Every error a call returns is its leader's: the operation failed with it, or the leader was cancelled with it. */
  lemma ErrorsComeFromTheLeader(states: seq<State>, steps: seq<Step>, n: nat, c: Caller, e: string)
    requires IsRun(states, steps) && n < |states| && c in states[n].calls
    requires states[n].calls[c].phase.Returned? && states[n].calls[c].phase.outcome == Err(e)
    ensures var via := states[n].calls[c].phase.via;
            && via.Some? && via.value in states[n].leader
            && var l := states[n].leader[via.value];
               exists i | 0 <= i < n :: steps[i] == Operated(l, Err(e)) || steps[i] == Cancel(l, e)
  {
    ReturnsAreEarned(states, steps, n, c);
    var l := states[n].leader[states[n].calls[c].phase.via.value];
    var i :| i < n && SettlesAt(states, steps, i, l, Err(e));
    assert steps[i] == Operated(l, Err(e)) || steps[i] == Cancel(l, e);
  }

  lemma FinishedStays(s: State, step: Step, c: Caller)
    requires Enabled(s, step) && c in s.calls && Finished(s.calls[c].phase)
    ensures c in Next(s, step).calls && Next(s, step).calls[c] == s.calls[c]
  {
    if step.caller == c { LeaderPhase(s, step); }
  }

  /** A call that enters when its version is published has returned Ok in the next state, for good. */
  lemma {:induction false} EnteringPublishedIsOk(states: seq<State>, steps: seq<Step>, i: nat, n: nat, c: Caller)
    requires IsRun(states, steps) && EnteredPublished(states, steps, i, c) && i < n < |states|
    ensures c in states[n].calls && states[n].calls[c].phase == Returned(Ok(()), None)
  {
    assert StepBetween(states[n - 1], steps[n - 1], states[n - 1 + 1]);
    if i < n - 1 {
      EnteringPublishedIsOk(states, steps, i, n - 1, c);
      FinishedStays(states[n - 1], steps[n - 1], c);
    }
  }

  lemma LeaderStaysNext(s: State, step: Step, f: Flight)
    requires Enabled(s, step) && FlightsKnown(s) && f in s.leader
    ensures f in Next(s, step).leader && Next(s, step).leader[f] == s.leader[f]
  {
    StepLeader(s, step);
  }

  lemma {:induction false} LeaderRemains(states: seq<State>, steps: seq<Step>, i: nat, n: nat, f: Flight)
    requires IsRun(states, steps) && i <= n < |states| && f in states[i].leader
    ensures f in states[n].leader && states[n].leader[f] == states[i].leader[f]
  {
    if i < n {
      LeaderRemains(states, steps, i, n - 1, f);
      assert FlightsKnown(states[n - 1]) by { RunKeepsInv(states, steps, n - 1); }
      assert StepBetween(states[n - 1], steps[n - 1], states[n - 1 + 1]);
      LeaderStaysNext(states[n - 1], steps[n - 1], f);
    }
  }

  /**
    A leader that finds its version published under the namespace lock never runs its operation, and
    when it finishes it has returned Ok.
   */
  lemma RecheckSparesTheOperation(states: seq<State>, steps: seq<Step>, i: nat, n: nat, c: Caller)
    requires IsRun(states, steps) && i < |steps| && i < n < |states| && steps[i] == Recheck(c)
    requires c in states[i].calls && Published(states[i], states[i].calls[c].key)
    ensures forall j, o | 0 <= j < |steps| :: steps[j] != Operated(c, o)
    ensures c in states[n].calls
    ensures Finished(states[n].calls[c].phase) ==> states[n].calls[c].phase.Returned? && states[n].calls[c].phase.outcome == Ok(())
  {
    assert SettlesAt(states, steps, i, c, Ok(()));
    forall j, o | 0 <= j < |steps| ensures steps[j] != Operated(c, o) {
      if steps[j] == Operated(c, o) {
        assert StepBetween(states[j], steps[j], states[j + 1]);
        SettledOnce(states, steps, i, j, c, Ok(()), o);
      }
    }
    assert StepBetween(states[i], steps[i], states[i + 1]);
    RunKeepsInv(states, steps, i);
    assert CallOk(states[i], c);
    LeaderRemains(states, steps, i, n, states[i].calls[c].phase.flight);
    LeaderReturnsOk(states, steps, i, n, c, states[i].calls[c].phase.flight);
  }

  lemma LeaderReturnsOk(states: seq<State>, steps: seq<Step>, i: nat, n: nat, c: Caller, f: Flight)
    requires IsRun(states, steps) && n < |states| && SettlesAt(states, steps, i, c, Ok(()))
    requires f in states[n].leader && states[n].leader[f] == c
    ensures c in states[n].calls
    ensures Finished(states[n].calls[c].phase) ==> states[n].calls[c].phase.Returned? && states[n].calls[c].phase.outcome == Ok(())
  {
    RunKeepsInv(states, steps, n);
    RunFaithful(states, steps, n);
    RunEarned(states, steps, n);
    assert LeaderStays(states[n], f) && CallOk(states[n], c) && ResultEarned(states, steps, n, f);
    if Finished(states[n].calls[c].phase) {
      var o := states[n].results[f];
      var j :| j < n && SettlesAt(states, steps, j, c, o);
      SettledOnce(states, steps, i, j, c, Ok(()), o);
    }
  }

  /** A cancelled call is on its way out without an answer, or gone. */
  ghost predicate GivenUp(p: Phase) {
    p.Dropped? || ((p.Completing? || p.Recorded? || p.Notifying? || p.Leaving?) && !p.held && p.outcome.Err?)
  }

  lemma StaysGivenUp(s: State, step: Step, c: Caller)
    requires Enabled(s, step) && c in s.calls && (GivenUp(s.calls[c].phase) || (step.Cancel? && step.caller == c))
    ensures c in Next(s, step).calls && GivenUp(Next(s, step).calls[c].phase)
  {
  }

  /** A call that is cancelled never returns; if it leads a flight, that flight ends with an error for its followers. */
  lemma {:induction false} CancelledNeverReturns(states: seq<State>, steps: seq<Step>, i: nat, n: nat, c: Caller, reason: string)
    requires IsRun(states, steps) && i < |steps| && steps[i] == Cancel(c, reason) && i < n < |states|
    ensures c in states[n].calls && GivenUp(states[n].calls[c].phase) && !states[n].calls[c].phase.Returned?
  {
    assert StepBetween(states[n - 1], steps[n - 1], states[n - 1 + 1]);
    if i < n - 1 { CancelledNeverReturns(states, steps, i, n - 1, c, reason); }
    StaysGivenUp(states[n - 1], steps[n - 1], c);
  }

  // ---- which versions are published ----

  /** Caller `c` published `key`'s version or a later one: its operation returned Ok and it recorded that. */
  ghost predicate PublishedBy(states: seq<State>, steps: seq<Step>, n: nat, key: Key, i: int, j: int, c: Caller) {
    && 0 <= i < j < n <= |steps| < |states| && steps[i] == Operated(c, Ok(())) && steps[j] == Complete(c)
    && c in states[j].calls && states[j].calls[c].key.space == key.space && key.version <= states[j].calls[c].key.version
  }

  lemma {:induction false} KeyStays(states: seq<State>, steps: seq<Step>, i: nat, n: nat, c: Caller)
    requires IsRun(states, steps) && i <= n < |states| && c in states[i].calls
    ensures c in states[n].calls && states[n].calls[c].key == states[i].calls[c].key
  {
    if i < n {
      KeyStays(states, steps, i, n - 1, c);
      assert StepBetween(states[n - 1], steps[n - 1], states[n - 1 + 1]);
    }
  }

  /** A version newly published is one that the completing leader asked for, or an earlier one. */
  lemma NewlyPublished(s: State, step: Step, key: Key)
    requires Enabled(s, step) && Published(Next(s, step), key) && !Published(s, key)
    ensures step.Complete? && s.calls[step.caller].phase.outcome == Ok(())
    ensures s.calls[step.caller].key.space == key.space && key.version <= s.calls[step.caller].key.version
  {
    if step.Complete? {
      var o := s.calls[step.caller].phase.outcome;
      assert o.Ok? ==> o.value == ();
    }
  }

  lemma {:induction false} PublishedHasACause(states: seq<State>, steps: seq<Step>, n: nat, key: Key)
    requires IsRun(states, steps) && n < |states| && Published(states[n], key)
    ensures exists i, j, c :: PublishedBy(states, steps, n, key, i, j, c)
    decreases n, 0
  {
    if n > 0 {
      var m := n - 1;
      assert StepBetween(states[m], steps[m], states[m + 1]);
      if Published(states[m], key) {
        PublishedHasACause(states, steps, m, key);
        var i, j, c :| PublishedBy(states, steps, m, key, i, j, c);
        assert PublishedBy(states, steps, n, key, i, j, c);
      } else {
        NewlyPublished(states[m], steps[m], key);
        CompletionHasACause(states, steps, m, n, key);
      }
    }
  }

  lemma {:induction false} CompletionHasACause(states: seq<State>, steps: seq<Step>, m: nat, n: nat, key: Key)
    requires IsRun(states, steps) && m < |steps| && n == m + 1 && steps[m].Complete? && steps[m].caller in states[m].calls
    requires states[m].calls[steps[m].caller].phase.Completing? && states[m].calls[steps[m].caller].phase.outcome == Ok(())
    requires states[m].calls[steps[m].caller].key.space == key.space && key.version <= states[m].calls[steps[m].caller].key.version
    ensures exists i, j, c :: PublishedBy(states, steps, n, key, i, j, c)
    decreases m, 1
  {
    var c := steps[m].caller;
    RunEarned(states, steps, m);
    assert CallEarned(states, steps, m, c);
    var i :| i < m && SettlesAt(states, steps, i, c, Ok(()));
    if steps[i].Operated? {
      assert PublishedBy(states, steps, n, key, i, m, c);
    } else {
      KeyStays(states, steps, i, m, c);
      PublishedHasACause(states, steps, i, key);
      var i', j', c' :| PublishedBy(states, steps, i, key, i', j', c');
      assert PublishedBy(states, steps, n, key, i', j', c');
    }
  }

  lemma StaysPublishedNext(s: State, step: Step, key: Key)
    requires Enabled(s, step) && Published(s, key)
    ensures Published(Next(s, step), key)
  {
  }

  lemma {:induction false} PublishedRemains(states: seq<State>, steps: seq<Step>, i: nat, n: nat, key: Key)
    requires IsRun(states, steps) && i <= n < |states| && Published(states[i], key)
    ensures Published(states[n], key)
  {
    if i < n {
      PublishedRemains(states, steps, i, n - 1, key);
      assert StepBetween(states[n - 1], steps[n - 1], states[n - 1 + 1]);
      StaysPublishedNext(states[n - 1], steps[n - 1], key);
    }
  }

  lemma CauseShows(states: seq<State>, steps: seq<Step>, n: nat, key: Key, i: nat, j: nat, c: Caller)
    requires IsRun(states, steps) && n < |states| && PublishedBy(states, steps, n, key, i, j, c)
    ensures Published(states[n], key)
  {
    assert StepBetween(states[i], steps[i], states[i + 1]) && StepBetween(states[j], steps[j], states[j + 1]);
    RunEarned(states, steps, j);
    assert CallEarned(states, steps, j, c) && SettlesAt(states, steps, i, c, Ok(()));
    var o := states[j].calls[c].phase.outcome;
    var k :| k < j && SettlesAt(states, steps, k, c, o);
    SettledOnce(states, steps, i, k, c, Ok(()), o);
    assert Published(states[j + 1], key);
    PublishedRemains(states, steps, j + 1, n, key);
  }

  /**
    In every reachable state a version counts as published if and only if an operation for it or a
    later version of the same scope and namespace returned Ok and its leader recorded that.
   */
  lemma PublishedExactly(states: seq<State>, steps: seq<Step>, n: nat, key: Key)
    requires IsRun(states, steps) && n < |states|
    ensures Published(states[n], key) <==> exists i, j, c :: PublishedBy(states, steps, n, key, i, j, c)
  {
    if Published(states[n], key) { PublishedHasACause(states, steps, n, key); }
    if i, j, c :| PublishedBy(states, steps, n, key, i, j, c) { CauseShows(states, steps, n, key, i, j, c); }
  }

  // ---- retries and other namespaces ----

  /**
    A failed version can be tried again: with the version unpublished and no leader at work on it, the
    next caller founds a new flight and leads it.
   */
  lemma NextCallerRetries(states: seq<State>, steps: seq<Step>, n: nat, c: Caller, f: Flight)
    requires IsRun(states, steps) && n < |states| && Enabled(states[n], Begin(c, f))
    requires !Published(states[n], states[n].calls[c].key)
    requires forall d | d in states[n].calls && states[n].calls[d].key == states[n].calls[c].key :: !InFlight(states[n].calls[d].phase)
    ensures var s', key := Next(states[n], Begin(c, f)), states[n].calls[c].key;
            && s'.calls[c] == Call(key, Leading(f)) && s'.leader[f] == c && s'.flights[key] == f
  {
    var key := states[n].calls[c].key;
    if key in states[n].flights { FlightsAreLed(states, steps, n, key); }
  }

  /** A caller that enters while a leader is at work on its version follows that leader's flight. */
  lemma ConcurrentCallersJoin(states: seq<State>, steps: seq<Step>, n: nat, c: Caller, d: Caller, f: Flight)
    requires IsRun(states, steps) && n < |states| && Enabled(states[n], Begin(c, f))
    requires !Published(states[n], states[n].calls[c].key)
    requires d in states[n].calls && states[n].calls[d].key == states[n].calls[c].key && InFlight(states[n].calls[d].phase)
    ensures Next(states[n], Begin(c, f)).calls[c] == Call(states[n].calls[c].key, Following(states[n].calls[d].phase.flight))
  {
    RunKeepsInv(states, steps, n);
    assert CallOk(states[n], d);
  }

  /** The lock of a namespace is held exactly while some caller of the namespace is at a point where it holds it. */
  lemma LockedExactly(s: State, space: Space)
    requires Inv(s)
    ensures space in s.locks <==> exists d | d in s.calls :: s.calls[d].key.space == space && Holds(s.calls[d].phase)
  {
    if space in s.locks { assert LockOk(s, space); }
    if d :| d in s.calls && s.calls[d].key.space == space && Holds(s.calls[d].phase) { assert CallOk(s, d); }
  }

  /** A leader waits for the namespace lock only while a caller of the same scope and namespace has it. */
  lemma NamespacesAreIndependent(states: seq<State>, steps: seq<Step>, n: nat, c: Caller)
    requires IsRun(states, steps) && n < |states| && c in states[n].calls && states[n].calls[c].phase.Leading?
    ensures !Enabled(states[n], Acquire(c)) <==>
            exists d | d in states[n].calls ::
              states[n].calls[d].key.space == states[n].calls[c].key.space && Holds(states[n].calls[d].phase)
  {
    RunKeepsInv(states, steps, n);
    LockedExactly(states[n], states[n].calls[c].key.space);
  }
}
