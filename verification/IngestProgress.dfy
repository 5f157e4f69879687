/**
  Whether every admitted task gets to run. With all producers waiting, pool threads and the monitor
  bring every task to its end unless a task was queued after the last completion was settled: then
  nothing is left to start it.
 */
module IngestProgress {
  import opened Basics
  import opened IngestQueue

  ghost predicate AllIdle(s: State) {
    forall p | p in s.producers :: s.producers[p].Idle?
  }

  ghost predicate AllSettled(s: State) {
    forall i | 0 <= i < |s.tasks| :: Settled(s.tasks[i])
  }

  /** Tasks wait, nothing runs, and the monitor waits for a completion. */
  predicate Stranded(s: State) {
    s.monitor.Receiving? && s.active == 0 && s.deque != []
  }

  /** A step of a pool thread or of the monitor. */
  predicate Inner(step: Step) {
    step.Work? || step.Monitor?
  }

  // ---- every inner step brings the tasks nearer to their end ----

  function Weight(stage: Stage): nat {
    match stage
    case Finished => 0
    case Uncounted => 6
    case Deactivated => 7
    case Received => 8
    case Signalled => 9
    case Running => 10
    case Revived => 15
    case Popped => 19
    case _ => 20
  }

  function MonitorWeight(m: MonitorPc): nat {
    match m
    case Deciding => 5
    case TakingLock => 4
    case Draining => 3
    case Checking(_) => 2
    case Reviving(_) => 1
    case Executing(_) => 1
    case _ => 0
  }

  function TotalWeight(tasks: seq<Task>): nat {
    if tasks == [] then 0 else TotalWeight(tasks[..|tasks| - 1]) + Weight(tasks[|tasks| - 1].stage)
  }

  function Rank(s: State): nat {
    TotalWeight(s.tasks) + MonitorWeight(s.monitor)
  }

  lemma {:induction false} WeightUpdate(tasks: seq<Task>, i: nat, t: Task)
    requires i < |tasks|
    ensures TotalWeight(tasks[i := t]) + Weight(tasks[i].stage) == TotalWeight(tasks) + Weight(t.stage)
  {
    var n := |tasks| - 1;
    if i < n {
      WeightUpdate(tasks[..n], i, t);
      assert tasks[i := t][..n] == tasks[..n][i := t];
    } else {
      assert tasks[i := t][..n] == tasks[..n];
    }
  }

  /** Moving one task lowers the rank if the task and the monitor together lose weight. */
  lemma MoveFalls(s: State, s': State, t: nat, stage: Stage)
    requires t < |s.tasks| && s'.tasks == Moved(s, t, stage).tasks
    requires Weight(stage) + MonitorWeight(s'.monitor) < Weight(s.tasks[t].stage) + MonitorWeight(s.monitor)
    ensures Rank(s') < Rank(s)
  {
    WeightUpdate(s.tasks, t, s.tasks[t].(stage := stage));
  }

  lemma SettleFalls(limits: Limits, s: State)
    requires MonitorOk(s) && Takeable(s) && Enabled(s, Monitor) && Settles(s.monitor)
    requires s.monitor.Receiving? ==> s.tasks[s.channel[0]].stage.Signalled?
    ensures Rank(Settle(limits, s)) < Rank(s)
  {
    var s' := Settle(limits, s);
    match s.monitor
    case Receiving => MoveFalls(s, s', s.channel[0], Received);
    case Deactivating(t) => MoveFalls(s, s', t, Deactivated);
    case Uncounting(t) => MoveFalls(s, s', t, Uncounted);
    case Releasing(t) => MoveFalls(s, s', t, Finished);
    case Deciding =>
  }

  lemma DrainFalls(limits: Limits, s: State)
    requires MonitorOk(s) && Takeable(s) && Enabled(s, Monitor) && !Settles(s.monitor)
    requires s.monitor.Draining? && s.deque != [] ==> s.tasks[s.deque[0]].stage.Waiting?
    ensures Rank(Drain(limits, s)) < Rank(s)
  {
    var s' := Drain(limits, s);
    match s.monitor
    case TakingLock =>
    case Draining => if s.deque != [] { MoveFalls(s, s', s.deque[0], Popped); }
    case Checking(t) => if s.active >= limits.cpus { MoveFalls(s, s', t, Waiting); }
    case Reviving(t) => MoveFalls(s, s', t, Revived);
    case Executing(t) => MoveFalls(s, s', t, Running);
  }

  lemma StepFalls(limits: Limits, s: State, step: Step)
    requires Inv(s) && Enabled(s, step) && Inner(step)
    ensures Rank(Next(limits, s, step)) < Rank(s)
  {
    if step.Work? {
      MoveFalls(s, Next(limits, s, step), step.task, Signalled);
    } else {
      if s.monitor.Receiving? { assert TaskOk(s, s.channel[0]); }
      if s.monitor.Draining? { DequeIsWaiting(s); }
      if Settles(s.monitor) { SettleFalls(limits, s); } else { DrainFalls(limits, s); }
    }
  }

  // ---- when there is no inner step ----

  /** Whoever holds the queue lock is at a point where it holds it. */
  lemma HolderLocks(s: State, h: Holder)
    requires ProducersOk(s) && MonitorOk(s) && s.lock == Some(h)
    ensures match h
            case ByProducer(p) => p in s.producers && ProducerLocks(s.producers[p])
            case ByMonitor => MonitorLocks(s.monitor)
  {
    if h.ByProducer? { assert ProducerOk(s, h.producer); }
  }

  /** With every producer idle, nothing but the monitor can hold the queue lock. */
  lemma LockIsFree(s: State)
    requires Placed(s) && AllIdle(s) && !MonitorLocks(s.monitor)
    ensures s.lock.None?
  {
    if h :| s.lock == Some(h) {
      HolderLocks(s, h);
    }
  }

  /** With every producer idle and the monitor waiting, a task waits, runs, is done, or signals. */
  lemma RestingStages(s: State, t: nat)
    requires Placed(s) && AllIdle(s) && s.monitor.Receiving? && t < |s.tasks|
    ensures var stage := s.tasks[t].stage; stage.Waiting? || stage.Running? || stage.Signalled? || stage.Finished?
  {
    assert TaskOk(s, t);
  }

  /** An inner step is possible unless all is settled or tasks are stranded. */
  lemma SomeInnerStep(s: State) returns (step: Step)
    requires Inv(s) && AllIdle(s) && !AllSettled(s) && !Stranded(s)
    ensures Enabled(s, step) && Inner(step)
  {
    step := Monitor;
    if s.monitor.Receiving? && s.channel == [] {
      if t :| 0 <= t < |s.tasks| && s.tasks[t].stage.Running? {
        step := Work(t);
      } else {
        NothingRuns(s);
      }
    } else if !s.monitor.Receiving? {
      if s.monitor.TakingLock? { LockIsFree(s); }
    }
  }

  lemma NothingRuns(s: State)
    requires Inv(s) && AllIdle(s) && s.monitor.Receiving? && s.channel == []
    requires forall t | 0 <= t < |s.tasks| :: !s.tasks[t].stage.Running?
    ensures AllSettled(s) || Stranded(s)
  {
    forall t | 0 <= t < |s.tasks| ensures s.tasks[t].stage.Waiting? || s.tasks[t].stage.Finished? {
      RestingStages(s, t);
      assert TaskOk(s, t);
    }
    NoneActive(s.tasks);
    if t :| 0 <= t < |s.tasks| && s.tasks[t].stage.Waiting? { assert TaskOk(s, t) && t in s.deque; }
  }

  lemma {:induction false} NoneActive(tasks: seq<Task>)
    requires forall t | 0 <= t < |tasks| :: tasks[t].stage.Waiting? || tasks[t].stage.Finished?
    ensures Tally(tasks).active == 0
    decreases |tasks|
  {
    if tasks != [] { NoneActive(tasks[..|tasks| - 1]); }
  }

  /** Stranded tasks stay: no inner step is possible, and not everything is settled. */
  lemma StrandedStays(s: State, step: Step)
    requires Inv(s) && Stranded(s)
    ensures Inner(step) ==> !Enabled(s, step)
    ensures !AllSettled(s)
  {
    if step.Work? && step.task < |s.tasks| { TallyBounds(s.tasks, step.task); }
    if s.channel != [] {
      assert TaskOk(s, s.channel[0]);
      TallyBounds(s.tasks, s.channel[0]);
    }
    assert s.deque[0] < |s.tasks| && TaskOk(s, s.deque[0]);
  }

  /** Inner steps strand nobody, as long as there is a thread in the pool. */
  lemma InnerStepsStrandNobody(limits: Limits, s: State, step: Step)
    requires Inv(s) && Enabled(s, step) && Inner(step) && limits.cpus > 0 && !Stranded(s)
    ensures !Stranded(Next(limits, s, step))
  {
    if step.Work? { TallyBounds(s.tasks, step.task); }
  }

  // ---- completion ----

  /** `states'` and `steps'` continue the run by inner steps only. */
  ghost predicate Continues(limits: Limits, states: seq<State>, steps: seq<Step>, states': seq<State>, steps': seq<Step>) {
    && IsRun(limits, states', steps') && states <= states' && steps <= steps'
    && forall i | |steps| <= i < |steps'| :: Inner(steps'[i])
  }

  lemma RunGoesOn(limits: Limits, states: seq<State>, steps: seq<Step>, step: Step)
    requires IsRun(limits, states, steps) && Enabled(states[|steps|], step) && Inv(states[|steps|])
    ensures IsRun(limits, states + [Next(limits, states[|steps|], step)], steps + [step])
  {
    var states1, steps1 := states + [Next(limits, states[|steps|], step)], steps + [step];
    forall i | 0 <= i < |steps1| ensures StepBetween(limits, states1[i], steps1[i], states1[i + 1]) {
      if i < |steps| { assert StepBetween(limits, states[i], steps[i], states[i + 1]); }
    }
  }

  lemma {:induction false} CanComplete(limits: Limits, states: seq<State>, steps: seq<Step>)
    returns (states': seq<State>, steps': seq<Step>)
    requires IsRun(limits, states, steps) && limits.cpus > 0 && AllIdle(states[|steps|]) && !Stranded(states[|steps|])
    ensures Continues(limits, states, steps, states', steps') && AllSettled(states'[|steps'|])
    decreases Rank(states[|steps|])
  {
    var s := states[|steps|];
    states', steps' := states, steps;
    if !AllSettled(s) {
      RunKeepsInv(limits, states, steps, |steps|);
      var step := SomeInnerStep(s);
      StepFalls(limits, s, step);
      InnerStepsStrandNobody(limits, s, step);
      RunGoesOn(limits, states, steps, step);
      states', steps' := CanComplete(limits, states + [Next(limits, s, step)], steps + [step]);
    }
  }

  lemma {:induction false} StrandedForGood(
      limits: Limits, states: seq<State>, steps: seq<Step>, states': seq<State>, steps': seq<Step>)
    requires IsRun(limits, states, steps) && Stranded(states[|steps|]) && Continues(limits, states, steps, states', steps')
    ensures states' == states && !AllSettled(states'[|steps'|])
  {
    RunKeepsInv(limits, states, steps, |steps|);
    StrandedStays(states[|steps|], Monitor);
    if |steps'| > |steps| {
      assert StepBetween(limits, states'[|steps|], steps'[|steps|], states'[|steps| + 1]);
      StrandedStays(states[|steps|], steps'[|steps|]);
    }
  }

  /**
    Once the producers wait, pool threads and monitor can finish every task if and only if it is not the
    case that tasks wait while nothing runs and the monitor waits for a completion.
   */
  lemma CompletesExactly(limits: Limits, states: seq<State>, steps: seq<Step>)
    requires IsRun(limits, states, steps) && limits.cpus > 0 && AllIdle(states[|steps|])
    ensures (exists states', steps' :: Continues(limits, states, steps, states', steps') && AllSettled(states'[|steps'|]))
            <==> !Stranded(states[|steps|])
  {
    if Stranded(states[|steps|]) {
      forall states', steps' | Continues(limits, states, steps, states', steps') ensures !AllSettled(states'[|steps'|]) {
        StrandedForGood(limits, states, steps, states', steps');
      }
    } else {
      var states', steps' := CanComplete(limits, states, steps);
    }
  }

  /** The producers idle, nobody stranded, and the rank lower by at least the steps taken. */
  ghost predicate Advanced(from: State, taken: int, to: State) {
    AllIdle(to) && !Stranded(to) && taken + Rank(to) <= Rank(from)
  }

  lemma InnerStep(limits: Limits, from: State, taken: int, s: State, step: Step)
    requires Advanced(from, taken, s) && Inv(s) && Enabled(s, step) && Inner(step) && limits.cpus > 0
    ensures Advanced(from, taken + 1, Next(limits, s, step))
  {
    StepFalls(limits, s, step);
    InnerStepsStrandNobody(limits, s, step);
    assert Next(limits, s, step).producers == s.producers;
  }

  lemma {:induction false} InnerRun(
      limits: Limits, states: seq<State>, steps: seq<Step>, states': seq<State>, steps': seq<Step>, n: nat)
    requires IsRun(limits, states, steps) && limits.cpus > 0 && AllIdle(states[|steps|]) && !Stranded(states[|steps|])
    requires Continues(limits, states, steps, states', steps') && |steps| <= n < |states'|
    ensures Advanced(states[|steps|], n - |steps|, states'[n])
  {
    if n > |steps| {
      var m := n - 1;
      InnerRun(limits, states, steps, states', steps', m);
      RunKeepsInv(limits, states', steps', m);
      assert StepBetween(limits, states'[m], steps'[m], states'[m + 1]);
      InnerStep(limits, states[|steps|], m - |steps|, states'[m], steps'[m]);
    }
  }

  /**
    And then every schedule does: from such a state no run by pool threads and monitor goes on for ever,
    and where it can go no further every task is settled.
   */
  lemma EveryScheduleCompletes(
      limits: Limits, states: seq<State>, steps: seq<Step>, states': seq<State>, steps': seq<Step>)
    requires IsRun(limits, states, steps) && limits.cpus > 0 && AllIdle(states[|steps|]) && !Stranded(states[|steps|])
    requires Continues(limits, states, steps, states', steps')
    ensures |steps'| <= |steps| + Rank(states[|steps|])
    ensures AllSettled(states'[|steps'|]) || exists step :: Inner(step) && Enabled(states'[|steps'|], step)
  {
    InnerRun(limits, states, steps, states', steps', |steps'|);
    if !AllSettled(states'[|steps'|]) {
      RunKeepsInv(limits, states', steps', |steps'|);
      var step := SomeInnerStep(states'[|steps'|]);
    }
  }

  // ---- admission ----

  /**
    A task is let in whatever its size once a place is free and no bytes are outstanding: from the gate
    two looks take the producer past it, for every byte budget.
   */
  lemma OversizeIsLetIn(limits: Limits, states: seq<State>, steps: seq<Step>, p: Producer, t: nat, b: nat, c: nat)
    requires IsRun(limits, states, steps) && p in states[|steps|].producers && states[|steps|].producers[p] == Gate(t)
    requires states[|steps|].queue < limits.maxQueue && states[|steps|].outstanding == 0
    ensures Enabled(states[|steps|], Produce(p, b)) && Takeable(states[|steps|])
    ensures var s1 := Next(limits, states[|steps|], Produce(p, b));
            && Enabled(s1, Produce(p, c)) && Takeable(s1)
            && Next(limits, s1, Produce(p, c)).producers[p].Charging? && Next(limits, s1, Produce(p, c)).producers[p].task == t
  {
    RunKeepsInv(limits, states, steps, |steps|);
    assert ProducerOk(states[|steps|], p);
  }

  /** Nobody is let in without a free place, or with more bytes outstanding than the budget and the task itself allow. */
  lemma LetInExactly(limits: Limits, s: State, p: Producer, budget: nat)
    requires Inv(s) && Enabled(s, Produce(p, budget)) && (s.producers[p].Gate? || s.producers[p].GateBytes?)
    ensures var t, pc := s.producers[p].task, Next(limits, s, Produce(p, budget)).producers[p];
            if s.producers[p].Gate? then (pc == GateBytes(t) <==> s.queue < limits.maxQueue) && (pc != GateBytes(t) ==> pc == Gate(t))
            else (pc.Charging? <==> s.outstanding + s.tasks[t].bytes <= budget || s.outstanding == 0) && (!pc.Charging? ==> pc == Gate(t))
  {
    TallyNat(s.tasks);
  }
}
