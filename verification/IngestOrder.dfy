/** With one producer, waiting tasks are started in the order in which they were admitted. */
module IngestOrder {
  import opened Basics
  import opened IngestQueue
  import opened IngestCapacity

  predicate MonitorDrains(m: MonitorPc) {
    m.Checking? || m.Reviving? || m.Executing?
  }

  ghost predicate Ascending(xs: seq<nat>) {
    forall i, j | 0 <= i < j < |xs| :: xs[i] < xs[j]
  }

  ghost predicate Above(xs: seq<nat>, t: nat) {
    forall i | 0 <= i < |xs| :: t < xs[i]
  }

  ghost predicate Below(xs: seq<nat>, t: nat) {
    forall i | 0 <= i < |xs| :: xs[i] < t
  }

  /** The producer is admitting task `t` and has not put it into the deque. */
  predicate Admitting(s: State, p: Producer) {
    p in s.producers && TaskOf(s.producers[p]).Some? && !s.producers[p].Counting?
  }

  /** The deque is in order of admission: behind the task the monitor holds, ahead of the one being admitted. */
  ghost predicate InOrder(s: State, p: Producer) {
    && s.producers.Keys <= {p} && Ascending(s.deque)
    && (MonitorDrains(s.monitor) ==> Above(s.deque, s.monitor.task))
    && (Admitting(s, p) ==>
          Below(s.deque, s.producers[p].task) && (MonitorDrains(s.monitor) ==> s.monitor.task < s.producers[p].task))
  }

  lemma PushBack(xs: seq<nat>, x: nat)
    requires Ascending(xs) && Below(xs, x)
    ensures Ascending(xs + [x])
    ensures forall t: nat | Above(xs, t) && t < x :: Above(xs + [x], t)
  {
  }

  lemma PopFront(xs: seq<nat>)
    requires Ascending(xs) && xs != []
    ensures Ascending(xs[1..]) && Above(xs[1..], xs[0])
    ensures forall t: nat | Below(xs, t) :: Below(xs[1..], t) && xs[0] < t
    ensures forall t: nat | Above(xs, t) :: Above(xs[1..], t) && t < xs[0]
  {
  }

  lemma PushFront(xs: seq<nat>, x: nat)
    requires Ascending(xs) && Above(xs, x)
    ensures Ascending([x] + xs)
    ensures forall t: nat | Below(xs, t) && x < t :: Below([x] + xs, t)
    ensures forall t: nat | Above(xs, t) && t < x :: Above([x] + xs, t)
  {
  }

  lemma ProducerInOrder(limits: Limits, s: State, p: Producer, budget: nat)
    requires InOrder(s, p) && Takeable(s) && Enabled(s, Produce(p, budget))
    ensures InOrder(Next(limits, s, Produce(p, budget)), p)
  {
    if s.producers[p].Pushing? { PushBack(s.deque, s.producers[p].task); }
  }

  lemma SettleInOrder(limits: Limits, s: State, p: Producer)
    requires InOrder(s, p) && Takeable(s) && Enabled(s, Monitor) && Settles(s.monitor)
    ensures InOrder(Settle(limits, s), p)
  {
    var s' := Settle(limits, s);
    assert s'.deque == s.deque && s'.producers == s.producers && !MonitorDrains(s'.monitor);
  }

  lemma DrainInOrder(limits: Limits, s: State, p: Producer)
    requires InOrder(s, p) && Takeable(s) && Enabled(s, Monitor) && !Settles(s.monitor)
    ensures InOrder(Drain(limits, s), p)
  {
    if s.monitor.Draining? && s.deque != [] {
      PopFront(s.deque);
    } else if s.monitor.Checking? {
      PushFront(s.deque, s.monitor.task);
    }
  }

  lemma StepInOrder(limits: Limits, s: State, step: Step, p: Producer)
    requires Takeable(s) && MonitorOk(s) && InOrder(s, p) && Enabled(s, step) && (step.Begin? ==> step.producer == p)
    ensures InOrder(Next(limits, s, step), p)
  {
    match step
    case Begin(_, _) =>
    case Produce(_, budget) => ProducerInOrder(limits, s, p, budget);
    case Work(_) =>
    case Monitor => if Settles(s.monitor) { SettleInOrder(limits, s, p); } else { DrainInOrder(limits, s, p); }
  }

  lemma {:induction false} RunInOrder(limits: Limits, states: seq<State>, steps: seq<Step>, n: nat, p: Producer)
    requires IsRun(limits, states, steps) && n < |states| && MadeBy(steps, {p})
    ensures InOrder(states[n], p)
  {
    if n > 0 {
      RunInOrder(limits, states, steps, n - 1, p);
      RunKeepsInv(limits, states, steps, n - 1);
      assert StepBetween(limits, states[n - 1], steps[n - 1], states[n - 1 + 1]);
      StepInOrder(limits, states[n - 1], steps[n - 1], p);
    }
  }

  // ---- the order of starts along a run ----

  /** Everything that the monitor has, waits for it, or is being admitted comes after task `t`. */
  ghost predicate Past(s: State, p: Producer, t: nat) {
    && t < |s.tasks| && Above(s.deque, t)
    && (MonitorDrains(s.monitor) ==> t < s.monitor.task)
    && (Admitting(s, p) ==> t < s.producers[p].task)
  }

  lemma StepPast(limits: Limits, s: State, step: Step, p: Producer, t: nat)
    requires Past(s, p, t) && Takeable(s) && Enabled(s, step) && s.producers.Keys <= {p} && (step.Begin? ==> step.producer == p)
    ensures Past(Next(limits, s, step), p, t)
  {
    match step
    case Begin(_, _) =>
    case Produce(_, _) =>
    case Work(_) =>
    case Monitor => if Settles(s.monitor) { SettlePast(limits, s, p, t); } else { DrainPast(limits, s, p, t); }
  }

  lemma SettlePast(limits: Limits, s: State, p: Producer, t: nat)
    requires Past(s, p, t) && Takeable(s) && Enabled(s, Monitor) && Settles(s.monitor)
    ensures Past(Settle(limits, s), p, t)
  {
  }

  lemma DrainPast(limits: Limits, s: State, p: Producer, t: nat)
    requires Past(s, p, t) && Takeable(s) && Enabled(s, Monitor) && !Settles(s.monitor)
    ensures Past(Drain(limits, s), p, t)
  {
  }

  /** Once the monitor has handed out `t`, everything else is past it. */
  lemma StartedIsPast(limits: Limits, s: State, p: Producer, t: nat)
    requires InOrder(s, p) && Takeable(s) && MonitorOk(s) && s.monitor == Executing(t) && Enabled(s, Monitor)
    ensures Past(Next(limits, s, Monitor), p, t)
  {
  }

  ghost predicate PastKeptAt(states: seq<State>, k: nat, p: Producer, t: nat)
    requires k + 1 < |states|
  {
    Past(states[k], p, t) ==> Past(states[k + 1], p, t)
  }

  lemma RunStepPast(limits: Limits, states: seq<State>, steps: seq<Step>, k: nat, p: Producer, t: nat)
    requires IsRun(limits, states, steps) && k < |steps| && MadeBy(steps, {p})
    ensures PastKeptAt(states, k, p, t)
  {
    RunInOrder(limits, states, steps, k, p);
    assert StepBetween(limits, states[k], steps[k], states[k + 1]);
    if Past(states[k], p, t) { StepPast(limits, states[k], steps[k], p, t); }
  }

  lemma {:induction false} StaysPast(states: seq<State>, i: nat, j: nat, p: Producer, t: nat)
    requires i <= j < |states| && Past(states[i], p, t) && forall k | i <= k < j :: PastKeptAt(states, k, p, t)
    ensures Past(states[j], p, t)
    decreases j
  {
    if i < j {
      StaysPast(states, i, j - 1, p, t);
      assert PastKeptAt(states, j - 1, p, t);
    }
  }

  /** In every run with one producer, the tasks the monitor starts are started in order of admission. */
  lemma StartsInOrder(limits: Limits, states: seq<State>, steps: seq<Step>, i: nat, j: nat, p: Producer, t: nat, u: nat)
    requires IsRun(limits, states, steps) && i < j < |steps| && MadeBy(steps, {p})
    requires steps[i].Monitor? && states[i].monitor == Executing(t)
    requires steps[j].Monitor? && states[j].monitor == Executing(u)
    ensures t < u
  {
    RunInOrder(limits, states, steps, i, p);
    RunKeepsInv(limits, states, steps, i);
    assert StepBetween(limits, states[i], steps[i], states[i + 1]);
    StartedIsPast(limits, states[i], p, t);
    forall k | i + 1 <= k < j ensures PastKeptAt(states, k, p, t) { RunStepPast(limits, states, steps, k, p, t); }
    StaysPast(states, i + 1, j, p, t);
  }
}
