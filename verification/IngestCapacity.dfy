/** How far the counters can go, for any number of producers, and the byte budget with one. */
module IngestCapacity {
  import opened IngestQueue

  /** Every admission is made by one of the given producers. */
  ghost predicate MadeBy(steps: seq<Step>, producers: set<Producer>) {
    forall i | 0 <= i < |steps| :: steps[i].Begin? ==> steps[i].producer in producers
  }

  // ---- queue length and active count ----

  /** Past the queue-length gate, with the task not counted yet. */
  predicate Passed(pc: Pc) {
    pc.GateBytes? || pc.Charging? || pc.Choosing? || pc.Activating? || pc.Enlisting? || pc.Locking? || pc.Pushing? || pc.Counting?
  }

  function Passing(producers: map<Producer, Pc>): set<Producer> {
    set p | p in producers && Passed(producers[p])
  }

  function Activators(producers: map<Producer, Pc>): set<Producer> {
    set p | p in producers && producers[p].Activating?
  }

  function One(b: bool): nat {
    if b then 1 else 0
  }

  lemma MovePassing(producers: map<Producer, Pc>, p: Producer, pc: Pc)
    ensures |Passing(producers[p := pc])| == |Passing(producers)| + One(Passed(pc)) - One(p in Passing(producers))
  {
    assert Passing(producers[p := pc]) == if Passed(pc) then Passing(producers) - {p} + {p} else Passing(producers) - {p};
  }

  lemma MoveActivators(producers: map<Producer, Pc>, p: Producer, pc: Pc)
    ensures |Activators(producers[p := pc])| == |Activators(producers)| + One(pc.Activating?) - One(p in Activators(producers))
  {
    assert Activators(producers[p := pc]) == if pc.Activating? then Activators(producers) - {p} + {p} else Activators(producers) - {p};
  }

  lemma SubsetSize(a: set<Producer>, b: set<Producer>)
    requires a <= b
    ensures |a| <= |b|
  {
    assert |b| == |a| + |b - a| by { assert b == a + (b - a); }
  }

  /**
    What has been let in, counted or on its way to be counted: every producer but one may have looked
    at the queue length before another raised it, and every producer and the monitor may have looked
    at the active count.
   */
  ghost predicate Within(limits: Limits, s: State, producers: set<Producer>) {
    && s.producers.Keys <= producers
    && s.queue + |Passing(s.producers)| <= limits.maxQueue + |producers| - 1
    && s.active + |Activators(s.producers)| + One(s.monitor.Reviving?) <= limits.cpus + |producers|
  }

  lemma ProducerWithin(limits: Limits, s: State, p: Producer, budget: nat, producers: set<Producer>)
    requires Within(limits, s, producers) && Takeable(s) && Enabled(s, Produce(p, budget))
    ensures Within(limits, Next(limits, s, Produce(p, budget)), producers)
  {
    var pc := ProducerPc(limits, s, p, budget);
    MovePassing(s.producers, p, pc);
    MoveActivators(s.producers, p, pc);
    SubsetSize(Passing(s.producers[p := pc]), producers);
    SubsetSize(Activators(s.producers[p := pc]), producers);
  }

  lemma MonitorWithin(limits: Limits, s: State, producers: set<Producer>)
    requires Within(limits, s, producers) && Takeable(s) && Enabled(s, Monitor)
    ensures Within(limits, Next(limits, s, Monitor), producers)
  {
    SubsetSize(Activators(s.producers), producers);
    if Settles(s.monitor) {} else {}
  }

  lemma StepWithin(limits: Limits, s: State, step: Step, producers: set<Producer>)
    requires Within(limits, s, producers) && Enabled(s, step) && Takeable(s) && (step.Begin? ==> step.producer in producers)
    ensures Within(limits, Next(limits, s, step), producers)
  {
    match step
    case Begin(p, _) => { MovePassing(s.producers, p, Gate(|s.tasks|)); MoveActivators(s.producers, p, Gate(|s.tasks|)); }
    case Produce(p, budget) => ProducerWithin(limits, s, p, budget, producers);
    case Work(_) =>
    case Monitor => MonitorWithin(limits, s, producers);
  }

  /**
    With `n` producers the queue length stays below its maximum plus `n`, and the active count is at
    most `n` above the number of threads.
   */
  lemma {:induction false} CapacityIsRespected(
      limits: Limits, states: seq<State>, steps: seq<Step>, n: nat, producers: set<Producer>)
    requires IsRun(limits, states, steps) && n < |states| && MadeBy(steps, producers) && producers != {}
    ensures Within(limits, states[n], producers)
    ensures states[n].queue < limits.maxQueue + |producers| && states[n].active <= limits.cpus + |producers|
  {
    if n > 0 {
      CapacityIsRespected(limits, states, steps, n - 1, producers);
      assert StepBetween(limits, states[n - 1], steps[n - 1], states[n - 1 + 1]);
      StepWithin(limits, states[n - 1], steps[n - 1], producers);
    } else {
      assert producers != {} ==> |producers| > 0;
    }
  }

  // ---- the byte budget, with one producer ----

  ghost predicate Budgeted(s: State, p: Producer) {
    && s.producers.Keys <= {p}
    && (p in s.producers && s.producers[p].Charging? && s.producers[p].task < |s.tasks| ==>
          s.outstanding + s.tasks[s.producers[p].task].bytes <= s.producers[p].allowed)
  }

  lemma MonitorBudgeted(limits: Limits, s: State, p: Producer)
    requires Budgeted(s, p) && Enabled(s, Monitor) && Takeable(s)
    ensures Budgeted(Next(limits, s, Monitor), p)
  {
    if Settles(s.monitor) {} else {}
  }

  lemma StepBudgeted(limits: Limits, s: State, step: Step, p: Producer)
    requires Budgeted(s, p) && Enabled(s, step) && Takeable(s) && (step.Begin? ==> step.producer == p)
    ensures Budgeted(Next(limits, s, step), p)
  {
    match step
    case Begin(_, _) =>
    case Produce(_, _) =>
    case Work(_) =>
    case Monitor => MonitorBudgeted(limits, s, p);
  }

  lemma {:induction false} RunBudgeted(limits: Limits, states: seq<State>, steps: seq<Step>, n: nat, p: Producer)
    requires IsRun(limits, states, steps) && n < |states| && MadeBy(steps, {p})
    ensures Budgeted(states[n], p)
  {
    if n > 0 {
      RunBudgeted(limits, states, steps, n - 1, p);
      assert StepBetween(limits, states[n - 1], steps[n - 1], states[n - 1 + 1]);
      StepBudgeted(limits, states[n - 1], steps[n - 1], p);
    }
  }

  /** With one producer, charging a task keeps the outstanding bytes within what its admission allowed. */
  lemma ChargesStayWithin(limits: Limits, states: seq<State>, steps: seq<Step>, n: nat, p: Producer)
    requires IsRun(limits, states, steps) && n < |steps| && MadeBy(steps, {p})
    requires p in states[n].producers && states[n].producers[p].Charging? && steps[n].Produce? && steps[n].producer == p
    ensures states[n + 1].outstanding <= states[n].producers[p].allowed
  {
    RunBudgeted(limits, states, steps, n, p);
    assert StepBetween(limits, states[n], steps[n], states[n + 1]);
  }
}
