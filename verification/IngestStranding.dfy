/**
  When tasks can be stranded: with one producer, exactly when more tasks may be let in than there are
  threads in the pool.
 */
module IngestStranding {
  import opened Basics
  import opened IngestQueue
  import opened IngestCapacity
  import opened IngestProgress

  // ---- no more places than threads ----

  /** The producer never has to queue a task, because it found a free place and hence a free thread. */
  ghost predicate Direct(limits: Limits, s: State, p: Producer) {
    && s.producers.Keys <= {p} && s.deque == []
    && !s.monitor.Checking? && !s.monitor.Reviving? && !s.monitor.Executing?
    && (p in s.producers ==>
          var pc := s.producers[p];
          && !pc.Locking? && !pc.Pushing? && !pc.Counting? && !pc.Unlocking?
          && (pc.GateBytes? || pc.Charging? || pc.Choosing? ==> s.queue < limits.maxQueue))
  }

  /** Unless a task is between the two counters, no more tasks are active than are counted. */
  lemma {:induction false} ActiveAreCounted(tasks: seq<Task>)
    requires forall t | 0 <= t < |tasks| :: !tasks[t].stage.Activated?
    ensures Tally(tasks).active <= Tally(tasks).queue
    decreases |tasks|
  {
    if tasks != [] { ActiveAreCounted(tasks[..|tasks| - 1]); }
  }

  lemma ChoosingSeesAThread(limits: Limits, s: State, p: Producer)
    requires Inv(s) && Direct(limits, s, p) && limits.maxQueue <= limits.cpus
    requires p in s.producers && s.producers[p].Choosing?
    ensures s.active < limits.cpus
  {
    forall t | 0 <= t < |s.tasks| ensures !s.tasks[t].stage.Activated? {
      assert TaskOk(s, t) && ProducerOk(s, p);
    }
    ActiveAreCounted(s.tasks);
  }

  lemma StepDirect(limits: Limits, s: State, p: Producer, step: Step)
    requires Inv(s) && Direct(limits, s, p) && Enabled(s, step) && limits.maxQueue <= limits.cpus
    requires step.Begin? ==> step.producer == p
    ensures Direct(limits, Next(limits, s, step), p)
  {
    if step.Produce? && s.producers[step.producer].Choosing? { ChoosingSeesAThread(limits, s, p); }
  }

  lemma {:induction false} RunDirect(limits: Limits, states: seq<State>, steps: seq<Step>, n: nat, p: Producer)
    requires IsRun(limits, states, steps) && n < |states| && MadeBy(steps, {p}) && limits.maxQueue <= limits.cpus
    ensures Direct(limits, states[n], p)
  {
    if n > 0 {
      RunDirect(limits, states, steps, n - 1, p);
      RunKeepsInv(limits, states, steps, n - 1);
      assert StepBetween(limits, states[n - 1], steps[n - 1], states[n - 1 + 1]);
      StepDirect(limits, states[n - 1], p, steps[n - 1]);
    }
  }

  // ---- a run that strands a task ----

  /** A run of one producer leads from the start to `s`. */
  ghost predicate Reached(limits: Limits, s: State) {
    exists states, steps :: IsRun(limits, states, steps) && MadeBy(steps, {0}) && states[|steps|] == s
  }

  lemma Reach(limits: Limits, s: State, step: Step, s': State)
    requires Reached(limits, s) && StepBetween(limits, s, step, s') && (step.Begin? ==> step.producer == 0)
    ensures Reached(limits, s')
  {
    var states, steps :| IsRun(limits, states, steps) && MadeBy(steps, {0}) && states[|steps|] == s;
    var states1, steps1 := states + [s'], steps + [step];
    forall i | 0 <= i < |steps1| ensures StepBetween(limits, states1[i], steps1[i], states1[i + 1]) {
      if i < |steps| { assert StepBetween(limits, states[i], steps[i], states[i + 1]); }
    }
    assert IsRun(limits, states1, steps1) && MadeBy(steps1, {0});
  }

  /** `done` finished tasks, running ones up to `n`, and one more task on its way in. */
  function Tasks(done: nat, n: nat, last: Stage): seq<Task> {
    seq(n, i => Task(0, 0, if i < done then Finished else Running)) + [Task(0, 0, last)]
  }

  /** The producer at `pc` with the task after the `n` others, and the counters as given. */
  function Admitting(n: nat, last: Stage, pc: Pc, active: int, queue: int): State {
    State(Tasks(0, n, last), map[0 := pc], Receiving, [], [], None, active, queue, 0)
  }

  /** `n` running tasks and an idle producer. */
  function Busy(n: nat, producers: map<Producer, Pc>): State {
    State(seq(n, i => Task(0, 0, Running)), producers, Receiving, [], [], None, n, n, 0)
  }

  lemma OneMore(n: nat)
    ensures Tasks(0, n, Running) == seq(n + 1, i => Task(0, 0, Running))
  {
  }

  lemma Begins(limits: Limits, n: nat, producers: map<Producer, Pc>)
    requires Reached(limits, Busy(n, producers)) && n < limits.maxQueue
    requires producers == map[] || producers == map[0 := Idle]
    ensures Reached(limits, Admitting(n, Gated, GateBytes(n), n, n))
  {
    var s1 := Admitting(n, Gated, Gate(n), n, n);
    assert seq(n, i => Task(0, 0, Running)) == seq(n, i => Task(0, 0, if i < 0 then Finished else Running));
    Reach(limits, Busy(n, producers), Begin(0, 0), s1);
    Reach(limits, s1, Produce(0, 0), Admitting(n, Gated, GateBytes(n), n, n));
  }

  lemma ToTheChoice(limits: Limits, n: nat)
    requires Reached(limits, Admitting(n, Gated, GateBytes(n), n, n))
    ensures Reached(limits, Admitting(n, Charged, Choosing(n), n, n))
  {
    Reach(limits, Admitting(n, Gated, GateBytes(n), n, n), Produce(0, 0), Admitting(n, Gated, Charging(n, 0), n, n));
    assert Tasks(0, n, Gated)[n := Task(0, 0, Charged)] == Tasks(0, n, Charged);
    Reach(limits, Admitting(n, Gated, Charging(n, 0), n, n), Produce(0, 0), Admitting(n, Charged, Choosing(n), n, n));
  }

  lemma Activates(limits: Limits, n: nat)
    requires Reached(limits, Admitting(n, Charged, Choosing(n), n, n)) && n < limits.cpus
    ensures Reached(limits, Admitting(n, Activated, Enlisting(n), n + 1, n))
  {
    Reach(limits, Admitting(n, Charged, Choosing(n), n, n), Produce(0, 0), Admitting(n, Charged, Activating(n), n, n));
    assert Tasks(0, n, Charged)[n := Task(0, 0, Activated)] == Tasks(0, n, Activated);
    Reach(limits, Admitting(n, Charged, Activating(n), n, n), Produce(0, 0), Admitting(n, Activated, Enlisting(n), n + 1, n));
  }

  lemma Spawns(limits: Limits, n: nat)
    requires Reached(limits, Admitting(n, Activated, Enlisting(n), n + 1, n))
    ensures Reached(limits, Busy(n + 1, map[0 := Idle]))
  {
    assert Tasks(0, n, Activated)[n := Task(0, 0, Enlisted)] == Tasks(0, n, Enlisted);
    Reach(limits, Admitting(n, Activated, Enlisting(n), n + 1, n), Produce(0, 0), Admitting(n, Enlisted, Spawning(n), n + 1, n + 1));
    assert Tasks(0, n, Enlisted)[n := Task(0, 0, Running)] == Tasks(0, n, Running);
    OneMore(n);
    Reach(limits, Admitting(n, Enlisted, Spawning(n), n + 1, n + 1), Produce(0, 0), Busy(n + 1, map[0 := Idle]));
  }

  lemma {:induction false} FillsThePool(limits: Limits, n: nat)
    requires n < limits.maxQueue && n <= limits.cpus
    ensures Reached(limits, Admitting(n, Charged, Choosing(n), n, n))
  {
    if n == 0 {
      assert IsRun(limits, [EMPTY], []) && MadeBy([], {0}) && [EMPTY][0] == Busy(0, map[]);
      Begins(limits, 0, map[]);
    } else {
      FillsThePool(limits, n - 1);
      Activates(limits, n - 1);
      Spawns(limits, n - 1);
      Begins(limits, n, map[0 := Idle]);
    }
    ToTheChoice(limits, n);
  }

  /** `done` of `n` tasks finished, the producer about to queue one more, and the monitor at `m`. */
  function Finishing(
    done: nat, n: nat, moving: Stage, m: MonitorPc, channel: seq<nat>, active: int, queue: int, lock: Option<Holder>): State
    requires done < n
  {
    State(Tasks(done, n, Charged)[done := Task(0, 0, moving)], map[0 := Locking(n)], m, [], channel, lock, active, queue, 0)
  }

  /** The producer about to queue a task, `done` of the `n` others finished. */
  function Quiet(done: nat, n: nat): State {
    State(Tasks(done, n, Charged), map[0 := Locking(n)], Receiving, [], [], None, n - done, n - done, 0)
  }

  lemma MovesOn(done: nat, n: nat, a: Stage, b: Stage)
    requires done < n
    ensures Tasks(done, n, Charged)[done := Task(0, 0, a)][done := Task(0, 0, b)] == Tasks(done, n, Charged)[done := Task(0, 0, b)]
    ensures Tasks(done, n, Charged)[done := Task(0, 0, Running)] == Tasks(done, n, Charged)
    ensures Tasks(done, n, Charged)[done := Task(0, 0, Finished)] == Tasks(done + 1, n, Charged)
  {
  }

  lemma SignalsOne(limits: Limits, done: nat, n: nat)
    requires Reached(limits, Quiet(done, n)) && done < n
    ensures Reached(limits, Finishing(done, n, Received, Deactivating(done), [], n - done, n - done, None))
  {
    var k := n - done;
    var s1 := Finishing(done, n, Signalled, Receiving, [done], k, k, None);
    MovesOn(done, n, Running, Signalled);
    Reach(limits, Quiet(done, n), Work(done), s1);
    MovesOn(done, n, Signalled, Received);
    Reach(limits, s1, Monitor, Finishing(done, n, Received, Deactivating(done), [], k, k, None));
  }

  lemma SettlesOne(limits: Limits, done: nat, n: nat)
    requires done < n && Reached(limits, Finishing(done, n, Received, Deactivating(done), [], n - done, n - done, None))
    ensures Reached(limits, Finishing(done, n, Finished, Deciding, [], n - done - 1, n - done - 1, None))
  {
    var k := n - done;
    MovesOn(done, n, Received, Deactivated);
    var s3 := Finishing(done, n, Deactivated, Uncounting(done), [], k - 1, k, None);
    Reach(limits, Finishing(done, n, Received, Deactivating(done), [], k, k, None), Monitor, s3);
    MovesOn(done, n, Deactivated, Uncounted);
    var s4 := Finishing(done, n, Uncounted, Releasing(done), [], k - 1, k - 1, None);
    Reach(limits, s3, Monitor, s4);
    MovesOn(done, n, Uncounted, Finished);
    Reach(limits, s4, Monitor, Finishing(done, n, Finished, Deciding, [], k - 1, k - 1, None));
  }

  lemma FindsNothing(limits: Limits, done: nat, n: nat)
    requires done < n <= limits.cpus
    requires Reached(limits, Finishing(done, n, Finished, Deciding, [], n - done - 1, n - done - 1, None))
    ensures Reached(limits, Quiet(done + 1, n))
  {
    var k := n - done - 1;
    var deciding := Finishing(done, n, Finished, Deciding, [], k, k, None);
    var taking := Finishing(done, n, Finished, TakingLock, [], k, k, None);
    var draining := Finishing(done, n, Finished, Draining, [], k, k, Some(ByMonitor));
    Reach(limits, deciding, Monitor, taking);
    Reach(limits, taking, Monitor, draining);
    MovesOn(done, n, Finished, Finished);
    Reach(limits, draining, Monitor, Quiet(done + 1, n));
  }

  lemma {:induction false} EmptiesThePool(limits: Limits, done: nat, n: nat)
    requires Reached(limits, Quiet(0, n)) && done <= n <= limits.cpus
    ensures Reached(limits, Quiet(done, n))
  {
    if done > 0 {
      EmptiesThePool(limits, done - 1, n);
      SignalsOne(limits, done - 1, n);
      SettlesOne(limits, done - 1, n);
      FindsNothing(limits, done - 1, n);
    }
  }

  /** All `n` tasks finished and the last one queued, as far as `last`, `pc`, `queue` and `lock` say. */
  function Queueing(n: nat, last: Stage, pc: Pc, deque: seq<nat>, queue: int, lock: Option<Holder>): State {
    State(Tasks(n, n, last), map[0 := pc], Receiving, deque, [], lock, 0, queue, 0)
  }

  lemma PushesLate(limits: Limits, n: nat)
    requires Reached(limits, Quiet(n, n))
    ensures Reached(limits, Queueing(n, Queued, Counting(n), [n], 0, Some(ByProducer(0))))
  {
    var held := Some(ByProducer(0));
    Reach(limits, Quiet(n, n), Produce(0, 0), Queueing(n, Charged, Pushing(n), [], 0, held));
    assert Tasks(n, n, Charged)[n := Task(0, 0, Queued)] == Tasks(n, n, Queued);
    Reach(limits, Queueing(n, Charged, Pushing(n), [], 0, held), Produce(0, 0), Queueing(n, Queued, Counting(n), [n], 0, held));
  }

  lemma QueuesLate(limits: Limits, n: nat)
    requires Reached(limits, Queueing(n, Queued, Counting(n), [n], 0, Some(ByProducer(0))))
    ensures Reached(limits, Queueing(n, Waiting, Idle, [n], 1, None))
  {
    var held := Some(ByProducer(0));
    assert Tasks(n, n, Queued)[n := Task(0, 0, Waiting)] == Tasks(n, n, Waiting);
    Reach(limits, Queueing(n, Queued, Counting(n), [n], 0, held), Produce(0, 0), Queueing(n, Waiting, Unlocking, [n], 1, held));
    Reach(limits, Queueing(n, Waiting, Unlocking, [n], 1, held), Produce(0, 0), Queueing(n, Waiting, Idle, [n], 1, None));
  }

  /**
    The producer finds every thread busy; all of them finish and the monitor finds nothing to start; then
    the producer queues its task, and nothing will ever start it.
   */
  lemma ATaskIsStranded(limits: Limits)
    requires limits.cpus < limits.maxQueue
    ensures exists s :: Reached(limits, s) && AllIdle(s) && Stranded(s)
  {
    var n := limits.cpus;
    FillsThePool(limits, n);
    Reach(limits, Admitting(n, Charged, Choosing(n), n, n), Produce(0, 0), Quiet(0, n));
    EmptiesThePool(limits, n, n);
    PushesLate(limits, n);
    QueuesLate(limits, n);
    assert AllIdle(Queueing(n, Waiting, Idle, [n], 1, None)) && Stranded(Queueing(n, Waiting, Idle, [n], 1, None));
  }

  /** With one producer a task can be stranded if and only if the queue length may exceed the number of threads. */
  lemma StrandsExactly(limits: Limits)
    ensures (exists s :: Reached(limits, s) && AllIdle(s) && Stranded(s)) <==> limits.cpus < limits.maxQueue
  {
    if limits.cpus < limits.maxQueue {
      ATaskIsStranded(limits);
    } else {
      forall s | Reached(limits, s) ensures !Stranded(s) {
        var states, steps :| IsRun(limits, states, steps) && MadeBy(steps, {0}) && states[|steps|] == s;
        RunDirect(limits, states, steps, |steps|, 0);
      }
    }
  }
}
