/**
  Task accounting of the ingest scheduler: producers admit tasks, pool threads run them, and
  one monitor thread settles the counters and starts waiting tasks. Every atomic operation,
  lock operation and channel operation is one step.
 */
module IngestQueue {
  import opened Basics

  type Producer = nat

  /** How far a task has come. A panicking task signals completion like any other. */
  datatype Stage =
    | Gated | Charged | Activated | Enlisted
    | Queued | Waiting | Popped | Revived
    | Running | Signalled | Received | Deactivated | Uncounted | Finished

  datatype Task = Task(bytes: nat, owner: Producer, stage: Stage)

  datatype Pc =
    | Idle
    | Gate(task: nat)
    | GateBytes(task: nat)
    | Charging(task: nat, allowed: nat)
    | Choosing(task: nat)
    | Activating(task: nat)
    | Enlisting(task: nat)
    | Spawning(task: nat)
    | Locking(task: nat)
    | Pushing(task: nat)
    | Counting(task: nat)
    | Unlocking

  datatype MonitorPc =
    | Receiving
    | Deactivating(task: nat)
    | Uncounting(task: nat)
    | Releasing(task: nat)
    | Deciding
    | TakingLock
    | Draining
    | Checking(task: nat)
    | Reviving(task: nat)
    | Executing(task: nat)

  datatype Holder = ByProducer(producer: Producer) | ByMonitor

  /** `tasks` lists every admission ever begun; `active`, `queue` and `outstanding` are the source's counters. */
  datatype State = State(
    tasks: seq<Task>,
    producers: map<Producer, Pc>,
    monitor: MonitorPc,
    deque: seq<nat>,
    channel: seq<nat>,
    lock: Option<Holder>,
    active: int,
    queue: int,
    outstanding: int)

  datatype Limits = Limits(cpus: nat, maxQueue: nat)

  const EMPTY: State := State([], map[], Receiving, [], [], None, 0, 0, 0)

  datatype Step =
    | Begin(producer: Producer, bytes: nat)
    | Produce(producer: Producer, budget: nat)
    | Work(task: nat)
    | Monitor

  predicate Enabled(s: State, step: Step) {
    match step
    case Begin(p, _) => p in s.producers ==> s.producers[p].Idle?
    case Produce(p, _) =>
      && p in s.producers && !s.producers[p].Idle? && (s.producers[p].Locking? ==> s.lock.None?)
      && (TaskOf(s.producers[p]).Some? ==> TaskOf(s.producers[p]).value < |s.tasks|)
    case Work(t) => t < |s.tasks| && s.tasks[t].stage.Running?
    case Monitor =>
      && (s.monitor.Receiving? ==> s.channel != [])
      && (s.monitor.TakingLock? ==> s.lock.None?)
      && (MonitorTask(s.monitor).Some? ==> MonitorTask(s.monitor).value < |s.tasks|)
  }

  predicate Takeable(s: State) {
    && (forall i | 0 <= i < |s.channel| :: s.channel[i] < |s.tasks|)
    && (forall i | 0 <= i < |s.deque| :: s.deque[i] < |s.tasks|)
  }

  function TaskOf(pc: Pc): Option<nat> {
    if pc.Idle? || pc.Unlocking? then None else Some(pc.task)
  }

  function MonitorTask(m: MonitorPc): Option<nat> {
    if m.Receiving? || m.Deciding? || m.TakingLock? || m.Draining? then None else Some(m.task)
  }

  function Moved(s: State, t: nat, stage: Stage): State
    requires t < |s.tasks|
  {
    s.(tasks := s.tasks[t := s.tasks[t].(stage := stage)])
  }

  // ---- the producer's loop body ----

  function ProducerPc(limits: Limits, s: State, p: Producer, budget: nat): Pc
    requires Enabled(s, Produce(p, budget))
  {
    match s.producers[p]
    case Gate(t) => if s.queue < limits.maxQueue then GateBytes(t) else Gate(t)
    case GateBytes(t) =>
      var allowed := if budget < s.tasks[t].bytes then s.tasks[t].bytes else budget;
      if s.outstanding + s.tasks[t].bytes <= allowed then Charging(t, allowed) else Gate(t)
    case Charging(t, _) => Choosing(t)
    case Choosing(t) => if s.active < limits.cpus then Activating(t) else Locking(t)
    case Activating(t) => Enlisting(t)
    case Enlisting(t) => Spawning(t)
    case Spawning(_) => Idle
    case Locking(t) => Pushing(t)
    case Pushing(t) => Counting(t)
    case Counting(_) => Unlocking
    case Unlocking => Idle
  }

  function ProducerEffect(s: State, p: Producer): State
    requires Enabled(s, Produce(p, 0))
  {
    match s.producers[p]
    case Charging(t, _) => Moved(s, t, Charged).(outstanding := s.outstanding + s.tasks[t].bytes)
    case Activating(t) => Moved(s, t, Activated).(active := s.active + 1)
    case Enlisting(t) => Moved(s, t, Enlisted).(queue := s.queue + 1)
    case Spawning(t) => Moved(s, t, Running)
    case Locking(_) => s.(lock := Some(ByProducer(p)))
    case Pushing(t) => Moved(s, t, Queued).(deque := s.deque + [t])
    case Counting(t) => Moved(s, t, Waiting).(queue := s.queue + 1)
    case Unlocking => s.(lock := None)
    case _ => s
  }

  // ---- the monitor's loop body ----

  predicate Settles(m: MonitorPc) {
    m.Receiving? || m.Deactivating? || m.Uncounting? || m.Releasing? || m.Deciding?
  }

  /** Take one completion off the channel and settle the counters for it. */
  function Settle(limits: Limits, s: State): State
    requires Enabled(s, Monitor) && Takeable(s) && Settles(s.monitor)
  {
    match s.monitor
    case Receiving => Moved(s, s.channel[0], Received).(channel := s.channel[1..], monitor := Deactivating(s.channel[0]))
    case Deactivating(t) => Moved(s, t, Deactivated).(active := s.active - 1, monitor := Uncounting(t))
    case Uncounting(t) => Moved(s, t, Uncounted).(queue := s.queue - 1, monitor := Releasing(t))
    case Releasing(t) => Moved(s, t, Finished).(outstanding := s.outstanding - s.tasks[t].bytes, monitor := Deciding)
    case Deciding => s.(monitor := if s.active < limits.cpus then TakingLock else Receiving)
  }

  /** Start waiting tasks, in queue order, while there is capacity. */
  function Drain(limits: Limits, s: State): State
    requires Enabled(s, Monitor) && Takeable(s) && !Settles(s.monitor)
  {
    match s.monitor
    case TakingLock => s.(lock := Some(ByMonitor), monitor := Draining)
    case Draining =>
      if s.deque == [] then s.(lock := None, monitor := Receiving)
      else Moved(s, s.deque[0], Popped).(deque := s.deque[1..], monitor := Checking(s.deque[0]))
    case Checking(t) =>
      if s.active >= limits.cpus
      then Moved(s, t, Waiting).(deque := [t] + s.deque, lock := None, monitor := Receiving)
      else s.(monitor := Reviving(t))
    case Reviving(t) => Moved(s, t, Revived).(active := s.active + 1, monitor := Executing(t))
    case Executing(t) => Moved(s, t, Running).(monitor := Draining)
  }

  function Next(limits: Limits, s: State, step: Step): State
    requires Enabled(s, step) && Takeable(s)
  {
    match step
    case Begin(p, bytes) =>
      s.(tasks := s.tasks + [Task(bytes, p, Gated)], producers := s.producers[p := Gate(|s.tasks|)])
    case Produce(p, budget) =>
      ProducerEffect(s, p).(producers := s.producers[p := ProducerPc(limits, s, p, budget)])
    case Work(t) => Moved(s, t, Signalled).(channel := s.channel + [t])
    case Monitor => if Settles(s.monitor) then Settle(limits, s) else Drain(limits, s)
  }

  // ---- what the counters stand for ----

  /** The three counters, the waiting tasks and the undrained completions. */
  datatype Counts = Counts(active: int, queue: int, bytes: int, deque: int, channel: int)

  function Plus(x: Counts, y: Counts): Counts {
    Counts(x.active + y.active, x.queue + y.queue, x.bytes + y.bytes, x.deque + y.deque, x.channel + y.channel)
  }

  function Minus(x: Counts, y: Counts): Counts {
    Counts(x.active - y.active, x.queue - y.queue, x.bytes - y.bytes, x.deque - y.deque, x.channel - y.channel)
  }

  /** What one task contributes: a pool slot, a place in the queue length, its bytes. */
  function Share(t: Task): Counts {
    match t.stage
    case Gated => Counts(0, 0, 0, 0, 0)
    case Charged => Counts(0, 0, t.bytes, 0, 0)
    case Activated => Counts(1, 0, t.bytes, 0, 0)
    case Enlisted => Counts(1, 1, t.bytes, 0, 0)
    case Queued => Counts(0, 0, t.bytes, 1, 0)
    case Waiting => Counts(0, 1, t.bytes, 1, 0)
    case Popped => Counts(0, 1, t.bytes, 0, 0)
    case Revived => Counts(1, 1, t.bytes, 0, 0)
    case Running => Counts(1, 1, t.bytes, 0, 0)
    case Signalled => Counts(1, 1, t.bytes, 0, 1)
    case Received => Counts(1, 1, t.bytes, 0, 0)
    case Deactivated => Counts(0, 1, t.bytes, 0, 0)
    case Uncounted => Counts(0, 0, t.bytes, 0, 0)
    case Finished => Counts(0, 0, 0, 0, 0)
  }

  function Tally(tasks: seq<Task>): Counts {
    if tasks == [] then Counts(0, 0, 0, 0, 0) else Plus(Tally(tasks[..|tasks| - 1]), Share(tasks[|tasks| - 1]))
  }

  function Counters(s: State): Counts {
    Counts(s.active, s.queue, s.outstanding, |s.deque|, |s.channel|)
  }

  /** Every counter is the exact tally of the tasks it stands for. */
  ghost predicate Tallied(s: State) {
    Counters(s) == Tally(s.tasks)
  }

  lemma {:induction false} TallyUpdate(tasks: seq<Task>, i: nat, t: Task)
    requires i < |tasks|
    ensures Tally(tasks[i := t]) == Plus(Minus(Tally(tasks), Share(tasks[i])), Share(t))
  {
    var n := |tasks| - 1;
    if i < n {
      TallyUpdate(tasks[..n], i, t);
      assert tasks[i := t][..n] == tasks[..n][i := t];
    } else {
      assert tasks[i := t][..n] == tasks[..n];
    }
  }

  /** A step that moves one task stays exact if it changes each counter by that task's own share. */
  lemma TallyMove(s: State, s': State, t: nat, stage: Stage)
    requires Tallied(s) && t < |s.tasks| && s'.tasks == Moved(s, t, stage).tasks
    requires Counters(s') == Plus(Minus(Counters(s), Share(s.tasks[t])), Share(s.tasks[t].(stage := stage)))
    ensures Tallied(s')
  {
    TallyUpdate(s.tasks, t, s.tasks[t].(stage := stage));
  }

  // ---- the invariant ----

  /** The stage of the task a producer is busy with. */
  function PcStage(pc: Pc): Stage
    requires TaskOf(pc).Some?
  {
    match pc
    case Gate(_) => Gated
    case GateBytes(_) => Gated
    case Charging(_, _) => Gated
    case Enlisting(_) => Activated
    case Spawning(_) => Enlisted
    case Counting(_) => Queued
    case _ => Charged
  }

  function MonitorStage(m: MonitorPc): Stage
    requires MonitorTask(m).Some?
  {
    match m
    case Deactivating(_) => Received
    case Uncounting(_) => Deactivated
    case Releasing(_) => Uncounted
    case Executing(_) => Revived
    case _ => Popped
  }

  predicate ProducerLocks(pc: Pc) {
    pc.Pushing? || pc.Counting? || pc.Unlocking?
  }

  predicate MonitorLocks(m: MonitorPc) {
    m.Draining? || m.Checking? || m.Reviving? || m.Executing?
  }

  ghost predicate ProducerOk(s: State, p: Producer)
    requires p in s.producers
  {
    var pc := s.producers[p];
    && (TaskOf(pc).Some? ==>
          var t := TaskOf(pc).value;
          t < |s.tasks| && s.tasks[t].owner == p && s.tasks[t].stage == PcStage(pc))
    && (ProducerLocks(pc) <==> s.lock == Some(ByProducer(p)))
  }

  ghost predicate MonitorOk(s: State) {
    && (MonitorTask(s.monitor).Some? ==>
          MonitorTask(s.monitor).value < |s.tasks| && s.tasks[MonitorTask(s.monitor).value].stage == MonitorStage(s.monitor))
    && (MonitorLocks(s.monitor) <==> s.lock == Some(ByMonitor))
  }

  /** A task is where its stage says, and nowhere else. */
  ghost predicate TaskOk(s: State, t: nat)
    requires t < |s.tasks|
  {
    var Task(_, owner, stage) := s.tasks[t];
    && owner in s.producers
    && (stage.Gated? || stage.Charged? || stage.Activated? || stage.Enlisted? || stage.Queued? ==>
          TaskOf(s.producers[owner]) == Some(t))
    && (stage.Popped? || stage.Revived? || stage.Received? || stage.Deactivated? || stage.Uncounted? ==>
          MonitorTask(s.monitor) == Some(t))
    && (t in s.deque <==> stage.Queued? || stage.Waiting?)
    && (t in s.channel <==> stage.Signalled?)
  }

  ghost predicate Distinct(xs: seq<nat>) {
    forall i, j | 0 <= i < j < |xs| :: xs[i] != xs[j]
  }

  ghost predicate ProducersOk(s: State) {
    && (forall p | p in s.producers :: ProducerOk(s, p))
    && (s.lock.Some? && s.lock.value.ByProducer? ==> s.lock.value.producer in s.producers)
  }

  ghost predicate TasksOk(s: State) {
    forall t | 0 <= t < |s.tasks| :: TaskOk(s, t)
  }

  ghost predicate QueuesOk(s: State) {
    Takeable(s) && Distinct(s.deque) && Distinct(s.channel)
  }

  ghost predicate Placed(s: State) {
    ProducersOk(s) && MonitorOk(s) && TasksOk(s) && QueuesOk(s)
  }

  ghost predicate Inv(s: State) {
    Tallied(s) && Placed(s)
  }

  // ---- every step keeps it ----

  lemma ProducerTallies(limits: Limits, s: State, p: Producer, budget: nat)
    requires Tallied(s) && Takeable(s) && Enabled(s, Produce(p, budget)) && ProducerOk(s, p)
    ensures Tallied(Next(limits, s, Produce(p, budget)))
  {
    var s' := Next(limits, s, Produce(p, budget));
    match s.producers[p]
    case Charging(t, _) => TallyMove(s, s', t, Charged);
    case Activating(t) => TallyMove(s, s', t, Activated);
    case Enlisting(t) => TallyMove(s, s', t, Enlisted);
    case Spawning(t) => TallyMove(s, s', t, Running);
    case Pushing(t) => TallyMove(s, s', t, Queued);
    case Counting(t) => TallyMove(s, s', t, Waiting);
    case _ =>
  }

  lemma SettleTallies(limits: Limits, s: State)
    requires Tallied(s) && Takeable(s) && Enabled(s, Monitor) && MonitorOk(s) && Settles(s.monitor)
    requires s.monitor.Receiving? ==> s.tasks[s.channel[0]].stage.Signalled?
    ensures Tallied(Settle(limits, s))
  {
    var s' := Settle(limits, s);
    match s.monitor
    case Receiving => TallyMove(s, s', s.channel[0], Received);
    case Deactivating(t) => TallyMove(s, s', t, Deactivated);
    case Uncounting(t) => TallyMove(s, s', t, Uncounted);
    case Releasing(t) => TallyMove(s, s', t, Finished);
    case Deciding =>
  }

  lemma DrainTallies(limits: Limits, s: State)
    requires Tallied(s) && Takeable(s) && Enabled(s, Monitor) && MonitorOk(s) && !Settles(s.monitor)
    requires s.monitor.Draining? && s.deque != [] ==> s.tasks[s.deque[0]].stage.Waiting?
    ensures Tallied(Drain(limits, s))
  {
    var s' := Drain(limits, s);
    match s.monitor
    case TakingLock =>
    case Draining => if s.deque != [] { TallyMove(s, s', s.deque[0], Popped); }
    case Checking(t) => if s.active >= limits.cpus { TallyMove(s, s', t, Waiting); }
    case Reviving(t) => TallyMove(s, s', t, Revived);
    case Executing(t) => TallyMove(s, s', t, Running);
  }

  /** While the monitor holds the queue lock, every task in the deque has been counted. */
  lemma DequeIsWaiting(s: State)
    requires Placed(s) && MonitorLocks(s.monitor)
    ensures forall i | 0 <= i < |s.deque| :: s.tasks[s.deque[i]].stage.Waiting?
  {
    forall i | 0 <= i < |s.deque| ensures s.tasks[s.deque[i]].stage.Waiting? {
      assert TaskOk(s, s.deque[i]);
      assert ProducerOk(s, s.tasks[s.deque[i]].owner);
    }
  }

  lemma StepTallies(limits: Limits, s: State, step: Step)
    requires Inv(s) && Enabled(s, step)
    ensures Tallied(Next(limits, s, step))
  {
    match step
    case Begin(p, bytes) => assert Next(limits, s, step).tasks[..|s.tasks|] == s.tasks;
    case Produce(p, budget) => ProducerTallies(limits, s, p, budget);
    case Work(t) => TallyMove(s, Next(limits, s, step), t, Signalled);
    case Monitor => {
      if s.monitor.Receiving? { assert TaskOk(s, s.channel[0]); }
      if s.monitor.Draining? { DequeIsWaiting(s); }
      if Settles(s.monitor) { SettleTallies(limits, s); } else { DrainTallies(limits, s); }
    }
  }

  // ---- tasks stay where their stages say ----

  /** Only task `t` changes stage or place. */
  ghost predicate OnlyTask(s: State, s': State, t: Option<nat>) {
    && |s'.tasks| == |s.tasks|
    && forall u | 0 <= u < |s.tasks| && t != Some(u) ::
         s'.tasks[u] == s.tasks[u] && (u in s'.deque <==> u in s.deque) && (u in s'.channel <==> u in s.channel)
  }

  /** The producers and the monitor stay with every task but `t`. */
  ghost predicate OnlyOwner(s: State, s': State, t: Option<nat>) {
    && s.producers.Keys <= s'.producers.Keys
    && (forall q | q in s.producers && TaskOf(s.producers[q]).Some? && TaskOf(s.producers[q]) != t ::
          s'.producers[q] == s.producers[q])
    && (MonitorTask(s.monitor).Some? && MonitorTask(s.monitor) != t ==> s'.monitor == s.monitor)
  }

  lemma OtherTasks(s: State, s': State, t: Option<nat>, u: nat)
    requires u < |s.tasks| && TaskOk(s, u) && OnlyTask(s, s', t) && OnlyOwner(s, s', t) && t != Some(u)
    ensures TaskOk(s', u)
  {
  }

  lemma ProducerSelf(limits: Limits, s: State, p: Producer, budget: nat)
    requires Takeable(s) && Enabled(s, Produce(p, budget)) && ProducerOk(s, p)
    ensures ProducerOk(Next(limits, s, Produce(p, budget)), p)
  {
  }

  lemma ProducerLock(limits: Limits, s: State, p: Producer, budget: nat)
    requires Takeable(s) && Enabled(s, Produce(p, budget)) && ProducerOk(s, p)
    ensures var s' := Next(limits, s, Produce(p, budget));
            && s'.lock in {s.lock, None, Some(ByProducer(p))}
            && (s'.lock != s.lock ==> s.lock in {None, Some(ByProducer(p))})
  {
  }

  lemma ProducerOnly(limits: Limits, s: State, p: Producer, budget: nat)
    requires Takeable(s) && Enabled(s, Produce(p, budget))
    ensures var s' := Next(limits, s, Produce(p, budget));
            OnlyTask(s, s', TaskOf(s.producers[p])) && OnlyOwner(s, s', TaskOf(s.producers[p])) && s'.monitor == s.monitor
  {
  }

  lemma ProducerTask(limits: Limits, s: State, p: Producer, budget: nat, t: nat)
    requires Takeable(s) && Enabled(s, Produce(p, budget)) && ProducerOk(s, p)
    requires TaskOf(s.producers[p]) == Some(t) && TaskOk(s, t)
    ensures TaskOk(Next(limits, s, Produce(p, budget)), t)
  {
  }

  lemma ProducerDeque(limits: Limits, s: State, p: Producer, budget: nat)
    requires Enabled(s, Produce(p, budget)) && ProducerOk(s, p) && Takeable(s) && Distinct(s.deque)
    requires s.producers[p].Pushing? ==> s.producers[p].task !in s.deque
    ensures var s' := Next(limits, s, Produce(p, budget));
            Takeable(s') && Distinct(s'.deque) && s'.channel == s.channel
  {
  }

  /** Another producer has another task, and sees the lock change only if it is not its own. */
  lemma ProducerOthers(limits: Limits, s: State, p: Producer, budget: nat, q: Producer)
    requires Takeable(s) && Enabled(s, Produce(p, budget)) && ProducerOk(s, p) && q in s.producers && ProducerOk(s, q) && q != p
    ensures ProducerOk(Next(limits, s, Produce(p, budget)), q)
  {
    var s', t := Next(limits, s, Produce(p, budget)), TaskOf(s.producers[p]);
    ProducerLock(limits, s, p, budget);
    ProducerOnly(limits, s, p, budget);
    assert s'.producers[q] == s.producers[q];
  }

  lemma ProducerKeepsProducers(limits: Limits, s: State, p: Producer, budget: nat)
    requires ProducersOk(s) && Takeable(s) && Enabled(s, Produce(p, budget))
    ensures ProducersOk(Next(limits, s, Produce(p, budget)))
  {
    var s' := Next(limits, s, Produce(p, budget));
    assert ProducerOk(s, p);
    ProducerSelf(limits, s, p, budget);
    ProducerLock(limits, s, p, budget);
    assert s'.producers.Keys == s.producers.Keys;
    forall q | q in s'.producers ensures ProducerOk(s', q) {
      if q != p {
        assert ProducerOk(s, q);
        ProducerOthers(limits, s, p, budget, q);
      }
    }
  }

  lemma ProducerKeepsMonitor(limits: Limits, s: State, p: Producer, budget: nat)
    requires MonitorOk(s) && Takeable(s) && Enabled(s, Produce(p, budget)) && ProducerOk(s, p)
    ensures MonitorOk(Next(limits, s, Produce(p, budget)))
  {
    ProducerLock(limits, s, p, budget);
    ProducerOnly(limits, s, p, budget);
  }

  lemma ProducerKeepsTasks(limits: Limits, s: State, p: Producer, budget: nat)
    requires TasksOk(s) && Takeable(s) && Enabled(s, Produce(p, budget)) && ProducerOk(s, p)
    ensures TasksOk(Next(limits, s, Produce(p, budget)))
  {
    var s', t := Next(limits, s, Produce(p, budget)), TaskOf(s.producers[p]);
    ProducerOnly(limits, s, p, budget);
    forall u | 0 <= u < |s'.tasks| ensures TaskOk(s', u) {
      assert TaskOk(s, u);
      if t == Some(u) { ProducerTask(limits, s, p, budget, u); } else { OtherTasks(s, s', t, u); }
    }
  }

  lemma ProducerPlaced(limits: Limits, s: State, p: Producer, budget: nat)
    requires Placed(s) && Enabled(s, Produce(p, budget))
    ensures Placed(Next(limits, s, Produce(p, budget)))
  {
    var s' := Next(limits, s, Produce(p, budget));
    assert ProducerOk(s, p);
    assert ProducersOk(s') by { ProducerKeepsProducers(limits, s, p, budget); }
    assert MonitorOk(s') by { ProducerKeepsMonitor(limits, s, p, budget); }
    assert TasksOk(s') by { ProducerKeepsTasks(limits, s, p, budget); }
    assert QueuesOk(s') by {
      if s.producers[p].Pushing? { assert TaskOk(s, s.producers[p].task); }
      ProducerDeque(limits, s, p, budget);
    }
  }

  /** The task a monitor step moves. */
  function Handled(s: State): Option<nat> {
    if s.monitor.Receiving? && s.channel != [] then Some(s.channel[0])
    else if s.monitor.Draining? && s.deque != [] then Some(s.deque[0])
    else MonitorTask(s.monitor)
  }

  lemma SettleOnly(limits: Limits, s: State)
    requires Enabled(s, Monitor) && Takeable(s) && Settles(s.monitor) && Distinct(s.channel)
    ensures var s' := Settle(limits, s);
            && OnlyTask(s, s', Handled(s)) && OnlyOwner(s, s', Handled(s)) && s'.producers == s.producers
            && s'.lock == s.lock && s'.deque == s.deque && Takeable(s') && Distinct(s'.channel)
  {
  }

  lemma SettleSelf(limits: Limits, s: State)
    requires Enabled(s, Monitor) && Takeable(s) && Settles(s.monitor) && MonitorOk(s) && Distinct(s.channel)
    requires Handled(s).Some? ==> Handled(s).value < |s.tasks| && TaskOk(s, Handled(s).value)
    ensures MonitorOk(Settle(limits, s)) && (Handled(s).Some? ==> TaskOk(Settle(limits, s), Handled(s).value))
  {
  }

  lemma DrainOnly(limits: Limits, s: State)
    requires Enabled(s, Monitor) && Takeable(s) && !Settles(s.monitor) && Distinct(s.deque) && MonitorOk(s)
    requires s.monitor.Checking? ==> s.monitor.task !in s.deque
    ensures var s' := Drain(limits, s);
            && OnlyTask(s, s', Handled(s)) && OnlyOwner(s, s', Handled(s)) && s'.producers == s.producers
            && s'.channel == s.channel && Takeable(s') && Distinct(s'.deque)
            && s.lock in {None, Some(ByMonitor)} && s'.lock in {None, Some(ByMonitor)}
  {
  }

  lemma DrainSelf(limits: Limits, s: State)
    requires Enabled(s, Monitor) && Takeable(s) && !Settles(s.monitor) && MonitorOk(s) && Distinct(s.deque)
    requires Handled(s).Some? ==> Handled(s).value < |s.tasks| && TaskOk(s, Handled(s).value)
    requires s.monitor.Draining? && s.deque != [] ==> s.tasks[s.deque[0]].stage.Waiting?
    ensures MonitorOk(Drain(limits, s)) && (Handled(s).Some? ==> TaskOk(Drain(limits, s), Handled(s).value))
  {
  }

  /** The monitor never handles a task that a producer is still busy with. */
  lemma HandledApart(s: State, p: Producer)
    requires Placed(s) && Handled(s).Some? && p in s.producers
    requires s.monitor.Draining? ==> forall i | 0 <= i < |s.deque| :: s.tasks[s.deque[i]].stage.Waiting?
    ensures Handled(s).value < |s.tasks| && TaskOk(s, Handled(s).value) && TaskOf(s.producers[p]) != Handled(s)
  {
    assert TaskOk(s, Handled(s).value) && ProducerOk(s, p);
  }

  lemma ProducerApart(s: State, s': State, t: Option<nat>, p: Producer)
    requires p in s.producers && ProducerOk(s, p) && s'.producers == s.producers && OnlyTask(s, s', t)
    requires TaskOf(s.producers[p]).Some? ==> TaskOf(s.producers[p]) != t
    requires s'.lock == Some(ByProducer(p)) <==> s.lock == Some(ByProducer(p))
    ensures ProducerOk(s', p)
  {
  }

  lemma SettlePlaced(limits: Limits, s: State)
    requires Placed(s) && Enabled(s, Monitor) && Settles(s.monitor)
    ensures Placed(Settle(limits, s))
  {
    var s', t := Settle(limits, s), Handled(s);
    if t.Some? { assert TaskOk(s, t.value); }
    SettleOnly(limits, s);
    SettleSelf(limits, s);
    forall p | p in s'.producers ensures ProducerOk(s', p) {
      if t.Some? { HandledApart(s, p); }
      ProducerApart(s, s', t, p);
    }
    forall u | 0 <= u < |s'.tasks| ensures TaskOk(s', u) { if t != Some(u) { OtherTasks(s, s', t, u); } }
  }

  lemma DrainPlaced(limits: Limits, s: State)
    requires Placed(s) && Enabled(s, Monitor) && !Settles(s.monitor)
    ensures Placed(Drain(limits, s))
  {
    var s', t := Drain(limits, s), Handled(s);
    if t.Some? { assert TaskOk(s, t.value); }
    if s.monitor.Draining? { DequeIsWaiting(s); }
    DrainOnly(limits, s);
    DrainSelf(limits, s);
    forall p | p in s'.producers ensures ProducerOk(s', p) {
      if t.Some? { HandledApart(s, p); }
      ProducerApart(s, s', t, p);
    }
    forall u | 0 <= u < |s'.tasks| ensures TaskOk(s', u) { if t != Some(u) { OtherTasks(s, s', t, u); } }
  }

  lemma WorkPlaced(limits: Limits, s: State, t: nat)
    requires Placed(s) && Enabled(s, Work(t))
    ensures Placed(Next(limits, s, Work(t)))
  {
    var s' := Next(limits, s, Work(t));
    assert TaskOk(s, t);
    forall p | p in s'.producers ensures ProducerOk(s', p) { assert ProducerOk(s, p); }
    forall u | 0 <= u < |s'.tasks| ensures TaskOk(s', u) { assert TaskOk(s, u); }
  }

  lemma BeginPlaced(limits: Limits, s: State, p: Producer, bytes: nat)
    requires Placed(s) && Enabled(s, Begin(p, bytes))
    ensures Placed(Next(limits, s, Begin(p, bytes)))
  {
    var s' := Next(limits, s, Begin(p, bytes));
    forall q | q in s'.producers ensures ProducerOk(s', q) { if q in s.producers { assert ProducerOk(s, q); } }
    forall u | 0 <= u < |s'.tasks| ensures TaskOk(s', u) { if u < |s.tasks| { assert TaskOk(s, u); } }
  }

  lemma StepKeepsInv(limits: Limits, s: State, step: Step)
    requires Inv(s) && Enabled(s, step)
    ensures Inv(Next(limits, s, step))
  {
    StepTallies(limits, s, step);
    match step
    case Begin(p, bytes) => BeginPlaced(limits, s, p, bytes);
    case Produce(p, budget) => ProducerPlaced(limits, s, p, budget);
    case Work(t) => WorkPlaced(limits, s, t);
    case Monitor => if Settles(s.monitor) { SettlePlaced(limits, s); } else { DrainPlaced(limits, s); }
  }

  // ---- whole runs ----

  ghost predicate StepBetween(limits: Limits, s: State, step: Step, s': State) {
    Enabled(s, step) && Takeable(s) && s' == Next(limits, s, step)
  }

  ghost predicate IsRun(limits: Limits, states: seq<State>, steps: seq<Step>) {
    && |states| == |steps| + 1 && states[0] == EMPTY
    && forall i | 0 <= i < |steps| :: StepBetween(limits, states[i], steps[i], states[i + 1])
  }

  /** In every state of every run the counters are exact and every task is in exactly one place. */
  lemma {:induction false} RunKeepsInv(limits: Limits, states: seq<State>, steps: seq<Step>, n: nat)
    requires IsRun(limits, states, steps) && n < |states|
    ensures Inv(states[n])
  {
    if n > 0 {
      RunKeepsInv(limits, states, steps, n - 1);
      assert StepBetween(limits, states[n - 1], steps[n - 1], states[n - 1 + 1]);
      StepKeepsInv(limits, states[n - 1], steps[n - 1]);
    }
  }

  function CountStage(tasks: seq<Task>, stage: Stage): nat {
    if tasks == [] then 0
    else CountStage(tasks[..|tasks| - 1], stage) + if tasks[|tasks| - 1].stage == stage then 1 else 0
  }

  /** Bytes of the tasks that have been charged and not released. */
  function HeldBytes(tasks: seq<Task>): nat {
    if tasks == [] then 0
    else
      var t := tasks[|tasks| - 1];
      HeldBytes(tasks[..|tasks| - 1]) + if t.stage.Gated? || t.stage.Finished? then 0 else t.bytes
  }

  lemma {:induction false} TallyBounds(tasks: seq<Task>, i: nat)
    requires i < |tasks|
    ensures var c, share := Tally(tasks), Share(tasks[i]);
            c.active >= share.active && c.queue >= share.queue && c.bytes >= share.bytes
    decreases |tasks|
  {
    var n := |tasks| - 1;
    TallyNat(tasks[..n]);
    if i < n { TallyBounds(tasks[..n], i); }
  }

  lemma {:induction false} TallyNat(tasks: seq<Task>)
    ensures Tally(tasks).active >= 0 && Tally(tasks).queue >= 0 && Tally(tasks).bytes == HeldBytes(tasks)
    decreases |tasks|
  {
    if tasks != [] { TallyNat(tasks[..|tasks| - 1]); }
  }

  /** No counter is ever negative, and no subtraction of the monitor takes more than the counter holds. */
  lemma NoUnderflow(limits: Limits, states: seq<State>, steps: seq<Step>, n: nat)
    requires IsRun(limits, states, steps) && n < |states|
    ensures states[n].active >= 0 && states[n].queue >= 0 && states[n].outstanding >= 0
    ensures states[n].monitor.Deactivating? ==> states[n].active >= 1
    ensures states[n].monitor.Uncounting? ==> states[n].queue >= 1
    ensures states[n].monitor.Releasing? && states[n].monitor.task < |states[n].tasks| ==>
              states[n].outstanding >= states[n].tasks[states[n].monitor.task].bytes
  {
    var s := states[n];
    RunKeepsInv(limits, states, steps, n);
    TallyNat(s.tasks);
    if MonitorTask(s.monitor).Some? { TallyBounds(s.tasks, MonitorTask(s.monitor).value); }
  }

  /** No producer is inside an admission, and the monitor is not settling or starting a task. */
  ghost predicate Between(s: State) {
    (forall p | p in s.producers :: s.producers[p].Idle?) && MonitorTask(s.monitor).None?
  }

  predicate Quiet(stage: Stage) {
    stage.Waiting? || stage.Running? || stage.Signalled? || stage.Finished?
  }

  lemma {:induction false} QuietTally(tasks: seq<Task>)
    requires forall i | 0 <= i < |tasks| :: Quiet(tasks[i].stage)
    ensures Tally(tasks).queue == CountStage(tasks, Waiting) + CountStage(tasks, Running) + CountStage(tasks, Signalled)
    ensures Tally(tasks).deque == CountStage(tasks, Waiting) && Tally(tasks).channel == CountStage(tasks, Signalled)
    decreases |tasks|
  {
    if tasks != [] {
      assert Quiet(tasks[|tasks| - 1].stage);
      QuietTally(tasks[..|tasks| - 1]);
    }
  }

  lemma QuietStages(s: State, t: nat)
    requires Placed(s) && Between(s) && t < |s.tasks|
    ensures Quiet(s.tasks[t].stage)
  {
    assert TaskOk(s, t);
  }

  /**
    Between counter updates the queue length is the waiting tasks plus the running tasks plus the
    undrained completions, and the outstanding bytes are theirs.
   */
  lemma CountersAreExact(limits: Limits, states: seq<State>, steps: seq<Step>, n: nat)
    requires IsRun(limits, states, steps) && n < |states| && Between(states[n])
    ensures states[n].queue == |states[n].deque| + CountStage(states[n].tasks, Running) + |states[n].channel|
    ensures states[n].outstanding == HeldBytes(states[n].tasks)
  {
    var s := states[n];
    RunKeepsInv(limits, states, steps, n);
    forall i | 0 <= i < |s.tasks| ensures Quiet(s.tasks[i].stage) { QuietStages(s, i); }
    QuietTally(s.tasks);
    TallyNat(s.tasks);
  }

  // ---- waiting for completion ----

  /** The task has finished and given its bytes back, if it had any. */
  predicate Settled(t: Task) {
    t.stage.Finished? || (t.stage.Uncounted? && t.bytes == 0)
  }

  /** The task has been handed to the thread pool. */
  predicate Ran(stage: Stage) {
    || stage.Running? || stage.Signalled? || stage.Received?
    || stage.Deactivated? || stage.Uncounted? || stage.Finished?
  }

  /**
    Seen by a producer that is not inside an admission, with every other producer outside one too:
    both counters are zero if and only if every admitted task has finished and given its bytes back.
   */
  lemma DrainedMeansFinished(limits: Limits, states: seq<State>, steps: seq<Step>, n: nat)
    requires IsRun(limits, states, steps) && n < |states|
    requires forall p | p in states[n].producers :: TaskOf(states[n].producers[p]).None?
    ensures states[n].queue == 0 && states[n].outstanding == 0 <==>
            forall i | 0 <= i < |states[n].tasks| :: Settled(states[n].tasks[i])
  {
    var s := states[n];
    RunKeepsInv(limits, states, steps, n);
    if s.queue == 0 && s.outstanding == 0 {
      forall i | 0 <= i < |s.tasks| ensures Settled(s.tasks[i]) {
        TallyBounds(s.tasks, i);
        assert TaskOk(s, i);
      }
    }
    if forall i | 0 <= i < |s.tasks| :: Settled(s.tasks[i]) { TallyZero(s.tasks); }
  }

  lemma {:induction false} TallyZero(tasks: seq<Task>)
    requires forall i | 0 <= i < |tasks| :: Settled(tasks[i])
    ensures Tally(tasks).queue == 0 && Tally(tasks).bytes == 0
    decreases |tasks|
  {
    if tasks != [] {
      assert Settled(tasks[|tasks| - 1]);
      TallyZero(tasks[..|tasks| - 1]);
    }
  }

  lemma QueueFalls(limits: Limits, states: seq<State>, steps: seq<Step>, i: nat)
    requires IsRun(limits, states, steps) && i < |steps| && (steps[i].Work? || steps[i].Monitor?)
    ensures states[i + 1].queue <= states[i].queue && states[i + 1].producers == states[i].producers
  {
    assert StepBetween(limits, states[i], steps[i], states[i + 1]);
  }

  lemma {:induction false} QueueStaysEmpty(limits: Limits, states: seq<State>, steps: seq<Step>, i: nat, j: nat)
    requires IsRun(limits, states, steps) && i <= j < |states| && states[i].queue == 0
    requires forall k | i <= k < j :: steps[k].Work? || steps[k].Monitor?
    ensures states[j].queue == 0 && states[j].producers == states[i].producers
    decreases j
  {
    NoUnderflow(limits, states, steps, j);
    if i < j {
      QueueStaysEmpty(limits, states, steps, i, j - 1);
      QueueFalls(limits, states, steps, j - 1);
    }
  }

  /**
    `wait_for_completion` reads the queue length first and the bytes later. If the waiting thread is
    the only producer, nothing is admitted in between, and two zeros mean that every task has finished.
   */
  lemma WaitForCompletion(limits: Limits, states: seq<State>, steps: seq<Step>, i: nat, j: nat)
    requires IsRun(limits, states, steps) && i <= j < |states|
    requires forall p | p in states[i].producers :: states[i].producers[p].Idle?
    requires forall k | i <= k < j :: steps[k].Work? || steps[k].Monitor?
    requires states[i].queue == 0 && states[j].outstanding == 0
    ensures forall i | 0 <= i < |states[j].tasks| :: Settled(states[j].tasks[i])
  {
    QueueStaysEmpty(limits, states, steps, i, j);
    DrainedMeansFinished(limits, states, steps, j);
  }

  // ---- each task runs once ----

  /** The step hands task `t` to the thread pool. */
  predicate Starts(s: State, step: Step, t: nat) {
    || (step.Produce? && step.producer in s.producers && s.producers[step.producer] == Spawning(t))
    || (step.Monitor? && s.monitor == Executing(t))
  }

  /** A step from `s` to `s'` leaves a started task started, does not start it again, and starts what it says. */
  ghost predicate RanKept(s: State, step: Step, s': State, t: nat) {
    && (t < |s.tasks| && Ran(s.tasks[t].stage) ==>
          t < |s'.tasks| && Ran(s'.tasks[t].stage) && !Starts(s, step, t))
    && (Starts(s, step, t) ==> t < |s'.tasks| && Ran(s'.tasks[t].stage))
  }

  lemma ProducerRan(limits: Limits, s: State, p: Producer, budget: nat, t: nat)
    requires Takeable(s) && Enabled(s, Produce(p, budget)) && ProducerOk(s, p)
    ensures RanKept(s, Produce(p, budget), Next(limits, s, Produce(p, budget)), t)
  {
  }

  lemma SettleRan(limits: Limits, s: State, t: nat)
    requires Takeable(s) && Enabled(s, Monitor) && Settles(s.monitor) && MonitorOk(s)
    requires s.monitor.Receiving? ==> s.tasks[s.channel[0]].stage.Signalled?
    ensures RanKept(s, Monitor, Settle(limits, s), t)
  {
  }

  lemma DrainRan(limits: Limits, s: State, t: nat)
    requires Takeable(s) && Enabled(s, Monitor) && !Settles(s.monitor) && MonitorOk(s)
    requires s.monitor.Draining? && s.deque != [] ==> s.tasks[s.deque[0]].stage.Waiting?
    ensures RanKept(s, Monitor, Drain(limits, s), t)
  {
  }

  lemma StepRan(limits: Limits, s: State, step: Step, t: nat)
    requires Placed(s) && Enabled(s, step)
    ensures RanKept(s, step, Next(limits, s, step), t)
  {
    match step
    case Begin(_, _) =>
    case Produce(p, budget) => { assert ProducerOk(s, p); ProducerRan(limits, s, p, budget, t); }
    case Work(_) =>
    case Monitor =>
      if Settles(s.monitor) {
        if s.monitor.Receiving? { assert TaskOk(s, s.channel[0]); }
        SettleRan(limits, s, t);
      } else {
        if s.monitor.Draining? { DequeIsWaiting(s); }
        DrainRan(limits, s, t);
      }
  }

  ghost predicate RanKeptAt(states: seq<State>, steps: seq<Step>, i: nat, t: nat)
    requires |states| == |steps| + 1 && i < |steps|
  {
    RanKept(states[i], steps[i], states[i + 1], t)
  }

  lemma RunStepRan(limits: Limits, states: seq<State>, steps: seq<Step>, i: nat, t: nat)
    requires IsRun(limits, states, steps) && i < |steps|
    ensures RanKeptAt(states, steps, i, t)
  {
    RunKeepsInv(limits, states, steps, i);
    assert StepBetween(limits, states[i], steps[i], states[i + 1]);
    StepRan(limits, states[i], steps[i], t);
  }

  lemma {:induction false} StaysRan(states: seq<State>, steps: seq<Step>, i: nat, j: nat, t: nat)
    requires |states| == |steps| + 1 && i <= j < |states|
    requires forall k | i <= k < j :: RanKeptAt(states, steps, k, t)
    requires t < |states[i].tasks| && Ran(states[i].tasks[t].stage)
    ensures t < |states[j].tasks| && Ran(states[j].tasks[t].stage)
    decreases j
  {
    if i < j {
      StaysRan(states, steps, i, j - 1, t);
      assert RanKeptAt(states, steps, j - 1, t);
    }
  }

  /** In every run, no task is handed to the thread pool twice. */
  lemma RunsOnce(limits: Limits, states: seq<State>, steps: seq<Step>, i: nat, j: nat, t: nat)
    requires IsRun(limits, states, steps) && i < |steps| && j < |steps|
    requires Starts(states[i], steps[i], t) && Starts(states[j], steps[j], t)
    ensures i == j
  {
    if i < j { StartsOnce(limits, states, steps, i, j, t); }
    if j < i { StartsOnce(limits, states, steps, j, i, t); }
  }

  lemma StartsOnce(limits: Limits, states: seq<State>, steps: seq<Step>, i: nat, j: nat, t: nat)
    requires IsRun(limits, states, steps) && i < j < |steps| && Starts(states[i], steps[i], t)
    ensures !Starts(states[j], steps[j], t)
  {
    forall k | 0 <= k < |steps| ensures RanKeptAt(states, steps, k, t) { RunStepRan(limits, states, steps, k, t); }
    assert RanKeptAt(states, steps, i, t) && RanKeptAt(states, steps, j, t);
    StaysRan(states, steps, i + 1, j, t);
  }
}
