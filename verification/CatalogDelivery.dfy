/**
  What becomes of one intent: that it can always be delivered, that an invalid one never reaches Glue,
  and that a terminal one stays as it is.
 */
module CatalogDelivery {
  import opened Basics
  import opened CatalogTypes
  import OutboxStore
  import opened OutboxEntries
  import opened CatalogDrain

  // ---- an intent can always be delivered ----

  /** Supported versions, no blank name or value, and a value for each partition column. */
  ghost predicate Deliverable(intent: Intent) {
    && intent.version == 2 && intent.payload.version == 1
    && !Blank(intent.identity.namespace) && !Blank(intent.identity.key)
    && !Blank(intent.payload.target.database) && !Blank(intent.payload.target.table) && !Blank(intent.payload.location)
    && intent.payload.schemaNamespace == intent.identity.namespace
    && |intent.payload.values| == |intent.payload.partitionColumns| > 0
    && (forall i | 0 <= i < |intent.payload.values| :: !Blank(intent.payload.values[i]))
    && forall i | 0 <= i < |intent.payload.partitionColumns| :: !Blank(intent.payload.partitionColumns[i].name)
  }

  lemma AdmissibleExactly(intent: Intent)
    ensures Admissible(intent) <==> Deliverable(intent)
  {
  }

  /** `d'` is `d` with the intent of `e` in Glue and its file gone. */
  ghost predicate Delivers(d: Drain, e: Entry, d': Drain) {
    && d'.store.files == d.store.files - {e.id} && d'.tasks == d.tasks && d'.latest == d.latest
    && d'.glue == d.glue[PartitionOf(e.intent) := e.intent.payload.location]
  }

  /** One task in front of which are those of the other passes. */
  function With(d: Drain, t: Task): Drain {
    d.(tasks := d.tasks + [t])
  }

  lemma TakesUp(r: Rule, d: Drain, e: Entry, now: nat)
    requires e.id in d.store.files && d.store.files[e.id] == e && IsDue(e, now) && (Busy(d, e.id) ==> r.shared(e.id))
    requires Deliverable(e.intent)
    ensures StepBetween(r, d, Scan([e], now), With(d, Loaded(e)))
    ensures StepBetween(r, With(d, Loaded(e)), Inspect(|d.tasks|), With(d, Inspected(e, Located(d.glue, PartitionOf(e.intent)))))
  {
    AdmissibleExactly(e.intent);
    assert seq(1, i requires 0 <= i < 1 => Loaded([e][i])) == [Loaded(e)];
    var found := Located(d.glue, PartitionOf(e.intent));
    assert (d.tasks + [Loaded(e)])[|d.tasks| := Inspected(e, found)] == d.tasks + [Inspected(e, found)];
  }

  /** The state once Glue holds the location. */
  function Placed(d: Drain, e: Entry, t: Task): Drain {
    With(d, t).(glue := d.glue[PartitionOf(e.intent) := e.intent.payload.location])
  }

  lemma WritesGlue(r: Rule, d: Drain, e: Entry, step: Step)
    requires var found := Located(d.glue, PartitionOf(e.intent));
             && found != Some(e.intent.payload.location)
             && step == (if found.Some? then UpdateGlue(|d.tasks|, true, true, false) else CreateInGlue(|d.tasks|, true, true, false))
    ensures StepBetween(r, With(d, Inspected(e, Located(d.glue, PartitionOf(e.intent)))), step, Placed(d, e, Landed(e)))
  {
    var found := Located(d.glue, PartitionOf(e.intent));
    assert (d.tasks + [Inspected(e, found)])[|d.tasks| := Landed(e)] == d.tasks + [Landed(e)];
  }

  lemma Removes(r: Rule, d: Drain, e: Entry, t: Task)
    requires e.id in d.store.files && d.store.files[e.id] == e
    requires t == Landed(e) || t == Inspected(e, Some(e.intent.payload.location))
    ensures StepBetween(r, Placed(d, e, t), Deliver(|d.tasks|, OK), Next(r, Placed(d, e, t), Deliver(|d.tasks|, OK)))
    ensures Delivers(d, e, Next(r, Placed(d, e, t), Deliver(|d.tasks|, OK)))
  {
    assert (d.tasks + [t])[..|d.tasks|] + (d.tasks + [t])[|d.tasks| + 1..] == d.tasks;
    DeliveredIsGone(d.store, e, OK);
  }

  /** From every state, a due intent that is valid and free can be taken up, put into Glue and removed from the outbox. */
  lemma CanBeDelivered(r: Rule, d: Drain, e: Entry, now: nat) returns (states: seq<Drain>, steps: seq<Step>)
    requires e.id in d.store.files && d.store.files[e.id] == e && IsDue(e, now) && (Busy(d, e.id) ==> r.shared(e.id))
    requires Deliverable(e.intent)
    ensures Steps(r, states, steps) && states[0] == d && Delivers(d, e, states[|steps|])
  {
    var found := Located(d.glue, PartitionOf(e.intent));
    var d1, d2 := With(d, Loaded(e)), With(d, Inspected(e, found));
    TakesUp(r, d, e, now);
    var k := |d.tasks|;
    if found == Some(e.intent.payload.location) {
      assert d.glue[PartitionOf(e.intent) := e.intent.payload.location] == d.glue;
      assert Placed(d, e, Inspected(e, found)) == d2;
      Removes(r, d, e, Inspected(e, found));
      steps := [Scan([e], now), Inspect(k), Deliver(k, OK)];
      states := [d, d1, d2, Next(r, d2, Deliver(k, OK))];
    } else {
      var write := if found.Some? then UpdateGlue(k, true, true, false) else CreateInGlue(k, true, true, false);
      var d3 := Placed(d, e, Landed(e));
      WritesGlue(r, d, e, write);
      Removes(r, d, e, Landed(e));
      steps := [Scan([e], now), Inspect(k), write, Deliver(k, OK)];
      states := [d, d1, d2, d3, Next(r, d3, Deliver(k, OK))];
    }
  }

  /**
    Every run can go on so that a valid intent in the outbox, due and free, ends in Glue at its location
    and out of the outbox, with everything else as it was.
   */
  lemma EveryIntentCanLand(r: Rule, states: seq<Drain>, steps: seq<Step>, id: Id, now: nat)
    returns (states': seq<Drain>, steps': seq<Step>)
    requires Injective(r.owns) && Safe(r) && IsRun(r, states, steps)
    requires var d := states[|steps|];
             && id in d.store.files && IsDue(d.store.files[id], now) && Deliverable(d.store.files[id].intent)
             && (Busy(d, id) ==> r.shared(id))
    ensures IsRun(r, states', steps') && states <= states' && steps <= steps'
    ensures Delivers(states[|steps|], states[|steps|].store.files[id], states'[|steps'|])
  {
    var d := states[|steps|];
    DrainConverges(r, states, steps, |steps|);
    var more, taken := CanBeDelivered(r, d, d.store.files[id], now);
    JoinRuns(r, states, steps, more, taken);
    states', steps' := states + more[1..], steps + taken;
  }

  /**
    A restart forgets the running passes and nothing else, so that afterwards every valid intent that is
    due can be delivered, whatever was being worked on before.
   */
  lemma RestartFreesEverything(r: Rule, d: Drain, e: Entry, now: nat) returns (states: seq<Drain>, steps: seq<Step>)
    requires e.id in d.store.files && d.store.files[e.id] == e && IsDue(e, now) && Deliverable(e.intent)
    ensures Steps(r, states, steps) && states[0] == d && steps != [] && steps[0] == Restart
    ensures states[1].tasks == [] && states[1].store.files == d.store.files && states[1].glue == d.glue && states[1].latest == d.latest
    ensures Delivers(states[1], e, states[|steps|])
  {
    var d1 := Next(r, d, Restart);
    var more, taken := CanBeDelivered(r, d1, e, now);
    assert StepBetween(r, d, Restart, d1);
    JoinRuns(r, [d, d1], [Restart], more, taken);
    states, steps := [d, d1] + more[1..], [Restart] + taken;
  }

  // ---- invalid intents ----

  /** A task that has looked at Glue or written to it is of a valid intent, and a refused invalid one is terminal. */
  ghost predicate Vetted(t: Task) {
    && (t.Inspected? || t.Landed? ==> Admissible(t.entry.intent))
    && (t.Refused? && !t.terminal ==> Admissible(t.entry.intent))
  }

  ghost predicate AllVetted(d: Drain) {
    forall i | 0 <= i < |d.tasks| :: Vetted(d.tasks[i])
  }

  lemma StepVets(r: Rule, d: Drain, step: Step)
    requires AllVetted(d) && Enabled(r, d, step)
    ensures AllVetted(Next(r, d, step))
  {
    match step
    case Deliver(k, io) => DoneVetted(d.(store := OutboxStore.MarkDelivered(d.store, d.tasks[k].entry, io).0), k);
    case RecordRefusal(k, error, delay, io) => {
      var Refused(e, terminal) := d.tasks[k];
      DoneVetted(d.(store := OutboxStore.RecordFailure(d.store, e, error, if terminal then None else Some(delay), terminal, io).0), k);
    }
    case GiveUp(k) => DoneVetted(d, k);
    case UpdateGlue(k, _, _, _) => assert Vetted(d.tasks[k]);
    case CreateInGlue(k, _, _, _) => assert Vetted(d.tasks[k]);
    case _ =>
  }

  lemma DoneVetted(d: Drain, k: nat)
    requires AllVetted(d) && k < |d.tasks|
    ensures AllVetted(Done(d, k))
  {
    forall i | 0 <= i < |Done(d, k).tasks| ensures Vetted(Done(d, k).tasks[i]) {
      assert Vetted(d.tasks[if i < k then i else i + 1]);
    }
  }

  lemma {:induction false} RunVets(r: Rule, states: seq<Drain>, steps: seq<Step>, n: nat)
    requires IsRun(r, states, steps) && n < |states|
    ensures AllVetted(states[n])
  {
    if n > 0 {
      RunVets(r, states, steps, n - 1);
      assert StepBetween(r, states[n - 1], steps[n - 1], states[n - 1 + 1]);
      StepVets(r, states[n - 1], steps[n - 1]);
    }
  }

  /** In every run Glue is written for valid intents only, and always with their own location. */
  lemma OnlyValidReachesGlue(r: Rule, states: seq<Drain>, steps: seq<Step>, n: nat)
    requires IsRun(r, states, steps) && n < |steps| && states[n + 1].glue != states[n].glue
    ensures (steps[n].UpdateGlue? || steps[n].CreateInGlue?) && steps[n].task < |states[n].tasks|
    ensures var intent := states[n].tasks[steps[n].task].entry.intent;
            Deliverable(intent) && states[n + 1].glue == states[n].glue[PartitionOf(intent) := intent.payload.location]
  {
    assert StepBetween(r, states[n], steps[n], states[n + 1]);
    RunVets(r, states, steps, n);
    var t := states[n].tasks[steps[n].task];
    assert Vetted(t);
    AdmissibleExactly(t.entry.intent);
  }

  ghost predicate NeverDue(e: Entry) {
    forall now: nat :: !IsDue(e, now)
  }

  /** In every run a refusal recorded for an invalid intent is terminal: no later scan returns it. */
  lemma InvalidBecomesTerminal(r: Rule, states: seq<Drain>, steps: seq<Step>, n: nat)
    requires IsRun(r, states, steps) && n < |steps| && steps[n].RecordRefusal? && steps[n].task < |states[n].tasks|
    requires var e := states[n].tasks[steps[n].task].entry;
             !Deliverable(e.intent) && OutboxStore.Current(states[n].store, e.id) == Some(e)
    requires steps[n].cio.readOk && steps[n].cio.changeOk
    ensures var e := states[n].tasks[steps[n].task].entry;
            e.id in states[n + 1].store.files && NeverDue(states[n + 1].store.files[e.id])
  {
    assert StepBetween(r, states[n], steps[n], states[n + 1]);
    RunVets(r, states, steps, n);
    var t := states[n].tasks[steps[n].task];
    assert Vetted(t);
    AdmissibleExactly(t.entry.intent);
  }

  /**
    What a recorded refusal leaves, in every run: the failed entry, to be retried after the delay or, if
    the refusal was terminal, never.
   */
  lemma RefusalIsRecorded(r: Rule, states: seq<Drain>, steps: seq<Step>, n: nat)
    requires IsRun(r, states, steps) && n < |steps| && steps[n].RecordRefusal? && steps[n].task < |states[n].tasks|
    requires states[n].tasks[steps[n].task].Refused? && steps[n].cio.readOk && steps[n].cio.changeOk
    requires var e := states[n].tasks[steps[n].task].entry; OutboxStore.Current(states[n].store, e.id) == Some(e) && e.attempts <= U32_MAX
    ensures var Refused(e, terminal) := states[n].tasks[steps[n].task];
            && e.id in states[n + 1].store.files
            && Retries(e, states[n + 1].store.files[e.id], steps[n].error, if terminal then None else Some(steps[n].delay),
                       terminal, steps[n].cio.now)
  {
    assert StepBetween(r, states[n], steps[n], states[n + 1]);
    var Refused(e, terminal) := states[n].tasks[steps[n].task];
    FailureRecorded(states[n].store, e, steps[n].error, if terminal then None else Some(steps[n].delay), terminal, steps[n].cio);
  }

  // ---- when a pass takes an intent up ----

  /** Some scan before step `n` took the entry up from its file, when it was due. */
  ghost predicate TakenWhenDue(states: seq<Drain>, steps: seq<Step>, n: nat, e: Entry, i: int) {
    && 0 <= i < n <= |steps| && |steps| < |states| && steps[i].Scan? && e in steps[i].snapshot
    && IsDue(e, steps[i].now) && OutboxStore.Current(states[i].store, e.id) == Some(e)
  }

  ghost predicate WasDue(states: seq<Drain>, steps: seq<Step>, n: nat, e: Entry) {
    exists i :: TakenWhenDue(states, steps, n, e, i)
  }

  ghost predicate AllTakenWhenDue(states: seq<Drain>, steps: seq<Step>, n: nat)
    requires n < |states|
  {
    forall k | 0 <= k < |states[n].tasks| :: WasDue(states, steps, n, states[n].tasks[k].entry)
  }

  /** Every task after a step is of an entry that had a task before, or that the step's scan found. */
  lemma StepTasks(r: Rule, d: Drain, step: Step, k: nat)
    requires Enabled(r, d, step) && k < |Next(r, d, step).tasks|
    ensures var e := Next(r, d, step).tasks[k].entry;
            (exists j | 0 <= j < |d.tasks| :: d.tasks[j].entry == e)
            || (step.Scan? && e in step.snapshot && IsDue(e, step.now) && OutboxStore.Current(d.store, e.id) == Some(e))
  {
    var t := Next(r, d, step).tasks[k];
    match step
    case Scan(snapshot, _) =>
      if k < |d.tasks| {
        assert d.tasks[k] == t;
      } else {
        assert t == Loaded(snapshot[k - |d.tasks|]) && snapshot[k - |d.tasks|] in snapshot;
      }
    case Deliver(i, _) => assert t == d.tasks[if k < i then k else k + 1];
    case RecordRefusal(i, _, _, _) => assert t == d.tasks[if k < i then k else k + 1];
    case GiveUp(i) => assert t == d.tasks[if k < i then k else k + 1];
    case Restart =>
    case PersistIntent(_, _) => assert d.tasks[k] == t;
    case _ => assert d.tasks[k].entry == t.entry;
  }

  /** In every run a pass works only on entries it found in the outbox, due at the time of its scan and not terminal. */
  lemma {:induction false} OnlyDueIsTakenUp(r: Rule, states: seq<Drain>, steps: seq<Step>, n: nat)
    requires IsRun(r, states, steps) && n < |states|
    ensures AllTakenWhenDue(states, steps, n)
  {
    if n > 0 {
      var m := n - 1;
      OnlyDueIsTakenUp(r, states, steps, m);
      assert StepBetween(r, states[m], steps[m], states[m + 1]);
      forall k | 0 <= k < |states[n].tasks| ensures WasDue(states, steps, n, states[n].tasks[k].entry) {
        var e := states[n].tasks[k].entry;
        StepTasks(r, states[m], steps[m], k);
        if j :| 0 <= j < |states[m].tasks| && states[m].tasks[j].entry == e {
          assert WasDue(states, steps, m, states[m].tasks[j].entry);
          var i :| TakenWhenDue(states, steps, m, e, i);
          assert TakenWhenDue(states, steps, n, e, i);
        } else {
          assert TakenWhenDue(states, steps, n, e, m);
        }
      }
    }
  }

  // ---- terminal intents ----

  ghost predicate Resting(d: Drain, e: Entry) {
    OutboxStore.Current(d.store, e.id) == Some(e) && !Busy(d, e.id)
  }

  /** The step persists other content for the id. */
  ghost predicate Renews(r: Rule, step: Step, e: Entry) {
    step.PersistIntent? && r.idOf(step.intent.identity) == e.id && step.intent != e.intent
  }

  lemma StepRests(r: Rule, d: Drain, step: Step, e: Entry)
    requires Resting(d, e) && e.terminal && Enabled(r, d, step) && !Renews(r, step, e)
    ensures Resting(Next(r, d, step), e)
  {
    FileRests(r, d, step, e);
    forall k | 0 <= k < |Next(r, d, step).tasks| ensures Next(r, d, step).tasks[k].entry.id != e.id {
      StepTasks(r, d, step, k);
    }
  }

  lemma FileRests(r: Rule, d: Drain, step: Step, e: Entry)
    requires Resting(d, e) && Enabled(r, d, step) && !Renews(r, step, e)
    ensures OutboxStore.Current(Next(r, d, step).store, e.id) == Some(e)
  {
    match step
    case PersistIntent(intent, io) => PersistOneFile(r.idOf, d.store, intent, io);
    case Deliver(k, io) => DeliveredIsGone(d.store, d.tasks[k].entry, io);
    case _ =>
  }

  /** Along every run a terminal intent keeps its file, and no pass takes it up, until other content is persisted for its id. */
  lemma {:induction false} TerminalStays(r: Rule, states: seq<Drain>, steps: seq<Step>, i: nat, n: nat, e: Entry)
    requires IsRun(r, states, steps) && i <= n < |states| && Resting(states[i], e) && e.terminal
    requires forall k | i <= k < n :: !Renews(r, steps[k], e)
    ensures Resting(states[n], e)
  {
    if i < n {
      TerminalStays(r, states, steps, i, n - 1, e);
      assert StepBetween(r, states[n - 1], steps[n - 1], states[n - 1 + 1]);
      StepRests(r, states[n - 1], steps[n - 1], e);
    }
  }
}
