/**
  Draining the outbox into Glue, as a protocol between callers that persist at any
  moment, any number of drain passes, and a Glue catalog that may answer anything.
  Every suspension point of a pass is a step of its own.
 */
module CatalogDrain {
  import opened Basics
  import opened CatalogTypes
  import opened OutboxStore

  datatype Partition = Partition(target: GlueTarget, values: seq<string>)

  function PartitionOf(intent: Intent): Partition {
    Partition(intent.payload.target, intent.payload.values)
  }

  const CATALOG_INTENT_VERSION: nat := 2
  const GLUE_PARTITION_INTENT_VERSION: nat := 1

  predicate Admissible(intent: Intent) {
    && intent.version == CATALOG_INTENT_VERSION
    && !Blank(intent.identity.namespace) && !Blank(intent.identity.key)
    && intent.payload.version == GLUE_PARTITION_INTENT_VERSION
    && !Blank(intent.payload.target.database) && !Blank(intent.payload.target.table)
    && !Blank(intent.payload.location)
    && intent.payload.schemaNamespace == intent.identity.namespace
    && intent.payload.values != [] && |intent.payload.values| == |intent.payload.partitionColumns|
    && (forall v | v in intent.payload.values :: !Blank(v))
    && forall c | c in intent.payload.partitionColumns :: !Blank(c.name)
  }

  /** Where a pass stands with one snapshot it took from the outbox. */
  datatype Task =
    | Loaded(entry: Entry)
    | Inspected(entry: Entry, found: Option<string>)
    | Landed(entry: Entry)
    | Refused(entry: Entry, terminal: bool)

  /** `tasks` are those of every running pass. `latest` has, for each id, the intent last persisted; nothing reads it. */
  datatype Drain = Drain(store: Store, glue: map<Partition, string>, latest: map<Id, Intent>, tasks: seq<Task>)

  /**
    The digest of an identity, the Glue partition of an id, and the scan rule: `shared` has the ids
    that a pass may take up while another pass is still busy with them.
   */
  datatype Rule = Rule(idOf: Identity -> Id, owns: Id -> Partition, shared: Id -> bool)

  datatype Step =
    | PersistIntent(intent: Intent, pio: PersistIo)
    | Scan(snapshot: seq<Entry>, now: nat)
    | Refuse(task: nat, terminal: bool)
    | Inspect(task: nat)
    | UpdateGlue(task: nat, ok: bool, applied: bool, terminal: bool)
    | CreateInGlue(task: nat, ok: bool, applied: bool, terminal: bool)
    | Deliver(task: nat, cio: CasIo)
    | RecordRefusal(task: nat, error: string, delay: nat, cio: CasIo)
    | GiveUp(task: nat)
    | Restart

  function Located(glue: map<Partition, string>, p: Partition): Option<string> {
    if p in glue then Some(glue[p]) else None
  }

  function At(d: Drain, i: nat, t: Task): Drain
    requires i < |d.tasks|
  {
    d.(tasks := d.tasks[i := t])
  }

  function Done(d: Drain, i: nat): Drain
    requires i < |d.tasks|
  {
    d.(tasks := d.tasks[..i] + d.tasks[i + 1..])
  }

  /** A Glue write that reports success has happened; one that reports an error may have. */
  function Wrote(d: Drain, i: nat, ok: bool, applied: bool, terminal: bool): Drain
    requires i < |d.tasks|
  {
    var e := d.tasks[i].entry;
    var d' := if ok || applied then d.(glue := d.glue[PartitionOf(e.intent) := e.intent.payload.location]) else d;
    At(d', i, if ok then Landed(e) else Refused(e, terminal))
  }

  /** Some running task has the id. */
  predicate Busy(d: Drain, id: Id) {
    exists i | 0 <= i < |d.tasks| :: d.tasks[i].entry.id == id
  }

  ghost predicate Enabled(r: Rule, d: Drain, step: Step) {
    match step
    case PersistIntent(intent, _) => PartitionOf(intent) == r.owns(r.idOf(intent.identity))
    case Scan(snapshot, now) =>
      && (forall e | e in snapshot :: e.id in d.store.files && d.store.files[e.id] == e && !e.terminal && e.nextAttemptAt <= now)
      && (forall i, j | 0 <= i < j < |snapshot| :: snapshot[i].id != snapshot[j].id)
      && forall e | e in snapshot && Busy(d, e.id) :: r.shared(e.id)
    case Refuse(i, terminal) => i < |d.tasks| && d.tasks[i].Loaded? && (!Admissible(d.tasks[i].entry.intent) ==> terminal)
    case Inspect(i) => i < |d.tasks| && d.tasks[i].Loaded? && Admissible(d.tasks[i].entry.intent)
    case UpdateGlue(i, _, _, _) =>
      && i < |d.tasks| && d.tasks[i].Inspected? && d.tasks[i].found.Some?
      && d.tasks[i].found.value != d.tasks[i].entry.intent.payload.location
    case CreateInGlue(i, _, _, _) => i < |d.tasks| && d.tasks[i].Inspected? && d.tasks[i].found.None?
    case Deliver(i, _) =>
      && i < |d.tasks|
      && (d.tasks[i].Landed?
          || (d.tasks[i].Inspected? && d.tasks[i].found == Some(d.tasks[i].entry.intent.payload.location)))
    case RecordRefusal(i, _, _, _) => i < |d.tasks| && d.tasks[i].Refused?
    case GiveUp(i) => i < |d.tasks|
    case Restart => true
  }

  /** Persisting one intent makes it the identity's latest unless its file could not be written. */
  function Announced(r: Rule, d: Drain, intent: Intent, io: PersistIo): map<Id, Intent> {
    if Coalesces(d.store, r.idOf(intent.identity), intent) || io.writeOk(0)
    then d.latest[r.idOf(intent.identity) := intent]
    else d.latest
  }

  ghost function Next(r: Rule, d: Drain, step: Step): Drain
    requires Enabled(r, d, step)
  {
    match step
    case PersistIntent(intent, io) =>
      d.(store := Persist(r.idOf, d.store, [intent], io).0, latest := Announced(r, d, intent, io))
    case Scan(snapshot, _) =>
      d.(tasks := d.tasks + seq(|snapshot|, i requires 0 <= i < |snapshot| => Loaded(snapshot[i])))
    case Refuse(i, terminal) => At(d, i, Refused(d.tasks[i].entry, terminal))
    case Inspect(i) => At(d, i, Inspected(d.tasks[i].entry, Located(d.glue, PartitionOf(d.tasks[i].entry.intent))))
    case UpdateGlue(i, ok, applied, terminal) => Wrote(d, i, ok, applied, terminal)
    case CreateInGlue(i, ok, applied, terminal) => Wrote(d, i, ok, applied, terminal)
    case Deliver(i, io) => Done(d.(store := MarkDelivered(d.store, d.tasks[i].entry, io).0), i)
    case RecordRefusal(i, error, delay, io) =>
      var Refused(e, terminal) := d.tasks[i];
      Done(d.(store := RecordFailure(d.store, e, error, if terminal then None else Some(delay), terminal, io).0), i)
    case GiveUp(i) => Done(d, i)
    case Restart => d.(tasks := [], store := d.store.(syncRequired := false))
  }

  // ---- the invariant ----

  /** A file in the outbox holds the intent most recently persisted under its id. */
  ghost predicate FilesAreLatest(r: Rule, d: Drain) {
    forall id | id in d.store.files ::
      && id in d.latest && d.store.files[id].intent == d.latest[id]
      && d.store.files[id].id == id && r.idOf(d.latest[id].identity) == id
  }

  /** An id persisted and no longer in the outbox has its Glue partition where its latest intent put it. */
  ghost predicate GoneIsPublished(r: Rule, d: Drain) {
    forall id | id in d.latest && id !in d.store.files ::
      r.owns(id) in d.glue && d.glue[r.owns(id)] == d.latest[id].payload.location
  }

  /** The latest intents are of their id's partition, and those gone from the outbox could be delivered. */
  ghost predicate LatestOwned(r: Rule, d: Drain) {
    && (forall id | id in d.latest :: OfId(r, id, d.latest[id]))
    && forall id | id in d.latest && id !in d.store.files :: Admissible(d.latest[id])
  }

  /** The intent belongs to the id and to the id's partition. */
  ghost predicate OfId(r: Rule, id: Id, intent: Intent) {
    r.idOf(intent.identity) == id && PartitionOf(intent) == r.owns(id)
  }

  /**
    What a pass relies on when it delivers is true. A task that has its id to itself also has its id
    in the outbox and knows what Glue holds.
   */
  ghost predicate TaskTrue(r: Rule, d: Drain, t: Task) {
    var id, location, now := t.entry.id, t.entry.intent.payload.location, Located(d.glue, r.owns(t.entry.id));
    && OfId(r, id, t.entry.intent)
    && (t.Inspected? || t.Landed? ==> Admissible(t.entry.intent))
    && (t.Inspected? && t.found == Some(location) ==> now == Some(location))
    && (t.Landed? ==> now == Some(location))
    && (!r.shared(id) ==> id in d.store.files && (t.Inspected? ==> now == t.found))
  }

  ghost predicate TasksTrue(r: Rule, d: Drain) {
    && (forall i | 0 <= i < |d.tasks| :: TaskTrue(r, d, d.tasks[i]))
    && forall i, j | 0 <= i < j < |d.tasks| && d.tasks[i].entry.id == d.tasks[j].entry.id :: r.shared(d.tasks[i].entry.id)
  }

  ghost predicate Inv(r: Rule, d: Drain) {
    FilesAreLatest(r, d) && GoneIsPublished(r, d) && LatestOwned(r, d) && TasksTrue(r, d)
  }

  /** Each identity has a Glue partition of its own. */
  ghost predicate Injective(owns: Id -> Partition) {
    forall a, b | owns(a) == owns(b) :: a == b
  }

  /** Every intent that can be delivered for the id has the same location. */
  ghost predicate OneLocation(r: Rule, id: Id) {
    forall a, b | OfId(r, id, a) && OfId(r, id, b) && Admissible(a) && Admissible(b) ::
      a.payload.location == b.payload.location
  }

  /** Passes may meet only on ids whose location never changes. */
  ghost predicate Safe(r: Rule) {
    forall id: Id | r.shared(id) :: OneLocation(r, id)
  }

  // ---- every step keeps the invariant ----

  /** A one-intent persist replaces that id's file or leaves the files alone. */
  lemma PersistOneFile(idOf: Identity -> Id, s: Store, intent: Intent, io: PersistIo)
    ensures var id := idOf(intent.identity);
            Persist(idOf, s, [intent], io).0.files ==
            if !Coalesces(s, id, intent) && io.writeOk(0) then s.files[id := NewEntry(s, id, intent, io.clock(0))] else s.files
  {
    var w := WriteFile(s, NewEntry(s, idOf(intent.identity), intent, io.clock(0))).(syncRequired := true);
    assert PersistFrom(idOf, s, [intent], io, 1) == (s, true);
    assert PersistFrom(idOf, w, [intent], io, 1) == (w, true);
  }

  lemma PersistKeeps(r: Rule, d: Drain, intent: Intent, io: PersistIo)
    requires Inv(r, d) && Enabled(r, d, PersistIntent(intent, io))
    ensures Inv(r, Next(r, d, PersistIntent(intent, io)))
  {
    var id := r.idOf(intent.identity);
    PersistOneFile(r.idOf, d.store, intent, io);
    SavedKeeps(r, d, Next(r, d, PersistIntent(intent, io)), NewEntry(d.store, id, intent, io.clock(0)));
  }

  /** A file replaced together with the record of the latest intent leaves everything true. */
  lemma SavedKeeps(r: Rule, d: Drain, d': Drain, e: Entry)
    requires Inv(r, d) && d'.glue == d.glue && d'.tasks == d.tasks && OfId(r, e.id, e.intent)
    requires || (d'.store.files == d.store.files && d'.latest == d.latest)
             || (d'.store.files == d.store.files[e.id := e] && d'.latest == d.latest[e.id := e.intent])
    ensures Inv(r, d')
  {
    assert TasksTrue(r, d') by { TasksStay(r, d, d'); }
    if d'.latest == d.latest && d'.store.files == d.store.files {
    } else {
      SavedFiles(r, d, d', e);
    }
  }

  lemma SavedFiles(r: Rule, d: Drain, d': Drain, e: Entry)
    requires FilesAreLatest(r, d) && GoneIsPublished(r, d) && LatestOwned(r, d) && d'.glue == d.glue && OfId(r, e.id, e.intent)
    requires d'.store.files == d.store.files[e.id := e] && d'.latest == d.latest[e.id := e.intent]
    ensures FilesAreLatest(r, d') && GoneIsPublished(r, d') && LatestOwned(r, d')
  {
  }

  lemma TasksStay(r: Rule, d: Drain, d': Drain)
    requires TasksTrue(r, d) && d'.glue == d.glue && d'.tasks == d.tasks && d.store.files.Keys <= d'.store.files.Keys
    ensures TasksTrue(r, d')
  {
    forall i | 0 <= i < |d'.tasks| ensures TaskTrue(r, d', d'.tasks[i]) { assert TaskTrue(r, d, d.tasks[i]); }
  }

  lemma ScanTask(r: Rule, d: Drain, d': Drain, e: Entry)
    requires FilesAreLatest(r, d) && LatestOwned(r, d) && e.id in d.store.files && d.store.files[e.id] == e
    requires d'.store == d.store
    ensures TaskTrue(r, d', Loaded(e))
  {
    assert OfId(r, e.id, d.latest[e.id]);
  }

  lemma ScanTrue(r: Rule, d: Drain, snapshot: seq<Entry>, now: nat, i: nat)
    requires FilesAreLatest(r, d) && LatestOwned(r, d) && TasksTrue(r, d) && Enabled(r, d, Scan(snapshot, now))
    requires i < |d.tasks| + |snapshot|
    ensures TaskTrue(r, Next(r, d, Scan(snapshot, now)), Next(r, d, Scan(snapshot, now)).tasks[i])
  {
    var n := |d.tasks|;
    if i < n {
      assert TaskTrue(r, d, d.tasks[i]);
    } else {
      assert snapshot[i - n] in snapshot;
      ScanTask(r, d, Next(r, d, Scan(snapshot, now)), snapshot[i - n]);
    }
  }

  lemma ScanShares(r: Rule, d: Drain, snapshot: seq<Entry>, now: nat, i: nat, j: nat)
    requires TasksTrue(r, d) && Enabled(r, d, Scan(snapshot, now)) && i < j < |d.tasks| + |snapshot|
    ensures var tasks := Next(r, d, Scan(snapshot, now)).tasks;
            tasks[i].entry.id == tasks[j].entry.id ==> r.shared(tasks[i].entry.id)
  {
    var n := |d.tasks|;
    if i < n <= j {
      assert snapshot[j - n] in snapshot;
      if d.tasks[i].entry.id == snapshot[j - n].id { assert Busy(d, snapshot[j - n].id); }
    }
  }

  lemma ScanTasks(r: Rule, d: Drain, snapshot: seq<Entry>, now: nat)
    requires FilesAreLatest(r, d) && LatestOwned(r, d) && TasksTrue(r, d) && Enabled(r, d, Scan(snapshot, now))
    ensures TasksTrue(r, Next(r, d, Scan(snapshot, now)))
  {
    var d' := Next(r, d, Scan(snapshot, now));
    forall i | 0 <= i < |d'.tasks| ensures TaskTrue(r, d', d'.tasks[i]) { ScanTrue(r, d, snapshot, now, i); }
    forall i, j | 0 <= i < j < |d'.tasks| && d'.tasks[i].entry.id == d'.tasks[j].entry.id
      ensures r.shared(d'.tasks[i].entry.id)
    {
      ScanShares(r, d, snapshot, now, i, j);
    }
  }

  lemma ScanKeeps(r: Rule, d: Drain, snapshot: seq<Entry>, now: nat)
    requires Inv(r, d) && Enabled(r, d, Scan(snapshot, now))
    ensures Inv(r, Next(r, d, Scan(snapshot, now)))
  {
    var d' := Next(r, d, Scan(snapshot, now));
    assert TasksTrue(r, d') by { ScanTasks(r, d, snapshot, now); }
    assert d'.store == d.store && d'.glue == d.glue && d'.latest == d.latest;
  }

  /** A Glue write moves one partition, and only tasks of that partition's id can notice. */
  lemma WroteTasks(r: Rule, d: Drain, i: nat, ok: bool, applied: bool, terminal: bool, j: nat)
    requires Injective(r.owns) && Safe(r) && TasksTrue(r, d) && i < |d.tasks| && d.tasks[i].Inspected? && j < |d.tasks|
    ensures TaskTrue(r, Wrote(d, i, ok, applied, terminal), Wrote(d, i, ok, applied, terminal).tasks[j])
  {
    assert TaskTrue(r, d, d.tasks[i]) && TaskTrue(r, d, d.tasks[j]);
    if j != i && d.tasks[j].entry.id == d.tasks[i].entry.id {
      assert r.shared(d.tasks[i].entry.id);
      assert OneLocation(r, d.tasks[i].entry.id);
    }
  }

  /** What has left the outbox is not moved, or is moved to where it already belongs. */
  lemma WroteGone(r: Rule, d: Drain, i: nat, ok: bool, applied: bool, terminal: bool)
    requires Injective(r.owns) && Safe(r) && GoneIsPublished(r, d) && LatestOwned(r, d)
    requires i < |d.tasks| && d.tasks[i].Inspected? && TaskTrue(r, d, d.tasks[i])
    ensures GoneIsPublished(r, Wrote(d, i, ok, applied, terminal))
  {
    var e := d.tasks[i].entry;
    if e.id in d.latest && e.id !in d.store.files { assert OneLocation(r, e.id); }
  }

  lemma WroteKeeps(r: Rule, d: Drain, i: nat, ok: bool, applied: bool, terminal: bool)
    requires Injective(r.owns) && Safe(r) && Inv(r, d) && i < |d.tasks| && d.tasks[i].Inspected?
    ensures Inv(r, Wrote(d, i, ok, applied, terminal))
  {
    var d' := Wrote(d, i, ok, applied, terminal);
    assert GoneIsPublished(r, d') by {
      assert TaskTrue(r, d, d.tasks[i]);
      WroteGone(r, d, i, ok, applied, terminal);
    }
    assert TasksTrue(r, d') by {
      forall j | 0 <= j < |d.tasks| ensures TaskTrue(r, d', d'.tasks[j]) { WroteTasks(r, d, i, ok, applied, terminal, j); }
    }
  }

  /** Removing a file only after its location is in Glue leaves nothing unpublished. */
  lemma DeliverFiles(s: Store, e: Entry, io: CasIo)
    ensures var s' := MarkDelivered(s, e, io).0;
            s'.files == s.files || (e.id in s.files && s.files[e.id] == e && s'.files == s.files - {e.id})
  {
  }

  lemma DeliverKeeps(r: Rule, d: Drain, i: nat, io: CasIo)
    requires Inv(r, d) && Enabled(r, d, Deliver(i, io))
    ensures Inv(r, Next(r, d, Deliver(i, io)))
  {
    var d' := Next(r, d, Deliver(i, io));
    DeliverFiles(d.store, d.tasks[i].entry, io);
    assert TasksTrue(r, d') by { RestKeeps(r, d, d', i); }
    assert TaskTrue(r, d, d.tasks[i]);
  }

  lemma RecordFiles(s: Store, e: Entry, error: string, delay: Option<nat>, terminal: bool, io: CasIo)
    ensures var s' := RecordFailure(s, e, error, delay, terminal, io).0;
            || s'.files == s.files
            || (e.id in s.files && s.files[e.id] == e
                && s'.files == s.files[e.id := FailedEntry(e, error, delay, terminal, io.now)])
  {
  }

  lemma RecordKeeps(r: Rule, d: Drain, i: nat, error: string, delay: nat, io: CasIo)
    requires Inv(r, d) && Enabled(r, d, RecordRefusal(i, error, delay, io))
    ensures Inv(r, Next(r, d, RecordRefusal(i, error, delay, io)))
  {
    var Refused(e, terminal) := d.tasks[i];
    RecordFiles(d.store, e, error, if terminal then None else Some(delay), terminal, io);
    RestKeeps(r, d, Next(r, d, RecordRefusal(i, error, delay, io)), i);
  }

  /** Finishing one task leaves the others as true as they were. */
  lemma RestKeeps(r: Rule, d: Drain, d': Drain, i: nat)
    requires TasksTrue(r, d) && i < |d.tasks| && d'.tasks == Done(d, i).tasks && d'.glue == d.glue
    requires forall id | id in d.store.files && id != d.tasks[i].entry.id :: id in d'.store.files
    ensures TasksTrue(r, d')
  {
    forall j | 0 <= j < |d'.tasks| ensures TaskTrue(r, d', d'.tasks[j]) {
      var k := if j < i then j else j + 1;
      assert d'.tasks[j] == d.tasks[k] && TaskTrue(r, d, d.tasks[k]);
      if d.tasks[k].entry.id == d.tasks[i].entry.id { assert r.shared(d.tasks[i].entry.id); }
    }
    forall a, b | 0 <= a < b < |d'.tasks| && d'.tasks[a].entry.id == d'.tasks[b].entry.id
      ensures r.shared(d'.tasks[a].entry.id)
    {
      assert d'.tasks[a] == d.tasks[if a < i then a else a + 1] && d'.tasks[b] == d.tasks[if b < i then b else b + 1];
    }
  }

  /** A task moves to its next stage with a belief about Glue that is true now. */
  lemma RetaskKeeps(r: Rule, d: Drain, i: nat, t: Task)
    requires Inv(r, d) && i < |d.tasks| && t.entry == d.tasks[i].entry && TaskTrue(r, d, t)
    ensures Inv(r, At(d, i, t))
  {
    var d' := At(d, i, t);
    forall j | 0 <= j < |d'.tasks| ensures TaskTrue(r, d', d'.tasks[j]) {
      if j != i { assert TaskTrue(r, d, d.tasks[j]); }
    }
  }

  lemma StepKeepsInv(r: Rule, d: Drain, step: Step)
    requires Injective(r.owns) && Safe(r) && Inv(r, d) && Enabled(r, d, step)
    ensures Inv(r, Next(r, d, step))
  {
    match step
    case PersistIntent(intent, io) => PersistKeeps(r, d, intent, io);
    case Scan(snapshot, now) => ScanKeeps(r, d, snapshot, now);
    case Refuse(i, terminal) =>
      assert TaskTrue(r, d, d.tasks[i]);
      RetaskKeeps(r, d, i, Refused(d.tasks[i].entry, terminal));
    case Inspect(i) =>
      assert TaskTrue(r, d, d.tasks[i]);
      RetaskKeeps(r, d, i, Inspected(d.tasks[i].entry, Located(d.glue, PartitionOf(d.tasks[i].entry.intent))));
    case UpdateGlue(i, ok, applied, terminal) => WroteKeeps(r, d, i, ok, applied, terminal);
    case CreateInGlue(i, ok, applied, terminal) => WroteKeeps(r, d, i, ok, applied, terminal);
    case Deliver(i, io) => DeliverKeeps(r, d, i, io);
    case RecordRefusal(i, error, delay, io) => RecordKeeps(r, d, i, error, delay, io);
    case GiveUp(i) => RestKeeps(r, d, Done(d, i), i);
    case Restart =>
  }

  // ---- whole runs ----

  ghost predicate StepBetween(r: Rule, d: Drain, step: Step, d': Drain) {
    Enabled(r, d, step) && d' == Next(r, d, step)
  }

  /** Steps taken one after another, with the state after each. */
  ghost predicate Steps(r: Rule, states: seq<Drain>, steps: seq<Step>) {
    && |states| == |steps| + 1
    && forall i | 0 <= i < |steps| :: StepBetween(r, states[i], steps[i], states[i + 1])
  }

  /** Start with an outbox recovered from disk, whatever Glue holds, and no pass running. */
  ghost predicate Initial(r: Rule, d: Drain) {
    && d.tasks == [] && Keyed(r.idOf, d.store.files)
    && d.latest == (map id | id in d.store.files :: d.store.files[id].intent)
    && forall id | id in d.store.files :: PartitionOf(d.store.files[id].intent) == r.owns(id)
  }

  ghost predicate IsRun(r: Rule, states: seq<Drain>, steps: seq<Step>) {
    Steps(r, states, steps) && Initial(r, states[0])
  }

  /** The outbox holds latest intents, and what is no longer in it is in Glue. */
  ghost predicate Converged(r: Rule, d: Drain) {
    && (forall id | id in d.store.files :: id in d.latest && d.store.files[id].intent == d.latest[id])
    && forall id | id in d.latest && id !in d.store.files ::
         Located(d.glue, PartitionOf(d.latest[id])) == Some(d.latest[id].payload.location)
  }

  /**
    In every state of every run in which passes meet only on ids whose location never changes, for every
    pattern of Glue answers and every interleaving: an id in the outbox holds its latest persisted
    intent, and an id persisted but no longer there has its partition at that intent's location.
   */
  lemma {:induction false} DrainConverges(r: Rule, states: seq<Drain>, steps: seq<Step>, n: nat)
    requires Injective(r.owns) && Safe(r) && IsRun(r, states, steps) && n < |states|
    ensures Inv(r, states[n]) && Converged(r, states[n])
    decreases n
  {
    if n > 0 {
      DrainConverges(r, states, steps, n - 1);
      assert StepBetween(r, states[n - 1], steps[n - 1], states[n - 1 + 1]);
      StepKeepsInv(r, states[n - 1], steps[n - 1]);
    }
  }

  /** Passes that never take up an id another pass is busy with converge, whatever locations do. */
  lemma DisjointPassesConverge(r: Rule, states: seq<Drain>, steps: seq<Step>, n: nat)
    requires Injective(r.owns) && (forall id: Id :: !r.shared(id)) && IsRun(r, states, steps) && n < |states|
    ensures Converged(r, states[n])
  {
    DrainConverges(r, states, steps, n);
  }

  // ---- two passes on one id ----

  const CALM: PersistIo := PersistIo((i: nat) => 0, (i: nat) => true, true)
  const OK: CasIo := CasIo(0, true, true, true)

  /** Two intents of one id with different locations, and a third location in Glue. */
  ghost predicate Clash(r: Rule, id: Id, a: Intent, b: Intent, loc: string) {
    && OfId(r, id, a) && OfId(r, id, b) && Admissible(a) && Admissible(b)
    && a.payload.location != b.payload.location && loc != a.payload.location && loc != b.payload.location
  }

  /** The state of a run that persisted `a`, inspected it, and then persisted `b` under the same id. */
  ghost function Overtaken(id: Id, a: Intent, b: Intent, p: Partition, loc: string): Drain {
    var ea := Entry(id, a, 0, 0, 0, 0, None, false);
    Drain(Store(map[id := Entry(id, b, 0, 0, 0, 0, None, false)], map[], false), map[p := loc], map[id := b],
          [Inspected(ea, Some(loc))])
  }

  /** The same run once a second pass has published and delivered `b`. */
  ghost function Published(id: Id, a: Intent, b: Intent, p: Partition, loc: string): Drain {
    var ea := Entry(id, a, 0, 0, 0, 0, None, false);
    Drain(Store(map[], map[], false), map[p := b.payload.location], map[id := b], [Inspected(ea, Some(loc))])
  }

  lemma PersistCalm(idOf: Identity -> Id, s: Store, intent: Intent)
    requires s.maybe == map[] && !s.syncRequired && !Coalesces(s, idOf(intent.identity), intent)
    ensures var id := idOf(intent.identity);
            Persist(idOf, s, [intent], CALM).0 == Store(s.files[id := NewEntry(s, id, intent, 0)], map[], false)
  {
    var id := idOf(intent.identity);
    var w := WriteFile(s, NewEntry(s, id, intent, 0)).(syncRequired := true);
    assert PersistFrom(idOf, w, [intent], CALM, 1) == (w, true);
    assert PersistFrom(idOf, s, [intent], CALM, 0) == (w, true);
  }

  lemma InspectOlder(r: Rule, id: Id, a: Intent, loc: string) returns (states: seq<Drain>, steps: seq<Step>)
    requires OfId(r, id, a) && Admissible(a)
    ensures IsRun(r, states, steps)
    ensures var ea := Entry(id, a, 0, 0, 0, 0, None, false);
            states[|steps|] == Drain(Store(map[id := ea], map[], false), map[r.owns(id) := loc], map[id := a], [Inspected(ea, Some(loc))])
  {
    var p, ea := r.owns(id), Entry(id, a, 0, 0, 0, 0, None, false);
    var d0 := Drain(Store(map[], map[], false), map[p := loc], map[], []);
    var d1 := Drain(Store(map[id := ea], map[], false), map[p := loc], map[id := a], []);
    var d2 := d1.(tasks := [Loaded(ea)]);
    var d3 := d1.(tasks := [Inspected(ea, Some(loc))]);
    PersistCalm(r.idOf, d0.store, a);
    steps := [PersistIntent(a, CALM), Scan([ea], 0), Inspect(0)];
    states := [d0, d1, d2, d3];
    assert StepBetween(r, d0, steps[0], d1);
    assert StepBetween(r, d1, steps[1], d2);
    assert StepBetween(r, d2, steps[2], d3);
  }

  lemma Overtake(r: Rule, id: Id, a: Intent, b: Intent, loc: string) returns (states: seq<Drain>, steps: seq<Step>)
    requires Clash(r, id, a, b, loc)
    ensures IsRun(r, states, steps) && states[|steps|] == Overtaken(id, a, b, r.owns(id), loc)
  {
    var ea, eb := Entry(id, a, 0, 0, 0, 0, None, false), Entry(id, b, 0, 0, 0, 0, None, false);
    var ss, xs := InspectOlder(r, id, a, loc);
    var d3, d4 := ss[|xs|], Overtaken(id, a, b, r.owns(id), loc);
    PersistCalm(r.idOf, d3.store, b);
    assert map[id := ea][id := eb] == map[id := eb] && map[id := a][id := b] == map[id := b];
    assert StepBetween(r, d3, PersistIntent(b, CALM), d4);
    JoinRuns(r, ss, xs, [d3, d4], [PersistIntent(b, CALM)]);
    states, steps := ss + [d3, d4][1..], xs + [PersistIntent(b, CALM)];
  }

  lemma PublishBeside(r: Rule, id: Id, a: Intent, b: Intent, loc: string) returns (states: seq<Drain>, steps: seq<Step>)
    requires Clash(r, id, a, b, loc) && r.shared(id)
    ensures Steps(r, states, steps)
    ensures states[0] == Overtaken(id, a, b, r.owns(id), loc) && states[|steps|] == Published(id, a, b, r.owns(id), loc)
  {
    var p := r.owns(id);
    var ea, eb := Entry(id, a, 0, 0, 0, 0, None, false), Entry(id, b, 0, 0, 0, 0, None, false);
    var d0 := Overtaken(id, a, b, p, loc);
    var held := Inspected(ea, Some(loc));
    var d1 := d0.(tasks := [held, Loaded(eb)]);
    var d2 := d0.(tasks := [held, Inspected(eb, Some(loc))]);
    var d3 := d0.(tasks := [held, Landed(eb)], glue := map[p := b.payload.location]);
    var d4 := Published(id, a, b, p, loc);
    steps := [Scan([eb], 0), Inspect(1), UpdateGlue(1, true, true, false), Deliver(1, OK)];
    states := [d0, d1, d2, d3, d4];
    assert StepBetween(r, d0, steps[0], d1);
    assert StepBetween(r, d1, steps[1], d2);
    assert map[p := loc][p := b.payload.location] == map[p := b.payload.location];
    assert StepBetween(r, d2, steps[2], d3);
    assert map[id := eb] - {id} == map[];
    assert [held, Landed(eb)][..1] + [held, Landed(eb)][2..] == [held];
    assert StepBetween(r, d3, steps[3], d4);
  }

  lemma StaleUpdate(r: Rule, id: Id, a: Intent, b: Intent, loc: string) returns (states: seq<Drain>, steps: seq<Step>)
    requires Clash(r, id, a, b, loc)
    ensures Steps(r, states, steps)
    ensures states[0] == Published(id, a, b, r.owns(id), loc)
    ensures states[|steps|] == Drain(Store(map[], map[], false), map[r.owns(id) := a.payload.location], map[id := b], [])
  {
    var p := r.owns(id);
    var ea := Entry(id, a, 0, 0, 0, 0, None, false);
    var d0 := Published(id, a, b, p, loc);
    var d1 := d0.(tasks := [Landed(ea)], glue := map[p := a.payload.location]);
    var d2 := d1.(tasks := []);
    steps := [UpdateGlue(0, true, true, false), Deliver(0, OK)];
    states := [d0, d1, d2];
    assert map[p := b.payload.location][p := a.payload.location] == map[p := a.payload.location];
    assert StepBetween(r, d0, steps[0], d1);
    assert StepBetween(r, d1, steps[1], d2);
  }

  lemma JoinRuns(r: Rule, ss: seq<Drain>, xs: seq<Step>, ts: seq<Drain>, ys: seq<Step>)
    requires Steps(r, ss, xs) && Steps(r, ts, ys) && ts[0] == ss[|xs|]
    ensures Steps(r, ss + ts[1..], xs + ys)
    ensures (ss + ts[1..])[0] == ss[0] && (ss + ts[1..])[|xs + ys|] == ts[|ys|]
  {
    var states, steps := ss + ts[1..], xs + ys;
    forall i | 0 <= i < |steps| ensures StepBetween(r, states[i], steps[i], states[i + 1]) {
      if i < |xs| {
        assert StepBetween(r, ss[i], xs[i], ss[i + 1]);
      } else {
        var j := i - |xs|;
        assert StepBetween(r, ts[j], ys[j], ts[j + 1]);
        assert states[i + 1] == ts[j + 1] && states[i] == ts[j];
      }
    }
  }

  /**
    Two passes on one id: a pass that inspected an older intent overwrites the location that another
    pass has just published and delivered.
   */
  lemma TwoPassesDiverge(r: Rule, id: Id, a: Intent, b: Intent, loc: string) returns (states: seq<Drain>, steps: seq<Step>)
    requires Clash(r, id, a, b, loc) && r.shared(id)
    ensures IsRun(r, states, steps) && !Converged(r, states[|steps|])
  {
    var s1, x1 := Overtake(r, id, a, b, loc);
    var s2, x2 := PublishBeside(r, id, a, b, loc);
    var s3, x3 := StaleUpdate(r, id, a, b, loc);
    JoinRuns(r, s1, x1, s2, x2);
    JoinRuns(r, s1 + s2[1..], x1 + x2, s3, x3);
    states, steps := s1 + s2[1..] + s3[1..], x1 + x2 + x3;
    assert id in states[|steps|].latest && id !in states[|steps|].store.files;
  }

  ghost predicate RunConverges(r: Rule, states: seq<Drain>, steps: seq<Step>) {
    IsRun(r, states, steps) ==> Converged(r, states[|steps|])
  }

  /** Every run under a scan rule converges, if and only if passes can meet only on ids whose location never changes. */
  lemma ConvergesExactly(r: Rule)
    requires Injective(r.owns)
    ensures (forall states, steps :: RunConverges(r, states, steps)) <==> Safe(r)
  {
    if Safe(r) {
      forall states, steps ensures RunConverges(r, states, steps) {
        if IsRun(r, states, steps) { DrainConverges(r, states, steps, |steps|); }
      }
    } else {
      var id: Id :| r.shared(id) && !OneLocation(r, id);
      var a, b :| OfId(r, id, a) && OfId(r, id, b) && Admissible(a) && Admissible(b) && a.payload.location != b.payload.location;
      var states, steps := TwoPassesDiverge(r, id, a, b, a.payload.location + b.payload.location + "x");
      assert !RunConverges(r, states, steps);
    }
  }
}
