/**
  The outbox directory with what a power loss may leave of it, as a state machine.
  A rename or removal is visible at once but certain to survive only after the
  directory is synced; until then each one may or may not survive by itself.
 */
module OutboxStore {
  import opened Basics
  import opened CatalogTypes

  /**
    `files` is the directory as the process sees it. `maybe` has, for every id
    changed since the last directory sync, each state a power loss may leave it in.
   */
  datatype Store = Store(files: map<Id, Entry>, maybe: map<Id, set<Option<Entry>>>, syncRequired: bool)

  function Current(s: Store, id: Id): Option<Entry> {
    if id in s.files then Some(s.files[id]) else None
  }

  function Outcomes(s: Store, id: Id): set<Option<Entry>> {
    if id in s.maybe then s.maybe[id] else {Current(s, id)}
  }

  /** What the process sees is one of the states a power loss may leave. */
  ghost predicate Wf(s: Store) {
    forall id | id in s.maybe :: Current(s, id) in s.maybe[id]
  }

  /** A clear flag means nothing is unsynced. */
  ghost predicate FlagSound(s: Store) {
    !s.syncRequired ==> s.maybe == map[]
  }

  /** Every file is named by the digest of its own intent's identity. */
  ghost predicate Keyed(idOf: Identity -> Id, files: map<Id, Entry>) {
    forall id | id in files :: files[id].id == id && idOf(files[id].intent.identity) == id
  }

  // ---- directory operations ----

  function WriteFile(s: Store, e: Entry): Store {
    s.(files := s.files[e.id := e], maybe := s.maybe[e.id := Outcomes(s, e.id) + {Some(e)}])
  }

  function RemoveFile(s: Store, id: Id): Store {
    s.(files := s.files - {id}, maybe := s.maybe[id := Outcomes(s, id) + {None}])
  }

  function SyncDirectory(s: Store): Store {
    Store(s.files, map[], false)
  }

  function FinishSync(s: Store, syncOk: bool): Store {
    if syncOk then SyncDirectory(s) else s.(syncRequired := true)
  }

  // ---- persist ----

  /** The clock and the I/O outcomes one call meets, by position in its intents. */
  datatype PersistIo = PersistIo(clock: nat -> nat, writeOk: nat -> bool, syncOk: bool)

  predicate Coalesces(s: Store, id: Id, intent: Intent) {
    id in s.files && s.files[id].intent == intent
  }

  function NewEntry(s: Store, id: Id, intent: Intent, now: nat): Entry {
    Entry(id, intent, if id in s.files then s.files[id].createdAt else now, now, 0, 0, None, false)
  }

  /** The intents from position `i` on; stops at the first write that fails. */
  function PersistFrom(idOf: Identity -> Id, s: Store, intents: seq<Intent>, io: PersistIo, i: nat): (Store, bool)
    requires i <= |intents|
    decreases |intents| - i
  {
    if i == |intents| then (s, true)
    else
      var id := idOf(intents[i].identity);
      if Coalesces(s, id, intents[i]) then PersistFrom(idOf, s, intents, io, i + 1)
      else if !io.writeOk(i) then (s, false)
      else PersistFrom(idOf, WriteFile(s, NewEntry(s, id, intents[i], io.clock(i))).(syncRequired := true), intents, io, i + 1)
  }

  /** The store a `persist` call leaves, and whether it returned Ok. */
  function Persist(idOf: Identity -> Id, s: Store, intents: seq<Intent>, io: PersistIo): (Store, bool) {
    var (s', wrote) := PersistFrom(idOf, s, intents, io, 0);
    if !wrote then (s', false)
    else if !s'.syncRequired then (s', true)
    else (FinishSync(s', io.syncOk), io.syncOk)
  }

  // ---- compare-and-swap mutations ----

  datatype CasIo = CasIo(now: nat, readOk: bool, changeOk: bool, syncOk: bool)

  datatype CasResult = Applied | Stale | Failed

  function MarkDelivered(s: Store, expected: Entry, io: CasIo): (Store, CasResult) {
    if Current(s, expected.id) != Some(expected) then (s, Stale)
    else if !io.readOk || !io.changeOk then (s, Failed)
    else (FinishSync(RemoveFile(s, expected.id), io.syncOk), if io.syncOk then Applied else Failed)
  }

  function FailedEntry(e: Entry, error: string, retryAfter: Option<nat>, terminal: bool, now: nat): Entry {
    e.(attempts := Min(e.attempts + 1, U32_MAX),
       updatedAt := now,
       nextAttemptAt := if retryAfter.Some? then Min(now + retryAfter.value, U64_MAX) else 0,
       lastError := Some(error),
       terminal := terminal)
  }

  function RecordFailure(s: Store, expected: Entry, error: string, retryAfter: Option<nat>, terminal: bool, io: CasIo)
    : (Store, CasResult)
  {
    if Current(s, expected.id) != Some(expected) then (s, Stale)
    else if !io.readOk || !io.changeOk then (s, Failed)
    else (FinishSync(WriteFile(s, FailedEntry(expected, error, retryAfter, terminal, io.now)), io.syncOk),
          if io.syncOk then Applied else Failed)
  }

  // ---- runs ----

  datatype Step =
    | PersistCall(intents: seq<Intent>, pio: PersistIo)
    | DeliverCall(expected: Entry, cio: CasIo)
    | FailCall(expected: Entry, error: string, retryAfter: Option<nat>, terminal: bool, cio: CasIo)
    | PowerLoss(left: map<Id, Entry>)
    | Restart

  /** A power loss leaves each id in one of its possible states; the other steps always can happen. */
  ghost predicate Enabled(s: Store, step: Step) {
    step.PowerLoss? ==>
      forall id: Id :: (if id in step.left then Some(step.left[id]) else None) in Outcomes(s, id)
  }

  function Next(idOf: Identity -> Id, s: Store, step: Step): Store {
    match step
    case PersistCall(intents, io) => Persist(idOf, s, intents, io).0
    case DeliverCall(e, io) => MarkDelivered(s, e, io).0
    case FailCall(e, error, retryAfter, terminal, io) => RecordFailure(s, e, error, retryAfter, terminal, io).0
    case PowerLoss(left) => Store(left, map[], false)
    case Restart => s.(syncRequired := false)
  }

  ghost predicate EnabledRun(idOf: Identity -> Id, s: Store, steps: seq<Step>)
    decreases |steps|
  {
    steps != [] ==> Enabled(s, steps[0]) && EnabledRun(idOf, Next(idOf, s, steps[0]), steps[1..])
  }

  function Run(idOf: Identity -> Id, s: Store, steps: seq<Step>): Store
    decreases |steps|
  {
    if steps == [] then s else Run(idOf, Next(idOf, s, steps[0]), steps[1..])
  }

  // ---- every step keeps the store well formed ----

  lemma {:induction false} PersistFromKeeps(idOf: Identity -> Id, s: Store, intents: seq<Intent>, io: PersistIo, i: nat)
    requires i <= |intents| && Wf(s)
    ensures var s' := PersistFrom(idOf, s, intents, io, i).0;
            && Wf(s') && (FlagSound(s) ==> FlagSound(s')) && (s.syncRequired ==> s'.syncRequired)
            && (Keyed(idOf, s.files) ==> Keyed(idOf, s'.files))
            && (!s'.syncRequired ==> s' == s)
    decreases |intents| - i
  {
    if i < |intents| {
      var id := idOf(intents[i].identity);
      if Coalesces(s, id, intents[i]) {
        PersistFromKeeps(idOf, s, intents, io, i + 1);
      } else if io.writeOk(i) {
        PersistFromKeeps(idOf, WriteFile(s, NewEntry(s, id, intents[i], io.clock(i))).(syncRequired := true), intents, io, i + 1);
      }
    }
  }

  lemma StepKeepsWf(idOf: Identity -> Id, s: Store, step: Step)
    requires Wf(s) && Enabled(s, step)
    ensures Wf(Next(idOf, s, step))
    ensures FlagSound(s) && (step.Restart? ==> !s.syncRequired) ==> FlagSound(Next(idOf, s, step))
  {
    if step.PersistCall? { PersistFromKeeps(idOf, s, step.intents, step.pio, 0); }
  }

  /** The flag is sound along every run in which the process restarts only with the flag clear. */
  ghost predicate CleanRestarts(idOf: Identity -> Id, s: Store, steps: seq<Step>)
    decreases |steps|
  {
    steps != [] ==>
      (steps[0].Restart? ==> !s.syncRequired) && CleanRestarts(idOf, Next(idOf, s, steps[0]), steps[1..])
  }

  lemma {:induction false} RunKeepsFlagSound(idOf: Identity -> Id, s: Store, steps: seq<Step>)
    requires Wf(s) && FlagSound(s) && EnabledRun(idOf, s, steps) && CleanRestarts(idOf, s, steps)
    ensures Wf(Run(idOf, s, steps)) && FlagSound(Run(idOf, s, steps))
    decreases |steps|
  {
    if steps != [] {
      StepKeepsWf(idOf, s, steps[0]);
      RunKeepsFlagSound(idOf, Next(idOf, s, steps[0]), steps[1..]);
    }
  }

  // ---- what an Ok persist promises ----

  /** Whatever a power loss leaves, `id` still carries `intent`. */
  ghost predicate Survives(s: Store, id: Id, intent: Intent) {
    forall o | o in Outcomes(s, id) :: o.Some? && o.value.intent == intent
  }

  /** Position `i` is the last of the call for its identity. */
  predicate LastFor(idOf: Identity -> Id, intents: seq<Intent>, i: nat)
    requires i < |intents|
  {
    forall j | i < j < |intents| :: idOf(intents[j].identity) != idOf(intents[i].identity)
  }

  lemma {:induction false} PersistFromHolds(idOf: Identity -> Id, s: Store, intents: seq<Intent>, io: PersistIo, i: nat, n: nat)
    requires i <= |intents| && n < |intents| && LastFor(idOf, intents, n)
    requires PersistFrom(idOf, s, intents, io, i).1
    requires n < i ==> Coalesces(s, idOf(intents[n].identity), intents[n])
    ensures Coalesces(PersistFrom(idOf, s, intents, io, i).0, idOf(intents[n].identity), intents[n])
    decreases |intents| - i
  {
    if i < |intents| {
      var id := idOf(intents[i].identity);
      if Coalesces(s, id, intents[i]) {
        PersistFromHolds(idOf, s, intents, io, i + 1, n);
      } else {
        var s' := WriteFile(s, NewEntry(s, id, intents[i], io.clock(i))).(syncRequired := true);
        assert n < i ==> id != idOf(intents[n].identity);
        PersistFromHolds(idOf, s', intents, io, i + 1, n);
      }
    }
  }

  /** Once `persist` returns Ok every intent of the call survives any power loss, coalesced ones included. */
  lemma PersistOkIsDurable(idOf: Identity -> Id, s: Store, intents: seq<Intent>, io: PersistIo, n: nat)
    requires Wf(s) && FlagSound(s) && n < |intents| && LastFor(idOf, intents, n)
    requires Persist(idOf, s, intents, io).1
    ensures Survives(Persist(idOf, s, intents, io).0, idOf(intents[n].identity), intents[n])
  {
    PersistFromKeeps(idOf, s, intents, io, 0);
    PersistFromHolds(idOf, s, intents, io, 0, n);
  }

  /** The step re-persists `id` with other content, or delivers it. */
  ghost predicate Replaces(idOf: Identity -> Id, s: Store, step: Step, id: Id, intent: Intent) {
    match step
    case PersistCall(intents, _) => exists i :: 0 <= i < |intents| && idOf(intents[i].identity) == id && intents[i] != intent
    case DeliverCall(e, io) => e.id == id && Current(s, id) == Some(e)
    case _ => false
  }

  ghost predicate NeverReplaced(idOf: Identity -> Id, s: Store, steps: seq<Step>, id: Id, intent: Intent)
    decreases |steps|
  {
    steps != [] ==>
      !Replaces(idOf, s, steps[0], id, intent) && NeverReplaced(idOf, Next(idOf, s, steps[0]), steps[1..], id, intent)
  }

  lemma {:induction false} PersistFromSpares(
      idOf: Identity -> Id, s: Store, intents: seq<Intent>, io: PersistIo, i: nat, id: Id, intent: Intent)
    requires i <= |intents| && Wf(s) && Survives(s, id, intent)
    requires forall j | i <= j < |intents| && idOf(intents[j].identity) == id :: intents[j] == intent
    ensures Survives(PersistFrom(idOf, s, intents, io, i).0, id, intent)
    decreases |intents| - i
  {
    if i < |intents| {
      var at := idOf(intents[i].identity);
      assert Current(s, id) in Outcomes(s, id);
      if Coalesces(s, at, intents[i]) {
        PersistFromSpares(idOf, s, intents, io, i + 1, id, intent);
      } else if io.writeOk(i) {
        var s' := WriteFile(s, NewEntry(s, at, intents[i], io.clock(i))).(syncRequired := true);
        assert Outcomes(s', id) == Outcomes(s, id);
        PersistFromSpares(idOf, s', intents, io, i + 1, id, intent);
      }
    }
  }

  lemma StepSpares(idOf: Identity -> Id, s: Store, step: Step, id: Id, intent: Intent)
    requires Wf(s) && Enabled(s, step) && Survives(s, id, intent) && !Replaces(idOf, s, step, id, intent)
    ensures Survives(Next(idOf, s, step), id, intent)
  {
    assert Current(s, id) in Outcomes(s, id);
    match step
    case PersistCall(intents, io) =>
      PersistFromSpares(idOf, s, intents, io, 0, id, intent);
      PersistFromKeeps(idOf, s, intents, io, 0);
      var s' := PersistFrom(idOf, s, intents, io, 0).0;
      assert Current(s', id) in Outcomes(s', id);
    case DeliverCall(e, io) =>
    case FailCall(e, error, retryAfter, terminal, io) =>
    case PowerLoss(left) =>
      assert Current(Next(idOf, s, step), id) in Outcomes(s, id);
    case Restart =>
  }

  /**
    After an Ok persist, along any run of later calls, crashes and restarts, the
    intent survives until its identity is re-persisted with other content or delivered.
   */
  lemma {:induction false} SurvivesRun(idOf: Identity -> Id, s: Store, steps: seq<Step>, id: Id, intent: Intent)
    requires Wf(s) && EnabledRun(idOf, s, steps) && Survives(s, id, intent) && NeverReplaced(idOf, s, steps, id, intent)
    ensures Survives(Run(idOf, s, steps), id, intent)
    ensures Current(Run(idOf, s, steps), id).Some? && Current(Run(idOf, s, steps), id).value.intent == intent
    decreases |steps|
  {
    if steps == [] {
      assert Current(s, id) in Outcomes(s, id);
    } else {
      StepSpares(idOf, s, steps[0], id, intent);
      StepKeepsWf(idOf, s, steps[0]);
      SurvivesRun(idOf, Next(idOf, s, steps[0]), steps[1..], id, intent);
    }
  }

  /**
    End to end: after any run that restarts with the flag clear, an intent whose persist returned Ok is
    what any later run of calls, power losses and restarts recovers, until it is replaced or delivered.
   */
  lemma PersistedIsRecovered(
      idOf: Identity -> Id, s: Store, before: seq<Step>, intents: seq<Intent>, io: PersistIo, n: nat, after: seq<Step>)
    requires Wf(s) && FlagSound(s) && EnabledRun(idOf, s, before) && CleanRestarts(idOf, s, before)
    requires var mid := Run(idOf, s, before);
             Persist(idOf, mid, intents, io).1 && n < |intents| && LastFor(idOf, intents, n)
    requires var saved := Persist(idOf, Run(idOf, s, before), intents, io).0;
             EnabledRun(idOf, saved, after) && NeverReplaced(idOf, saved, after, idOf(intents[n].identity), intents[n])
    ensures var end := Run(idOf, Persist(idOf, Run(idOf, s, before), intents, io).0, after);
            && Survives(end, idOf(intents[n].identity), intents[n])
            && Current(end, idOf(intents[n].identity)).Some?
            && Current(end, idOf(intents[n].identity)).value.intent == intents[n]
  {
    var mid := Run(idOf, s, before);
    RunKeepsFlagSound(idOf, s, before);
    PersistOkIsDurable(idOf, mid, intents, io, n);
    StepKeepsWf(idOf, mid, PersistCall(intents, io));
    SurvivesRun(idOf, Persist(idOf, mid, intents, io).0, after, idOf(intents[n].identity), intents[n]);
  }

  // ---- a process restart forgets the flag ----

  ghost predicate OkMeansDurable(idOf: Identity -> Id, s: Store, intents: seq<Intent>, io: PersistIo) {
    Persist(idOf, s, intents, io).1 ==>
      forall n: nat | n < |intents| && LastFor(idOf, intents, n) ::
        Survives(Persist(idOf, s, intents, io).0, idOf(intents[n].identity), intents[n])
  }

  /** Every file the restarted process can see would also be there, with its intent, after a power loss. */
  ghost predicate SeenIsDurable(s: Store) {
    forall id | id in s.files :: Survives(s, id, s.files[id].intent)
  }

  /**
    Reopening the outbox clears the flag without syncing the directory. After that,
    Ok from `persist` means durable exactly when everything the process can see was
    durable at the restart.
   */
  lemma RestartExactly(idOf: Identity -> Id, s: Store)
    requires Wf(s) && Keyed(idOf, s.files)
    ensures (forall intents, io :: OkMeansDurable(idOf, Next(idOf, s, Restart), intents, io)) <==> SeenIsDurable(s)
  {
    var r := Next(idOf, s, Restart);
    if SeenIsDurable(s) {
      forall intents, io ensures OkMeansDurable(idOf, r, intents, io) {
        if Persist(idOf, r, intents, io).1 { RestartedOk(idOf, r, intents, io); }
      }
    } else {
      var id :| id in s.files && !Survives(s, id, s.files[id].intent);
      CoalescedSkipsSync(idOf, r, id);
      assert Survives(r, id, s.files[id].intent) == Survives(s, id, s.files[id].intent);
    }
  }

  lemma RestartedOk(idOf: Identity -> Id, r: Store, intents: seq<Intent>, io: PersistIo)
    requires Wf(r) && !r.syncRequired && SeenIsDurable(r) && Persist(idOf, r, intents, io).1
    ensures OkMeansDurable(idOf, r, intents, io)
  {
    PersistFromKeeps(idOf, r, intents, io, 0);
    forall n: nat | n < |intents| && LastFor(idOf, intents, n)
      ensures Survives(Persist(idOf, r, intents, io).0, idOf(intents[n].identity), intents[n])
    {
      PersistFromHolds(idOf, r, intents, io, 0, n);
    }
  }

  /** Persisting what is already in the file returns Ok and changes nothing. */
  lemma CoalescedSkipsSync(idOf: Identity -> Id, r: Store, id: Id)
    requires id in r.files && Keyed(idOf, r.files) && !r.syncRequired && !Survives(r, id, r.files[id].intent)
    ensures exists intents, io :: !OkMeansDurable(idOf, r, intents, io)
  {
    var intents := [r.files[id].intent];
    var io := PersistIo((i: nat) => 0, (i: nat) => true, true);
    assert PersistFrom(idOf, r, intents, io, 1) == (r, true);
    assert PersistFrom(idOf, r, intents, io, 0) == (r, true);
    assert LastFor(idOf, intents, 0);
    assert !OkMeansDurable(idOf, r, intents, io);
  }

  /** The run that shows it: a write whose directory sync fails, a restart, a retry that returns Ok, a power loss. */
  lemma UnsyncedRestartLosesIntent(idOf: Identity -> Id, s: Store, intent: Intent, now: nat)
    requires s.maybe == map[] && !s.syncRequired && idOf(intent.identity) !in s.files
    ensures var io := PersistIo((i: nat) => now, (i: nat) => true, false);
            var s1 := Persist(idOf, s, [intent], io).0;
            var s2 := Next(idOf, s1, Restart);
            && !Persist(idOf, s, [intent], io).1
            && Persist(idOf, s2, [intent], io) == (s2, true)
            && Enabled(s2, PowerLoss(s.files))
  {
    var io := PersistIo((i: nat) => now, (i: nat) => true, false);
    var id := idOf(intent.identity);
    var w := WriteFile(s, NewEntry(s, id, intent, now)).(syncRequired := true);
    assert PersistFrom(idOf, w, [intent], io, 1) == (w, true);
    assert PersistFrom(idOf, s, [intent], io, 0) == (w, true);
    var s2 := w.(syncRequired := false);
    assert PersistFrom(idOf, s2, [intent], io, 1) == (s2, true);
    assert PersistFrom(idOf, s2, [intent], io, 0) == (s2, true);
  }
}
