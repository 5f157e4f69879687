/**
  What the outbox's calls leave in the file of an id: when it is due again after a failure, what a
  delivery removes for good, what a persist replaces and what it keeps.
 */
module OutboxEntries {
  import opened Basics
  import opened CatalogTypes
  import opened OutboxStore

  datatype Summary = Summary(inserted: nat, coalesced: nat, updated: nat)

  ghost predicate OthersStay(s: Store, s': Store, id: Id) {
    forall other: Id | other != id :: Current(s', other) == Current(s, other)
  }

  // ---- a recorded failure ----

  /** The entry after one more failure: the same intent, not due before its delay has passed, never if terminal. */
  ghost predicate Retries(e: Entry, f: Entry, error: string, retryAfter: Option<nat>, terminal: bool, now: nat) {
    && f.id == e.id && f.intent == e.intent && f.createdAt == e.createdAt
    && f.lastError == Some(error) && f.updatedAt == now
    && f.attempts == (if e.attempts < 0xFFFF_FFFF then e.attempts + 1 else 0xFFFF_FFFF)
    && f.terminal == terminal
    && forall t: nat ::
         IsDue(f, t) <==> !terminal && (retryAfter.None? || now + retryAfter.value <= t || 0xFFFF_FFFF_FFFF_FFFF <= t)
  }

  /**
    `record_failure_if` applies exactly when the file is the expected generation and read, write and sync
    succeed. Then the file is the failed entry after any power loss, and a scan returns it as the delay
    and the terminal mark say.
   */
  lemma FailureRecorded(s: Store, e: Entry, error: string, retryAfter: Option<nat>, terminal: bool, io: CasIo)
    requires e.attempts <= U32_MAX
    ensures var (s', r) := RecordFailure(s, e, error, retryAfter, terminal, io);
            && (r.Stale? <==> Current(s, e.id) != Some(e))
            && (r.Applied? <==> Current(s, e.id) == Some(e) && io.readOk && io.changeOk && io.syncOk)
            && (r.Stale? || !io.readOk || !io.changeOk ==> s' == s)
            && OthersStay(s, s', e.id)
            && (r.Applied? ==>
                  && e.id in s'.files && Retries(e, s'.files[e.id], error, retryAfter, terminal, io.now)
                  && Outcomes(s', e.id) == {Some(s'.files[e.id])} && !s'.syncRequired)
            && (r.Failed? && io.readOk && io.changeOk ==>
                  && e.id in s'.files && Retries(e, s'.files[e.id], error, retryAfter, terminal, io.now) && s'.syncRequired
                  && Outcomes(s', e.id) == Outcomes(s, e.id) + {Some(s'.files[e.id])})
  {
  }

  /** Every step records one more failure of the current file of `id`. */
  ghost predicate FailsEach(idOf: Identity -> Id, s: Store, steps: seq<Step>, id: Id)
    decreases |steps|
  {
    steps != [] ==>
      && steps[0].FailCall? && steps[0].expected.id == id
      && RecordFailure(s, steps[0].expected, steps[0].error, steps[0].retryAfter, steps[0].terminal, steps[0].cio).1.Applied?
      && FailsEach(idOf, Next(idOf, s, steps[0]), steps[1..], id)
  }

  /** After n applied failures the attempts have grown by n, up to the largest 32-bit number. */
  lemma {:induction false} AttemptsCount(idOf: Identity -> Id, s: Store, steps: seq<Step>, id: Id)
    requires id in s.files && s.files[id].id == id && s.files[id].attempts <= U32_MAX && FailsEach(idOf, s, steps, id)
    ensures var s' := Run(idOf, s, steps);
            && id in s'.files && s'.files[id].intent == s.files[id].intent
            && s'.files[id].attempts == Min(s.files[id].attempts + |steps|, 0xFFFF_FFFF)
    decreases |steps|
  {
    if steps != [] {
      FailureRecorded(s, steps[0].expected, steps[0].error, steps[0].retryAfter, steps[0].terminal, steps[0].cio);
      AttemptsCount(idOf, Next(idOf, s, steps[0]), steps[1..], id);
    }
  }

  // ---- a delivery ----

  /**
    `mark_delivered_if` applies exactly when the file is the expected generation and read, removal and
    sync succeed. Then the file is gone, whatever a power loss leaves. After a failed sync it is gone to
    the process, and a power loss may bring back what it might have brought back before.
   */
  lemma DeliveredIsGone(s: Store, e: Entry, io: CasIo)
    ensures var (s', r) := MarkDelivered(s, e, io);
            && (r.Stale? <==> Current(s, e.id) != Some(e))
            && (r.Applied? <==> Current(s, e.id) == Some(e) && io.readOk && io.changeOk && io.syncOk)
            && (r.Stale? || !io.readOk || !io.changeOk ==> s' == s)
            && OthersStay(s, s', e.id)
            && (r.Applied? ==> e.id !in s'.files && Outcomes(s', e.id) == {None} && !s'.syncRequired)
            && (r.Failed? && io.readOk && io.changeOk ==>
                  e.id !in s'.files && s'.syncRequired && Outcomes(s', e.id) == Outcomes(s, e.id) + {None})
  {
  }

  // ---- a persist ----

  ghost predicate IsFor(idOf: Identity -> Id, intents: seq<Intent>, id: Id, j: int) {
    0 <= j < |intents| && idOf(intents[j].identity) == id
  }

  /** Every intent for `id` among positions `i` to `stop` is the one its file holds. */
  ghost predicate NothingNew(idOf: Identity -> Id, s: Store, intents: seq<Intent>, i: nat, stop: nat, id: Id) {
    forall j | i <= j < stop && IsFor(idOf, intents, id, j) :: id in s.files && intents[j] == s.files[id].intent
  }

  /** Position `m` wrote the content that `id` ends with. */
  ghost predicate Writes(idOf: Identity -> Id, intents: seq<Intent>, io: PersistIo, stop: nat, id: Id, m: int, e: Entry) {
    && m < stop && IsFor(idOf, intents, id, m) && e.intent == intents[m] && e.updatedAt == io.clock(m)
    && forall l | m < l < stop && IsFor(idOf, intents, id, l) :: intents[l] == intents[m]
  }

  /** Position `h` is the first for `id`, and the entry was created then. */
  ghost predicate Creates(idOf: Identity -> Id, intents: seq<Intent>, io: PersistIo, i: nat, id: Id, h: int, e: Entry) {
    && i <= h && IsFor(idOf, intents, id, h) && e.createdAt == io.clock(h)
    && forall l | i <= l < h :: !IsFor(idOf, intents, id, l)
  }

  /** A changed intent's entry: due at once, without the failures of the one it replaces, as old as the id's first. */
  ghost predicate StartsOver(
    idOf: Identity -> Id, s: Store, intents: seq<Intent>, io: PersistIo, i: nat, stop: nat, id: Id, e: Entry)
  {
    && e.id == id && e.attempts == 0 && e.lastError == None && (forall t: nat :: IsDue(e, t))
    && (exists m: nat :: i <= m && Writes(idOf, intents, io, stop, id, m, e))
    && if id in s.files then e.createdAt == s.files[id].createdAt else exists h: nat :: Creates(idOf, intents, io, i, id, h, e)
  }

  ghost predicate Persisted(
    idOf: Identity -> Id, s: Store, intents: seq<Intent>, io: PersistIo, i: nat, stop: nat, s': Store, id: Id)
  {
    if NothingNew(idOf, s, intents, i, stop, id) then Current(s', id) == Current(s, id)
    else id in s'.files && StartsOver(idOf, s, intents, io, i, stop, id, s'.files[id])
  }

  /** One more position in front that is for another id, or for the intent already there. */
  lemma SkipsOne(idOf: Identity -> Id, s: Store, intents: seq<Intent>, io: PersistIo, i: nat, stop: nat, s': Store, id: Id)
    requires i < stop <= |intents| && Persisted(idOf, s, intents, io, i + 1, stop, s', id)
    requires IsFor(idOf, intents, id, i) ==> id in s.files && intents[i] == s.files[id].intent
    ensures Persisted(idOf, s, intents, io, i, stop, s', id)
  {
    if !NothingNew(idOf, s, intents, i, stop, id) && id !in s.files {
      var h: nat :| Creates(idOf, intents, io, i + 1, id, h, s'.files[id]);
      assert Creates(idOf, intents, io, i, id, h, s'.files[id]);
    }
  }

  /** One more position in front that writes a new entry. */
  lemma WritesOne(
      idOf: Identity -> Id, s: Store, intents: seq<Intent>, io: PersistIo, i: nat, stop: nat, s1: Store, s': Store, id: Id)
    requires i < stop <= |intents| && IsFor(idOf, intents, id, i) && !Coalesces(s, id, intents[i])
    requires s1 == WriteFile(s, NewEntry(s, id, intents[i], io.clock(i))).(syncRequired := true)
    requires Persisted(idOf, s1, intents, io, i + 1, stop, s', id)
    ensures Persisted(idOf, s, intents, io, i, stop, s', id)
  {
    var e := s'.files[id];
    assert !NothingNew(idOf, s, intents, i, stop, id);
    if NothingNew(idOf, s1, intents, i + 1, stop, id) {
      assert Writes(idOf, intents, io, stop, id, i, e);
    } else {
      var m: nat :| i + 1 <= m && Writes(idOf, intents, io, stop, id, m, e);
    }
    if id !in s.files { assert Creates(idOf, intents, io, i, id, i, e); }
  }

  lemma {:induction false} PersistFromLeaves(idOf: Identity -> Id, s: Store, intents: seq<Intent>, io: PersistIo, i: nat)
    returns (stop: nat)
    requires i <= |intents|
    ensures i <= stop <= |intents| && (PersistFrom(idOf, s, intents, io, i).1 <==> stop == |intents|)
    ensures var s' := PersistFrom(idOf, s, intents, io, i).0;
            && (forall id: Id :: Persisted(idOf, s, intents, io, i, stop, s', id))
            && (stop < |intents| ==> !io.writeOk(stop) && !Coalesces(s', idOf(intents[stop].identity), intents[stop]))
    decreases |intents| - i
  {
    stop := i;
    if i < |intents| {
      var at := idOf(intents[i].identity);
      if Coalesces(s, at, intents[i]) {
        stop := PersistFromLeaves(idOf, s, intents, io, i + 1);
        var s' := PersistFrom(idOf, s, intents, io, i).0;
        forall id: Id ensures Persisted(idOf, s, intents, io, i, stop, s', id) { SkipsOne(idOf, s, intents, io, i, stop, s', id); }
      } else if io.writeOk(i) {
        var s1 := WriteFile(s, NewEntry(s, at, intents[i], io.clock(i))).(syncRequired := true);
        stop := PersistFromLeaves(idOf, s1, intents, io, i + 1);
        var s' := PersistFrom(idOf, s, intents, io, i).0;
        forall id: Id ensures Persisted(idOf, s, intents, io, i, stop, s', id) {
          assert Persisted(idOf, s1, intents, io, i + 1, stop, s', id);
          if id == at {
            WritesOne(idOf, s, intents, io, i, stop, s1, s', id);
          } else {
            Elsewhere(idOf, s, s1, intents, io, i + 1, stop, s', id);
            SkipsOne(idOf, s, intents, io, i, stop, s', id);
          }
        }
      }
    }
  }

  /** Only the file of `id` matters for what a persist leaves there. */
  lemma Elsewhere(
      idOf: Identity -> Id, s: Store, s1: Store, intents: seq<Intent>, io: PersistIo, i: nat, stop: nat, s': Store, id: Id)
    requires Current(s, id) == Current(s1, id) && Persisted(idOf, s1, intents, io, i, stop, s', id)
    ensures Persisted(idOf, s, intents, io, i, stop, s', id)
  {
    assert NothingNew(idOf, s, intents, i, stop, id) <==> NothingNew(idOf, s1, intents, i, stop, id);
  }

  /**
    `persist` takes the intents in order up to the first write that fails. An id whose intents are all the
    one it already holds keeps its file, failures included; any other id ends with the last of its intents,
    due at once, with no failures, and with the creation time it had or that of its first intent.
   */
  lemma PersistLeaves(idOf: Identity -> Id, s: Store, intents: seq<Intent>, io: PersistIo) returns (stop: nat)
    ensures var (s', ok) := Persist(idOf, s, intents, io);
            && stop <= |intents| && (forall id: Id :: Persisted(idOf, s, intents, io, 0, stop, s', id))
            && (ok ==> stop == |intents| && !s'.syncRequired)
            && (stop < |intents| ==> !io.writeOk(stop) && !Coalesces(s', idOf(intents[stop].identity), intents[stop]))
            && (!ok && stop == |intents| ==> !io.syncOk && s'.syncRequired)
  {
    stop := PersistFromLeaves(idOf, s, intents, io, 0);
    var f, s' := PersistFrom(idOf, s, intents, io, 0).0, Persist(idOf, s, intents, io).0;
    forall id: Id ensures Persisted(idOf, s, intents, io, 0, stop, s', id) {
      assert Persisted(idOf, s, intents, io, 0, stop, f, id) && Current(f, id) == Current(s', id);
    }
  }

  // ---- what a persist counts ----

  /** Position `k` is the last one for the id of position `j` before it. */
  ghost predicate Precedes(idOf: Identity -> Id, intents: seq<Intent>, i: nat, k: int, j: nat)
    requires j < |intents|
  {
    && i <= k < j && IsFor(idOf, intents, idOf(intents[j].identity), k)
    && forall l | k < l < j :: !IsFor(idOf, intents, idOf(intents[j].identity), l)
  }

  ghost predicate IsFirst(idOf: Identity -> Id, intents: seq<Intent>, i: nat, j: nat)
    requires j < |intents|
  {
    forall k | i <= k < j :: !IsFor(idOf, intents, idOf(intents[j].identity), k)
  }

  /** The intent at `j` is the one before it for its id, or, if it is the first, the one in the file. */
  ghost predicate Repeats(idOf: Identity -> Id, s: Store, intents: seq<Intent>, i: nat, j: nat)
    requires j < |intents|
  {
    if IsFirst(idOf, intents, i, j) then Coalesces(s, idOf(intents[j].identity), intents[j])
    else exists k :: Precedes(idOf, intents, i, k, j) && intents[k] == intents[j]
  }

  /** How many of the positions from `j` on repeat what is there, bring in a new id, or replace an intent. */
  ghost function Tallied(idOf: Identity -> Id, s: Store, intents: seq<Intent>, j: nat): Summary
    requires j <= |intents|
    decreases |intents| - j
  {
    if j == |intents| then Summary(0, 0, 0)
    else
      var rest := Tallied(idOf, s, intents, j + 1);
      if Repeats(idOf, s, intents, 0, j) then rest.(coalesced := rest.coalesced + 1)
      else if IsFirst(idOf, intents, 0, j) && idOf(intents[j].identity) !in s.files then rest.(inserted := rest.inserted + 1)
      else rest.(updated := rest.updated + 1)
  }

  /** Before position `j` every id holds the intent of its last position, or what it held at the start. */
  ghost predicate HoldsLast(idOf: Identity -> Id, s: Store, intents: seq<Intent>, now: Store, j: nat)
    requires j <= |intents|
  {
    && (forall k | 0 <= k < j && LastBelow(idOf, intents, k, j) :: Coalesces(now, idOf(intents[k].identity), intents[k]))
    && forall id: Id | (forall k | 0 <= k < j :: !IsFor(idOf, intents, id, k)) :: Current(now, id) == Current(s, id)
  }

  ghost predicate LastBelow(idOf: Identity -> Id, intents: seq<Intent>, k: int, j: nat) {
    0 <= k < |intents| && forall l | k < l < j :: !IsFor(idOf, intents, idOf(intents[k].identity), l)
  }

  /** What is coalesced at position `j` is exactly what repeats, and what is inserted the first of a new id. */
  lemma CountsPosition(idOf: Identity -> Id, s: Store, intents: seq<Intent>, now: Store, j: nat)
    requires j < |intents| && HoldsLast(idOf, s, intents, now, j)
    ensures var id := idOf(intents[j].identity);
            && (Coalesces(now, id, intents[j]) <==> Repeats(idOf, s, intents, 0, j))
            && (id !in now.files <==> IsFirst(idOf, intents, 0, j) && id !in s.files)
  {
    var id := idOf(intents[j].identity);
    if IsFirst(idOf, intents, 0, j) {
      assert Current(now, id) == Current(s, id);
    } else {
      var k := LastOne(idOf, intents, id, j);
      assert Precedes(idOf, intents, 0, k, j) && LastBelow(idOf, intents, k, j);
      forall l | Precedes(idOf, intents, 0, l, j) ensures l == k {}
    }
  }

  lemma {:induction false} LastOne(idOf: Identity -> Id, intents: seq<Intent>, id: Id, j: nat) returns (k: nat)
    requires j <= |intents| && exists l | 0 <= l < j :: IsFor(idOf, intents, id, l)
    ensures k < j && IsFor(idOf, intents, id, k) && forall l | k < l < j :: !IsFor(idOf, intents, id, l)
  {
    if IsFor(idOf, intents, id, j - 1) { k := j - 1; } else { k := LastOne(idOf, intents, id, j - 1); }
  }

  lemma HoldsNext(idOf: Identity -> Id, s: Store, intents: seq<Intent>, now: Store, now': Store, j: nat)
    requires j < |intents| && HoldsLast(idOf, s, intents, now, j)
    requires Coalesces(now', idOf(intents[j].identity), intents[j])
    requires forall id: Id | id != idOf(intents[j].identity) :: Current(now', id) == Current(now, id)
    ensures HoldsLast(idOf, s, intents, now', j + 1)
  {
    forall k | 0 <= k < j + 1 && LastBelow(idOf, intents, k, j + 1)
      ensures Coalesces(now', idOf(intents[k].identity), intents[k])
    {
      if k < j {
        assert IsFor(idOf, intents, idOf(intents[j].identity), j);
        assert LastBelow(idOf, intents, k, j);
        assert Current(now', idOf(intents[k].identity)) == Current(now, idOf(intents[k].identity));
      }
    }
    forall id: Id | (forall k | 0 <= k < j + 1 :: !IsFor(idOf, intents, id, k)) ensures Current(now', id) == Current(s, id) {
      assert !IsFor(idOf, intents, id, j);
      assert Current(now', id) == Current(now, id);
    }
  }

  // ---- how old an id is ----

  /** The file of `id` was created at `c`, and so was whatever a power loss may leave of it. */
  ghost predicate Dated(s: Store, id: Id, c: nat) {
    id in s.files && forall o | o in Outcomes(s, id) && o.Some? :: o.value.createdAt == c
  }

  ghost predicate AlwaysThere(idOf: Identity -> Id, s: Store, steps: seq<Step>, id: Id)
    decreases |steps|
  {
    id in s.files && (steps != [] ==> AlwaysThere(idOf, Next(idOf, s, steps[0]), steps[1..], id))
  }

  lemma {:induction false} PersistFromDates(idOf: Identity -> Id, s: Store, intents: seq<Intent>, io: PersistIo, i: nat, id: Id, c: nat)
    requires i <= |intents| && Wf(s) && Dated(s, id, c)
    ensures Dated(PersistFrom(idOf, s, intents, io, i).0, id, c)
    decreases |intents| - i
  {
    if i < |intents| {
      var at := idOf(intents[i].identity);
      if Coalesces(s, at, intents[i]) {
        PersistFromDates(idOf, s, intents, io, i + 1, id, c);
      } else if io.writeOk(i) {
        assert Current(s, id) in Outcomes(s, id);
        PersistFromDates(idOf, WriteFile(s, NewEntry(s, at, intents[i], io.clock(i))).(syncRequired := true), intents, io, i + 1, id, c);
      }
    }
  }

  lemma StepDates(idOf: Identity -> Id, s: Store, step: Step, id: Id, c: nat)
    requires Wf(s) && Enabled(s, step) && Dated(s, id, c) && id in Next(idOf, s, step).files
    ensures Dated(Next(idOf, s, step), id, c)
  {
    assert Current(s, id) in Outcomes(s, id);
    match step
    case PersistCall(intents, io) =>
      PersistFromDates(idOf, s, intents, io, 0, id, c);
      PersistFromKeeps(idOf, s, intents, io, 0);
      var s' := PersistFrom(idOf, s, intents, io, 0).0;
      assert Current(s', id) in Outcomes(s', id);
    case DeliverCall(e, io) =>
    case FailCall(e, error, retryAfter, terminal, io) =>
    case PowerLoss(left) =>
      assert Some(left[id]) in Outcomes(s, id);
    case Restart =>
  }

  /** Along every run of calls, power losses and restarts, an id keeps its creation time as long as it is there. */
  lemma {:induction false} CreationTimeStays(idOf: Identity -> Id, s: Store, steps: seq<Step>, id: Id, c: nat)
    requires Wf(s) && Dated(s, id, c) && EnabledRun(idOf, s, steps) && AlwaysThere(idOf, s, steps, id)
    ensures Dated(Run(idOf, s, steps), id, c) && Run(idOf, s, steps).files[id].createdAt == c
    decreases |steps|
  {
    if steps == [] {
      assert Current(s, id) in Outcomes(s, id);
    } else {
      StepDates(idOf, s, steps[0], id, c);
      StepKeepsWf(idOf, s, steps[0]);
      CreationTimeStays(idOf, Next(idOf, s, steps[0]), steps[1..], id, c);
    }
  }

  /** A persist that returns Ok and brings in a new id dates it by the clock at the id's first intent. */
  lemma NewIdIsDated(idOf: Identity -> Id, s: Store, intents: seq<Intent>, io: PersistIo, id: Id, h: nat)
    requires Wf(s) && FlagSound(s) && id !in s.files && Persist(idOf, s, intents, io).1
    requires IsFor(idOf, intents, id, h) && forall l | 0 <= l < h :: !IsFor(idOf, intents, id, l)
    ensures Dated(Persist(idOf, s, intents, io).0, id, io.clock(h))
  {
    var stop := PersistLeaves(idOf, s, intents, io);
    var s' := Persist(idOf, s, intents, io).0;
    assert Persisted(idOf, s, intents, io, 0, stop, s', id);
    assert !NothingNew(idOf, s, intents, 0, stop, id);
    var g: nat :| Creates(idOf, intents, io, 0, id, g, s'.files[id]);
    assert g == h;
    PersistFromKeeps(idOf, s, intents, io, 0);
    assert s'.maybe == map[];
  }
}
