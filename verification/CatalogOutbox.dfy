/** The outbox object: an index in memory over one file per intent. */
module CatalogOutbox {
  import opened Basics
  import opened CatalogTypes
  import opened OutboxIndex
  import opened OutboxStore
  import opened OutboxEntries

  datatype Change = Inserted | Coalesced | Updated | WriteFailed

  datatype Snapshot = Snapshot(pending: nat, due: nat, deferred: nat, terminal: nat, oldestCreatedAt: Option<nat>)

  datatype OpenError = SetupFailed | Unreadable(name: Id) | DuplicateIdentity(id: Id)

  /** What the directory holds under one name: a checked envelope, or bytes that do not read back as one. */
  datatype DirFile = DirFile(name: Id, content: Option<Entry>)

  /** `read_entry` accepts a file whose envelope checks out and names the file after its own identity. */
  predicate Readable(idOf: Identity -> Id, f: DirFile) {
    f.content.Some? && f.content.value.id == f.name && idOf(f.content.value.intent.identity) == f.name
  }

  /** Every file reads back and no identity is listed twice. */
  ghost predicate Recoverable(idOf: Identity -> Id, dir: seq<DirFile>) {
    && (forall i | 0 <= i < |dir| :: Readable(idOf, dir[i]))
    && forall i, j | 0 <= i < j < |dir| :: dir[i].name != dir[j].name
  }

  /** The directory's contents by name. */
  function TableOf(dir: seq<DirFile>): map<Id, Entry>
    decreases |dir|
  {
    if dir == [] then map[]
    else
      var last := dir[|dir| - 1];
      if last.content.Some? then TableOf(dir[..|dir| - 1])[last.name := last.content.value] else TableOf(dir[..|dir| - 1])
  }

  lemma {:induction false} TableFacts(dir: seq<DirFile>)
    ensures forall id | id in TableOf(dir) :: exists i :: 0 <= i < |dir| && dir[i] == DirFile(id, Some(TableOf(dir)[id]))
    decreases |dir|
  {
    if dir != [] {
      var rest := dir[..|dir| - 1];
      TableFacts(rest);
      forall id | id in TableOf(dir)
        ensures exists i :: 0 <= i < |dir| && dir[i] == DirFile(id, Some(TableOf(dir)[id]))
      {
        if id in TableOf(rest) && TableOf(rest)[id] == TableOf(dir)[id] {
          var i :| 0 <= i < |rest| && rest[i] == DirFile(id, Some(TableOf(rest)[id]));
          assert dir[i] == rest[i];
        } else {
          assert dir[|dir| - 1] == DirFile(id, Some(TableOf(dir)[id]));
        }
      }
    }
  }

  /** `dir` lists the files of `files`, each once, in some order. */
  ghost predicate Lists(dir: seq<DirFile>, files: map<Id, Entry>) {
    && (forall i | 0 <= i < |dir| :: dir[i].name in files && dir[i].content == Some(files[dir[i].name]))
    && (forall id | id in files :: exists i :: 0 <= i < |dir| && dir[i].name == id)
    && forall i, j | 0 <= i < j < |dir| :: dir[i].name != dir[j].name
  }

  /** Any two enumerations of one directory recover the same table. */
  lemma {:induction false} AnyOrderRecovers(dir: seq<DirFile>, files: map<Id, Entry>)
    requires Lists(dir, files)
    ensures TableOf(dir) == files
  {
    TableFacts(dir);
    forall id | id in files ensures id in TableOf(dir) && TableOf(dir)[id] == files[id] {
      var i :| 0 <= i < |dir| && dir[i].name == id;
      Listed(dir, i);
    }
  }

  lemma {:induction false} Listed(dir: seq<DirFile>, i: nat)
    requires i < |dir| && dir[i].content.Some?
    ensures dir[i].name in TableOf(dir)
    decreases |dir|
  {
    if i < |dir| - 1 { Listed(dir[..|dir| - 1], i); }
  }

  lemma PrefixRecovers(idOf: Identity -> Id, dir: seq<DirFile>, i: nat)
    requires i <= |dir| && Recoverable(idOf, dir)
    ensures Recoverable(idOf, dir[..i])
  {
    forall j | 0 <= j < i ensures Readable(idOf, dir[..i][j]) { assert dir[..i][j] == dir[j]; }
  }

  lemma TableGrows(dir: seq<DirFile>, i: nat)
    requires i < |dir| && dir[i].content.Some?
    ensures TableOf(dir[..i + 1]) == TableOf(dir[..i])[dir[i].name := dir[i].content.value]
  {
    assert dir[..i + 1][..i] == dir[..i] && dir[..i + 1][i] == dir[i];
  }

  lemma OneMoreRecovers(idOf: Identity -> Id, dir: seq<DirFile>, i: nat)
    requires i < |dir| && Recoverable(idOf, dir[..i])
    ensures Recoverable(idOf, dir[..i + 1]) <==> Readable(idOf, dir[i]) && dir[i].name !in TableOf(dir[..i])
  {
    var next, before := dir[..i + 1], dir[..i];
    assert next[i] == dir[i] && forall j | 0 <= j < i :: next[j] == before[j];
    TableFacts(before);
    forall j | 0 <= j < i ensures next[j].name in TableOf(before) { Listed(before, j); }
    if dir[i].name in TableOf(before) {
      var j :| 0 <= j < i && before[j].name == dir[i].name;
      assert next[j].name == next[i].name;
    }
  }

  /** One more file keeps the directory recoverable when it reads back and its id is new. */
  lemma RecoverOne(idOf: Identity -> Id, dir: seq<DirFile>, i: nat)
    requires i < |dir| && Recoverable(idOf, dir[..i])
    ensures Recoverable(idOf, dir[..i + 1]) <==> Readable(idOf, dir[i]) && dir[i].name !in TableOf(dir[..i])
    ensures Recoverable(idOf, dir) ==> Recoverable(idOf, dir[..i + 1])
    ensures Readable(idOf, dir[i]) ==> TableOf(dir[..i + 1]) == TableOf(dir[..i])[dir[i].name := dir[i].content.value]
  {
    OneMoreRecovers(idOf, dir, i);
    if Recoverable(idOf, dir) { PrefixRecovers(idOf, dir, i + 1); }
    if Readable(idOf, dir[i]) { TableGrows(dir, i); }
  }

  /** File `i` is unreadable, or names an identity that an earlier file has. */
  ghost predicate StopsAt(idOf: Identity -> Id, dir: seq<DirFile>, i: nat, e: OpenError)
    requires i < |dir|
  {
    if !Readable(idOf, dir[i]) then e == Unreadable(dir[i].name)
    else e == DuplicateIdentity(dir[i].name) && exists j | 0 <= j < i :: dir[j].name == dir[i].name
  }

  /** The error is that of the first file which is unreadable or repeats an identity. */
  ghost predicate Refused(idOf: Identity -> Id, dir: seq<DirFile>, e: OpenError) {
    exists i | 0 <= i < |dir| :: Recoverable(idOf, dir[..i]) && StopsAt(idOf, dir, i, e)
  }

  lemma MetaGrows(table: map<Id, Entry>, id: Id, e: Entry)
    ensures MetaMap(table[id := e]) == MetaMap(table)[id := MetaOf(e)]
  {
  }

  lemma RepeatedName(idOf: Identity -> Id, dir: seq<DirFile>, i: nat)
    requires i < |dir| && dir[i].name in TableOf(dir[..i])
    requires Recoverable(idOf, dir[..i]) && Readable(idOf, dir[i])
    ensures Refused(idOf, dir, DuplicateIdentity(dir[i].name))
  {
    TableFacts(dir[..i]);
    var j :| 0 <= j < i && dir[..i][j] == DirFile(dir[i].name, Some(TableOf(dir[..i])[dir[i].name]));
    assert dir[j].name == dir[i].name;
    assert StopsAt(idOf, dir, i, DuplicateIdentity(dir[i].name));
  }

  /** Rebuild the index from the directory; the first file that is unreadable or repeated refuses it. */
  method RecoverIndex(idOf: Identity -> Id, dir: seq<DirFile>) returns (r: Result<Index, OpenError>)
    ensures r.Ok? <==> Recoverable(idOf, dir)
    ensures r.Err? ==> Refused(idOf, dir, r.error)
    ensures r.Ok? ==> fresh(r.value) && r.value.Valid() && !r.value.directorySyncRequired
    ensures r.Ok? ==> r.value.entries == MetaMap(TableOf(dir))
  {
    var index := new Index();
    for i := 0 to |dir|
      invariant fresh(index) && index.Valid() && !index.directorySyncRequired
      invariant index.entries == MetaMap(TableOf(dir[..i]))
      invariant Recoverable(idOf, dir[..i])
    {
      RecoverOne(idOf, dir, i);
      if !Readable(idOf, dir[i]) {
        assert StopsAt(idOf, dir, i, Unreadable(dir[i].name));
        return Err(Unreadable(dir[i].name));
      }
      var entry := dir[i].content.value;
      if entry.id in index.entries {
        RepeatedName(idOf, dir, i);
        return Err(DuplicateIdentity(entry.id));
      }
      MetaGrows(TableOf(dir[..i]), entry.id, entry);
      index.Upsert(entry.id, MetaOf(entry));
    }
    assert dir[..|dir|] == dir;
    r := Ok(index);
  }

  function StampOf(e: Entry): Stamp {
    Stamp(e.nextAttemptAt, e.id)
  }

  /** The ids whose files a scan at `now` may return. */
  function DueFiles(files: map<Id, Entry>, now: nat): set<Id> {
    set id | id in files && IsDue(files[id], now)
  }

  /** As many stamps are eligible as files are due. */
  lemma EligibleCount(files: map<Id, Entry>, now: nat)
    ensures |Eligible(MetaMap(files), now)| == |DueFiles(files, now)|
  {
    StampMembers(MetaMap(files));
    forall id | id in DueFiles(files, now) ensures exists s | s in Eligible(MetaMap(files), now) :: s.id == id {
      assert Stamp(files[id].nextAttemptAt, id) in Eligible(MetaMap(files), now);
    }
    SameSize(Eligible(MetaMap(files), now), DueFiles(files, now));
  }

  lemma {:induction false} SameSize(stamps: set<Stamp>, ids: set<Id>)
    requires forall s | s in stamps :: s.id in ids
    requires forall s, t | s in stamps && t in stamps && s.id == t.id :: s == t
    requires forall id | id in ids :: exists s | s in stamps :: s.id == id
    ensures |stamps| == |ids|
  {
    if ids == {} {
      assert forall s | s in stamps :: s.id in ids;
    } else {
      var id :| id in ids;
      var s :| s in stamps && s.id == id;
      forall other | other in ids - {id} ensures exists t | t in stamps - {s} :: t.id == other {
        var t :| t in stamps && t.id == other;
        assert t in stamps - {s};
      }
      SameSize(stamps - {s}, ids - {id});
    }
  }

  /** `due` are the least `limit` due entries by (time, id), in order. */
  ghost predicate EarliestDue(files: map<Id, Entry>, now: nat, limit: nat, due: seq<Entry>) {
    && |due| == Min(limit, |DueFiles(files, now)|)
    && (forall i | 0 <= i < |due| :: due[i].id in files && due[i] == files[due[i].id] && IsDue(due[i], now))
    && (forall i, j | 0 <= i < j < |due| :: Before(StampOf(due[i]), StampOf(due[j])))
    && forall id, i | id in files && IsDue(files[id], now) && files[id] !in due && 0 <= i < |due| ::
         Before(StampOf(due[i]), StampOf(files[id]))
  }

  function FilesOf(files: map<Id, Entry>, ids: seq<Id>): seq<Entry>
    requires forall i | 0 <= i < |ids| :: ids[i] in files
  {
    seq(|ids|, i requires 0 <= i < |ids| => files[ids[i]])
  }

  /** Read the files of the given ids in order. */
  method ReadEach(files: map<Id, Entry>, ids: seq<Id>, readOk: Id -> bool) returns (r: Result<seq<Entry>, OpenError>)
    requires forall i | 0 <= i < |ids| :: ids[i] in files && files[ids[i]].id == ids[i]
    ensures ReadAll(FilesOf(files, ids), readOk, r)
  {
    var pending: seq<Entry> := [];
    ghost var due := FilesOf(files, ids);
    assert forall i | 0 <= i < |ids| :: due[i].id == ids[i];
    for i := 0 to |ids|
      invariant pending == due[..i]
      invariant forall j | 0 <= j < i :: readOk(due[j].id)
    {
      assert due[i].id == ids[i];
      if !readOk(ids[i]) {
        return Err(Unreadable(ids[i]));
      }
      pending := pending + [files[ids[i]]];
    }
    r := Ok(pending);
  }

  lemma DueStamps(files: map<Id, Entry>, now: nat, id: Id)
    requires id in files && files[id].id == id
    ensures StampOf(files[id]) in Eligible(MetaMap(files), now) <==> IsDue(files[id], now)
  {
    StampMembers(MetaMap(files));
  }

  /** The ids the index gives are those of the earliest due files. */
  lemma IdsAreEarliest(idOf: Identity -> Id, files: map<Id, Entry>, now: nat, limit: nat, ids: seq<Id>)
    requires Keyed(idOf, files) && (forall i | 0 <= i < |ids| :: ids[i] in files)
    requires |ids| == Min(limit, |Eligible(MetaMap(files), now)|)
    requires forall i | 0 <= i < |ids| :: StampOf(files[ids[i]]) in Eligible(MetaMap(files), now)
    requires forall i, j | 0 <= i < j < |ids| :: Before(StampOf(files[ids[i]]), StampOf(files[ids[j]]))
    requires forall s, i | s in Eligible(MetaMap(files), now) && s.id !in ids && 0 <= i < |ids| ::
               Before(StampOf(files[ids[i]]), s)
    ensures EarliestDue(files, now, limit, FilesOf(files, ids))
    ensures forall i | 0 <= i < |ids| :: FilesOf(files, ids)[i].id == ids[i]
  {
    var due := FilesOf(files, ids);
    EligibleCount(files, now);
    forall i | 0 <= i < |due| ensures IsDue(due[i], now) { DueStamps(files, now, ids[i]); }
    forall id, i | id in files && IsDue(files[id], now) && files[id] !in due && 0 <= i < |due|
      ensures Before(StampOf(due[i]), StampOf(files[id]))
    {
      DueStamps(files, now, id);
      forall j | 0 <= j < |ids| ensures ids[j] != id { assert due[j] in due; }
    }
  }

  /** All the entries if every file reads back, else the first one that does not. */
  ghost predicate ReadAll(due: seq<Entry>, readOk: Id -> bool, r: Result<seq<Entry>, OpenError>) {
    match r
    case Ok(pending) => pending == due && forall i | 0 <= i < |due| :: readOk(due[i].id)
    case Err(e) =>
      exists i | 0 <= i < |due| ::
        e == Unreadable(due[i].id) && !readOk(due[i].id) && forall j | 0 <= j < i :: readOk(due[j].id)
  }

  // ---- the loop of `persist` ----

  function Sum(a: Summary, b: Summary): Summary {
    Summary(a.inserted + b.inserted, a.coalesced + b.coalesced, a.updated + b.updated)
  }

  function Counted(summary: Summary, change: Change): Summary {
    match change
    case Coalesced => summary.(coalesced := summary.coalesced + 1)
    case Updated => summary.(updated := summary.updated + 1)
    case Inserted => summary.(inserted := summary.inserted + 1)
    case WriteFailed => summary
  }

  /** What one intent did to the store. */
  ghost predicate Took(idOf: Identity -> Id, was: Store, intent: Intent, now: nat, writeOk: bool, change: Change, after: Store) {
    var id := idOf(intent.identity);
    && (change.Coalesced? <==> Coalesces(was, id, intent))
    && (change.WriteFailed? <==> !Coalesces(was, id, intent) && !writeOk)
    && (change.Inserted? <==> id !in was.files && writeOk)
    && after == (if change.Coalesced? || change.WriteFailed? then was
              else WriteFile(was, NewEntry(was, id, intent, now)).(syncRequired := true))
  }

  /** The first `i` intents are done and counted. */
  ghost predicate Halfway(
    idOf: Identity -> Id, was: Store, intents: seq<Intent>, io: PersistIo, now: Store, summary: Summary, i: nat)
  {
    && i <= |intents| && PersistFrom(idOf, now, intents, io, i) == PersistFrom(idOf, was, intents, io, 0)
    && HoldsLast(idOf, was, intents, now, i)
    && Sum(summary, Tallied(idOf, was, intents, i)) == Tallied(idOf, was, intents, 0)
    && summary.inserted + summary.coalesced + summary.updated == i && |now.files| == |was.files| + summary.inserted
  }

  lemma AtStart(idOf: Identity -> Id, was: Store, intents: seq<Intent>, io: PersistIo)
    ensures Halfway(idOf, was, intents, io, was, Summary(0, 0, 0), 0)
  {
  }

  lemma AtEnd(idOf: Identity -> Id, was: Store, intents: seq<Intent>, io: PersistIo, now: Store, summary: Summary)
    requires Halfway(idOf, was, intents, io, now, summary, |intents|)
    ensures PersistFrom(idOf, was, intents, io, 0) == (now, true) && summary == Tallied(idOf, was, intents, 0)
  {
  }

  lemma Onward(
      idOf: Identity -> Id, was: Store, intents: seq<Intent>, io: PersistIo,
      now: Store, change: Change, now': Store, summary: Summary, i: nat)
    requires i < |intents| && Halfway(idOf, was, intents, io, now, summary, i)
    requires Took(idOf, now, intents[i], io.clock(i), io.writeOk(i), change, now')
    ensures if change.WriteFailed? then PersistFrom(idOf, was, intents, io, 0) == (now', false)
            else Halfway(idOf, was, intents, io, now', Counted(summary, change), i + 1)
  {
    CountsPosition(idOf, was, intents, now, i);
    if !change.WriteFailed? { HoldsNext(idOf, was, intents, now, now', i); }
  }

  class Outbox {
    const idOf: Identity -> Id
    const index: Index
    var files: map<Id, Entry>
    /** For every id changed since the last directory sync, the states a power loss may leave it in. */
    ghost var maybe: map<Id, set<Option<Entry>>>

    ghost function View(): Store
      reads this, index
    {
      Store(files, maybe, index.directorySyncRequired)
    }

    /** The index is the one the directory contents determine. */
    ghost predicate Valid()
      reads this, index
    {
      && index.Valid() && index.entries == MetaMap(files)
      && Keyed(idOf, files) && forall id | id in files :: IsHex(id)
    }

    /** Names the ids of digests. */
    ghost predicate HexIds() {
      forall i: Identity :: IsHex(idOf(i))
    }

    constructor (idOf: Identity -> Id, index: Index, files: map<Id, Entry>, ghost maybe: map<Id, set<Option<Entry>>>)
      requires index.Valid() && index.entries == MetaMap(files)
      requires Keyed(idOf, files) && forall id | id in files :: IsHex(id)
      ensures Valid() && this.idOf == idOf && this.index == index && View() == Store(files, maybe, index.directorySyncRequired)
    {
      this.idOf, this.index, this.files, this.maybe := idOf, index, files, maybe;
    }

    /**
      Open over an existing directory, in whatever order it is enumerated. `setupOk` says that the
      directory could be created and its parent synced. The flag starts clear whatever the previous
      process left unsynced.
     */
    static method Open(idOf: Identity -> Id, dir: seq<DirFile>, setupOk: bool, ghost unsynced: map<Id, set<Option<Entry>>>)
      returns (r: Result<Outbox, OpenError>)
      requires forall i: Identity :: IsHex(idOf(i))
      ensures r.Ok? <==> setupOk && Recoverable(idOf, dir)
      ensures r.Err? && r.error.SetupFailed? <==> !setupOk
      ensures r.Ok? ==> fresh(r.value) && fresh(r.value.index) && r.value.Valid()
      ensures r.Ok? ==> r.value.View() == Store(TableOf(dir), unsynced, false)
    {
      if !setupOk { return Err(SetupFailed); }
      var recovered := RecoverIndex(idOf, dir);
      if recovered.Err? { return Err(recovered.error); }
      TableFacts(dir);
      assert Keyed(idOf, TableOf(dir));
      var outbox := new Outbox(idOf, recovered.value, TableOf(dir), unsynced);
      r := Ok(outbox);
    }

    /** Put an entry's file in place by an atomic rename, and index it. */
    method Put(entry: Entry)
      requires Valid() && IsHex(entry.id) && idOf(entry.intent.identity) == entry.id
      modifies this`files, this`maybe, index
      ensures Valid() && View() == WriteFile(old(View()), entry)
    {
      maybe := maybe[entry.id := Outcomes(View(), entry.id) + {Some(entry)}];
      files := files[entry.id := entry];
      index.Upsert(entry.id, MetaOf(entry));
    }

    /** Remove an entry's file, and its index entry. */
    method Drop(id: Id)
      requires Valid()
      modifies this`files, this`maybe, index
      ensures Valid() && View() == RemoveFile(old(View()), id)
    {
      maybe := maybe[id := Outcomes(View(), id) + {None}];
      files := files - {id};
      var _ := index.Remove(id);
    }

    /** Sync the directory after a change; the flag stays set when that fails. */
    method SyncPending(syncOk: bool) returns (ok: bool)
      requires Valid()
      modifies this`maybe, index`directorySyncRequired
      ensures Valid() && View() == FinishSync(old(View()), syncOk) && ok == syncOk
    {
      index.directorySyncRequired := true;
      if !syncOk { return false; }
      maybe := map[];
      index.directorySyncRequired := false;
      ok := true;
    }

    /** The loop body of `persist`. */
    method PersistOne(intent: Intent, now: nat, writeOk: bool) returns (change: Change)
      requires Valid() && HexIds()
      modifies this`files, this`maybe, index
      ensures Valid()
      ensures Took(idOf, old(View()), intent, now, writeOk, change, View())
    {
      var id := idOf(intent.identity);
      var entry := Entry(id, intent, now, now, 0, 0, None, false);
      change := Inserted;
      if id in index.entries {
        var existing := index.entries[id];
        if existing.intentDigest == intent { return Coalesced; }
        entry := entry.(createdAt := existing.createdAt);
        change := Updated;
      }
      if !writeOk { return WriteFailed; }
      Put(entry);
      index.directorySyncRequired := true;
    }

    /** The loop of `persist`: the intents in order, up to the first write that fails. */
    method PersistEach(intents: seq<Intent>, io: PersistIo) returns (ok: bool, summary: Summary)
      requires Valid() && HexIds()
      modifies this`files, this`maybe, index
      ensures Valid() && (View(), ok) == PersistFrom(idOf, old(View()), intents, io, 0)
      ensures ok ==> Halfway(idOf, old(View()), intents, io, View(), summary, |intents|)
    {
      ghost var was := View();
      summary := Summary(0, 0, 0);
      AtStart(idOf, was, intents, io);
      for i := 0 to |intents|
        invariant Valid()
        invariant Halfway(idOf, was, intents, io, View(), summary, i)
      {
        ghost var before := View();
        var change := PersistOne(intents[i], io.clock(i), io.writeOk(i));
        Onward(idOf, was, intents, io, before, change, View(), summary, i);
        if change.WriteFailed? { return false, summary; }
        summary := Counted(summary, change);
      }
      AtEnd(idOf, was, intents, io, View(), summary);
      ok := true;
    }

    /** `persist`: one file per changed intent, then one directory sync if anything is unsynced. */
    method PersistIntents(intents: seq<Intent>, io: PersistIo) returns (r: Result<Summary, ()>)
      requires Valid() && HexIds()
      modifies this, index
      ensures Valid()
      ensures View() == Persist(idOf, old(View()), intents, io).0
      ensures r.Ok? == Persist(idOf, old(View()), intents, io).1
      ensures r.Ok? ==> r.value == Tallied(idOf, old(View()), intents, 0)
      ensures r.Ok? ==> r.value.inserted + r.value.coalesced + r.value.updated == |intents|
      ensures r.Ok? ==> |files| == |old(files)| + r.value.inserted
    {
      var ok, summary := PersistEach(intents, io);
      if ok { AtEnd(idOf, old(View()), intents, io, View(), summary); }
      if !ok { return Err(()); }
      if index.directorySyncRequired {
        var synced := SyncPending(io.syncOk);
        if !synced { return Err(()); }
      }
      r := Ok(summary);
    }

    method MarkDeliveredIf(expected: Entry, io: CasIo) returns (r: CasResult)
      requires Valid()
      modifies this, index
      ensures Valid()
      ensures (View(), r) == MarkDelivered(old(View()), expected, io)
    {
      if expected.id !in index.entries || index.entries[expected.id].generation != expected { return Stale; }
      if !io.readOk { return Failed; }
      if files[expected.id] != expected { return Stale; }
      if !io.changeOk { return Failed; }
      Drop(expected.id);
      var synced := SyncPending(io.syncOk);
      r := if synced then Applied else Failed;
    }

    method RecordFailureIf(expected: Entry, error: string, retryAfter: Option<nat>, terminal: bool, io: CasIo)
      returns (r: CasResult)
      requires Valid()
      modifies this, index
      ensures Valid()
      ensures (View(), r) == RecordFailure(old(View()), expected, error, retryAfter, terminal, io)
    {
      if expected.id !in index.entries || index.entries[expected.id].generation != expected { return Stale; }
      if !io.readOk { return Failed; }
      var entry := files[expected.id];
      if entry != expected { return Stale; }
      entry := entry.(attempts := Min(entry.attempts + 1, U32_MAX));
      entry := entry.(updatedAt := io.now);
      entry := entry.(nextAttemptAt := if retryAfter.Some? then Min(entry.updatedAt + retryAfter.value, U64_MAX) else 0);
      entry := entry.(lastError := Some(error));
      entry := entry.(terminal := terminal);
      if !io.changeOk { return Failed; }
      Put(entry);
      var synced := SyncPending(io.syncOk);
      r := if synced then Applied else Failed;
    }

    /** The entries due by `now`, at most `limit` of them, or the first one whose file does not read back. */
    method ScanEligible(now: nat, limit: nat, readOk: Id -> bool) returns (r: Result<seq<Entry>, OpenError>)
      requires Valid()
      ensures exists due :: EarliestDue(files, now, limit, due) && ReadAll(due, readOk, r)
    {
      var ids := index.DueIds(now, limit);
      IdsAreEarliest(idOf, files, now, limit, ids);
      r := ReadEach(files, ids, readOk);
    }

    /** Pending and terminal entries together are all of them, and due and deferred are all the pending. */
    method MetadataSnapshot(now: nat) returns (s: Snapshot)
      requires Valid()
      ensures s.pending + s.terminal == |files|
      ensures s.due + s.deferred == s.pending && s.due == |DueFiles(files, now)|
      ensures s.terminal == |set id | id in files && files[id].terminal|
      ensures s.oldestCreatedAt.None? <==> files == map[]
      ensures s.oldestCreatedAt.Some? ==>
                && (exists id :: id in files && files[id].createdAt == s.oldestCreatedAt.value)
                && forall id | id in files :: s.oldestCreatedAt.value <= files[id].createdAt
    {
      var dueNow := set e | e in index.due && !Before(Stamp(now, MAX_ID), e);
      s := Snapshot(|index.due|, |dueNow|, |index.due - dueNow|, index.terminalCount, index.oldestCreatedAt);
      SnapshotFacts(now, dueNow);
      OldestFacts();
    }

    lemma SnapshotFacts(now: nat, dueNow: set<Stamp>)
      requires Valid() && dueNow == set e | e in index.due && !Before(Stamp(now, MAX_ID), e)
      ensures |dueNow| == |DueFiles(files, now)| && |dueNow| + |index.due - dueNow| == |index.due|
      ensures |index.due| + index.terminalCount == |files|
      ensures index.terminalCount == |set id | id in files && files[id].terminal|
    {
      EligibleCount(files, now);
      PendingPlusTerminal(index.entries);
      assert index.entries.Keys == files.Keys;
      assert TerminalIds(index.entries) == set id | id in files && files[id].terminal;
      DueNow(now, dueNow);
      assert index.due == dueNow + (index.due - dueNow);
    }

    lemma DueNow(now: nat, dueNow: set<Stamp>)
      requires Valid() && dueNow == set e | e in index.due && !Before(Stamp(now, MAX_ID), e)
      ensures dueNow == Eligible(MetaMap(files), now)
    {
      StampMembers(index.entries);
      forall e | e in index.due ensures !Before(Stamp(now, MAX_ID), e) <==> e.time <= now { DueBound(e, now); }
    }

    lemma OldestFacts()
      requires Valid()
      ensures index.oldestCreatedAt.None? <==> files == map[]
      ensures index.oldestCreatedAt.Some? ==>
                && (exists id :: id in files && files[id].createdAt == index.oldestCreatedAt.value)
                && forall id | id in files :: index.oldestCreatedAt.value <= files[id].createdAt
    {
      StampMembers(index.entries);
      assert index.entries.Keys == files.Keys;
      assert forall id | id in files :: Stamp(files[id].createdAt, id) in index.created;
      if index.oldestCreatedAt.Some? {
        var e :| e in index.created && e.time == index.oldestCreatedAt.value;
        assert files[e.id].createdAt == e.time;
      }
    }
  }
}
