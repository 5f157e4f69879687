/** Catalog intents, the outbox entries that carry them, and the metadata the outbox indexes. */
module CatalogTypes {
  import opened Basics
  import opened OrderTokens

  /** The hex digest that names an identity's file, compared byte by byte. */
  type Id = seq<Byte>

  datatype Identity = Identity(sinkRef: string, namespace: string, key: string)

  datatype GlueColumn = GlueColumn(name: string, columnType: string, comment: Option<string>)

  datatype GlueTarget = GlueTarget(region: Option<string>, catalogId: Option<string>, database: string, table: string)

  datatype Payload = Payload(
    version: nat,
    target: GlueTarget,
    values: seq<string>,
    location: string,
    storageColumns: seq<GlueColumn>,
    partitionColumns: seq<GlueColumn>,
    inputFormat: string,
    outputFormat: string,
    serdeLibrary: string,
    schemaNamespace: string,
    schemaVersion: nat)

  datatype Intent = Intent(version: nat, identity: Identity, payload: Payload)

  /** One outbox file. */
  datatype Entry = Entry(
    id: Id,
    intent: Intent,
    createdAt: nat,
    updatedAt: nat,
    attempts: nat,
    nextAttemptAt: nat,
    lastError: Option<string>,
    terminal: bool)

  /** A scan at `now` may return the entry. */
  predicate IsDue(e: Entry, now: nat) {
    !e.terminal && e.nextAttemptAt <= now
  }

  /** What the index keeps of an entry. The two digests are modelled by what they digest. */
  datatype Meta = Meta(
    createdAt: nat,
    updatedAt: nat,
    nextAttemptAt: nat,
    terminal: bool,
    generation: Entry,
    intentDigest: Intent)

  function MetaOf(e: Entry): Meta {
    Meta(e.createdAt, e.updatedAt, e.nextAttemptAt, e.terminal, e, e.intent)
  }

  function MetaMap(files: map<Id, Entry>): map<Id, Meta> {
    map id | id in files :: MetaOf(files[id])
  }

  /** A member of the index's ordered sets: a time, then the id. */
  datatype Stamp = Stamp(time: nat, id: Id)

  predicate Before(a: Stamp, b: Stamp) {
    a.time < b.time || (a.time == b.time && Less(a.id, b.id))
  }

  lemma BeforeTotal(a: Stamp, b: Stamp)
    ensures Before(a, b) || a == b || Before(b, a)
  {
    Trichotomy(a.id, b.id);
  }

  lemma BeforeTrans(a: Stamp, b: Stamp, c: Stamp)
    requires Before(a, b) && Before(b, c)
    ensures Before(a, c)
  {
    if a.time == b.time == c.time { Transitive(a.id, b.id, c.id); }
  }

  /** Ids are lower-case hex, so every byte of one sorts below the last Unicode scalar. */
  predicate IsHex(id: Id) {
    forall i | 0 <= i < |id| :: 48 <= id[i] <= 57 || 97 <= id[i] <= 102
  }

  /** `char::MAX` in UTF-8, the upper bound the due scan uses for the id. */
  const MAX_ID: Id := [0xF4, 0x8F, 0xBF, 0xBF]

  /** The scan bound `(now, char::MAX)` admits exactly the entries due by `now`. */
  lemma DueBound(s: Stamp, now: nat)
    requires IsHex(s.id)
    ensures !Before(Stamp(now, MAX_ID), s) <==> s.time <= now
  {
    if s.time == now && s.id != [] { assert s.id[0] < MAX_ID[0]; }
  }
}
