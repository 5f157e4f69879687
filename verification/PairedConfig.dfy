/**
  Writing one plugin entry into a configuration document. A paired schema sink and the data
  and deadletter sinks linked to it form a group that holds one config, so one write may
  change several entries.
 */
module PairedConfig {
  import opened Basics

  // ---- the document ----

  datatype Value = Null | Text(text: string) | Other(text: string) | Mapping(fields: Fields)

  type Fields = map<string, Value>

  datatype Plugin = Plugin(kind: string, body: Value)

  /** An entry's `schema_sink` value and its plugin key, if any. */
  datatype Entry = Entry(link: Option<Value>, plugin: Option<Plugin>)

  datatype Slot = NullSlot | ScalarSlot | EntrySlot(entry: Entry)

  datatype Section = NullSection | ScalarSection | Names(slots: map<string, Slot>)

  datatype Registry = DataSources | DataSinks | DeadletterSinks | SchemaSinks

  type Document = map<Registry, Section>

  const NEW_ENTRY: Entry := Entry(None, None)

  function SlotAt(doc: Document, r: Registry, name: string): Option<Slot> {
    if r in doc && doc[r].Names? && name in doc[r].slots then Some(doc[r].slots[name]) else None
  }

  function EntryAt(doc: Document, r: Registry, name: string): Option<Entry> {
    match SlotAt(doc, r, name)
    case Some(EntrySlot(entry)) => Some(entry)
    case _ => None
  }

  /** The mapping at `<registry>.<name>`; a missing or null one starts empty, a scalar on the way is an error. */
  function Opened(doc: Document, r: Registry, name: string): Result<Entry, string> {
    if r in doc && doc[r].ScalarSection? then Err("expected mapping")
    else
      match SlotAt(doc, r, name)
      case None => Ok(NEW_ENTRY)
      case Some(NullSlot) => Ok(NEW_ENTRY)
      case Some(ScalarSlot) => Err("expected mapping")
      case Some(EntrySlot(entry)) => Ok(entry)
  }

  function Put(doc: Document, r: Registry, name: string, entry: Entry): Document {
    var slots := if r in doc && doc[r].Names? then doc[r].slots else map[];
    doc[r := Names(slots[name := EntrySlot(entry)])]
  }

  lemma PutGet(doc: Document, r: Registry, name: string, entry: Entry, r': Registry, name': string)
    ensures SlotAt(Put(doc, r, name, entry), r', name') ==
            if r' == r && name' == name then Some(EntrySlot(entry)) else SlotAt(doc, r', name')
  {
  }

  // ---- plugin kinds ----

  datatype PairedSink = AthenaIceberg | SkipprLake | Duckdb

  datatype Role = DataSource | DataSink | SchemaSink

  datatype ConnectPlugin = ConnectPlugin(role: Role, name: string)

  function LowerChar(c: char): char {
    if 'A' <= c <= 'Z' then (c as int + 32) as char else c
  }

  function Lower(s: string): string {
    seq(|s|, i requires 0 <= i < |s| => LowerChar(s[i]))
  }

  /** The same ASCII letter up to case, or the same character. */
  predicate SameLetter(a: char, b: char) {
    || a == b
    || ('A' <= a <= 'Z' && b as int == a as int + 32)
    || ('A' <= b <= 'Z' && a as int == b as int + 32)
  }

  predicate SameLetters(a: string, b: string) {
    |a| == |b| && forall i | 0 <= i < |a| :: SameLetter(a[i], b[i])
  }

  lemma LowerExactly(a: string, b: string)
    ensures Lower(a) == Lower(b) <==> SameLetters(a, b)
  {
    if Lower(a) == Lower(b) {
      assert |a| == |Lower(a)| == |Lower(b)| == |b|;
      forall i | 0 <= i < |a| ensures SameLetter(a[i], b[i]) { assert Lower(a)[i] == Lower(b)[i]; }
    }
    if SameLetters(a, b) { assert Lower(a) == Lower(b); }
  }

  function Trim(s: string): string {
    if s == [] then []
    else if IsWhitespace(s[0]) then Trim(s[1..])
    else if IsWhitespace(s[|s| - 1]) then Trim(s[..|s| - 1])
    else s
  }

  /** The paired plugin a kind names, as a data sink or as a schema sink. */
  function PairedKind(kind: string): Option<PairedSink> {
    var k := Lower(Trim(kind));
    if k == "athenaiceberg" then Some(AthenaIceberg)
    else if k == "skipprlake" then Some(SkipprLake)
    else if k == "duckdb" then Some(Duckdb)
    else None
  }

  function NameOf(paired: PairedSink): string {
    match paired
    case AthenaIceberg => "AthenaIceberg"
    case SkipprLake => "SkipprLake"
    case Duckdb => "Duckdb"
  }

  lemma NamesAreKinds(paired: PairedSink)
    ensures PairedKind(NameOf(paired)) == Some(paired)
  {
    match paired
    case AthenaIceberg => assert Trim("AthenaIceberg") == "AthenaIceberg"; assert Lower("AthenaIceberg") == "athenaiceberg";
    case SkipprLake => assert Trim("SkipprLake") == "SkipprLake"; assert Lower("SkipprLake") == "skipprlake";
    case Duckdb => assert Trim("Duckdb") == "Duckdb"; assert Lower("Duckdb") == "duckdb";
  }

  // ---- references ----

  const SCHEMA_KEY := "schema_sinks"

  function Reference(schema: string): string {
    SCHEMA_KEY + "." + schema
  }

  function ParseReference(reference: string): Result<string, string> {
    var n := |SCHEMA_KEY|;
    if |reference| > n + 1 && reference[..n] == SCHEMA_KEY && reference[n] == '.' && '.' !in reference[n + 1..]
    then Ok(reference[n + 1..])
    else Err("invalid registry reference")
  }

  lemma ReferenceText(schema: string)
    ensures Reference(schema) == "schema_sinks." + schema
  {
    assert "schema_sinks" + "." == "schema_sinks.";
  }

  /** A reference is the registry's name, a dot, and a name that is not empty and has no dot. */
  lemma ParsesExactly(reference: string, schema: string)
    ensures ParseReference(reference) == Ok(schema) <==>
            reference == "schema_sinks." + schema && schema != [] && '.' !in schema
  {
    ReferenceText(schema);
    if reference == "schema_sinks." + schema { assert reference[|SCHEMA_KEY| + 1..] == schema; }
  }

  lemma ReferenceInjective(a: string, b: string)
    requires Reference(a) == Reference(b)
    ensures a == b
  {
    assert a == Reference(a)[|SCHEMA_KEY| + 1..] && b == Reference(b)[|SCHEMA_KEY| + 1..];
  }

  // ---- pair groups ----

  datatype Member = Sink(deadletter: bool, name: string) | Schema(name: string)

  function RegistryOf(m: Member): Registry {
    if m.Schema? then SchemaSinks else if m.deadletter then DeadletterSinks else DataSinks
  }

  function MemberOf(r: Registry, name: string): Option<Member> {
    match r
    case DataSinks => Some(Sink(false, name))
    case DeadletterSinks => Some(Sink(true, name))
    case SchemaSinks => Some(Schema(name))
    case DataSources => None
  }

  function EntryOf(doc: Document, m: Member): Option<Entry> {
    EntryAt(doc, RegistryOf(m), m.name)
  }

  /** The sink links the schema sink and is of the paired plugin. */
  predicate Linked(doc: Document, paired: PairedSink, schema: string, m: Member) {
    && m.Sink? && EntryOf(doc, m).Some?
    && var entry := EntryOf(doc, m).value;
       && entry.link == Some(Text(Reference(schema)))
       && entry.plugin.Some? && PairedKind(entry.plugin.value.kind) == Some(paired)
  }

  function NamesIn(doc: Document, r: Registry): set<string> {
    if r in doc && doc[r].Names? then doc[r].slots.Keys else {}
  }

  /** No group when the schema sink is of another plugin. */
  predicate Foreign(doc: Document, paired: PairedSink, schema: string) {
    var entry := EntryAt(doc, SchemaSinks, schema);
    entry.Some? && entry.value.plugin.Some? && PairedKind(entry.value.plugin.value.kind) != Some(paired)
  }

  function PairGroup(doc: Document, paired: PairedSink, schema: string): Option<set<Member>> {
    if Foreign(doc, paired, schema) then None
    else
      Some({Schema(schema)}
           + (set n | n in NamesIn(doc, DataSinks) && Linked(doc, paired, schema, Sink(false, n)) :: Sink(false, n))
           + (set n | n in NamesIn(doc, DeadletterSinks) && Linked(doc, paired, schema, Sink(true, n)) :: Sink(true, n)))
  }

  lemma GroupMembers(doc: Document, paired: PairedSink, schema: string)
    requires !Foreign(doc, paired, schema)
    ensures forall m :: m in PairGroup(doc, paired, schema).value <==> m == Schema(schema) || Linked(doc, paired, schema, m)
  {
  }

  datatype Group = Group(paired: PairedSink, schema: string, members: set<Member>)

  function PairedPlugin(plugin: ConnectPlugin): Option<PairedSink> {
    if plugin.role.DataSource? then None else PairedKind(plugin.name)
  }

  /** The text of an entry's link. */
  function LinkText(entry: Option<Entry>): Option<string> {
    if entry.Some? && entry.value.link.Some? && entry.value.link.value.Text? then Some(entry.value.link.value.text) else None
  }

  /** The schema sink whose group the written entry joins. */
  function TargetSchema(doc: Document, written: Member, schemaSink: Option<string>): Result<Option<string>, string> {
    if written.Schema? then Ok(Some(written.name))
    else if schemaSink.Some? then Ok(schemaSink)
    else
      match LinkText(EntryOf(doc, written))
      case None => Ok(None)
      case Some(reference) =>
        match ParseReference(reference)
        case Ok(schema) => Ok(Some(schema))
        case Err(e) => Err(e)
  }

  function WrittenGroup(doc: Document, written: Member, plugin: ConnectPlugin, schemaSink: Option<string>)
    : Result<Option<Group>, string>
  {
    if PairedPlugin(plugin).None? then Ok(None)
    else
      match TargetSchema(doc, written, schemaSink)
      case Err(e) => Err(e)
      case Ok(None) => Ok(None)
      case Ok(Some(schema)) =>
        var paired := PairedPlugin(plugin).value;
        if Foreign(doc, paired, schema) then Ok(None)
        else Ok(Some(Group(paired, schema, PairGroup(doc, paired, schema).value + {written})))
  }

  // ---- configs ----

  /** The fields a member holds; an empty or missing body holds none. */
  function BodyOf(doc: Document, m: Member): Option<Fields> {
    match EntryOf(doc, m)
    case Some(Entry(_, Some(Plugin(_, Mapping(fields))))) => if fields == map[] then None else Some(fields)
    case _ => None
  }

  /** `config` is the one config of the members, the empty one if none of them holds any. */
  ghost predicate Holds(doc: Document, members: set<Member>, config: Fields) {
    && (forall m | m in members && BodyOf(doc, m).Some? :: BodyOf(doc, m).value == config)
    && (config == map[] || exists m | m in members :: BodyOf(doc, m) == Some(config))
  }

  ghost predicate Agree(doc: Document, members: set<Member>) {
    forall m, n | m in members && n in members && BodyOf(doc, m).Some? && BodyOf(doc, n).Some? ::
      BodyOf(doc, m) == BodyOf(doc, n)
  }

  method GroupConfig(doc: Document, members: set<Member>) returns (r: Result<Fields, string>)
    ensures r.Ok? <==> Agree(doc, members)
    ensures r.Ok? ==> Holds(doc, members, r.value)
  {
    var rest := members;
    var held: Option<Fields> := None;
    while rest != {}
      invariant rest <= members
      invariant forall m | m in members && m !in rest && BodyOf(doc, m).Some? :: BodyOf(doc, m) == held
      invariant held.Some? ==> held.value != map[] && exists m | m in members :: BodyOf(doc, m) == held
      decreases rest
    {
      var m :| m in rest;
      rest := rest - {m};
      var body := BodyOf(doc, m);
      if held.None? {
        held := body;
      } else if body.Some? && body != held {
        return Err("paired configs must be equal before a write changes them");
      }
    }
    r := Ok(if held.Some? then held.value else map[]);
  }

  lemma HoldsUnique(doc: Document, members: set<Member>, a: Fields, b: Fields)
    requires Holds(doc, members, a) && Holds(doc, members, b)
    ensures a == b
  {
  }

  // ---- writing ----

  /** The entry after one write: same kind up to case, named fields replaced, the others kept. */
  function MergedEntry(entry: Entry, kind: string, fields: Fields, schemaSink: Option<string>): Result<Entry, string> {
    var body := if entry.plugin.Some? then entry.plugin.value.body else Null;
    if entry.plugin.Some? && Lower(entry.plugin.value.kind) != Lower(kind) then Err("entry already uses another plugin")
    else if body.Text? || body.Other? then Err("expected mapping")
    else
      var kept := if body.Mapping? then body.fields else map[];
      Ok(Entry(if schemaSink.Some? then Some(Text(Reference(schemaSink.value))) else entry.link,
               Some(Plugin(kind, Mapping(kept + fields)))))
  }

  function MergeEntry(doc: Document, r: Registry, name: string, kind: string, fields: Fields, schemaSink: Option<string>)
    : Result<Document, string>
  {
    match Opened(doc, r, name)
    case Err(e) => Err(e)
    case Ok(entry) =>
      match MergedEntry(entry, kind, fields, schemaSink)
      case Err(e) => Err(e)
      case Ok(merged) => Ok(Put(doc, r, name, merged))
  }

  datatype Write = Write(registry: Registry, name: string, plugin: ConnectPlugin, fields: Fields, schemaSink: Option<string>)

  /** The plugin is of the registry's role and goes by its own name, as the plugin table guarantees. */
  predicate WellFormed(w: Write) {
    && (w.registry.DataSources? <==> w.plugin.role.DataSource?)
    && (w.registry.SchemaSinks? <==> w.plugin.role.SchemaSink?)
    && (PairedKind(w.plugin.name).Some? ==> w.plugin.name == NameOf(PairedKind(w.plugin.name).value))
  }

  function GroupFor(doc: Document, w: Write): Result<Option<Group>, string> {
    match MemberOf(w.registry, w.name)
    case None => Ok(None)
    case Some(written) => WrittenGroup(doc, written, w.plugin, w.schemaSink)
  }

  predicate IsPlace(members: set<Member>, r: Registry, name: string) {
    MemberOf(r, name).Some? && MemberOf(r, name).value in members
  }

  /** Each member's entry takes the plugin; nothing else changes. */
  ghost predicate Rewritten(doc: Document, doc': Document, members: set<Member>, plugin: Plugin) {
    && (forall m | m in members ::
          && Opened(doc, RegistryOf(m), m.name).Ok?
          && EntryOf(doc', m) == Some(Opened(doc, RegistryOf(m), m.name).value.(plugin := Some(plugin))))
    && forall r, n | !IsPlace(members, r, n) :: SlotAt(doc', r, n) == SlotAt(doc, r, n)
  }

  /** The members of the group to be written already differ. */
  ghost predicate Torn(doc: Document, w: Write) {
    var group := GroupFor(doc, w);
    group.Ok? && group.value.Some? && !Agree(doc, group.value.value.members)
  }

  /** What a successful write leaves behind. */
  ghost predicate Wrote(doc: Document, w: Write, doc': Document) {
    var merged := MergeEntry(doc, w.registry, w.name, w.plugin.name, w.fields, w.schemaSink);
    && merged.Ok?
    && match GroupFor(doc, w)
       case Err(_) => false
       case Ok(None) => doc' == merged.value
       case Ok(Some(group)) =>
         exists config :: Holds(doc, group.members, config)
           && Rewritten(merged.value, doc', group.members, Plugin(NameOf(group.paired), Mapping(config + w.fields)))
  }

  /** No scalar stands where a member's entry should be. */
  ghost predicate Openable(doc: Document, members: set<Member>) {
    forall m | m in members :: Opened(doc, RegistryOf(m), m.name).Ok?
  }

  /** The place is missing, null or a mapping, and a plugin there is of the kind up to case and missing, null or a mapping. */
  ghost predicate Accepts(doc: Document, r: Registry, name: string, kind: string) {
    && !(r in doc && doc[r].ScalarSection?) && SlotAt(doc, r, name) != Some(ScalarSlot)
    && match EntryAt(doc, r, name)
       case Some(Entry(_, Some(Plugin(held, body)))) => SameLetters(held, kind) && (body.Null? || body.Mapping?)
       case _ => true
  }

  /** A paired sink, given no schema sink, has a link that is no reference to one. */
  ghost predicate BadLink(doc: Document, w: Write) {
    && (w.registry.DataSinks? || w.registry.DeadletterSinks?) && PairedPlugin(w.plugin).Some? && w.schemaSink.None?
    && match EntryAt(doc, w.registry, w.name)
       case Some(Entry(Some(Text(link)), _)) =>
         forall schema | link == "schema_sinks." + schema :: schema == [] || '.' in schema
       case _ => false
  }

  /** Exactly when a write succeeds. */
  ghost predicate Writable(doc: Document, w: Write) {
    && !BadLink(doc, w) && !Torn(doc, w) && Accepts(doc, w.registry, w.name, w.plugin.name)
    && (GroupFor(doc, w).Ok? && GroupFor(doc, w).value.Some? ==> Openable(doc, GroupFor(doc, w).value.value.members))
  }

  lemma RefusedExactly(doc: Document, w: Write)
    ensures GroupFor(doc, w).Err? <==> BadLink(doc, w)
  {
    var entry := EntryAt(doc, w.registry, w.name);
    if entry.Some? && entry.value.link.Some? && entry.value.link.value.Text? {
      var link := entry.value.link.value.text;
      forall schema { ParsesExactly(link, schema); }
      if ParseReference(link).Ok? { ParsesExactly(link, ParseReference(link).value); }
    }
  }

  lemma MergesExactly(doc: Document, r: Registry, name: string, kind: string, fields: Fields, schemaSink: Option<string>)
    ensures MergeEntry(doc, r, name, kind, fields, schemaSink).Ok? <==> Accepts(doc, r, name, kind)
  {
    var entry := EntryAt(doc, r, name);
    if entry.Some? && entry.value.plugin.Some? { LowerExactly(entry.value.plugin.value.kind, kind); }
  }

  /** Merging the named entry does not change which members can be opened. */
  lemma MergeKeepsOpenable(doc: Document, w: Write, members: set<Member>)
    requires MergeEntry(doc, w.registry, w.name, w.plugin.name, w.fields, w.schemaSink).Ok?
    ensures var merged := MergeEntry(doc, w.registry, w.name, w.plugin.name, w.fields, w.schemaSink).value;
            Openable(merged, members) <==> Openable(doc, members)
  {
    var merged := MergeEntry(doc, w.registry, w.name, w.plugin.name, w.fields, w.schemaSink).value;
    forall m | m in members
      ensures Opened(merged, RegistryOf(m), m.name).Ok? <==> Opened(doc, RegistryOf(m), m.name).Ok?
    {
      var entry := MergedEntry(Opened(doc, w.registry, w.name).value, w.plugin.name, w.fields, w.schemaSink).value;
      PutGet(doc, w.registry, w.name, entry, RegistryOf(m), m.name);
    }
  }

  ghost predicate SameShape(doc: Document, doc': Document) {
    forall r :: (r in doc && doc[r].ScalarSection?) <==> (r in doc' && doc'[r].ScalarSection?)
  }

  lemma RewriteOne(doc: Document, cur: Document, done: set<Member>, m: Member, plugin: Plugin)
    requires Rewritten(doc, cur, done, plugin) && SameShape(doc, cur) && m !in done
    ensures Opened(cur, RegistryOf(m), m.name) == Opened(doc, RegistryOf(m), m.name)
    ensures Opened(doc, RegistryOf(m), m.name).Ok? ==>
              var cur' := Put(cur, RegistryOf(m), m.name, Opened(doc, RegistryOf(m), m.name).value.(plugin := Some(plugin)));
              Rewritten(doc, cur', done + {m}, plugin) && SameShape(doc, cur')
  {
    var r, n := RegistryOf(m), m.name;
    assert !IsPlace(done, r, n);
    assert SlotAt(cur, r, n) == SlotAt(doc, r, n);
    if Opened(doc, r, n).Ok? {
      var entry := Opened(doc, r, n).value.(plugin := Some(plugin));
      var cur' := Put(cur, r, n, entry);
      forall r', n' ensures SlotAt(cur', r', n') == if r' == r && n' == n then Some(EntrySlot(entry)) else SlotAt(cur, r', n') {
        PutGet(cur, r, n, entry, r', n');
      }
      forall r', n' | !IsPlace(done + {m}, r', n') ensures SlotAt(cur', r', n') == SlotAt(doc, r', n') {
        assert !IsPlace(done, r', n');
      }
    }
  }

  class Config {
    var doc: Document

    /** Give every member the same config, one after the other. */
    method WriteMembers(members: set<Member>, plugin: Plugin) returns (r: Result<(), string>)
      modifies this
      ensures r.Ok? <==> Openable(old(doc), members)
      ensures r.Ok? ==> Rewritten(old(doc), doc, members, plugin)
    {
      var rest := members;
      while rest != {}
        invariant rest <= members && SameShape(old(doc), doc) && Openable(old(doc), members - rest)
        invariant Rewritten(old(doc), doc, members - rest, plugin)
        decreases rest
      {
        var m :| m in rest;
        RewriteOne(old(doc), doc, members - rest, m, plugin);
        var entry := Opened(doc, RegistryOf(m), m.name);
        if entry.Err? {
          return Err(entry.error);
        }
        assert members - rest + {m} == members - (rest - {m});
        doc := Put(doc, RegistryOf(m), m.name, entry.value.(plugin := Some(plugin)));
        rest := rest - {m};
      }
      assert members - rest == members;
      r := Ok(());
    }

    /** `secretsOk` says that the secret fields are unresolved environment references. */
    method WriteEntry(w: Write, secretsOk: bool) returns (r: Result<(), string>)
      modifies this
      ensures r.Ok? <==> secretsOk && Writable(old(doc), w)
      ensures r.Ok? ==> Wrote(old(doc), w, doc)
      ensures !secretsOk || BadLink(old(doc), w) || Torn(old(doc), w) ==> r.Err? && doc == old(doc)
    {
      RefusedExactly(doc, w);
      MergesExactly(doc, w.registry, w.name, w.plugin.name, w.fields, w.schemaSink);
      if !secretsOk {
        return Err("secret field must be an environment reference");
      }
      var group := GroupFor(doc, w);
      if group.Err? {
        return Err(group.error);
      }
      var config: Fields := map[];
      if group.value.Some? {
        var held := GroupConfig(doc, group.value.value.members);
        if held.Err? {
          return Err(held.error);
        }
        config := held.value;
      }
      var merged := MergeEntry(doc, w.registry, w.name, w.plugin.name, w.fields, w.schemaSink);
      if merged.Err? {
        return Err(merged.error);
      }
      if group.value.Some? { MergeKeepsOpenable(doc, w, group.value.value.members); }
      doc := merged.value;
      if group.value.None? {
        return Ok(());
      }
      r := WriteMembers(group.value.value.members, Plugin(NameOf(group.value.value.paired), Mapping(config + w.fields)));
    }
  }
}
