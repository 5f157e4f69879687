/** What a successful write leaves in the entries it touches: their kinds, their fields and their links. */
module PairedEntries {
  import opened Basics
  import opened PairedConfig
  import opened PairedGroups

  // ---- kinds ----

  /** `t` is `s` from position `i` to `j`, with nothing but whitespace before and after, and none at its ends. */
  ghost predicate TrimsAt(s: string, t: string, i: int, j: int) {
    && 0 <= i <= j <= |s| && t == s[i..j]
    && (forall k | 0 <= k < i :: IsWhitespace(s[k])) && (forall k | j <= k < |s| :: IsWhitespace(s[k]))
    && (i < j ==> !IsWhitespace(s[i]) && !IsWhitespace(s[j - 1]))
  }

  ghost predicate TrimsTo(s: string, t: string) {
    exists i, j :: TrimsAt(s, t, i, j)
  }

  lemma TrimFront(s: string, t: string, i: nat, j: nat)
    requires s != [] && IsWhitespace(s[0])
    ensures TrimsAt(s[1..], t, i, j) ==> TrimsAt(s, t, i + 1, j + 1)
    ensures TrimsAt(s, t, i + 1, j + 1) ==> TrimsAt(s[1..], t, i, j)
  {
    if TrimsAt(s[1..], t, i, j) {
      assert s[1..][i..j] == s[i + 1..j + 1];
      forall k | 0 <= k < i + 1 ensures IsWhitespace(s[k]) { if k > 0 { assert s[k] == s[1..][k - 1]; } }
      forall k | j + 1 <= k < |s| ensures IsWhitespace(s[k]) { assert s[k] == s[1..][k - 1]; }
    }
    if TrimsAt(s, t, i + 1, j + 1) { assert s[1..][i..j] == s[i + 1..j + 1]; }
  }

  lemma TrimBack(s: string, t: string, i: nat, j: nat)
    requires s != [] && IsWhitespace(s[|s| - 1]) && j < |s|
    ensures TrimsAt(s[..|s| - 1], t, i, j) <==> TrimsAt(s, t, i, j)
  {
    if i <= j { assert s[..|s| - 1][i..j] == s[i..j]; }
  }

  lemma {:induction false} TrimTrims(s: string) returns (i: nat, j: nat)
    ensures TrimsAt(s, Trim(s), i, j)
    decreases |s|
  {
    i, j := 0, |s|;
    if s != [] && IsWhitespace(s[0]) {
      i, j := TrimTrims(s[1..]);
      TrimFront(s, Trim(s), i, j);
      i, j := i + 1, j + 1;
    } else if s != [] && IsWhitespace(s[|s| - 1]) {
      i, j := TrimTrims(s[..|s| - 1]);
      TrimBack(s, Trim(s), i, j);
    } else {
      assert s[0..|s|] == s;
    }
  }

  /** Only one text is left when whitespace is trimmed. */
  lemma {:induction false} TrimUnique(s: string, t: string, i: nat, j: nat)
    requires TrimsAt(s, t, i, j)
    ensures Trim(s) == t
    decreases |s|
  {
    if s != [] && IsWhitespace(s[0]) {
      if i == 0 {
        assert TrimsAt(s[1..], t, 0, 0);
        TrimUnique(s[1..], t, 0, 0);
      } else {
        TrimFront(s, t, i - 1, j - 1);
        TrimUnique(s[1..], t, i - 1, j - 1);
      }
    } else if s != [] && IsWhitespace(s[|s| - 1]) {
      TrimBack(s, t, i, j);
      TrimUnique(s[..|s| - 1], t, i, j);
    } else {
      assert i == 0 && j == |s| && s[0..|s|] == s;
    }
  }

  lemma NamesLower(paired: PairedSink)
    ensures Lower(NameOf(paired)) ==
            match paired case AthenaIceberg => "athenaiceberg" case SkipprLake => "skipprlake" case Duckdb => "duckdb"
  {
    assert Lower("AthenaIceberg") == "athenaiceberg" && Lower("SkipprLake") == "skipprlake" && Lower("Duckdb") == "duckdb";
  }

  /** A kind names a paired plugin exactly when, trimmed, it is the plugin's name up to ASCII case. */
  lemma KindExactly(kind: string, paired: PairedSink)
    ensures PairedKind(kind) == Some(paired) <==> exists t :: TrimsTo(kind, t) && SameLetters(t, NameOf(paired))
  {
    var i, j := TrimTrims(kind);
    assert TrimsTo(kind, Trim(kind));
    LowerExactly(Trim(kind), NameOf(paired));
    NamesLower(paired);
    if t :| TrimsTo(kind, t) && SameLetters(t, NameOf(paired)) {
      var m, n :| TrimsAt(kind, t, m, n);
      TrimUnique(kind, t, m, n);
    }
    if PairedKind(kind) == Some(paired) { assert Lower(Trim(kind)) == Lower(NameOf(paired)); }
    if Lower(Trim(kind)) == Lower(NameOf(paired)) { PairedNames(kind, paired); }
  }

  lemma PairedNames(kind: string, paired: PairedSink)
    requires Lower(Trim(kind)) == Lower(NameOf(paired))
    ensures PairedKind(kind) == Some(paired)
  {
    NamesLower(paired);
    assert |"athenaiceberg"| == 13 && |"skipprlake"| == 10 && |"duckdb"| == 6;
  }

  /** The sink's entry links the schema sink by reference and is of the paired plugin. */
  ghost predicate LinksTo(doc: Document, paired: PairedSink, schema: string, m: Member) {
    && m.Sink?
    && match EntryAt(doc, if m.deadletter then DeadletterSinks else DataSinks, m.name)
       case Some(Entry(Some(Text(link)), Some(Plugin(kind, _)))) =>
         link == "schema_sinks." + schema && exists t :: TrimsTo(kind, t) && SameLetters(t, NameOf(paired))
       case _ => false
  }

  /**
    A schema sink has a group unless it is of another plugin, and its members are the schema sink and
    every data or deadletter sink of the plugin that links it.
   */
  lemma GroupExactly(doc: Document, paired: PairedSink, schema: string)
    ensures PairGroup(doc, paired, schema).None? <==>
            match EntryAt(doc, SchemaSinks, schema)
            case Some(Entry(_, Some(Plugin(kind, _)))) => !exists t :: TrimsTo(kind, t) && SameLetters(t, NameOf(paired))
            case _ => false
    ensures PairGroup(doc, paired, schema).Some? ==>
              forall m :: m in PairGroup(doc, paired, schema).value <==> m == Schema(schema) || LinksTo(doc, paired, schema, m)
  {
    var entry := EntryAt(doc, SchemaSinks, schema);
    if entry.Some? && entry.value.plugin.Some? { KindExactly(entry.value.plugin.value.kind, paired); }
    if PairGroup(doc, paired, schema).Some? {
      GroupMembers(doc, paired, schema);
      ReferenceText(schema);
      forall m ensures Linked(doc, paired, schema, m) <==> LinksTo(doc, paired, schema, m) {
        if m.Sink? && EntryOf(doc, m).Some? && EntryOf(doc, m).value.plugin.Some? {
          KindExactly(EntryOf(doc, m).value.plugin.value.kind, paired);
        }
      }
    }
  }

  /**
    Which group a write joins: that of the schema sink named, given or linked, if the plugin is a paired
    one and that schema sink has a group; the written entry is then a member.
   */
  lemma JoinsExactly(doc: Document, w: Write, group: Group)
    requires WellFormed(w)
    ensures Joined(doc, w) == Some(group) <==>
            && !w.registry.DataSources? && w.plugin.name == NameOf(group.paired)
            && SchemaOf(doc, w) == Some(group.schema)
            && PairGroup(doc, group.paired, group.schema).Some?
            && group.members == PairGroup(doc, group.paired, group.schema).value + {MemberOf(w.registry, w.name).value}
  {
    NamesAreKinds(group.paired);
    if !w.registry.DataSources? {
      TargetExactly(doc, w);
      if PairedPlugin(w.plugin).Some? { NamesAreKinds(PairedPlugin(w.plugin).value); }
    }
  }

  /** The schema sink a sink or schema sink write is about, if any. */
  ghost function SchemaOf(doc: Document, w: Write): Option<string> {
    if w.registry.SchemaSinks? then Some(w.name)
    else if w.schemaSink.Some? then w.schemaSink
    else
      match EntryAt(doc, w.registry, w.name)
      case Some(Entry(Some(Text(link)), _)) =>
        if exists schema :: IsReference(link, schema) then var schema :| IsReference(link, schema); Some(schema) else None
      case _ => None
  }

  ghost predicate IsReference(link: string, schema: string) {
    link == "schema_sinks." + schema && schema != [] && '.' !in schema
  }

  lemma TargetExactly(doc: Document, w: Write)
    requires !w.registry.DataSources?
    ensures var target := TargetSchema(doc, MemberOf(w.registry, w.name).value, w.schemaSink);
            SchemaOf(doc, w) == if target.Ok? then target.value else None
  {
    var entry := EntryAt(doc, w.registry, w.name);
    if entry.Some? && entry.value.link.Some? && entry.value.link.value.Text? {
      var link := entry.value.link.value.text;
      forall schema ensures IsReference(link, schema) <==> ParseReference(link) == Ok(schema) { ParsesExactly(link, schema); }
    }
  }

  // ---- the named entry ----

  lemma NamedAfter(doc: Document, w: Write, doc': Document) returns (entry: Entry, plugin: Plugin)
    requires WellFormed(w) && Wrote(doc, w, doc')
    ensures EntryAt(doc', w.registry, w.name) == Some(entry) && entry.plugin == Some(plugin)
    ensures plugin.kind == w.plugin.name && plugin.body.Mapping?
    ensures Joined(doc, w).None? ==> entry == Merged(doc, w)
    ensures entry.link == Merged(doc, w).link
    ensures forall f | f in w.fields :: f in plugin.body.fields && plugin.body.fields[f] == w.fields[f]
  {
    MergeSlots(doc, w, w.registry, w.name);
    if Joined(doc, w).Some? {
      var config := HeldBefore(doc, w, doc');
      Members(doc, w, MemberOf(w.registry, w.name).value);
    }
    entry := EntryAt(doc', w.registry, w.name).value;
    plugin := entry.plugin.value;
  }

  /**
    After every successful write the named entry is of the plugin's name, links the schema sink given or
    the one it linked, and has every field given. Without a group it keeps its other fields.
   */
  lemma NamedEntryHolds(doc: Document, w: Write, doc': Document, f: string)
    requires WellFormed(w) && Wrote(doc, w, doc')
    ensures match EntryAt(doc', w.registry, w.name)
            case Some(Entry(link, Some(Plugin(kind, Mapping(fields))))) =>
              && kind == w.plugin.name
              && link == (if w.schemaSink.Some? then Some(Text("schema_sinks." + w.schemaSink.value)) else LinkBefore(doc, w))
              && (f in w.fields ==> f in fields && fields[f] == w.fields[f])
              && (f !in w.fields && Joined(doc, w).None? ==> FieldAt(fields, f) == FieldAt(FieldsBefore(doc, w), f))
            case _ => false
  {
    var entry, plugin := NamedAfter(doc, w, doc');
    if w.schemaSink.Some? { ReferenceText(w.schemaSink.value); }
    if Joined(doc, w).None? { AloneMerges(doc, w, doc'); }
  }

  function FieldAt(fields: Fields, f: string): Option<Value> {
    if f in fields then Some(fields[f]) else None
  }

  function LinkBefore(doc: Document, w: Write): Option<Value> {
    match EntryAt(doc, w.registry, w.name)
    case Some(entry) => entry.link
    case None => None
  }

  function FieldsBefore(doc: Document, w: Write): Fields {
    match EntryAt(doc, w.registry, w.name)
    case Some(Entry(_, Some(Plugin(_, Mapping(fields))))) => fields
    case _ => map[]
  }

  /** The kind of an entry is fixed once written: no successful write changes the named entry's kind but for case. */
  lemma KindIsFixed(doc: Document, w: Write, doc': Document, held: Plugin)
    requires WellFormed(w) && Wrote(doc, w, doc')
    requires EntryAt(doc, w.registry, w.name).Some? && EntryAt(doc, w.registry, w.name).value.plugin == Some(held)
    ensures match EntryAt(doc', w.registry, w.name)
            case Some(Entry(_, Some(Plugin(kind, _)))) => SameLetters(held.kind, kind)
            case _ => false
  {
    var _, plugin := NamedAfter(doc, w, doc');
    MergesExactly(doc, w.registry, w.name, w.plugin.name, w.fields, w.schemaSink);
  }

  /** No entry loses its plugin or changes it for another, written, in the group or neither. */
  lemma KindsStay(doc: Document, w: Write, doc': Document, r: Registry, name: string, held: Plugin)
    requires WellFormed(w) && Wrote(doc, w, doc')
    requires EntryAt(doc, r, name).Some? && EntryAt(doc, r, name).value.plugin == Some(held)
    ensures match EntryAt(doc', r, name)
            case Some(Entry(_, Some(Plugin(kind, _)))) =>
              SameLetters(held.kind, kind) || (PairedKind(held.kind).Some? && PairedKind(kind) == PairedKind(held.kind))
            case _ => false
  {
    if Named(w, r, name) {
      KindIsFixed(doc, w, doc', held);
    } else if Joined(doc, w).Some? && IsPlace(Joined(doc, w).value.members, r, name) {
      var config := MembersHoldOneConfig(doc, w, doc');
      var m := MemberOf(r, name).value;
      Members(doc, w, m);
      NamesAreKinds(Joined(doc, w).value.paired);
    } else {
      UnrelatedUntouched(doc, w, doc', r, name);
      assert SameLetters(held.kind, held.kind);
    }
  }

  // ---- the members of the group ----

  /** The member's plugin has these fields, at least one. */
  ghost predicate HasFields(doc: Document, m: Member, fields: Fields) {
    && fields != map[]
    && match EntryAt(doc, if m.Schema? then SchemaSinks else if m.deadletter then DeadletterSinks else DataSinks, m.name)
       case Some(Entry(_, Some(Plugin(_, body)))) => body == Mapping(fields)
       case _ => false
  }

  lemma BodyExactly(doc: Document, m: Member)
    ensures forall fields :: BodyOf(doc, m) == Some(fields) <==> HasFields(doc, m, fields)
    ensures BodyOf(doc, m).None? <==> forall fields :: !HasFields(doc, m, fields)
  {
    if BodyOf(doc, m).Some? { assert HasFields(doc, m, BodyOf(doc, m).value); }
  }

  /** A group is refused exactly when two of its members have different fields; a member without fields never matters. */
  lemma TornExactly(doc: Document, w: Write)
    ensures Torn(doc, w) <==>
            && Joined(doc, w).Some?
            && exists m, n, a, b | m in Joined(doc, w).value.members && n in Joined(doc, w).value.members ::
                 HasFields(doc, m, a) && HasFields(doc, n, b) && a != b
  {
    if Joined(doc, w).Some? {
      var members := Joined(doc, w).value.members;
      forall m | m in members { BodyExactly(doc, m); }
      if m, n :| m in members && n in members && BodyOf(doc, m).Some? && BodyOf(doc, n).Some? && BodyOf(doc, m) != BodyOf(doc, n) {
        assert HasFields(doc, m, BodyOf(doc, m).value) && HasFields(doc, n, BodyOf(doc, n).value);
      }
    }
  }

  /** After the write every member has the fields some member had, or none if none had any, with the given ones on top. */
  lemma MembersShareFields(doc: Document, w: Write, doc': Document, m: Member, f: string)
    requires WellFormed(w) && Wrote(doc, w, doc') && Joined(doc, w).Some? && m in Joined(doc, w).value.members
    ensures match EntryOf(doc', m)
            case Some(Entry(_, Some(Plugin(kind, Mapping(fields))))) =>
              && kind == w.plugin.name
              && (f in w.fields ==> FieldAt(fields, f) == Some(w.fields[f]))
              && (f !in w.fields ==>
                    (forall n, had | n in Joined(doc, w).value.members && HasFields(doc, n, had) :: FieldAt(fields, f) == FieldAt(had, f))
                    && ((forall n, had | n in Joined(doc, w).value.members :: !HasFields(doc, n, had)) ==> f !in fields))
            case _ => false
  {
    var members := Joined(doc, w).value.members;
    var config := MembersHoldOneConfig(doc, w, doc');
    JoinsExactly(doc, w, Joined(doc, w).value);
    assert Holds(doc, members, config);
    forall n | n in members { BodyExactly(doc, n); }
  }
}
