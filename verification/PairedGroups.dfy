/** What a successful write does to the group it writes, to every other group, and to everything else. */
module PairedGroups {
  import opened Basics
  import opened PairedConfig

  function Joined(doc: Document, w: Write): Option<Group> {
    match GroupFor(doc, w)
    case Ok(group) => group
    case Err(_) => None
  }

  /** The entry named by the write, after the merge. */
  function Merged(doc: Document, w: Write): Entry
    requires MergeEntry(doc, w.registry, w.name, w.plugin.name, w.fields, w.schemaSink).Ok?
  {
    MergedEntry(Opened(doc, w.registry, w.name).value, w.plugin.name, w.fields, w.schemaSink).value
  }

  predicate Named(w: Write, r: Registry, name: string) {
    r == w.registry && name == w.name
  }

  lemma MergeSlots(doc: Document, w: Write, r: Registry, name: string)
    requires MergeEntry(doc, w.registry, w.name, w.plugin.name, w.fields, w.schemaSink).Ok?
    ensures var doc1 := MergeEntry(doc, w.registry, w.name, w.plugin.name, w.fields, w.schemaSink).value;
            SlotAt(doc1, r, name) == if Named(w, r, name) then Some(EntrySlot(Merged(doc, w))) else SlotAt(doc, r, name)
  {
    PutGet(doc, w.registry, w.name, Merged(doc, w), r, name);
  }

  /** An entry that is neither named by the write nor in the written group is untouched. */
  lemma UnrelatedUntouched(doc: Document, w: Write, doc': Document, r: Registry, name: string)
    requires Wrote(doc, w, doc') && !Named(w, r, name)
    requires Joined(doc, w).Some? ==> !IsPlace(Joined(doc, w).value.members, r, name)
    ensures SlotAt(doc', r, name) == SlotAt(doc, r, name)
  {
    MergeSlots(doc, w, r, name);
  }

  /** Without a group, the named entry keeps its fields except for those the write gives. */
  lemma AloneMerges(doc: Document, w: Write, doc': Document)
    requires Wrote(doc, w, doc') && Joined(doc, w).None?
    ensures EntryAt(doc', w.registry, w.name) == Some(Merged(doc, w))
    ensures var entry := Opened(doc, w.registry, w.name).value;
            var kept := if entry.plugin.Some? && entry.plugin.value.body.Mapping? then entry.plugin.value.body.fields else map[];
            Merged(doc, w).plugin == Some(Plugin(w.plugin.name, Mapping(kept + w.fields)))
  {
    MergeSlots(doc, w, w.registry, w.name);
  }

  lemma HeldBefore(doc: Document, w: Write, doc': Document) returns (config: Fields)
    requires Wrote(doc, w, doc') && Joined(doc, w).Some?
    ensures var doc1 := MergeEntry(doc, w.registry, w.name, w.plugin.name, w.fields, w.schemaSink).value;
            var Group(paired, _, members) := Joined(doc, w).value;
            && Holds(doc, members, config)
            && Rewritten(doc1, doc', members, Plugin(NameOf(paired), Mapping(config + w.fields)))
  {
    var doc1 := MergeEntry(doc, w.registry, w.name, w.plugin.name, w.fields, w.schemaSink).value;
    var Group(paired, _, members) := Joined(doc, w).value;
    config :| Holds(doc, members, config) && Rewritten(doc1, doc', members, Plugin(NameOf(paired), Mapping(config + w.fields)));
  }

  /** With a group, every member ends up with exactly the one config the group held before, overridden by the given fields. */
  lemma MembersHoldOneConfig(doc: Document, w: Write, doc': Document) returns (config: Fields)
    requires Wrote(doc, w, doc') && Joined(doc, w).Some?
    ensures forall held :: Holds(doc, Joined(doc, w).value.members, held) <==> held == config
    ensures forall m | m in Joined(doc, w).value.members ::
              && EntryOf(doc', m).Some?
              && EntryOf(doc', m).value.plugin == Some(Plugin(NameOf(Joined(doc, w).value.paired), Mapping(config + w.fields)))
  {
    config := HeldBefore(doc, w, doc');
    forall held | Holds(doc, Joined(doc, w).value.members, held) ensures held == config {
      HoldsUnique(doc, Joined(doc, w).value.members, held, config);
    }
  }

  /** Members keep their links; the named entry takes the link it was given. */
  lemma MembersKeepLinks(doc: Document, w: Write, doc': Document, m: Member)
    requires Wrote(doc, w, doc') && Joined(doc, w).Some? && m in Joined(doc, w).value.members
    ensures LinkText(EntryOf(doc', m)) ==
            if MemberOf(w.registry, w.name) == Some(m) && w.schemaSink.Some? then Some(Reference(w.schemaSink.value))
            else LinkText(EntryOf(doc, m))
  {
    var config := HeldBefore(doc, w, doc');
    MergeSlots(doc, w, RegistryOf(m), m.name);
  }

  // ---- which entries form the group afterwards ----

  /** Every member is the schema sink, a sink linked to it, or the entry named by the write. */
  lemma Members(doc: Document, w: Write, m: Member)
    requires Joined(doc, w).Some?
    ensures var Group(paired, schema, members) := Joined(doc, w).value;
            && (m in members <==>
                  m == Schema(schema) || Linked(doc, paired, schema, m) || Some(m) == MemberOf(w.registry, w.name))
            && !Foreign(doc, paired, schema) && PairedPlugin(w.plugin) == Some(paired)
            && TargetSchema(doc, MemberOf(w.registry, w.name).value, w.schemaSink) == Ok(Some(schema))
  {
    var Group(paired, schema, members) := Joined(doc, w).value;
    GroupMembers(doc, paired, schema);
  }

  /** After the write a member is the schema sink or a sink that links it. */
  lemma MembersLink(doc: Document, w: Write, doc': Document, m: Member)
    requires WellFormed(w) && Wrote(doc, w, doc') && Joined(doc, w).Some? && m in Joined(doc, w).value.members
    ensures m == Schema(Joined(doc, w).value.schema) ||
            (m.Sink? && LinkText(EntryOf(doc', m)) == Some(Reference(Joined(doc, w).value.schema)))
  {
    var schema := Joined(doc, w).value.schema;
    Members(doc, w, m);
    MembersKeepLinks(doc, w, doc', m);
    if Some(m) == MemberOf(w.registry, w.name) && m.Sink? && w.schemaSink.None? {
      ParsesExactly(LinkText(EntryOf(doc, m)).value, schema);
      ReferenceText(schema);
    }
  }

  /** The members written are exactly the group as it stands after the write. */
  lemma GroupAfterwards(doc: Document, w: Write, doc': Document)
    requires WellFormed(w) && Wrote(doc, w, doc') && Joined(doc, w).Some?
    ensures var Group(paired, schema, members) := Joined(doc, w).value;
            PairGroup(doc', paired, schema) == Some(members)
  {
    var Group(paired, schema, members) := Joined(doc, w).value;
    var config := MembersHoldOneConfig(doc, w, doc');
    NamesAreKinds(paired);
    Members(doc, w, Schema(schema));
    assert !Foreign(doc', paired, schema);
    GroupMembers(doc', paired, schema);
    forall m ensures m in members <==> m == Schema(schema) || Linked(doc', paired, schema, m) {
      Members(doc, w, m);
      if m in members { MembersLink(doc, w, doc', m); } else { Elsewhere(doc, w, doc', m); }
    }
    assert PairGroup(doc', paired, schema).value == members;
  }

  lemma Elsewhere(doc: Document, w: Write, doc': Document, m: Member)
    requires Wrote(doc, w, doc') && Some(m) != MemberOf(w.registry, w.name)
    requires Joined(doc, w).Some? ==> m !in Joined(doc, w).value.members
    ensures EntryOf(doc', m) == EntryOf(doc, m) && BodyOf(doc', m) == BodyOf(doc, m)
  {
    UnrelatedUntouched(doc, w, doc', RegistryOf(m), m.name);
  }

  // ---- every other group ----

  /** A group that exists holds one config. */
  ghost predicate Consistent(doc: Document, paired: PairedSink, schema: string) {
    Foreign(doc, paired, schema) || Agree(doc, PairGroup(doc, paired, schema).value)
  }

  lemma {:induction false} TrimLower(s: string)
    ensures Lower(Trim(s)) == Trim(Lower(s))
    decreases |s|
  {
    if s != [] {
      if IsWhitespace(s[0]) {
        TrimLower(s[1..]);
        assert Lower(s)[1..] == Lower(s[1..]);
      } else if IsWhitespace(s[|s| - 1]) {
        TrimLower(s[..|s| - 1]);
        assert Lower(s)[..|s| - 1] == Lower(s[..|s| - 1]);
      }
    }
  }

  /** Kinds that differ in case only name the same plugin. */
  lemma SameKind(a: string, b: string)
    requires Lower(a) == Lower(b)
    ensures PairedKind(a) == PairedKind(b)
  {
    TrimLower(a);
    TrimLower(b);
  }

  /** A member of a group other than the written one is neither written nor named. */
  lemma OtherMembers(doc: Document, w: Write, doc': Document, q: PairedSink, s: string, m: Member)
    requires WellFormed(w) && Wrote(doc, w, doc') && !Foreign(doc', q, s)
    requires Joined(doc, w).Some? ==> (q, s) != (Joined(doc, w).value.paired, Joined(doc, w).value.schema)
    requires m == Schema(s) || Linked(doc', q, s, m)
    ensures Some(m) != MemberOf(w.registry, w.name)
    ensures Joined(doc, w).Some? ==> m !in Joined(doc, w).value.members
  {
    if Joined(doc, w).Some? {
      InGroup(doc, w, doc', q, s, m);
    } else if Some(m) == MemberOf(w.registry, w.name) {
      NotJoined(doc, w, doc', q, s, m);
    }
  }

  lemma InGroup(doc: Document, w: Write, doc': Document, q: PairedSink, s: string, m: Member)
    requires WellFormed(w) && Wrote(doc, w, doc') && !Foreign(doc', q, s) && Joined(doc, w).Some?
    requires (q, s) != (Joined(doc, w).value.paired, Joined(doc, w).value.schema)
    requires m == Schema(s) || Linked(doc', q, s, m)
    ensures m !in Joined(doc, w).value.members && Some(m) != MemberOf(w.registry, w.name)
  {
    var Group(paired, schema, members) := Joined(doc, w).value;
    Members(doc, w, m);
    if m in members {
      var config := MembersHoldOneConfig(doc, w, doc');
      NamesAreKinds(paired);
      MembersLink(doc, w, doc', m);
      if m.Sink? { ReferenceInjective(s, schema); }
    }
  }

  /** An entry that joined no group is in no group afterwards. */
  lemma NotJoined(doc: Document, w: Write, doc': Document, q: PairedSink, s: string, m: Member)
    requires WellFormed(w) && Wrote(doc, w, doc') && Joined(doc, w).None? && Some(m) == MemberOf(w.registry, w.name)
    ensures m == Schema(s) ==> Foreign(doc', q, s)
    ensures Linked(doc', q, s, m) ==> Foreign(doc', q, s)
  {
    AloneMerges(doc, w, doc');
    var paired := PairedPlugin(w.plugin);
    if m.Schema? {
      var entry := Opened(doc, SchemaSinks, w.name).value;
      if paired.Some? { SameKind(entry.plugin.value.kind, w.plugin.name); }
    } else if Linked(doc', q, s, m) && paired.Some? {
      LinkedTarget(doc, w, doc', q, s, m);
      UnrelatedUntouched(doc, w, doc', SchemaSinks, s);
    }
  }

  lemma LinkedTarget(doc: Document, w: Write, doc': Document, q: PairedSink, s: string, m: Member)
    requires WellFormed(w) && Wrote(doc, w, doc') && Joined(doc, w).None? && Some(m) == MemberOf(w.registry, w.name)
    requires m.Sink? && Linked(doc', q, s, m) && PairedPlugin(w.plugin).Some?
    ensures PairedPlugin(w.plugin) == Some(q) && Foreign(doc, q, s)
  {
    AloneMerges(doc, w, doc');
    if w.schemaSink.Some? {
      ReferenceInjective(s, w.schemaSink.value);
    } else {
      ParsesExactly(Reference(s), ParseReference(Reference(s)).value);
      ReferenceText(ParseReference(Reference(s)).value);
      ReferenceInjective(s, ParseReference(Reference(s)).value);
    }
  }

  /** Every other group that held one config before the write still does. */
  lemma OthersStayConsistent(doc: Document, w: Write, doc': Document, q: PairedSink, s: string)
    requires WellFormed(w) && Wrote(doc, w, doc') && Consistent(doc, q, s)
    requires Joined(doc, w).Some? ==> (q, s) != (Joined(doc, w).value.paired, Joined(doc, w).value.schema)
    ensures Consistent(doc', q, s)
  {
    if !Foreign(doc', q, s) {
      GroupMembers(doc', q, s);
      OtherMembers(doc, w, doc', q, s, Schema(s));
      Elsewhere(doc, w, doc', Schema(s));
      GroupMembers(doc, q, s);
      forall m | m in PairGroup(doc', q, s).value
        ensures m in PairGroup(doc, q, s).value && BodyOf(doc', m) == BodyOf(doc, m)
      {
        OtherMembers(doc, w, doc', q, s, m);
        Elsewhere(doc, w, doc', m);
      }
    }
  }

  /** A document in which every group holds one config stays such a document. */
  lemma AllStayConsistent(doc: Document, w: Write, doc': Document)
    requires WellFormed(w) && Wrote(doc, w, doc') && forall q, s :: Consistent(doc, q, s)
    ensures forall q, s :: Consistent(doc', q, s)
  {
    forall q, s ensures Consistent(doc', q, s) {
      if Joined(doc, w).Some? && (q, s) == (Joined(doc, w).value.paired, Joined(doc, w).value.schema) {
        var config := MembersHoldOneConfig(doc, w, doc');
        GroupAfterwards(doc, w, doc');
      } else {
        OthersStayConsistent(doc, w, doc', q, s);
      }
    }
  }

  // ---- writing twice ----

  lemma MergeAgain(entry: Entry, w: Write)
    requires MergedEntry(entry, w.plugin.name, w.fields, w.schemaSink).Ok?
    ensures var once := MergedEntry(entry, w.plugin.name, w.fields, w.schemaSink).value;
            MergedEntry(once, w.plugin.name, w.fields, w.schemaSink) == Ok(once)
  {
    var once := MergedEntry(entry, w.plugin.name, w.fields, w.schemaSink).value;
    assert once.plugin.value.body.fields + w.fields == once.plugin.value.body.fields;
  }

  /** An entry that joined no group joins none the second time. */
  lemma StillAlone(doc: Document, w: Write, doc': Document)
    requires WellFormed(w) && Wrote(doc, w, doc') && Joined(doc, w).None?
    ensures GroupFor(doc', w) == Ok(None)
  {
    var written, paired := MemberOf(w.registry, w.name), PairedPlugin(w.plugin);
    AloneMerges(doc, w, doc');
    if written.Some? && paired.Some? {
      if written.value.Schema? {
        NotJoined(doc, w, doc', paired.value, w.name, written.value);
      } else {
        var target := TargetSchema(doc, written.value, w.schemaSink);
        assert TargetSchema(doc', written.value, w.schemaSink) == target;
        if target.value.Some? { UnrelatedUntouched(doc, w, doc', SchemaSinks, target.value.value); }
      }
    }
  }

  lemma AloneAgain(doc: Document, w: Write, once: Document, twice: Document, r: Registry, name: string)
    requires WellFormed(w) && Wrote(doc, w, once) && Joined(doc, w).None? && Wrote(once, w, twice)
    ensures SlotAt(twice, r, name) == SlotAt(once, r, name)
  {
    StillAlone(doc, w, once);
    MergeSlots(doc, w, w.registry, w.name);
    MergeSlots(once, w, r, name);
    MergeAgain(Opened(doc, w.registry, w.name).value, w);
  }

  /** A group is found again by the second write. */
  lemma SameGroup(doc: Document, w: Write, doc': Document)
    requires WellFormed(w) && Wrote(doc, w, doc') && Joined(doc, w).Some?
    ensures GroupFor(doc', w) == Ok(Joined(doc, w))
  {
    var Group(paired, schema, members) := Joined(doc, w).value;
    var written := MemberOf(w.registry, w.name).value;
    Members(doc, w, written);
    MembersKeepLinks(doc, w, doc', written);
    GroupAfterwards(doc, w, doc');
    assert TargetSchema(doc', written, w.schemaSink) == Ok(Some(schema));
    assert members + {written} == members;
  }

  /** Every member holds `config` already. */
  ghost predicate AllHold(doc: Document, group: Group, config: Fields) {
    forall m | m in group.members ::
      EntryOf(doc, m).Some? && EntryOf(doc, m).value.plugin == Some(Plugin(NameOf(group.paired), Mapping(config)))
  }

  lemma AllHoldOne(doc: Document, group: Group, config: Fields)
    requires AllHold(doc, group, config) && Schema(group.schema) in group.members
    ensures Holds(doc, group.members, config)
  {
    assert EntryOf(doc, Schema(group.schema)).Some?;
  }

  /** After the write the group holds the new config, and nothing but it. */
  lemma HoldsAfterwards(doc: Document, w: Write, once: Document) returns (config: Fields)
    requires Wrote(doc, w, once) && Joined(doc, w).Some?
    ensures config + w.fields == config && AllHold(once, Joined(doc, w).value, config)
    ensures Holds(once, Joined(doc, w).value.members, config)
  {
    var held := MembersHoldOneConfig(doc, w, once);
    config := held + w.fields;
    Members(doc, w, Schema(Joined(doc, w).value.schema));
    AllHoldOne(once, Joined(doc, w).value, config);
  }

  lemma NamedAgain(doc: Document, w: Write, once: Document, config: Fields)
    requires WellFormed(w) && Wrote(doc, w, once) && Joined(doc, w).Some? && config + w.fields == config
    requires var m := MemberOf(w.registry, w.name);
             m.Some? && m.value in Joined(doc, w).value.members && AllHold(once, Joined(doc, w).value, config)
             && EntryOf(once, m.value).Some?
             && (w.schemaSink.Some? ==> EntryOf(once, m.value).value.link == Some(Text(Reference(w.schemaSink.value))))
    ensures MergesToItself(once, w)
  {
    Members(doc, w, MemberOf(w.registry, w.name).value);
    NamesAreKinds(Joined(doc, w).value.paired);
  }

  lemma ConfigAgain(doc: Document, w: Write, once: Document, twice: Document) returns (config: Fields)
    requires WellFormed(w) && Wrote(doc, w, once) && Joined(doc, w).Some? && Wrote(once, w, twice)
    ensures config + w.fields == config && AllHold(once, Joined(doc, w).value, config)
    ensures var again := MergeEntry(once, w.registry, w.name, w.plugin.name, w.fields, w.schemaSink).value;
            var Group(paired, _, members) := Joined(doc, w).value;
            Rewritten(again, twice, members, Plugin(NameOf(paired), Mapping(config)))
  {
    config := HoldsAfterwards(doc, w, once);
    assert Joined(once, w) == Joined(doc, w) by { SameGroup(doc, w, once); }
    var before := HeldBefore(once, w, twice);
    HoldsUnique(once, Joined(doc, w).value.members, before, config);
  }

  lemma NamedUnchanged(doc: Document, w: Write, once: Document, config: Fields)
    requires WellFormed(w) && Wrote(doc, w, once) && Joined(doc, w).Some?
    requires config + w.fields == config && AllHold(once, Joined(doc, w).value, config)
    ensures MergesToItself(once, w)
  {
    Members(doc, w, MemberOf(w.registry, w.name).value);
    if w.schemaSink.Some? { NamedLink(doc, w, once); }
    NamedAgain(doc, w, once, config);
  }

  /** Merging the write into the named entry gives the entry itself. */
  ghost predicate MergesToItself(doc: Document, w: Write) {
    var entry := EntryAt(doc, w.registry, w.name);
    entry.Some? && MergedEntry(entry.value, w.plugin.name, w.fields, w.schemaSink) == Ok(entry.value)
  }

  lemma MergeChangesNothing(once: Document, w: Write, r: Registry, name: string)
    requires MergesToItself(once, w)
    requires MergeEntry(once, w.registry, w.name, w.plugin.name, w.fields, w.schemaSink).Ok?
    ensures var again := MergeEntry(once, w.registry, w.name, w.plugin.name, w.fields, w.schemaSink).value;
            SlotAt(again, r, name) == SlotAt(once, r, name)
  {
    MergeSlots(once, w, r, name);
  }

  lemma RewriteChangesNothing(doc: Document, doc': Document, group: Group, config: Fields, r: Registry, name: string)
    requires Rewritten(doc, doc', group.members, Plugin(NameOf(group.paired), Mapping(config))) && AllHold(doc, group, config)
    ensures SlotAt(doc', r, name) == SlotAt(doc, r, name)
  {
    if IsPlace(group.members, r, name) {
      var m := MemberOf(r, name).value;
      assert EntryOf(doc', m) == EntryOf(doc, m);
    }
  }

  lemma GroupAgain(doc: Document, w: Write, once: Document, twice: Document, r: Registry, name: string)
    requires WellFormed(w) && Wrote(doc, w, once) && Joined(doc, w).Some? && Wrote(once, w, twice)
    ensures SlotAt(twice, r, name) == SlotAt(once, r, name)
  {
    var group := Joined(doc, w).value;
    var config := ConfigAgain(doc, w, once, twice);
    var again := MergeEntry(once, w.registry, w.name, w.plugin.name, w.fields, w.schemaSink).value;
    NamedUnchanged(doc, w, once, config);
    MergeChangesNothing(once, w, r, name);
    forall m | m in group.members ensures EntryOf(again, m) == EntryOf(once, m) {
      MergeChangesNothing(once, w, RegistryOf(m), m.name);
    }
    RewriteChangesNothing(again, twice, group, config, r, name);
  }

  /** The link of the named entry is the one it was given. */
  lemma NamedLink(doc: Document, w: Write, once: Document)
    requires Wrote(doc, w, once) && Joined(doc, w).Some? && w.schemaSink.Some?
    ensures var m := MemberOf(w.registry, w.name);
            m.Some? && EntryOf(once, m.value).Some? && EntryOf(once, m.value).value.link == Some(Text(Reference(w.schemaSink.value)))
  {
    var m := MemberOf(w.registry, w.name).value;
    Members(doc, w, m);
    MembersKeepLinks(doc, w, once, m);
  }

  /** Repeating a successful write changes no entry. */
  lemma RepeatedWrite(doc: Document, w: Write, once: Document, twice: Document)
    requires WellFormed(w) && Wrote(doc, w, once) && Wrote(once, w, twice)
    ensures forall r, name :: SlotAt(twice, r, name) == SlotAt(once, r, name)
  {
    forall r, name ensures SlotAt(twice, r, name) == SlotAt(once, r, name) {
      if Joined(doc, w).None? {
        AloneAgain(doc, w, once, twice, r, name);
      } else {
        GroupAgain(doc, w, once, twice, r, name);
      }
    }
  }
}
