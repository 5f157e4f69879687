/** When one Arrow schema may replace another: every old field is still there with the same type. */
module SchemaSuperset {
  import opened Basics

  datatype DataType =
    | Plain(name: string)
    | Timestamp(unit: string, zone: Option<string>)
    | List(item: Field)
    | Struct(fields: seq<Field>)

  datatype Field = Field(name: string, kind: DataType, nullable: bool)

  type Schema = seq<Field>

  /** The first field of that name, as an index. */
  function Find(fields: seq<Field>, name: string): (k: Option<nat>)
    ensures k.Some? ==> k.value < |fields| && fields[k.value].name == name
    ensures k.Some? ==> forall i | 0 <= i < k.value :: fields[i].name != name
    ensures k.None? ==> forall f | f in fields :: f.name != name
  {
    if fields == [] then None
    else if fields[0].name == name then Some(0)
    else match Find(fields[1..], name)
         case Some(k) => Some(k + 1)
         case None => None
  }

  predicate KindMatches(newer: DataType, older: DataType)
    decreases older
  {
    newer == older ||
    match (newer, older)
    case (Timestamp(u, _), Timestamp(v, _)) => u == v
    case (List(n), List(o)) => KindMatches(n.kind, o.kind)
    case (Struct(ns), Struct(os)) => forall i | 0 <= i < |os| :: FieldMatches(ns, os[i])
    case _ => false
  }

  predicate FieldMatches(newer: seq<Field>, older: Field)
    decreases older
  {
    var k := Find(newer, older.name);
    k.Some? && KindMatches(newer[k.value].kind, older.kind)
  }

  predicate IsSuperset(newer: Schema, older: Schema) {
    forall i | 0 <= i < |older| :: FieldMatches(newer, older[i])
  }

  lemma {:induction false} KindTransitive(a: DataType, b: DataType, c: DataType)
    requires KindMatches(a, b) && KindMatches(b, c)
    ensures KindMatches(a, c)
    decreases c
  {
    if a != b && b != c {
      match (b, c)
      case (Timestamp(_, _), Timestamp(_, _)) =>
      case (List(n), List(o)) => KindTransitive(a.item.kind, n.kind, o.kind);
      case (Struct(ns), Struct(os)) =>
        forall i | 0 <= i < |os| ensures FieldMatches(a.fields, os[i]) {
          FieldTransitive(a.fields, ns, os[i]);
        }
    }
  }

  lemma {:induction false} FieldTransitive(a: seq<Field>, b: seq<Field>, f: Field)
    requires (forall j | 0 <= j < |b| :: FieldMatches(a, b[j])) && FieldMatches(b, f)
    ensures FieldMatches(a, f)
    decreases f
  {
    var j := Find(b, f.name).value;
    assert FieldMatches(a, b[j]);
    KindTransitive(a[Find(a, f.name).value].kind, b[j].kind, f.kind);
  }

  /** Accepted replacements compose, struct fields and list items included. */
  lemma SupersetTransitive(a: Schema, b: Schema, c: Schema)
    requires IsSuperset(a, b) && IsSuperset(b, c)
    ensures IsSuperset(a, c)
  {
    forall i | 0 <= i < |c| ensures FieldMatches(a, c[i]) { FieldTransitive(a, b, c[i]); }
  }

  // ---- what a reader of the newer schema still finds ----

  /** A way into a type: a named field of a struct, or the items of a list. */
  datatype Hop = Into(name: string) | Item

  /** The type found by following the hops, by the first field of each name. */
  function Reach(kind: DataType, path: seq<Hop>): Option<DataType>
    decreases |path|
  {
    if path == [] then Some(kind)
    else
      match (path[0], kind)
      case (Into(name), Struct(fields)) =>
        var k := Find(fields, name);
        if k.Some? then Reach(fields[k.value].kind, path[1..]) else None
      case (Item, List(item)) => Reach(item.kind, path[1..])
      case _ => None
  }

  /** The same type up to what lies inside lists and structs; timestamps up to their zone. */
  predicate SameOuter(a: DataType, b: DataType) {
    match (a, b)
    case (Plain(m), Plain(n)) => m == n
    case (Timestamp(u, _), Timestamp(v, _)) => u == v
    case (List(_), List(_)) => true
    case (Struct(_), Struct(_)) => true
    case _ => false
  }

  ghost predicate PathKept(newer: DataType, older: DataType, path: seq<Hop>) {
    Reach(older, path).Some? ==> Reach(newer, path).Some? && SameOuter(Reach(newer, path).value, Reach(older, path).value)
  }

  lemma {:induction false} KindKeepsPath(newer: DataType, older: DataType, path: seq<Hop>)
    requires KindMatches(newer, older)
    ensures PathKept(newer, older, path)
    decreases |path|
  {
    if newer != older && path != [] {
      match (path[0], newer, older)
      case (Into(name), Struct(ns), Struct(os)) =>
        var k := Find(os, name);
        if k.Some? {
          assert FieldMatches(ns, os[k.value]);
          KindKeepsPath(ns[Find(ns, name).value].kind, os[k.value].kind, path[1..]);
        }
      case (Item, List(n), List(o)) => KindKeepsPath(n.kind, o.kind, path[1..]);
      case _ =>
    }
  }

  /** Every path into the older schema leads, in an accepted replacement, to the same type, timestamps up to their zone. */
  lemma SupersetKeepsPaths(newer: Schema, older: Schema, path: seq<Hop>)
    requires IsSuperset(newer, older)
    ensures PathKept(Struct(newer), Struct(older), path)
  {
    KindKeepsPath(Struct(newer), Struct(older), path);
  }

  /** No name occurs twice among the fields of a struct, at any depth. */
  predicate DistinctNames(kind: DataType) {
    match kind
    case Struct(fields) =>
      && (forall i, j | 0 <= i < j < |fields| :: fields[i].name != fields[j].name)
      && forall i | 0 <= i < |fields| :: DistinctNames(fields[i].kind)
    case List(item) => DistinctNames(item.kind)
    case _ => true
  }

  lemma FindIs(fields: seq<Field>, i: nat)
    requires i < |fields| && (forall j, k | 0 <= j < k < |fields| :: fields[j].name != fields[k].name)
    ensures Find(fields, fields[i].name) == Some(i)
  {
    var k := Find(fields, fields[i].name);
    assert fields[i] in fields;
  }

  ghost predicate PathsKept(newer: DataType, older: DataType) {
    forall path :: PathKept(newer, older, path)
  }

  lemma PathsInto(newer: seq<Field>, older: seq<Field>, i: nat)
    requires PathsKept(Struct(newer), Struct(older)) && DistinctNames(Struct(older)) && i < |older|
    ensures Find(newer, older[i].name).Some?
    ensures PathsKept(newer[Find(newer, older[i].name).value].kind, older[i].kind)
  {
    FindIs(older, i);
    var one := [Into(older[i].name)];
    assert one[1..] == [] && PathKept(Struct(newer), Struct(older), one);
    assert Reach(Struct(older), one) == Reach(older[i].kind, []);
    forall path ensures PathKept(newer[Find(newer, older[i].name).value].kind, older[i].kind, path) {
      var whole := [Into(older[i].name)] + path;
      assert whole[1..] == path && PathKept(Struct(newer), Struct(older), whole);
    }
  }

  lemma PathsItem(n: Field, o: Field)
    requires PathsKept(List(n), List(o))
    ensures PathsKept(n.kind, o.kind)
  {
    forall path ensures PathKept(n.kind, o.kind, path) {
      var whole := [Item] + path;
      assert whole[1..] == path && PathKept(List(n), List(o), whole);
    }
  }

  lemma {:induction false} PathsMatch(newer: DataType, older: DataType)
    requires PathsKept(newer, older) && DistinctNames(older)
    ensures KindMatches(newer, older)
    decreases older
  {
    assert PathKept(newer, older, []);
    match (newer, older)
    case (List(n), List(o)) =>
      PathsItem(n, o);
      PathsMatch(n.kind, o.kind);
    case (Struct(ns), Struct(os)) =>
      forall i | 0 <= i < |os| ensures FieldMatches(ns, os[i]) {
        PathsInto(ns, os, i);
        PathsMatch(ns[Find(ns, os[i].name).value].kind, os[i].kind);
      }
    case _ =>
  }

  /** A schema without repeated names may be replaced exactly by the schemas that keep all its paths. */
  lemma SupersetExactly(newer: Schema, older: Schema)
    requires DistinctNames(Struct(older))
    ensures IsSuperset(newer, older) <==> forall path :: PathKept(Struct(newer), Struct(older), path)
  {
    if IsSuperset(newer, older) {
      forall path ensures PathKept(Struct(newer), Struct(older), path) { SupersetKeepsPaths(newer, older, path); }
    }
    if PathsKept(Struct(newer), Struct(older)) {
      forall i | 0 <= i < |older| ensures FieldMatches(newer, older[i]) {
        PathsInto(newer, older, i);
        PathsMatch(newer[Find(newer, older[i].name).value].kind, older[i].kind);
      }
    }
  }
}
