/**
  Serializing a partition's records into Arrow batches. The serializer is an arbitrary oracle
  that accepts or rejects a list of records; a rejected list is split in two and tried again.
  Batches are given by the indices of the records they hold.
 */
module BisectSerializer {
  import opened Basics

  predicate InRange(n: nat, indices: seq<nat>) {
    forall k | 0 <= k < |indices| :: indices[k] < n
  }

  function Pick<T>(items: seq<T>, indices: seq<nat>): seq<T>
    requires InRange(|items|, indices)
  {
    seq(|indices|, k requires 0 <= k < |indices| => items[indices[k]])
  }

  datatype Split = Split(batches: seq<seq<nat>>, failed: seq<nat>)

  function Bisect<R>(accepts: seq<R> -> bool, records: seq<R>, indices: seq<nat>): Split
    requires InRange(|records|, indices)
    decreases |indices|
  {
    if indices == [] then Split([], [])
    else if accepts(Pick(records, indices)) then Split([indices], [])
    else if |indices| == 1 then Split([], [indices[0]])
    else
      var mid := |indices| / 2;
      var left := Bisect(accepts, records, indices[..mid]);
      var right := Bisect(accepts, records, indices[mid..]);
      Split(left.batches + right.batches, left.failed + right.failed)
  }

  function Flatten(batches: seq<seq<nat>>): seq<nat> {
    if batches == [] then [] else batches[0] + Flatten(batches[1..])
  }

  lemma {:induction false} FlattenConcat(a: seq<seq<nat>>, b: seq<seq<nat>>)
    ensures Flatten(a + b) == Flatten(a) + Flatten(b)
  {
    if a == [] {
      assert a + b == b;
    } else {
      var first, rest := a[0], a[1..];
      FlattenConcat(rest, b);
      assert Flatten(a + b) == first + Flatten(rest + b) by {
        assert a + b == [first] + (rest + b);
        FlattenFirst(first, rest + b);
      }
      Associative(first, Flatten(rest), Flatten(b));
    }
  }

  lemma FlattenFirst(first: seq<nat>, rest: seq<seq<nat>>)
    ensures Flatten([first] + rest) == first + Flatten(rest)
  {
    assert ([first] + rest)[1..] == rest;
  }

  lemma Associative(a: seq<nat>, b: seq<nat>, c: seq<nat>)
    ensures a + (b + c) == (a + b) + c
  {
  }

  /** `indices` without the members of `drop`, in order. */
  function Without(indices: seq<nat>, drop: set<nat>): seq<nat> {
    if indices == [] then []
    else if indices[0] in drop then Without(indices[1..], drop)
    else [indices[0]] + Without(indices[1..], drop)
  }

  lemma {:induction false} WithoutConcat(a: seq<nat>, b: seq<nat>, drop: set<nat>)
    ensures Without(a + b, drop) == Without(a, drop) + Without(b, drop)
  {
    if a == [] {
      assert a + b == b;
    } else {
      var first, rest := a[0], a[1..];
      WithoutConcat(rest, b, drop);
      assert (a + b)[0] == first && (a + b)[1..] == rest + b;
      Associative([first], Without(rest, drop), Without(b, drop));
    }
  }

  lemma {:induction false} WithoutSame(indices: seq<nat>, d: set<nat>, e: set<nat>)
    requires forall i | i in indices :: i in d <==> i in e
    ensures Without(indices, d) == Without(indices, e)
  {
    if indices != [] { WithoutSame(indices[1..], d, e); }
  }

  lemma {:induction false} WithoutNone(indices: seq<nat>, drop: set<nat>)
    requires forall i | i in indices :: i !in drop
    ensures Without(indices, drop) == indices
  {
    if indices != [] { WithoutNone(indices[1..], drop); }
  }

  ghost predicate Distinct(indices: seq<nat>) {
    forall i, j | 0 <= i < j < |indices| :: indices[i] != indices[j]
  }

  function Members(indices: seq<nat>): set<nat> {
    set i | i in indices
  }

  lemma SingleBatch(indices: seq<nat>)
    ensures Flatten([indices]) == indices
  {
    assert [indices][1..] == [];
  }

  lemma {:induction false} WithoutAll(indices: seq<nat>, drop: set<nat>)
    requires forall i | i in indices :: i in drop
    ensures Without(indices, drop) == []
  {
    if indices != [] { WithoutAll(indices[1..], drop); }
  }

  lemma {:induction false} WithoutMembers(indices: seq<nat>, drop: set<nat>)
    ensures forall i :: i in Without(indices, drop) <==> i in indices && i !in drop
  {
    if indices != [] { WithoutMembers(indices[1..], drop); }
  }

  lemma {:induction false} WithoutInRange(n: nat, indices: seq<nat>, drop: set<nat>)
    requires InRange(n, indices)
    ensures InRange(n, Without(indices, drop))
  {
    if indices != [] { WithoutInRange(n, indices[1..], drop); }
  }

  /** `kept` and `dropped` share out `indices`, each in the original order. */
  ghost predicate Shared(indices: seq<nat>, kept: seq<nat>, dropped: seq<nat>) {
    kept == Without(indices, Members(dropped)) && dropped == Without(indices, Members(kept))
  }

  lemma Apart(a: seq<nat>, b: seq<nat>, i: nat)
    requires Distinct(a + b) && i in a
    ensures i !in b
  {
    var j :| 0 <= j < |a| && a[j] == i;
    forall k | 0 <= k < |b| ensures b[k] != i {
      assert (a + b)[j] == a[j] && (a + b)[|a| + k] == b[k];
    }
  }

  /** Dropping from a list what each half drops is dropping from each half. */
  lemma Joined(a: seq<nat>, b: seq<nat>, d: seq<nat>, e: seq<nat>)
    requires Distinct(a + b) && Members(d) <= Members(a) && Members(e) <= Members(b)
    ensures Without(a + b, Members(d + e)) == Without(a, Members(d)) + Without(b, Members(e))
  {
    WithoutConcat(a, b, Members(d + e));
    forall i | i in a ensures i in Members(d + e) <==> i in Members(d) {
      Apart(a, b, i);
      assert i in e ==> i in Members(e);
    }
    forall i | i in b ensures i in Members(d + e) <==> i in Members(e) {
      assert i in d ==> i in Members(d);
      if i in a { Apart(a, b, i); }
    }
    WithoutSame(a, Members(d + e), Members(d));
    WithoutSame(b, Members(d + e), Members(e));
  }

  lemma SharedWithin(indices: seq<nat>, kept: seq<nat>, dropped: seq<nat>)
    requires Shared(indices, kept, dropped)
    ensures Members(kept) <= Members(indices) && Members(dropped) <= Members(indices)
  {
    WithoutMembers(indices, Members(dropped));
    WithoutMembers(indices, Members(kept));
  }

  lemma SharedConcat(a: seq<nat>, b: seq<nat>, k1: seq<nat>, d1: seq<nat>, k2: seq<nat>, d2: seq<nat>)
    requires Distinct(a + b) && Shared(a, k1, d1) && Shared(b, k2, d2)
    ensures Shared(a + b, k1 + k2, d1 + d2)
  {
    SharedWithin(a, k1, d1);
    SharedWithin(b, k2, d2);
    Joined(a, b, k1, k2);
    Joined(a, b, d1, d2);
  }

  /** Every batch is one accepted call, every reported record is one of the given ones and fails on its own. */
  lemma {:induction false} BisectIsHonest<R>(accepts: seq<R> -> bool, records: seq<R>, indices: seq<nat>)
    requires InRange(|records|, indices)
    ensures var Split(batches, failed) := Bisect(accepts, records, indices);
            && (forall b | b in batches :: b != [] && InRange(|records|, b) && accepts(Pick(records, b)))
            && (forall i | i in failed :: i in indices && !accepts([records[i]]))
    decreases |indices|
  {
    if indices != [] && !accepts(Pick(records, indices)) {
      if |indices| == 1 {
        assert Pick(records, indices) == [records[indices[0]]];
      } else {
        BisectIsHonest(accepts, records, indices[..|indices| / 2]);
        BisectIsHonest(accepts, records, indices[|indices| / 2..]);
      }
    }
  }

  lemma AllShared(indices: seq<nat>)
    ensures Shared(indices, indices, []) && Shared(indices, [], indices) && Flatten([indices]) == indices
  {
    SingleBatch(indices);
    WithoutNone(indices, Members([]));
    WithoutAll(indices, Members(indices));
  }

  lemma SplitsJoin(a: seq<nat>, b: seq<nat>, l: Split, r: Split)
    requires Distinct(a + b) && Shared(a, Flatten(l.batches), l.failed) && Shared(b, Flatten(r.batches), r.failed)
    ensures Shared(a + b, Flatten(l.batches + r.batches), l.failed + r.failed)
  {
    FlattenConcat(l.batches, r.batches);
    SharedConcat(a, b, Flatten(l.batches), l.failed, Flatten(r.batches), r.failed);
  }

  /** For every oracle, the records that are not reported are emitted, each once and in order. */
  lemma {:induction false} BisectLosesNothing<R>(accepts: seq<R> -> bool, records: seq<R>, indices: seq<nat>)
    requires InRange(|records|, indices) && Distinct(indices)
    ensures var Split(batches, failed) := Bisect(accepts, records, indices);
            Shared(indices, Flatten(batches), failed)
    decreases |indices|
  {
    if indices == [] || accepts(Pick(records, indices)) {
      AllShared(indices);
    } else if |indices| == 1 {
      assert indices == [indices[0]];
      AllShared(indices);
    } else {
      var a, b := indices[..|indices| / 2], indices[|indices| / 2..];
      BisectLosesNothing(accepts, records, a);
      BisectLosesNothing(accepts, records, b);
      assert a + b == indices;
      SplitsJoin(a, b, Bisect(accepts, records, a), Bisect(accepts, records, b));
    }
  }

  /** Acceptance of a list implies acceptance of each record in it. */
  ghost predicate Hereditary<R(!new)>(accepts: seq<R> -> bool) {
    forall rs, r | accepts(rs) && r in rs :: accepts([r])
  }

  lemma SharedCovers(indices: seq<nat>, kept: seq<nat>, dropped: seq<nat>, i: nat)
    requires Shared(indices, kept, dropped) && i in indices && i !in dropped
    ensures i in kept
  {
    WithoutMembers(indices, Members(dropped));
  }

  lemma AcceptedAlone<R(!new)>(accepts: seq<R> -> bool, records: seq<R>, b: seq<nat>, i: nat)
    requires InRange(|records|, b) && accepts(Pick(records, b)) && Hereditary(accepts) && i in b
    ensures i < |records| && accepts([records[i]])
  {
    var k :| 0 <= k < |b| && b[k] == i;
    assert Pick(records, b)[k] == records[i];
  }

  /** For such an oracle the reported records are exactly those that fail on their own. */
  lemma ReportsExactly<R(!new)>(accepts: seq<R> -> bool, records: seq<R>, indices: seq<nat>, i: nat)
    requires InRange(|records|, indices) && Distinct(indices) && Hereditary(accepts) && i in indices
    ensures i in Bisect(accepts, records, indices).failed <==> !accepts([records[i]])
  {
    var Split(batches, failed) := Bisect(accepts, records, indices);
    BisectIsHonest(accepts, records, indices);
    BisectLosesNothing(accepts, records, indices);
    if i !in failed {
      SharedCovers(indices, Flatten(batches), failed, i);
      var b := BatchOf(batches, i);
      AcceptedAlone(accepts, records, b, i);
    }
  }

  lemma {:induction false} BatchOf(batches: seq<seq<nat>>, i: nat) returns (b: seq<nat>)
    requires i in Flatten(batches)
    ensures b in batches && i in b
  {
    if i in batches[0] {
      b := batches[0];
    } else {
      b := BatchOf(batches[1..], i);
    }
  }

  // ---- how far a partition is split ----

  /** A list is emitted as one batch exactly when the serializer accepts it. */
  lemma WholeIsOneBatch<R>(accepts: seq<R> -> bool, records: seq<R>, indices: seq<nat>)
    requires InRange(|records|, indices) && indices != []
    ensures Bisect(accepts, records, indices) == Split([indices], []) <==> accepts(Pick(records, indices))
  {
    if Bisect(accepts, records, indices) == Split([indices], []) {
      BisectIsHonest(accepts, records, indices);
      assert indices in [indices];
    }
  }

  ghost predicate EachAccepted<R(!new)>(accepts: seq<R> -> bool, rs: seq<R>) {
    forall i | 0 <= i < |rs| :: accepts([rs[i]])
  }

  /** A list is rejected exactly when it holds a record that is rejected alone. */
  ghost predicate Pointwise<R(!new)>(accepts: seq<R> -> bool) {
    forall rs: seq<R> {:trigger EachAccepted(accepts, rs)} | rs != [] :: accepts(rs) <==> EachAccepted(accepts, rs)
  }

  /** How often a list of `n` records can be halved. */
  function Halvings(n: nat): nat {
    if n <= 1 then 0 else 1 + Halvings(n - n / 2)
  }

  lemma {:induction false} HalvingsGrow(m: nat, n: nat)
    requires m <= n
    ensures Halvings(m) <= Halvings(n)
    decreases n
  {
    if m > 1 { HalvingsGrow(m - m / 2, n - n / 2); }
  }

  function Bound(bad: nat, n: nat): nat {
    bad * Halvings(n) + 1
  }

  lemma BoundsAdd(f: nat, g: nat, a: nat, b: nat, n: nat)
    requires Halvings(a) <= Halvings(b) < Halvings(n) && f + g > 0
    ensures Bound(f, a) + Bound(g, b) <= Bound(f + g, n)
  {
    Products(f, g, Halvings(a), Halvings(b), Halvings(n));
  }

  lemma Products(f: nat, g: nat, d: nat, e: nat, h: nat)
    requires d <= e < h && f + g > 0
    ensures f * d + 1 + g * e + 1 <= (f + g) * h + 1
  {
    assert f * d <= f * e && (f + g) * (e + 1) <= (f + g) * h;
  }

  lemma BoundNone(n: nat)
    ensures Bound(0, n) == 1
  {
  }

  /** With such a serializer, f bad records among n split the rest into at most f * log2(n) + 1 batches, log2 rounded up. */
  lemma {:induction false} FewBatches<R(!new)>(accepts: seq<R> -> bool, records: seq<R>, indices: seq<nat>)
    requires InRange(|records|, indices) && Pointwise(accepts)
    ensures |Bisect(accepts, records, indices).batches| <= Bound(|Bisect(accepts, records, indices).failed|, |indices|)
    decreases |indices|
  {
    if |indices| > 1 && !accepts(Pick(records, indices)) {
      var mid := |indices| / 2;
      var a, b := indices[..mid], indices[mid..];
      FewBatches(accepts, records, a);
      FewBatches(accepts, records, b);
      SomeFails(accepts, records, indices);
      Halves(|a|, |b|, |indices|);
      BoundsAdd(|Bisect(accepts, records, a).failed|, |Bisect(accepts, records, b).failed|, |a|, |b|, |indices|);
    } else {
      BoundNone(|indices|);
    }
  }

  lemma Halves(a: nat, b: nat, n: nat)
    requires n > 1 && a == n / 2 && b == n - n / 2
    ensures Halvings(a) <= Halvings(b) < Halvings(n)
  {
    HalvingsGrow(a, b);
  }

  /** Of two parts of a rejected list one is rejected. */
  lemma SomePartRejected<R(!new)>(accepts: seq<R> -> bool, left: seq<R>, right: seq<R>)
    requires Pointwise(accepts) && left != [] && right != [] && !accepts(left + right)
    ensures !accepts(left) || !accepts(right)
  {
    assert !EachAccepted(accepts, left + right);
    var i :| 0 <= i < |left + right| && !accepts([(left + right)[i]]);
    if i < |left| {
      assert (left + right)[i] == left[i] && !EachAccepted(accepts, left);
    } else {
      assert (left + right)[i] == right[i - |left|] && !EachAccepted(accepts, right);
    }
  }

  lemma {:induction false} SomeFails<R(!new)>(accepts: seq<R> -> bool, records: seq<R>, indices: seq<nat>)
    requires InRange(|records|, indices) && Pointwise(accepts) && indices != [] && !accepts(Pick(records, indices))
    ensures Bisect(accepts, records, indices).failed != []
    decreases |indices|
  {
    if |indices| > 1 {
      var a, b := indices[..|indices| / 2], indices[|indices| / 2..];
      assert Pick(records, indices) == Pick(records, a) + Pick(records, b);
      SomePartRejected(accepts, Pick(records, a), Pick(records, b));
      if !accepts(Pick(records, a)) { SomeFails(accepts, records, a); } else { SomeFails(accepts, records, b); }
    }
  }

  // ---- the partition and its CDC sidecar ----

  datatype Emitted<C> = Emitted(batches: seq<seq<nat>>, failed: seq<nat>, sidecar: Option<seq<C>>)

  function All(n: nat): seq<nat> {
    seq(n, i => i)
  }

  function NonEmpty<C>(rows: seq<C>): Option<seq<C>> {
    if rows == [] then None else Some(rows)
  }

  /** `earlier` says that the partition already holds batches from another path. */
  function Emit<R, C>(accepts: seq<R> -> bool, records: seq<R>, cdc: Option<seq<C>>, earlier: bool): Emitted<C> {
    var Split(batches, failed) := Bisect(accepts, records, All(|records|));
    if failed == [] then Emitted(batches, failed, if cdc.Some? then NonEmpty(cdc.value) else None)
    else
      var success := Without(All(|records|), Members(failed));
      WithoutInRange(|records|, All(|records|), Members(failed));
      if (earlier || batches != []) && cdc.Some? && |cdc.value| == |records|
      then Emitted(batches, failed, NonEmpty(Pick(cdc.value, success)))
      else Emitted(batches, failed, None)
  }

  /** A sidecar row for every emitted row, in the same order, and no sidecar when nothing is emitted. */
  ghost predicate Aligned<C(!new)>(out: Emitted<C>, cdc: seq<C>) {
    var rows := Flatten(out.batches);
    InRange(|cdc|, rows) && out.sidecar == NonEmpty(Pick(cdc, rows))
  }

  lemma EmitAligns<R, C(!new)>(accepts: seq<R> -> bool, records: seq<R>, cdc: seq<C>, earlier: bool)
    requires |cdc| == |records|
    ensures Aligned(Emit(accepts, records, Some(cdc), earlier), cdc)
    ensures var out := Emit(accepts, records, Some(cdc), earlier);
            Shared(All(|records|), Flatten(out.batches), out.failed)
  {
    var all := All(|records|);
    var Split(batches, failed) := Bisect(accepts, records, all);
    BisectLosesNothing(accepts, records, all);
    WithoutInRange(|records|, all, Members(failed));
    if failed == [] {
      WithoutNone(all, Members([]));
      assert Pick(cdc, all) == cdc;
    } else if batches == [] {
      assert Flatten(batches) == [];
    }
  }

  /**
    The sidecar lines up with the emitted rows for every oracle, if and only if there is exactly one
    CDC row per record; `cdc` non-empty is a partition that has CDC rows at all.
   */
  lemma AlignmentIsExact<R(!new), C(!new)>(records: seq<R>, cdc: seq<C>, earlier: bool)
    requires records != [] && cdc != []
    ensures |cdc| == |records| <==>
            forall accepts: seq<R> -> bool :: Aligned(Emit(accepts, records, Some(cdc), earlier), cdc)
  {
    if |cdc| == |records| {
      forall accepts: seq<R> -> bool ensures Aligned(Emit(accepts, records, Some(cdc), earlier), cdc) {
        EmitAligns(accepts, records, cdc, earlier);
      }
    } else {
      var always: seq<R> -> bool := (rs: seq<R>) => true;
      var out := Emit(always, records, Some(cdc), earlier);
      SingleBatch(All(|records|));
      assert out.sidecar == Some(cdc) && |Flatten(out.batches)| == |records|;
      assert !Aligned(out, cdc);
    }
  }
}
