/** Collecting WAL slice references along the ancestry of an Iceberg snapshot. */
module SnapshotAncestry {
  import opened Basics
  import opened Texts
  import opened WalSlices

  const ANCESTRY_WALK_CEILING: nat := 10_000

  datatype Snapshot = Snapshot(parent: Option<int>, property: Option<Bytes>)

  /** Snapshots by id; an id that is missing has expired. */
  type Snapshots = map<int, Snapshot>

  /** The id `k` steps up the ancestry of `start`. */
  function Ancestor(graph: Snapshots, start: int, k: nat): Option<int> {
    if k == 0 then Some(start) else
      var below := Ancestor(graph, start, k - 1);
      if below.Some? && below.value in graph then graph[below.value].parent else None
  }

  /** The chain has a present snapshot at step `k`. */
  predicate Present(graph: Snapshots, start: int, k: nat) {
    var id := Ancestor(graph, start, k);
    id.Some? && id.value in graph
  }

  /** What the property at step `k` decodes to; a snapshot without the property holds no references. */
  function SlicesAt(graph: Snapshots, start: int, k: nat): Result<set<Slice>, SliceError>
    requires Present(graph, start, k)
  {
    var property := graph[Ancestor(graph, start, k).value].property;
    if property.None? then Ok({}) else Decode(property.value)
  }

  lemma {:induction false} PresentBelow(graph: Snapshots, start: int, j: nat, k: nat)
    requires j <= k && Present(graph, start, k)
    ensures Present(graph, start, j)
    decreases k
  {
    if j < k { PresentBelow(graph, start, j, k - 1); }
  }

  /** The first `n` snapshots are present and every property among them decodes. */
  ghost predicate Clean(graph: Snapshots, start: int, n: nat) {
    forall k | 0 <= k < n :: Present(graph, start, k) && SlicesAt(graph, start, k).Ok?
  }

  ghost predicate HeldAt(graph: Snapshots, start: int, k: nat, r: Slice) {
    Present(graph, start, k) && SlicesAt(graph, start, k).Ok? && r in SlicesAt(graph, start, k).value
  }

  /** One of the first `n` snapshots holds the reference. */
  ghost predicate HeldBy(graph: Snapshots, start: int, n: nat, r: Slice) {
    exists k | 0 <= k < n :: HeldAt(graph, start, k, r)
  }

  /** `out` is the union of the slices on the first `n` snapshots. */
  ghost predicate Collects(graph: Snapshots, start: int, n: nat, out: set<Slice>) {
    forall r :: r in out <==> HeldBy(graph, start, n, r)
  }

  /** The walk meets a property that does not decode, `e`, before anything else stops it. */
  ghost predicate Stumbles(graph: Snapshots, start: int, e: SliceError) {
    exists n | 0 <= n < ANCESTRY_WALK_CEILING ::
      Clean(graph, start, n) && Present(graph, start, n) && SlicesAt(graph, start, n) == Err(e)
  }

  /** The chain ends after `n` snapshots: there is no parent, or it is missing. */
  ghost predicate EndsAt(graph: Snapshots, start: int, n: nat) {
    !Present(graph, start, n) && (n > 0 ==> Present(graph, start, n - 1))
  }

  lemma CollectMore(graph: Snapshots, start: int, n: nat, out: set<Slice>)
    requires Collects(graph, start, n, out) && Present(graph, start, n) && SlicesAt(graph, start, n).Ok?
    ensures Collects(graph, start, n + 1, out + SlicesAt(graph, start, n).value)
  {
    var more := SlicesAt(graph, start, n).value;
    forall r ensures r in out + more <==> HeldBy(graph, start, n + 1, r) {
      HeldByMore(graph, start, n, r);
      assert r in out <==> HeldBy(graph, start, n, r);
    }
  }

  lemma HeldByMore(graph: Snapshots, start: int, n: nat, r: Slice)
    ensures HeldBy(graph, start, n + 1, r) <==> HeldBy(graph, start, n, r) || HeldAt(graph, start, n, r)
  {
    if HeldBy(graph, start, n, r) {
      var k :| 0 <= k < n && HeldAt(graph, start, k, r);
      assert k < n + 1;
    }
  }

  /** What a walk may answer. */
  ghost predicate Answers(graph: Snapshots, start: int, r: Result<set<Slice>, SliceError>) {
    match r
    case Ok(out) =>
      exists n | 0 <= n < ANCESTRY_WALK_CEILING ::
        EndsAt(graph, start, n) && Clean(graph, start, n) && Collects(graph, start, n, out)
    case Err(e) => Stumbles(graph, start, e) || (e.AncestryTooLong? && Clean(graph, start, ANCESTRY_WALK_CEILING))
  }

  method Walk(start: int, graph: Snapshots) returns (r: Result<set<Slice>, SliceError>)
    ensures Answers(graph, start, r)
  {
    var out: set<Slice> := {};
    var next := Some(start);
    for i := 0 to ANCESTRY_WALK_CEILING
      invariant next == Ancestor(graph, start, i)
      invariant Clean(graph, start, i) && Collects(graph, start, i, out)
    {
      if next.None? || next.value !in graph {
        assert EndsAt(graph, start, i);
        return Ok(out);
      }
      var snapshot := graph[next.value];
      assert Present(graph, start, i);
      if snapshot.property.Some? {
        var decoded := Decode(snapshot.property.value);
        if decoded.Err? {
          return Err(decoded.error);
        }
        CollectMore(graph, start, i, out);
        out := out + decoded.value;
      } else {
        CollectMore(graph, start, i, out);
        assert out + {} == out;
      }
      next := snapshot.parent;
    }
    r := Err(AncestryTooLong);
  }

  // ---- one answer for every graph ----

  lemma EndsOnce(graph: Snapshots, start: int, n: nat, k: nat)
    requires EndsAt(graph, start, n) && Present(graph, start, k)
    ensures k < n
  {
    if n <= k { PresentBelow(graph, start, n, k); }
  }

  lemma SameEnd(graph: Snapshots, start: int, n: nat, m: nat)
    requires EndsAt(graph, start, n) && EndsAt(graph, start, m)
    ensures n == m
  {
    if n < m { EndsOnce(graph, start, n, m - 1); }
    if m < n { EndsOnce(graph, start, m, n - 1); }
  }

  lemma CleanUpTo(graph: Snapshots, start: int, n: nat, m: nat)
    requires Clean(graph, start, n) && Present(graph, start, m) && SlicesAt(graph, start, m).Err?
    ensures n <= m
  {
  }

  /** The walk succeeds if and only if the chain ends before the ceiling and every property on it decodes. */
  lemma SucceedsExactly(graph: Snapshots, start: int, r: Result<set<Slice>, SliceError>)
    requires Answers(graph, start, r)
    ensures r.Ok? <==> exists n | 0 <= n < ANCESTRY_WALK_CEILING :: EndsAt(graph, start, n) && Clean(graph, start, n)
  {
    if r.Err? && Stumbles(graph, start, r.error) {
      var m :| 0 <= m < ANCESTRY_WALK_CEILING && Clean(graph, start, m) && Present(graph, start, m)
               && SlicesAt(graph, start, m) == Err(r.error);
      forall n: nat | Clean(graph, start, n) ensures !EndsAt(graph, start, n) {
        CleanUpTo(graph, start, n, m);
        PresentBelow(graph, start, n, m);
      }
    } else if r.Err? {
      assert forall n | 0 <= n < ANCESTRY_WALK_CEILING :: Present(graph, start, n);
    }
  }

  /**
    A chain of `n` decodable snapshots succeeds exactly below the ceiling; one of exactly
    `ANCESTRY_WALK_CEILING` present snapshots is already too long.
   */
  lemma LengthDecides(graph: Snapshots, start: int, n: nat, r: Result<set<Slice>, SliceError>)
    requires Answers(graph, start, r) && EndsAt(graph, start, n) && Clean(graph, start, n)
    ensures n < ANCESTRY_WALK_CEILING ==> r.Ok? && Collects(graph, start, n, r.value)
    ensures n >= ANCESTRY_WALK_CEILING ==> r == Err(AncestryTooLong)
  {
    SucceedsExactly(graph, start, r);
    forall m: nat | EndsAt(graph, start, m) ensures m == n { SameEnd(graph, start, n, m); }
    forall m: nat | Present(graph, start, m) && SlicesAt(graph, start, m).Err? ensures n <= m { CleanUpTo(graph, start, n, m); }
  }

  lemma {:induction false} AncestorRepeats(graph: Snapshots, start: int, i: nat, j: nat, k: nat)
    requires i < j <= k && Ancestor(graph, start, i) == Ancestor(graph, start, j)
    ensures Ancestor(graph, start, k) == Ancestor(graph, start, k - (j - i))
    decreases k
  {
    if j < k { AncestorRepeats(graph, start, i, j, k - 1); }
  }

  /** A chain that comes back to a present snapshot never ends. */
  lemma {:induction false} CyclesNeverEnd(graph: Snapshots, start: int, i: nat, j: nat, k: nat)
    requires i < j && Ancestor(graph, start, i) == Ancestor(graph, start, j) && Present(graph, start, j)
    ensures Present(graph, start, k)
    decreases k
  {
    if k <= j {
      PresentBelow(graph, start, k, j);
    } else {
      CyclesNeverEnd(graph, start, i, j, k - (j - i));
      AncestorRepeats(graph, start, i, j, k);
    }
  }

  /** A cycle makes the walk fail, whatever the properties hold. */
  lemma CycleFails(graph: Snapshots, start: int, i: nat, j: nat, r: Result<set<Slice>, SliceError>)
    requires i < j && Ancestor(graph, start, i) == Ancestor(graph, start, j) && Present(graph, start, j)
    requires Answers(graph, start, r)
    ensures r.Err?
  {
    forall n ensures !EndsAt(graph, start, n) { CyclesNeverEnd(graph, start, i, j, n); }
  }

  /** The answer is determined by the graph. */
  lemma AnswerIsUnique(graph: Snapshots, start: int, a: Result<set<Slice>, SliceError>, b: Result<set<Slice>, SliceError>)
    requires Answers(graph, start, a) && Answers(graph, start, b)
    ensures a == b
  {
    SucceedsExactly(graph, start, a);
    SucceedsExactly(graph, start, b);
    if a.Ok? {
      var n :| 0 <= n && EndsAt(graph, start, n) && Collects(graph, start, n, a.value);
      var m :| 0 <= m && EndsAt(graph, start, m) && Collects(graph, start, m, b.value);
      SameEnd(graph, start, n, m);
      assert a.value == b.value;
    } else {
      SameStumble(graph, start, a.error, b.error);
    }
  }

  lemma SameStumble(graph: Snapshots, start: int, e: SliceError, f: SliceError)
    requires Answers(graph, start, Err(e)) && Answers(graph, start, Err(f))
    ensures e == f
  {
    if Stumbles(graph, start, e) && Stumbles(graph, start, f) {
      var n :| 0 <= n < ANCESTRY_WALK_CEILING && Clean(graph, start, n) && Present(graph, start, n)
               && SlicesAt(graph, start, n) == Err(e);
      var m :| 0 <= m < ANCESTRY_WALK_CEILING && Clean(graph, start, m) && Present(graph, start, m)
               && SlicesAt(graph, start, m) == Err(f);
      CleanUpTo(graph, start, n, m);
      CleanUpTo(graph, start, m, n);
    }
  }

  // ---- the same, snapshot by snapshot ----

  /** `ids` are the first snapshots of the ancestry of `start`, each present and the parent of the one before it. */
  ghost predicate IsChain(graph: Snapshots, start: int, ids: seq<int>) {
    && (forall i | 0 <= i < |ids| :: ids[i] in graph)
    && (ids != [] ==> ids[0] == start)
    && forall i | 0 < i < |ids| :: graph[ids[i - 1]].parent == Some(ids[i])
  }

  /** The last snapshot of the chain has no parent, or one that has expired. */
  ghost predicate ChainEnds(graph: Snapshots, start: int, ids: seq<int>)
    requires IsChain(graph, start, ids)
  {
    if ids == [] then start !in graph
    else graph[ids[|ids| - 1]].parent.None? || graph[ids[|ids| - 1]].parent.value !in graph
  }

  /** The snapshot has no property, or one that decodes. */
  ghost predicate Decodes(graph: Snapshots, id: int)
    requires id in graph
  {
    graph[id].property.None? || Decode(graph[id].property.value).Ok?
  }

  ghost predicate Lists(graph: Snapshots, id: int, r: Slice)
    requires id in graph
  {
    graph[id].property.Some? && Decode(graph[id].property.value).Ok? && r in Decode(graph[id].property.value).value
  }

  lemma {:induction false} ChainIsAncestry(graph: Snapshots, start: int, ids: seq<int>, i: nat)
    requires IsChain(graph, start, ids) && i < |ids|
    ensures Ancestor(graph, start, i) == Some(ids[i]) && Present(graph, start, i)
    ensures SlicesAt(graph, start, i).Ok? <==> Decodes(graph, ids[i])
    ensures forall r :: HeldAt(graph, start, i, r) <==> Lists(graph, ids[i], r)
  {
    if i > 0 { ChainIsAncestry(graph, start, ids, i - 1); }
  }

  lemma ChainClean(graph: Snapshots, start: int, ids: seq<int>, n: nat)
    requires IsChain(graph, start, ids) && n <= |ids| && forall i | 0 <= i < n :: Decodes(graph, ids[i])
    ensures Clean(graph, start, n)
  {
    forall i | 0 <= i < n ensures Present(graph, start, i) && SlicesAt(graph, start, i).Ok? { ChainIsAncestry(graph, start, ids, i); }
  }

  lemma ChainStops(graph: Snapshots, start: int, ids: seq<int>)
    requires IsChain(graph, start, ids) && ChainEnds(graph, start, ids)
    ensures EndsAt(graph, start, |ids|)
  {
    if ids != [] { ChainIsAncestry(graph, start, ids, |ids| - 1); }
  }

  /** A chain of fewer than 10,000 snapshots that ends and decodes gives exactly the references its snapshots list. */
  lemma WalkCollects(graph: Snapshots, start: int, ids: seq<int>, r: Result<set<Slice>, SliceError>)
    requires Answers(graph, start, r) && IsChain(graph, start, ids) && ChainEnds(graph, start, ids) && |ids| < 10_000
    requires forall i | 0 <= i < |ids| :: Decodes(graph, ids[i])
    ensures r.Ok? && forall x :: x in r.value <==> exists i | 0 <= i < |ids| :: Lists(graph, ids[i], x)
  {
    ChainClean(graph, start, ids, |ids|);
    ChainStops(graph, start, ids);
    LengthDecides(graph, start, |ids|, r);
    forall x ensures x in r.value <==> exists i | 0 <= i < |ids| :: Lists(graph, ids[i], x) {
      forall i | 0 <= i < |ids| { ChainIsAncestry(graph, start, ids, i); }
      if HeldBy(graph, start, |ids|, x) {
        var k :| 0 <= k < |ids| && HeldAt(graph, start, k, x);
        assert Lists(graph, ids[k], x);
      }
      if i :| 0 <= i < |ids| && Lists(graph, ids[i], x) { assert HeldAt(graph, start, i, x); }
    }
  }

  /** The first property that does not decode, among the first 10,000 snapshots, is the error. */
  lemma WalkStumbles(graph: Snapshots, start: int, ids: seq<int>, i: nat, e: SliceError, r: Result<set<Slice>, SliceError>)
    requires Answers(graph, start, r) && IsChain(graph, start, ids) && i < |ids| && i < 10_000
    requires (forall j | 0 <= j < i :: Decodes(graph, ids[j])) && graph[ids[i]].property.Some?
    requires Decode(graph[ids[i]].property.value) == Err(e)
    ensures r == Err(e)
  {
    ChainClean(graph, start, ids, i);
    ChainIsAncestry(graph, start, ids, i);
    assert Stumbles(graph, start, e);
    AnswerIsUnique(graph, start, r, Err(e));
  }

  /** A chain whose first 10,000 snapshots all decode is too long, whatever follows. */
  lemma WalkGivesUp(graph: Snapshots, start: int, ids: seq<int>, r: Result<set<Slice>, SliceError>)
    requires Answers(graph, start, r) && IsChain(graph, start, ids) && |ids| >= 10_000
    requires forall i | 0 <= i < 10_000 :: Decodes(graph, ids[i])
    ensures r == Err(AncestryTooLong)
  {
    ChainClean(graph, start, ids, ANCESTRY_WALK_CEILING);
    AnswerIsUnique(graph, start, r, Err(AncestryTooLong));
  }
}
