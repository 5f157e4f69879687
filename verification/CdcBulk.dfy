/**
  The bulk path: stage a batch, keep one winner per business key, then update both
  tables with set-based statements. Four MERGEs on most warehouses, six
  UPDATE/INSERT/DELETE statements on Redshift.
 */
module CdcBulk {
  import opened Basics
  import opened OrderTokens
  import opened CdcTables

  /** The winners table: at most one staged row per business key. */
  type Winners = map<Key, Row>

  // ---- winner selection ----

  /** ORDER BY order token DESC, ordinal ASC. */
  predicate Precedes(a: Row, b: Row) {
    Less(b.token, a.token) || (a.token == b.token && a.ordinal < b.ordinal)
  }

  /** ROW_NUMBER() of a staged row within the partition of its business key. */
  function RowNumber(layout: Layout, rows: seq<Row>, i: nat): nat
    requires i < |rows|
  {
    1 + |set j | 0 <= j < |rows| && KeyOf(layout, rows[j].cells) == KeyOf(layout, rows[i].cells)
                 && Precedes(rows[j], rows[i])|
  }

  ghost predicate DistinctOrdinals(rows: seq<Row>) {
    forall i, j | 0 <= i < j < |rows| :: rows[i].ordinal != rows[j].ordinal
  }

  /** The first row of key `k` in the winner order, found by one scan from the right. */
  function Best(layout: Layout, rows: seq<Row>, k: Key): Option<Row>
    decreases |rows|
  {
    if rows == [] then None
    else
      var rest := Best(layout, rows[1..], k);
      if KeyOf(layout, rows[0].cells) != k then rest
      else if rest.Some? && Precedes(rest.value, rows[0]) then rest
      else Some(rows[0])
  }

  function WinnersOf(layout: Layout, rows: seq<Row>): Winners {
    map k | k in (set i | 0 <= i < |rows| :: KeyOf(layout, rows[i].cells)) && Best(layout, rows, k).Some?
      :: Best(layout, rows, k).value
  }

  lemma PrecedesTrans(a: Row, b: Row, c: Row)
    requires !Precedes(b, a) && !Precedes(c, b)
    ensures !Precedes(c, a)
  {
    Trichotomy(a.token, b.token);
    Trichotomy(b.token, c.token);
    if Less(a.token, b.token) { Asymmetric(a.token, b.token); }
    if Precedes(c, a) {
      if Less(a.token, c.token) { NotBelowTrans(Some(a.token), b.token, c.token); }
    }
  }

  /** `Best` is one of the key's rows, and none of them comes before it. */
  lemma {:induction false} BestIsFirst(layout: Layout, rows: seq<Row>, k: Key)
    ensures var b := Best(layout, rows, k);
            && (b.None? <==> forall i | 0 <= i < |rows| :: KeyOf(layout, rows[i].cells) != k)
            && (b.Some? ==>
                  && (exists i :: 0 <= i < |rows| && rows[i] == b.value)
                  && KeyOf(layout, b.value.cells) == k
                  && forall i | 0 <= i < |rows| && KeyOf(layout, rows[i].cells) == k :: !Precedes(rows[i], b.value))
    decreases |rows|
  {
    if rows != [] {
      var rest := rows[1..];
      BestIsFirst(layout, rest, k);
      var b, c := Best(layout, rows, k), Best(layout, rest, k);
      assert forall i | 0 < i < |rows| :: rows[i] == rest[i - 1];
      if c.Some? {
        var i :| 0 <= i < |rest| && rest[i] == c.value;
        assert rows[i + 1] == c.value;
      }
      if b.Some? {
        assert !Precedes(rows[0], rows[0]) by { IrreflexivePrecedes(rows[0]); }
        if c.Some? && Precedes(c.value, rows[0]) { AsymmetricPrecedes(c.value, rows[0]); }
        forall i | 0 <= i < |rows| && KeyOf(layout, rows[i].cells) == k
          ensures !Precedes(rows[i], b.value)
        {
          if i > 0 && b.value == rows[0] && KeyOf(layout, rows[0].cells) == k {
            assert rows[i] == rest[i - 1];
            PrecedesTrans(rows[0], c.value, rows[i]);
          }
        }
      }
    }
  }

  lemma IrreflexivePrecedes(a: Row)
    ensures !Precedes(a, a)
  {
    if Less(a.token, a.token) { Asymmetric(a.token, a.token); }
  }

  lemma AsymmetricPrecedes(a: Row, b: Row)
    requires Precedes(a, b)
    ensures !Precedes(b, a)
  {
    if Less(b.token, a.token) { Asymmetric(b.token, a.token); }
    if a.token == b.token && Less(a.token, b.token) { Asymmetric(a.token, b.token); }
  }

  /** The winners are exactly the rows SQL numbers 1, and each key has one. */
  lemma WinnersAreRowNumberOne(layout: Layout, rows: seq<Row>, i: nat)
    requires i < |rows| && DistinctOrdinals(rows)
    ensures var k := KeyOf(layout, rows[i].cells);
            k in WinnersOf(layout, rows) && (RowNumber(layout, rows, i) == 1 <==> WinnersOf(layout, rows)[k] == rows[i])
  {
    var k := KeyOf(layout, rows[i].cells);
    BestIsFirst(layout, rows, k);
    var ahead := set j | 0 <= j < |rows| && KeyOf(layout, rows[j].cells) == k && Precedes(rows[j], rows[i]);
    var b := Best(layout, rows, k).value;
    var w :| 0 <= w < |rows| && rows[w] == b;
    if b == rows[i] {
      assert ahead == {};
    } else {
      Trichotomy(b.token, rows[i].token);
      assert rows[i].ordinal != b.ordinal;
      assert Precedes(b, rows[i]);
      assert w in ahead;
    }
  }

  // ---- the four MERGE statements ----

  predicate UpsertSource(t: Tables, w: Winners, k: Key) {
    k in w && w[k].mutation.Upsert? && !(k in t.tombs && !Less(t.tombs[k], w[k].token))
  }

  function MergeUpserts(layout: Layout, t: Tables, w: Winners): Tables {
    t.(target := map k | k in t.target.Keys + w.Keys && (k in t.target || UpsertSource(t, w, k)) ::
      if k !in t.target then Stored(Inserted(layout, w[k]), Some(w[k].token))
      else if UpsertSource(t, w, k) && Below(t.target[k].token, w[k].token)
      then Stored(Updated(layout, t.target[k].cells, w[k]), Some(w[k].token))
      else t.target[k])
  }

  function MergeDeletes(t: Tables, w: Winners): Tables {
    t.(target := map k | k in t.target && !(k in w && w[k].mutation.Delete? && Below(t.target[k].token, w[k].token))
      :: t.target[k])
  }

  function MergeTombstones(t: Tables, w: Winners): Tables {
    t.(tombs := map k | k in t.tombs.Keys + w.Keys && (k in t.tombs || w[k].mutation.Delete?) ::
      if k !in t.tombs then w[k].token
      else if k in w && w[k].mutation.Delete? && Less(t.tombs[k], w[k].token) then w[k].token
      else t.tombs[k])
  }

  function MergeClearTombstones(t: Tables, w: Winners): Tables {
    t.(tombs := map k | k in t.tombs && !(k in w && w[k].mutation.Upsert? && Less(t.tombs[k], w[k].token))
      :: t.tombs[k])
  }

  function ApplyMerges(layout: Layout, t: Tables, w: Winners): Tables {
    MergeClearTombstones(MergeTombstones(MergeDeletes(MergeUpserts(layout, t, w), w), w), w)
  }

  // ---- Redshift's six statements ----

  predicate NoNewerTombstone(t: Tables, k: Key, token: Token) {
    !(k in t.tombs && !Less(t.tombs[k], token))
  }

  function UpdateUpserts(layout: Layout, t: Tables, w: Winners): Tables {
    t.(target := map k | k in t.target ::
      if k in w && w[k].mutation.Upsert? && Below(t.target[k].token, w[k].token) && NoNewerTombstone(t, k, w[k].token)
      then Stored(Updated(layout, t.target[k].cells, w[k]), Some(w[k].token))
      else t.target[k])
  }

  function InsertUpserts(layout: Layout, t: Tables, w: Winners): Tables {
    t.(target := t.target + map k | k in w && w[k].mutation.Upsert? && k !in t.target && NoNewerTombstone(t, k, w[k].token)
      :: Stored(Inserted(layout, w[k]), Some(w[k].token)))
  }

  function DeleteTargets(t: Tables, w: Winners): Tables {
    t.(target := t.target - set k | k in w && w[k].mutation.Delete? && k in t.target
                                    && Below(t.target[k].token, w[k].token))
  }

  function UpdateTombstones(t: Tables, w: Winners): Tables {
    t.(tombs := map k | k in t.tombs ::
      if k in w && w[k].mutation.Delete? && Less(t.tombs[k], w[k].token) then w[k].token else t.tombs[k])
  }

  function InsertTombstones(t: Tables, w: Winners): Tables {
    t.(tombs := t.tombs + map k | k in w && w[k].mutation.Delete? && k !in t.tombs :: w[k].token)
  }

  function DeleteStaleTombstones(t: Tables, w: Winners): Tables {
    t.(tombs := t.tombs - set k | k in w && w[k].mutation.Upsert? && k in t.tombs && Less(t.tombs[k], w[k].token))
  }

  function ApplyRedshift(layout: Layout, t: Tables, w: Winners): Tables {
    var upserted := InsertUpserts(layout, UpdateUpserts(layout, t, w), w);
    var tombstoned := InsertTombstones(UpdateTombstones(DeleteTargets(upserted, w), w), w);
    DeleteStaleTombstones(tombstoned, w)
  }

  lemma RedshiftUpserts(layout: Layout, t: Tables, w: Winners)
    ensures InsertUpserts(layout, UpdateUpserts(layout, t, w), w) == MergeUpserts(layout, t, w)
  {
    var i, m := InsertUpserts(layout, UpdateUpserts(layout, t, w), w), MergeUpserts(layout, t, w);
    forall k: Key ensures SameAt(i, m, k) { RedshiftUpsertAt(layout, t, w, k); }
    assert i.target == m.target by {
      forall k: Key ensures (k in i.target <==> k in m.target) && (k in i.target ==> i.target[k] == m.target[k]) {
        assert SameAt(i, m, k);
      }
    }
  }

  lemma RedshiftUpsertAt(layout: Layout, t: Tables, w: Winners, k: Key)
    ensures SameAt(InsertUpserts(layout, UpdateUpserts(layout, t, w), w), MergeUpserts(layout, t, w), k)
  {
  }

  lemma RedshiftDeletes(t: Tables, w: Winners)
    ensures DeleteTargets(t, w) == MergeDeletes(t, w)
  {
    assert DeleteTargets(t, w).target == MergeDeletes(t, w).target;
  }

  lemma RedshiftTombstones(t: Tables, w: Winners)
    ensures InsertTombstones(UpdateTombstones(t, w), w) == MergeTombstones(t, w)
  {
    assert InsertTombstones(UpdateTombstones(t, w), w).tombs == MergeTombstones(t, w).tombs;
  }

  lemma RedshiftClear(t: Tables, w: Winners)
    ensures DeleteStaleTombstones(t, w) == MergeClearTombstones(t, w)
  {
    assert DeleteStaleTombstones(t, w).tombs == MergeClearTombstones(t, w).tombs;
  }

  /** For every pair of tables and every winner relation the two plans leave the same tables. */
  lemma RedshiftMatchesMerges(layout: Layout, t: Tables, w: Winners)
    ensures ApplyRedshift(layout, t, w) == ApplyMerges(layout, t, w)
  {
    var m := MergeUpserts(layout, t, w);
    var d := MergeDeletes(m, w);
    RedshiftUpserts(layout, t, w);
    RedshiftDeletes(m, w);
    RedshiftTombstones(d, w);
    RedshiftClear(MergeTombstones(d, w), w);
  }

  // ---- what a bulk apply does at one key ----

  predicate SameAt(a: Tables, b: Tables, k: Key) {
    && (k in a.target <==> k in b.target) && (k in a.target ==> a.target[k] == b.target[k])
    && (k in a.tombs <==> k in b.tombs) && (k in a.tombs ==> a.tombs[k] == b.tombs[k])
  }

  ghost predicate WinnersKeyed(layout: Layout, w: Winners) {
    forall k | k in w :: KeyOf(layout, w[k].cells) == k
  }

  /** At each key the four statements do exactly what one guarded transaction of the winner does. */
  lemma MergesAtKey(layout: Layout, t: Tables, w: Winners, k: Key)
    requires WinnersKeyed(layout, w)
    ensures SameAt(ApplyMerges(layout, t, w), if k in w then ApplyRow(layout, t, w[k]) else t, k)
  {
    var m := MergeUpserts(layout, t, w);
    assert k in w && w[k].mutation.Upsert? ==> SameAt(m, GuardedUpsert(layout, t, w[k]), k);
    var d := MergeDeletes(m, w);
    assert k in w && w[k].mutation.Delete? ==> SameAt(d, GuardedDelete(layout, t, w[k]), k);
  }
}
