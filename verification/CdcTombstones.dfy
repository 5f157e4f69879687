/**
  The tombstone tables the two paths leave. They may differ, because the guarded path keeps the
  tombstone of a delete that a newer upsert of the same batch has already overtaken.
 */
module CdcTombstones {
  import opened Basics
  import opened OrderTokens
  import opened CdcTables
  import opened CdcBulk
  import opened CdcEquivalence

  function TombAt(t: Tables, k: Key): Option<Token> {
    if k in t.tombs then Some(t.tombs[k]) else None
  }

  /** A delete advances a key's tombstone, an upsert clears an older one. */
  function TombStep(m: Option<Token>, row: Row): Option<Token> {
    if row.mutation.Delete? then (if Below(m, row.token) then Some(row.token) else m)
    else if m.Some? && Less(m.value, row.token) then None else m
  }

  function TombScan(layout: Layout, k: Key, m: Option<Token>, rows: seq<Row>): Option<Token>
    decreases |rows|
  {
    if rows == [] then m
    else TombScan(layout, k, if KeyOf(layout, rows[0].cells) == k then TombStep(m, rows[0]) else m, rows[1..])
  }

  lemma {:induction false} GuardedTombs(layout: Layout, t: Tables, rows: seq<Row>, k: Key)
    ensures TombAt(ApplyRows(layout, t, rows), k) == TombScan(layout, k, TombAt(t, k), rows)
    decreases |rows|
  {
    if rows != [] { GuardedTombs(layout, ApplyRow(layout, t, rows[0]), rows[1..], k); }
  }

  lemma BulkTombs(layout: Layout, t: Tables, rows: seq<Row>, k: Key)
    ensures var best := Best(layout, rows, k);
            TombAt(ApplyMerges(layout, t, WinnersOf(layout, rows)), k)
            == if best.Some? then TombStep(TombAt(t, k), best.value) else TombAt(t, k)
  {
    WinnersFacts(layout, rows);
    BestIsFirst(layout, rows, k);
    MergesAtKey(layout, t, WinnersOf(layout, rows), k);
  }

  // ---- what a scan leaves ----

  /** Row `i` is a row of key `k` with mutation `m`. */
  predicate RowOf(layout: Layout, rows: seq<Row>, k: Key, m: Mutation, i: int) {
    0 <= i < |rows| && KeyOf(layout, rows[i].cells) == k && rows[i].mutation == m
  }

  /** No upsert of the key is newer than `token`. */
  ghost predicate NoNewerUpsert(layout: Layout, rows: seq<Row>, k: Key, token: Token) {
    forall i | RowOf(layout, rows, k, Upsert, i) :: !Less(token, rows[i].token)
  }

  /** The delete at `j` is not overtaken by a later, newer upsert of its key. */
  ghost predicate Lingers(layout: Layout, rows: seq<Row>, k: Key, j: int) {
    RowOf(layout, rows, k, Delete, j) && NoNewerUpsert(layout, rows[j + 1..], k, rows[j].token)
  }

  lemma TailRow(layout: Layout, rows: seq<Row>, k: Key, m: Mutation, i: int)
    requires rows != [] && RowOf(layout, rows[1..], k, m, i)
    ensures RowOf(layout, rows, k, m, i + 1) && rows[i + 1] == rows[1..][i]
  {
  }

  lemma TailNoNewer(layout: Layout, rows: seq<Row>, k: Key, token: Token)
    requires rows != [] && NoNewerUpsert(layout, rows, k, token)
    ensures NoNewerUpsert(layout, rows[1..], k, token)
    ensures RowOf(layout, rows, k, Upsert, 0) ==> !Less(token, rows[0].token)
  {
    forall i | RowOf(layout, rows[1..], k, Upsert, i) ensures !Less(token, rows[1..][i].token) {
      TailRow(layout, rows, k, Upsert, i);
    }
  }

  lemma NoNewerGrows(layout: Layout, rows: seq<Row>, k: Key, a: Token, b: Token)
    requires NoNewerUpsert(layout, rows, k, a) && Less(a, b)
    ensures NoNewerUpsert(layout, rows, k, b)
  {
    forall i | RowOf(layout, rows, k, Upsert, i) ensures !Less(b, rows[i].token) {
      if Less(b, rows[i].token) { Transitive(a, b, rows[i].token); }
    }
  }

  /** A tombstone that no upsert overtakes is still there, or a newer one is. */
  lemma {:induction false} TombStays(layout: Layout, rows: seq<Row>, k: Key, token: Token)
    requires NoNewerUpsert(layout, rows, k, token)
    ensures TombScan(layout, k, Some(token), rows).Some?
    decreases |rows|
  {
    if rows != [] {
      TailNoNewer(layout, rows, k, token);
      var next := if KeyOf(layout, rows[0].cells) == k then TombStep(Some(token), rows[0]) else Some(token);
      if next.value != token { NoNewerGrows(layout, rows[1..], k, token, next.value); }
      TombStays(layout, rows[1..], k, next.value);
    }
  }

  lemma {:induction false} LingeringStays(layout: Layout, rows: seq<Row>, k: Key, j: int, m: Option<Token>)
    requires Lingers(layout, rows, k, j)
    ensures TombScan(layout, k, m, rows).Some?
    decreases |rows|
  {
    var next := if KeyOf(layout, rows[0].cells) == k then TombStep(m, rows[0]) else m;
    if j == 0 {
      if next.value != rows[0].token {
        Trichotomy(next.value, rows[0].token);
        NoNewerGrows(layout, rows[1..], k, rows[0].token, next.value);
      }
      TombStays(layout, rows[1..], k, next.value);
    } else {
      assert rows[1..][j..] == rows[j + 1..];
      LingeringStays(layout, rows[1..], k, j - 1, next);
    }
  }

  /** With every delete overtaken, only a tombstone that was there before and that no upsert overtakes is left. */
  lemma {:induction false} OvertakenClears(layout: Layout, rows: seq<Row>, k: Key, m: Option<Token>)
    requires forall j :: !Lingers(layout, rows, k, j)
    ensures var out := TombScan(layout, k, m, rows);
            out.None? || (out == m && NoNewerUpsert(layout, rows, k, m.value))
    decreases |rows|
  {
    if rows != [] {
      var next := if KeyOf(layout, rows[0].cells) == k then TombStep(m, rows[0]) else m;
      forall j ensures !Lingers(layout, rows[1..], k, j) {
        if RowOf(layout, rows[1..], k, Delete, j) {
          TailRow(layout, rows, k, Delete, j);
          assert rows[1..][j + 1..] == rows[j + 2..];
          assert !Lingers(layout, rows, k, j + 1);
        }
      }
      OvertakenClears(layout, rows[1..], k, next);
      assert !Lingers(layout, rows, k, 0);
      if next.Some? && NoNewerUpsert(layout, rows[1..], k, next.value) && next == m {
        HeadNoNewer(layout, rows, k, m.value);
      }
    }
  }

  lemma HeadNoNewer(layout: Layout, rows: seq<Row>, k: Key, token: Token)
    requires rows != [] && NoNewerUpsert(layout, rows[1..], k, token)
    requires RowOf(layout, rows, k, Upsert, 0) ==> !Less(token, rows[0].token)
    ensures NoNewerUpsert(layout, rows, k, token)
  {
    forall i | RowOf(layout, rows, k, Upsert, i) ensures !Less(token, rows[i].token) {
      if i > 0 { assert RowOf(layout, rows[1..], k, Upsert, i - 1); }
    }
  }

  // ---- scans under a greatest token ----

  ghost predicate NoneNewer(layout: Layout, rows: seq<Row>, k: Key, token: Token) {
    forall i | 0 <= i < |rows| && KeyOf(layout, rows[i].cells) == k :: !Less(token, rows[i].token)
  }

  lemma {:induction false} ScanAbove(layout: Layout, rows: seq<Row>, k: Key, token: Token)
    requires NoneNewer(layout, rows, k, token)
    ensures TombScan(layout, k, Some(token), rows) == Some(token)
    decreases |rows|
  {
    if rows != [] { ScanAbove(layout, rows[1..], k, token); }
  }

  /** A newest delete is the tombstone left, unless an older tombstone is newer still. */
  lemma {:induction false} ScanReachesTop(layout: Layout, rows: seq<Row>, k: Key, j: int, m: Option<Token>)
    requires RowOf(layout, rows, k, Delete, j) && NoneNewer(layout, rows, k, rows[j].token)
    requires m.Some? ==> !Less(rows[j].token, m.value)
    ensures TombScan(layout, k, m, rows) == Some(rows[j].token)
    decreases |rows|
  {
    var next := if KeyOf(layout, rows[0].cells) == k then TombStep(m, rows[0]) else m;
    if j == 0 {
      if m.Some? { Trichotomy(m.value, rows[0].token); }
      ScanAbove(layout, rows[1..], k, rows[0].token);
    } else {
      assert rows[1..][j - 1] == rows[j];
      ScanReachesTop(layout, rows[1..], k, j - 1, next);
    }
  }

  // ---- when the tables agree ----

  /** Where an upsert wins, no delete of the key lingers. */
  ghost predicate DeletesOvertaken(layout: Layout, rows: seq<Row>, k: Key) {
    Best(layout, rows, k).Some? && Best(layout, rows, k).value.mutation.Upsert? ==>
      forall j :: !Lingers(layout, rows, k, j)
  }

  lemma NothingAbove(layout: Layout, rows: seq<Row>, k: Key, m: Token)
    requires Best(layout, rows, k).Some? && !Less(m, Best(layout, rows, k).value.token)
    ensures NoneNewer(layout, rows, k, m)
  {
    var top := Best(layout, rows, k).value;
    BestIsFirst(layout, rows, k);
    forall i | 0 <= i < |rows| && KeyOf(layout, rows[i].cells) == k ensures !Less(m, rows[i].token) {
      NotBelowTrans(Some(m), top.token, rows[i].token);
    }
  }

  lemma UpsertWinner(layout: Layout, rows: seq<Row>, k: Key, m: Option<Token>)
    requires Best(layout, rows, k).Some? && Best(layout, rows, k).value.mutation.Upsert?
    requires forall j :: !Lingers(layout, rows, k, j)
    ensures TombScan(layout, k, m, rows) == TombStep(m, Best(layout, rows, k).value)
  {
    var top := Best(layout, rows, k).value;
    OvertakenClears(layout, rows, k, m);
    if m.Some? && !Less(m.value, top.token) {
      NothingAbove(layout, rows, k, m.value);
      ScanAbove(layout, rows, k, m.value);
    } else if m.Some? {
      BestIsFirst(layout, rows, k);
      var i :| 0 <= i < |rows| && rows[i] == top;
      assert RowOf(layout, rows, k, Upsert, i);
    }
  }

  lemma DeleteWinner(layout: Layout, rows: seq<Row>, k: Key, m: Option<Token>)
    requires Best(layout, rows, k).Some? && Best(layout, rows, k).value.mutation.Delete?
    ensures TombScan(layout, k, m, rows) == TombStep(m, Best(layout, rows, k).value)
  {
    var top := Best(layout, rows, k).value;
    BestIsFirst(layout, rows, k);
    if m.Some? && Less(top.token, m.value) {
      Asymmetric(top.token, m.value);
      NothingAbove(layout, rows, k, m.value);
      ScanAbove(layout, rows, k, m.value);
    } else {
      var i :| 0 <= i < |rows| && rows[i] == top;
      if Less(top.token, top.token) { Asymmetric(top.token, top.token); }
      NothingAbove(layout, rows, k, top.token);
      if m.Some? { Trichotomy(m.value, top.token); }
      ScanReachesTop(layout, rows, k, i, m);
    }
  }

  lemma {:induction false} NoRows(layout: Layout, rows: seq<Row>, k: Key, m: Option<Token>)
    requires Best(layout, rows, k).None?
    ensures TombScan(layout, k, m, rows) == m
    decreases |rows|
  {
    if rows != [] { NoRows(layout, rows[1..], k, m); }
  }

  ghost predicate TombstonesAgree(layout: Layout, t: Tables, rows: seq<Row>) {
    ApplyRows(layout, t, rows).tombs == ApplyMerges(layout, t, WinnersOf(layout, rows)).tombs
  }

  lemma OvertakenSuffices(layout: Layout, t: Tables, rows: seq<Row>)
    requires forall k: Key :: DeletesOvertaken(layout, rows, k)
    ensures TombstonesAgree(layout, t, rows)
  {
    var s, b := ApplyRows(layout, t, rows), ApplyMerges(layout, t, WinnersOf(layout, rows));
    forall k: Key ensures TombAt(s, k) == TombAt(b, k) {
      GuardedTombs(layout, t, rows, k);
      BulkTombs(layout, t, rows, k);
      assert DeletesOvertaken(layout, rows, k);
      var best := Best(layout, rows, k);
      if best.None? {
        NoRows(layout, rows, k, TombAt(t, k));
      } else if best.value.mutation.Upsert? {
        UpsertWinner(layout, rows, k, TombAt(t, k));
      } else {
        DeleteWinner(layout, rows, k, TombAt(t, k));
      }
    }
    SameTombs(s, b);
  }

  lemma SameTombs(s: Tables, b: Tables)
    requires forall k: Key :: TombAt(s, k) == TombAt(b, k)
    ensures s.tombs == b.tombs
  {
    forall k: Key ensures (k in s.tombs <==> k in b.tombs) && (k in s.tombs ==> s.tombs[k] == b.tombs[k]) {
      assert TombAt(s, k) == TombAt(b, k);
    }
  }

  /**
    From every pair of tables the two paths leave the same tombstones, if and only if every delete of a
    key won by an upsert is followed in the batch by a newer upsert of that key.
   */
  lemma TombstonesAgreeExactly(layout: Layout, rows: seq<Row>)
    ensures (forall t: Tables :: TombstonesAgree(layout, t, rows)) <==> forall k: Key :: DeletesOvertaken(layout, rows, k)
  {
    if forall k: Key :: DeletesOvertaken(layout, rows, k) {
      forall t: Tables ensures TombstonesAgree(layout, t, rows) { OvertakenSuffices(layout, t, rows); }
    } else {
      var k: Key :| !DeletesOvertaken(layout, rows, k);
      var j :| Lingers(layout, rows, k, j);
      var t := Tables(map[], map[]);
      GuardedTombs(layout, t, rows, k);
      BulkTombs(layout, t, rows, k);
      LingeringStays(layout, rows, k, j, None);
      assert !TombstonesAgree(layout, t, rows);
    }
  }
}
