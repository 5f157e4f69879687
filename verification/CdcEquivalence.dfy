/**
  The bulk plan and the guarded row-by-row path implement the same per-key
  last-writer-wins register.
 */
module CdcEquivalence {
  import opened Basics
  import opened OrderTokens
  import opened CdcTables
  import opened CdcBulk

  ghost predicate AllCover(layout: Layout, rows: seq<Row>) {
    forall i | 0 <= i < |rows| :: Covers(layout, rows[i])
  }

  ghost predicate AscendingOrdinals(rows: seq<Row>) {
    forall i, j | 0 <= i < j < |rows| :: rows[i].ordinal < rows[j].ordinal
  }

  ghost predicate SameRegisters(a: Tables, b: Tables) {
    forall k: Key :: RegisterAt(a, k) == RegisterAt(b, k)
  }

  // ---- the guarded path ----

  lemma {:induction false} ApplyRowsKeepsInv(layout: Layout, t: Tables, rows: seq<Row>)
    requires layout.Valid() && Inv(layout, t)
    ensures Inv(layout, ApplyRows(layout, t, rows))
    decreases |rows|
  {
    if rows != [] {
      ApplyRowKeepsInv(layout, t, rows[0]);
      ApplyRowsKeepsInv(layout, ApplyRow(layout, t, rows[0]), rows[1..]);
    }
  }

  /** The guarded path over a batch is the batch's register writes, key by key. */
  lemma {:induction false} ApplyRowsWrites(layout: Layout, t: Tables, rows: seq<Row>, k: Key)
    requires layout.Valid() && Inv(layout, t) && AllCover(layout, rows)
    ensures RegisterAt(ApplyRows(layout, t, rows), k) == WriteAll(layout, k, RegisterAt(t, k), rows)
    decreases |rows|
  {
    if rows != [] {
      ApplyRowKeepsInv(layout, t, rows[0]);
      ApplyRowWrites(layout, t, rows[0], k);
      ApplyRowsWrites(layout, ApplyRow(layout, t, rows[0]), rows[1..], k);
    }
  }

  // ---- the bulk path ----

  lemma WinnersFacts(layout: Layout, rows: seq<Row>)
    ensures WinnersKeyed(layout, WinnersOf(layout, rows))
    ensures forall k :: k in WinnersOf(layout, rows) <==> Best(layout, rows, k).Some?
    ensures forall k | k in WinnersOf(layout, rows) :: WinnersOf(layout, rows)[k] in rows
  {
    forall k: Key { BestIsFirst(layout, rows, k); }
  }

  lemma MergesKeepInv(layout: Layout, t: Tables, w: Winners)
    requires layout.Valid() && Inv(layout, t) && WinnersKeyed(layout, w)
    ensures Inv(layout, ApplyMerges(layout, t, w))
  {
    var b := ApplyMerges(layout, t, w);
    forall k: Key
      ensures k in b.target ==> b.target[k].cells.Keys == layout.columns && KeyOf(layout, b.target[k].cells) == k
      ensures k in b.target && k in b.tombs ==>
                b.target[k].token.Some? && !Less(b.target[k].token.value, b.tombs[k])
    {
      MergesAtKey(layout, t, w, k);
      if k in w { ApplyRowKeepsInv(layout, t, w[k]); }
    }
  }

  /** The bulk plan writes each key's winner to its register and touches no other key. */
  lemma MergesWrite(layout: Layout, t: Tables, rows: seq<Row>, k: Key)
    requires layout.Valid() && Inv(layout, t) && AllCover(layout, rows)
    ensures var best := Best(layout, rows, k);
            RegisterAt(ApplyMerges(layout, t, WinnersOf(layout, rows)), k)
            == if best.Some? then Write(RegisterAt(t, k), best.value) else RegisterAt(t, k)
  {
    var w := WinnersOf(layout, rows);
    WinnersFacts(layout, rows);
    MergesAtKey(layout, t, w, k);
    if k in w { ApplyRowWrites(layout, t, w[k], k); }
  }

  // ---- a batch collapses to one write per key ----

  /** The row that decides a key in sequence: the newest token, and among equals the first delivered. */
  function Earliest(layout: Layout, rows: seq<Row>, k: Key): Option<Row>
    decreases |rows|
  {
    if rows == [] then None
    else
      var rest := Earliest(layout, rows[1..], k);
      if KeyOf(layout, rows[0].cells) != k then rest
      else if rest.Some? && Less(rows[0].token, rest.value.token) then rest
      else Some(rows[0])
  }

  /** Two writes in a row are one write of the newer, the first one when the tokens are equal. */
  lemma WriteTwice(reg: Register, a: Row, b: Row)
    ensures Write(Write(reg, a), b) == Write(reg, if Less(a.token, b.token) then b else a)
  {
    Trichotomy(a.token, b.token);
    if Less(a.token, b.token) {
      Asymmetric(a.token, b.token);
      if Below(reg.mark, a.token) && reg.mark.Some? { Transitive(reg.mark.value, a.token, b.token); }
    } else if Below(reg.mark, a.token) {
      if Less(b.token, a.token) { Asymmetric(b.token, a.token); }
    } else {
      NotBelowTrans(reg.mark, a.token, b.token);
    }
  }

  lemma {:induction false} ScanIsEarliest(layout: Layout, k: Key, reg: Register, rows: seq<Row>)
    ensures var e := Earliest(layout, rows, k);
            WriteAll(layout, k, reg, rows) == if e.Some? then Write(reg, e.value) else reg
    decreases |rows|
  {
    if rows != [] {
      var rest := rows[1..];
      if KeyOf(layout, rows[0].cells) == k {
        ScanIsEarliest(layout, k, Write(reg, rows[0]), rest);
        var e := Earliest(layout, rest, k);
        if e.Some? { WriteTwice(reg, rows[0], e.value); }
      } else {
        ScanIsEarliest(layout, k, reg, rest);
      }
    }
  }

  /** With ascending ordinals the scan's row and the SQL winner are the same row. */
  lemma {:induction false} AscendingAgrees(layout: Layout, rows: seq<Row>, k: Key)
    requires AscendingOrdinals(rows)
    ensures Earliest(layout, rows, k) == Best(layout, rows, k)
    decreases |rows|
  {
    if rows != [] {
      AscendingAgrees(layout, rows[1..], k);
      BestIsFirst(layout, rows[1..], k);
      var rest := Best(layout, rows[1..], k);
      if rest.Some? {
        var i :| 0 <= i < |rows[1..]| && rows[1..][i] == rest.value;
        assert rows[i + 1] == rest.value;
      }
    }
  }

  /** Winner and scan always pick the same token; only the content of a tie can differ. */
  lemma {:induction false} SameToken(layout: Layout, rows: seq<Row>, k: Key)
    ensures Earliest(layout, rows, k).Some? == Best(layout, rows, k).Some?
    ensures Best(layout, rows, k).Some? ==> Earliest(layout, rows, k).value.token == Best(layout, rows, k).value.token
    decreases |rows|
  {
    if rows != [] {
      SameToken(layout, rows[1..], k);
      var rest := Best(layout, rows[1..], k);
      if rest.Some? {
        Trichotomy(rows[0].token, rest.value.token);
        if Less(rows[0].token, rest.value.token) { Asymmetric(rows[0].token, rest.value.token); }
      }
    }
  }

  // ---- registers determine the target ----

  /** Under the invariant, equal registers are equal targets and equal watermarks, and the converse. */
  lemma RegistersAreTheTarget(layout: Layout, a: Tables, b: Tables)
    requires Inv(layout, a) && Inv(layout, b)
    ensures SameRegisters(a, b) <==> a.target == b.target && forall k: Key :: Watermark(a, k) == Watermark(b, k)
  {
    if SameRegisters(a, b) {
      forall k: Key
        ensures Watermark(a, k) == Watermark(b, k)
        ensures k in a.target <==> k in b.target
        ensures k in a.target ==> a.target[k] == b.target[k]
      {
        assert RegisterAt(a, k) == RegisterAt(b, k);
        LiveMark(a, k);
        LiveMark(b, k);
      }
    }
    if a.target == b.target && forall k: Key :: Watermark(a, k) == Watermark(b, k) {
      forall k: Key ensures RegisterAt(a, k) == RegisterAt(b, k) {}
    }
  }

  /** A live row's own token is its key's watermark. */
  lemma LiveMark(t: Tables, k: Key)
    requires TombstonesBehind(t)
    ensures k in t.target ==> t.target[k].token == Watermark(t, k)
  {
  }

  // ---- when the two paths agree ----

  ghost predicate SameContent(a: Row, b: Row) {
    a.mutation == b.mutation && (a.mutation.Upsert? ==> a.cells == b.cells)
  }

  /** Among the newest rows of a key, the first delivered and the lowest ordinal carry the same content. */
  ghost predicate TiesAgree(layout: Layout, rows: seq<Row>) {
    forall k: Key | Best(layout, rows, k).Some? && Earliest(layout, rows, k).Some? ::
      SameContent(Earliest(layout, rows, k).value, Best(layout, rows, k).value)
  }

  ghost predicate PathsAgree(layout: Layout, t: Tables, rows: seq<Row>) {
    var s, b := ApplyRows(layout, t, rows), ApplyMerges(layout, t, WinnersOf(layout, rows));
    s.target == b.target && forall k: Key :: Watermark(s, k) == Watermark(b, k)
  }

  /**
    From every reachable pair of tables the bulk plan and the guarded path leave
    the same target and the same watermark per key, if and only if the batch's
    ties agree.
   */
  lemma BulkMatchesGuardedExactly(layout: Layout, rows: seq<Row>)
    requires layout.Valid() && AllCover(layout, rows)
    ensures (forall t: Tables | Inv(layout, t) :: PathsAgree(layout, t, rows)) <==> TiesAgree(layout, rows)
  {
    if TiesAgree(layout, rows) {
      forall t: Tables | Inv(layout, t) ensures PathsAgree(layout, t, rows) {
        TiesAgreeSuffices(layout, t, rows);
      }
    } else {
      var k: Key :| Best(layout, rows, k).Some? && Earliest(layout, rows, k).Some?
        && !SameContent(Earliest(layout, rows, k).value, Best(layout, rows, k).value);
      var t := Tables(map[], map[]);
      SameToken(layout, rows, k);
      ApplyRowsWrites(layout, t, rows, k);
      ScanIsEarliest(layout, k, RegisterAt(t, k), rows);
      MergesWrite(layout, t, rows, k);
      assert RegisterAt(ApplyRows(layout, t, rows), k)
          != RegisterAt(ApplyMerges(layout, t, WinnersOf(layout, rows)), k);
      assert Inv(layout, t) && !PathsAgree(layout, t, rows);
    }
  }

  lemma TiesAgreeSuffices(layout: Layout, t: Tables, rows: seq<Row>)
    requires layout.Valid() && Inv(layout, t) && AllCover(layout, rows) && TiesAgree(layout, rows)
    ensures PathsAgree(layout, t, rows)
  {
    var s, b := ApplyRows(layout, t, rows), ApplyMerges(layout, t, WinnersOf(layout, rows));
    forall k: Key ensures RegisterAt(s, k) == RegisterAt(b, k) {
      ApplyRowsWrites(layout, t, rows, k);
      ScanIsEarliest(layout, k, RegisterAt(t, k), rows);
      MergesWrite(layout, t, rows, k);
      SameToken(layout, rows, k);
    }
    ApplyRowsKeepsInv(layout, t, rows);
    WinnersFacts(layout, rows);
    MergesKeepInv(layout, t, WinnersOf(layout, rows));
    RegistersAreTheTarget(layout, s, b);
  }

  /** A batch in ascending ordinal order, as the appender builds it, always agrees. */
  lemma AscendingBatchAgrees(layout: Layout, t: Tables, rows: seq<Row>)
    requires layout.Valid() && Inv(layout, t) && AllCover(layout, rows) && AscendingOrdinals(rows)
    ensures PathsAgree(layout, t, rows)
    ensures Inv(layout, ApplyRows(layout, t, rows))
    ensures Inv(layout, ApplyMerges(layout, t, WinnersOf(layout, rows)))
  {
    forall k: Key { AscendingAgrees(layout, rows, k); }
    TiesAgreeSuffices(layout, t, rows);
    ApplyRowsKeepsInv(layout, t, rows);
    WinnersFacts(layout, rows);
    MergesKeepInv(layout, t, WinnersOf(layout, rows));
  }

  /** A stale delete is remembered by the guarded path only, so the tombstone tables do differ. */
  lemma StaleDeleteLeavesTombstone(layout: Layout, up: Row, del: Row)
    requires up.mutation.Upsert? && del.mutation.Delete? && Less(del.token, up.token)
    requires KeyOf(layout, up.cells) == KeyOf(layout, del.cells)
    ensures var k, t, rows := KeyOf(layout, up.cells), Tables(map[], map[]), [up, del];
            && k in ApplyRows(layout, t, rows).tombs
            && k !in ApplyMerges(layout, t, WinnersOf(layout, rows)).tombs
  {
    var k, t, rows := KeyOf(layout, up.cells), Tables(map[], map[]), [up, del];
    var t1 := ApplyRow(layout, t, up);
    assert rows[1..] == [del];
    assert ApplyRows(layout, t1, [del]) == ApplyRow(layout, t1, del);
    Asymmetric(del.token, up.token);
    assert Best(layout, [del], k) == Some(del);
    WinnersFacts(layout, rows);
    MergesAtKey(layout, t, WinnersOf(layout, rows), k);
  }
}
