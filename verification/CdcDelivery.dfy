/**
  From record batches and their CDC metadata to the target table: what a filled and validated batch
  leaves at each key, by any plan, in terms of the records delivered.
 */
module CdcDelivery {
  import opened Basics
  import opened OrderTokens
  import opened CdcTables
  import opened CdcBulk
  import opened CdcEquivalence
  import opened CdcReplay
  import opened CdcBatch

  // ---- filling a batch ----

  /** The batch holds `records`, each with the metadata at its position. */
  ghost predicate FilledFrom(b: Batch, records: seq<seq<Value>>, meta: seq<RowMeta>) {
    |b.rows| == |records| <= |meta| && forall i | 0 <= i < |b.rows| :: Carries(b.rows[i], records, meta, 0, i)
  }

  /** Appending a record batch at the running offset appends its records. */
  lemma AppendFills(b: Batch, before: seq<seq<Value>>, b': Batch, records: seq<seq<Value>>, meta: seq<RowMeta>)
    requires FilledFrom(b, before, meta)
    requires |b'.rows| == |b.rows| + |records| && b'.rows[..|b.rows|] == b.rows && |before| + |records| <= |meta|
    requires forall j | |b.rows| <= j < |b'.rows| :: Carries(b'.rows[j], records, meta, |before|, j - |b.rows|)
    ensures FilledFrom(b', before + records, meta)
  {
    forall i | 0 <= i < |b'.rows| ensures Carries(b'.rows[i], before + records, meta, 0, i) {
      if i < |b.rows| {
        assert b'.rows[i] == b'.rows[..|b.rows|][i] && Carries(b.rows[i], before, meta, 0, i);
      } else {
        assert Carries(b'.rows[i], records, meta, |before|, i - |b.rows|);
      }
    }
  }

  // ---- keys and tokens of the delivered records ----

  /** `k` has, for each key column in turn, the record's value in the column of that name. */
  ghost predicate HasKey(b: Batch, values: seq<Value>, k: Key) {
    && |k| == |b.keyColumns| && |values| == |b.columns|
    && forall j, c | 0 <= j < |k| && 0 <= c < |b.columns| && b.columns[c].name == b.keyColumns[j] :: k[j] == values[c]
  }

  /** No record has NULL in a key column. */
  ghost predicate NoNullKeys(b: Batch, records: seq<seq<Value>>) {
    forall i, c | 0 <= i < |records| && 0 <= c < |b.columns| && c < |records[i]| && b.columns[c].name in b.keyColumns ::
      records[i][c] != Null
  }

  /** Record `i` is the first of the newest records of key `k`. */
  ghost predicate Decisive(b: Batch, records: seq<seq<Value>>, meta: seq<RowMeta>, k: Key, i: int) {
    && 0 <= i < |records| <= |meta| && HasKey(b, records[i], k)
    && forall j | 0 <= j < |records| && HasKey(b, records[j], k) ::
         if j < i then Less(meta[j].token, meta[i].token) else !Less(meta[i].token, meta[j].token)
  }

  /** The token is greater than that of the key's row and that of its tombstone. */
  ghost predicate NewerThanStored(t: Tables, k: Key, token: Token) {
    && (k in t.target && t.target[k].token.Some? ==> Less(t.target[k].token.value, token))
    && (k in t.tombs ==> Less(t.tombs[k], token))
  }

  /** The target row of `k` has the record's values, column by column. */
  ghost predicate ShowsRecord(b: Batch, t: Tables, k: Key, values: seq<Value>, token: Token) {
    && k in t.target && t.target[k].token == Some(token) && |values| == |b.columns|
    && t.target[k].cells.Keys == Names(b.columns)
    && forall c | 0 <= c < |b.columns| :: b.columns[c].name in t.target[k].cells && t.target[k].cells[b.columns[c].name] == values[c]
  }

  // ---- the staged rows carry them ----

  lemma {:induction false} PositionIs(columns: seq<Column>, c: nat)
    requires c < |columns| && (forall i, j | 0 <= i < j < |columns| :: columns[i].name != columns[j].name)
    ensures columns[c].name in Names(columns) && Position(columns, columns[c].name) == c
    decreases |columns|
  {
    assert columns[c].name in Names(columns);
    if c > 0 {
      var rest := columns[1..];
      forall i, j | 0 <= i < j < |rest| ensures rest[i].name != rest[j].name {
        assert rest[i] == columns[i + 1] && rest[j] == columns[j + 1];
      }
      PositionIs(rest, c - 1);
      assert rest[c - 1] == columns[c];
    }
  }

  lemma NamesDistinct(b: Batch)
    requires Accepted(b)
    ensures forall i, j | 0 <= i < j < |b.columns| :: b.columns[i].name != b.columns[j].name
  {
    forall i, j | 0 <= i < j < |b.columns| ensures b.columns[i].name != b.columns[j].name {
      assert NameOk(b, j);
    }
  }

  lemma CellIs(b: Batch, values: seq<Value>, c: nat)
    requires Accepted(b) && |values| == |b.columns| && c < |b.columns|
    ensures b.columns[c].name in CellsOf(b.columns, values) && CellsOf(b.columns, values)[b.columns[c].name] == values[c]
  {
    NamesDistinct(b);
    PositionIs(b.columns, c);
  }

  lemma KeyColumn(b: Batch, j: nat) returns (c: nat)
    requires Accepted(b) && j < |b.keyColumns|
    ensures c < |b.columns| && b.columns[c].name == b.keyColumns[j]
  {
    assert Named(b, b.keyColumns[j]);
    c :| 0 <= c < |b.columns| && b.columns[c].name == b.keyColumns[j];
  }

  /** The staged key is the key of the record, and no other is. */
  lemma KeyIs(b: Batch, values: seq<Value>, k: Key)
    requires Accepted(b) && |values| == |b.columns|
    ensures HasKey(b, values, k) <==> KeyOf(LayoutOf(b), CellsOf(b.columns, values)) == k
  {
    var cells, layout := CellsOf(b.columns, values), LayoutOf(b);
    forall j, c | 0 <= j < |b.keyColumns| && 0 <= c < |b.columns| && b.columns[c].name == b.keyColumns[j]
      ensures KeyOf(layout, cells)[j] == values[c]
    {
      CellIs(b, values, c);
    }
    if HasKey(b, values, k) {
      forall j | 0 <= j < |k| ensures KeyOf(layout, cells)[j] == k[j] {
        var c := KeyColumn(b, j);
      }
      assert KeyOf(layout, cells) == k;
    }
  }

  lemma StagedRow(b: Batch, records: seq<seq<Value>>, meta: seq<RowMeta>, i: nat)
    requires Accepted(b) && FilledFrom(b, records, meta) && i < |records|
    ensures |records[i]| == |b.columns|
    ensures var row := Staged(b)[i];
            && (row.mutation.Delete? <==> meta[i].kind.DeleteRow?) && row.token == meta[i].token && row.ordinal == i
            && row.cells == CellsOf(b.columns, records[i])
  {
    assert Carries(b.rows[i], records, meta, 0, i);
  }

  lemma NoNullStaged(b: Batch, records: seq<seq<Value>>, meta: seq<RowMeta>)
    requires Accepted(b) && FilledFrom(b, records, meta) && NoNullKeys(b, records)
    ensures KeysNotNull(b) && AscendingOrdinals(Staged(b))
  {
    forall i | 0 <= i < |b.rows| ensures Staged(b)[i].ordinal == i { StagedRow(b, records, meta, i); }
    forall i, name | 0 <= i < |b.rows| && name in b.keyColumns && name in Staged(b)[i].cells
      ensures Staged(b)[i].cells[name] != Null
    {
      StagedRow(b, records, meta, i);
      var j :| 0 <= j < |b.keyColumns| && b.keyColumns[j] == name;
      var c := KeyColumn(b, j);
      CellIs(b, records[i], c);
    }
  }

  // ---- the row that decides a key ----

  /** Row `i` is the first of the newest rows of key `k`. */
  ghost predicate DecisiveRow(layout: Layout, rows: seq<Row>, k: Key, i: int) {
    && 0 <= i < |rows| && KeyOf(layout, rows[i].cells) == k
    && forall j | 0 <= j < |rows| && KeyOf(layout, rows[j].cells) == k ::
         if j < i then Less(rows[j].token, rows[i].token) else !Less(rows[i].token, rows[j].token)
  }

  lemma {:induction false} DecisiveIsEarliest(layout: Layout, rows: seq<Row>, k: Key, i: nat)
    requires DecisiveRow(layout, rows, k, i)
    ensures Earliest(layout, rows, k) == Some(rows[i])
    decreases |rows|
  {
    var rest := rows[1..];
    if i > 0 {
      forall j | 0 <= j < |rest| && KeyOf(layout, rest[j].cells) == k
        ensures if j < i - 1 then Less(rest[j].token, rest[i - 1].token) else !Less(rest[i - 1].token, rest[j].token)
      {
        assert rest[j] == rows[j + 1];
      }
      DecisiveIsEarliest(layout, rest, k, i - 1);
    } else {
      EarliestIsOne(layout, rest, k);
      var e := Earliest(layout, rest, k);
      if e.Some? {
        var j :| 0 <= j < |rest| && rest[j] == e.value;
        assert rows[j + 1] == e.value;
      }
    }
  }

  lemma {:induction false} EarliestIsOne(layout: Layout, rows: seq<Row>, k: Key)
    ensures var e := Earliest(layout, rows, k);
            && (e.None? <==> forall i | 0 <= i < |rows| :: KeyOf(layout, rows[i].cells) != k)
            && (e.Some? ==> KeyOf(layout, e.value.cells) == k && exists i :: 0 <= i < |rows| && rows[i] == e.value)
    decreases |rows|
  {
    if rows != [] {
      var rest := rows[1..];
      EarliestIsOne(layout, rest, k);
      assert forall i | 0 < i < |rows| :: rows[i] == rest[i - 1];
      var e := Earliest(layout, rest, k);
      if e.Some? {
        var i :| 0 <= i < |rest| && rest[i] == e.value;
        assert rows[i + 1] == e.value;
      }
    }
  }

  lemma StagedDecisive(b: Batch, records: seq<seq<Value>>, meta: seq<RowMeta>, k: Key, i: int)
    requires Accepted(b) && FilledFrom(b, records, meta)
    ensures Decisive(b, records, meta, k, i) <==> DecisiveRow(LayoutOf(b), Staged(b), k, i)
  {
    forall j | 0 <= j < |records|
      ensures Staged(b)[j].token == meta[j].token && |records[j]| == |b.columns|
      ensures HasKey(b, records[j], k) <==> KeyOf(LayoutOf(b), Staged(b)[j].cells) == k
    {
      StagedRow(b, records, meta, j);
      KeyIs(b, records[j], k);
    }
  }

  /** A register is behind exactly the tokens that are newer than what the tables store. */
  lemma BelowMark(t: Tables, k: Key, token: Token)
    requires TombstonesBehind(t)
    ensures Below(Watermark(t, k), token) <==> NewerThanStored(t, k, token)
  {
    if k in t.target && k in t.tombs { OrderAt(t, k, token); LiveMark(t, k); }
  }

  // ---- the tables after the batch ----

  /** The batch writes the staged row of the deciding record to the key's register. */
  lemma BatchWrites(b: Batch, records: seq<seq<Value>>, meta: seq<RowMeta>, t: Tables, plan: Plan, k: Key, i: nat)
    requires Accepted(b) && FilledFrom(b, records, meta) && NoNullKeys(b, records) && Inv(LayoutOf(b), t)
    requires Decisive(b, records, meta, k, i)
    ensures var t' := Deliver(LayoutOf(b), t, Delivery(plan, Staged(b)));
            TombstonesBehind(t') && RegisterAt(t', k) == Write(RegisterAt(t, k), Staged(b)[i])
  {
    var layout, rows := LayoutOf(b), Staged(b);
    NoNullStaged(b, records, meta);
    AcceptedStages(b);
    DeliverKeepsInv(layout, t, Delivery(plan, rows));
    StagedDecisive(b, records, meta, k, i);
    DeliverWrites(layout, t, Delivery(plan, rows), k);
    ScanIsEarliest(layout, k, RegisterAt(t, k), rows);
    DecisiveIsEarliest(layout, rows, k, i);
  }

  /**
    A filled and validated batch, by any plan, at a key with a delivered record: the first of the newest
    records decides. If it is not newer than the key's row and tombstone nothing changes; if it is a delete
    the row is gone and the tombstone has its token; otherwise the row has exactly the record's values.
   */
  lemma BatchShows(b: Batch, records: seq<seq<Value>>, meta: seq<RowMeta>, t: Tables, plan: Plan, k: Key, i: nat)
    requires Accepted(b) && FilledFrom(b, records, meta) && NoNullKeys(b, records) && Inv(LayoutOf(b), t)
    requires Decisive(b, records, meta, k, i)
    ensures var t' := Deliver(LayoutOf(b), t, Delivery(plan, Staged(b)));
            if !NewerThanStored(t, k, meta[i].token) then
              (k in t'.target <==> k in t.target) && (k in t.target ==> t'.target[k] == t.target[k])
            else if meta[i].kind.DeleteRow? then
              k !in t'.target && k in t'.tombs && t'.tombs[k] == meta[i].token
            else
              ShowsRecord(b, t', k, records[i], meta[i].token)
  {
    var row := Staged(b)[i];
    var t' := Deliver(LayoutOf(b), t, Delivery(plan, Staged(b)));
    BatchWrites(b, records, meta, t, plan, k, i);
    StagedRow(b, records, meta, i);
    BelowMark(t, k, row.token);
    RegisterShows(t, k, t', row);
    if row.mutation.Upsert? && NewerThanStored(t, k, row.token) { RecordShown(b, t', k, records[i], row.token); }
  }

  /** A row that stores the cells of a record shows the record. */
  lemma RecordShown(b: Batch, t: Tables, k: Key, values: seq<Value>, token: Token)
    requires Accepted(b) && |values| == |b.columns|
    requires k in t.target && t.target[k] == Stored(CellsOf(b.columns, values), Some(token))
    ensures ShowsRecord(b, t, k, values, token)
  {
    forall c | 0 <= c < |b.columns|
      ensures b.columns[c].name in t.target[k].cells && t.target[k].cells[b.columns[c].name] == values[c]
    {
      CellIs(b, values, c);
    }
  }

  /**
    Afterwards exactly those events are still newer than what is stored at the key that were so before and
    are newer than the record that decides.
   */
  lemma BatchRaisesTheMark(
      b: Batch, records: seq<seq<Value>>, meta: seq<RowMeta>, t: Tables, plan: Plan, k: Key, i: nat, token: Token)
    requires Accepted(b) && FilledFrom(b, records, meta) && NoNullKeys(b, records) && Inv(LayoutOf(b), t)
    requires Decisive(b, records, meta, k, i)
    ensures NewerThanStored(Deliver(LayoutOf(b), t, Delivery(plan, Staged(b))), k, token) <==>
            NewerThanStored(t, k, token) && Less(meta[i].token, token)
  {
    var t' := Deliver(LayoutOf(b), t, Delivery(plan, Staged(b)));
    BatchWrites(b, records, meta, t, plan, k, i);
    StagedRow(b, records, meta, i);
    BelowMark(t, k, token);
    BelowMark(t', k, token);
    MarkRises(RegisterAt(t, k), Staged(b)[i], token);
  }

  lemma MarkRises(reg: Register, row: Row, token: Token)
    ensures Below(Write(reg, row).mark, token) <==> Below(reg.mark, token) && Less(row.token, token)
  {
    if Below(reg.mark, row.token) {
      if reg.mark.Some? && Less(row.token, token) { Transitive(reg.mark.value, row.token, token); }
    } else if Below(reg.mark, token) {
      Trichotomy(row.token, token);
      if !Less(row.token, token) { NotBelowTrans(reg.mark, row.token, token); }
    }
  }

  /** What one register write means for the two tables. */
  lemma RegisterShows(t: Tables, k: Key, t': Tables, row: Row)
    requires TombstonesBehind(t) && TombstonesBehind(t') && RegisterAt(t', k) == Write(RegisterAt(t, k), row)
    ensures if !Below(Watermark(t, k), row.token) then
              (k in t'.target <==> k in t.target) && (k in t.target ==> t'.target[k] == t.target[k])
            else if row.mutation.Delete? then
              k !in t'.target && k in t'.tombs && t'.tombs[k] == row.token
            else
              k in t'.target && t'.target[k] == Stored(row.cells, Some(row.token))
  {
    LiveMark(t, k);
    LiveMark(t', k);
  }

  /** A key that no record has keeps its row and its tombstone. */
  lemma OtherKeysStay(b: Batch, records: seq<seq<Value>>, meta: seq<RowMeta>, t: Tables, plan: Plan, k: Key)
    requires Accepted(b) && FilledFrom(b, records, meta)
    requires forall i | 0 <= i < |records| :: !HasKey(b, records[i], k)
    ensures SameAt(Deliver(LayoutOf(b), t, Delivery(plan, Staged(b))), t, k)
  {
    var layout, rows := LayoutOf(b), Staged(b);
    forall i | 0 <= i < |rows| ensures KeyOf(layout, rows[i].cells) != k {
      StagedRow(b, records, meta, i);
      KeyIs(b, records[i], k);
    }
    match plan
    case Guarded => RowsElsewhere(layout, t, rows, k);
    case Merges => WinnersElsewhere(layout, t, rows, k);
    case Redshift => RedshiftMatchesMerges(layout, t, WinnersOf(layout, rows)); WinnersElsewhere(layout, t, rows, k);
  }

  lemma {:induction false} RowsElsewhere(layout: Layout, t: Tables, rows: seq<Row>, k: Key)
    requires forall i | 0 <= i < |rows| :: KeyOf(layout, rows[i].cells) != k
    ensures SameAt(ApplyRows(layout, t, rows), t, k)
    decreases |rows|
  {
    if rows != [] {
      var t1 := ApplyRow(layout, t, rows[0]);
      assert SameAt(t1, t, k);
      RowsElsewhere(layout, t1, rows[1..], k);
    }
  }

  lemma WinnersElsewhere(layout: Layout, t: Tables, rows: seq<Row>, k: Key)
    requires forall i | 0 <= i < |rows| :: KeyOf(layout, rows[i].cells) != k
    ensures SameAt(ApplyMerges(layout, t, WinnersOf(layout, rows)), t, k)
  {
    WinnersFacts(layout, rows);
    BestIsFirst(layout, rows, k);
    MergesAtKey(layout, t, WinnersOf(layout, rows), k);
  }

  /** Every key with a delivered record has one that decides it. */
  lemma SomeRecordDecides(b: Batch, records: seq<seq<Value>>, meta: seq<RowMeta>, k: Key) returns (i: nat)
    requires Accepted(b) && FilledFrom(b, records, meta) && exists j | 0 <= j < |records| :: HasKey(b, records[j], k)
    ensures Decisive(b, records, meta, k, i)
  {
    var j :| 0 <= j < |records| && HasKey(b, records[j], k);
    StagedRow(b, records, meta, j);
    KeyIs(b, records[j], k);
    i := SomeRowDecides(LayoutOf(b), Staged(b), k, j);
    StagedDecisive(b, records, meta, k, i);
  }

  lemma {:induction false} SomeRowDecides(layout: Layout, rows: seq<Row>, k: Key, j: nat) returns (i: nat)
    requires j < |rows| && KeyOf(layout, rows[j].cells) == k
    ensures DecisiveRow(layout, rows, k, i)
    decreases |rows|
  {
    var n := |rows| - 1;
    var init := rows[..n];
    if h :| 0 <= h < n && KeyOf(layout, init[h].cells) == k {
      i := SomeRowDecides(layout, init, k, h);
      if KeyOf(layout, rows[n].cells) == k && Less(rows[i].token, rows[n].token) {
        forall m | 0 <= m < n && KeyOf(layout, rows[m].cells) == k ensures Less(rows[m].token, rows[n].token) {
          assert init[m] == rows[m];
          Trichotomy(rows[m].token, rows[i].token);
          if Less(rows[m].token, rows[i].token) { Transitive(rows[m].token, rows[i].token, rows[n].token); }
        }
        i := n;
        NotLessItself(rows[n].token);
      } else {
        forall m | 0 <= m < n && KeyOf(layout, rows[m].cells) == k
          ensures if m < i then Less(rows[m].token, rows[i].token) else !Less(rows[i].token, rows[m].token)
        {
          assert init[m] == rows[m];
        }
      }
    } else {
      forall m | 0 <= m < n ensures KeyOf(layout, rows[m].cells) != k { assert init[m] == rows[m]; }
      i := n;
      NotLessItself(rows[n].token);
    }
  }

  lemma NotLessItself(t: Token)
    ensures !Less(t, t)
  {
    if Less(t, t) { Asymmetric(t, t); }
  }
}
