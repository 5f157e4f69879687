/**
  The typed CDC batch: how it is filled from record batches, what `validate`
  accepts, and what the two apply paths do with an accepted batch.
 */
module CdcBatch {
  import opened Basics
  import opened OrderTokens
  import opened CdcTables
  import opened CdcBulk
  import opened CdcEquivalence

  datatype Column = Column(name: string, targetType: string)

  datatype BatchRow = BatchRow(mutation: Mutation, eventId: seq<Byte>, token: Token, ordinal: nat, values: seq<Value>)

  datatype Batch = Batch(columns: seq<Column>, keyColumns: seq<string>, rows: seq<BatchRow>)

  datatype BatchError =
    | NoColumns
    | NoKeyColumns
    | EmptyTargetType(column: string)
    | DuplicateColumn(column: string)
    | MissingKeyColumn(column: string)
    | RowWidth(row: nat, expected: nat, actual: nat)
    | EmptyOrderToken(row: nat)
    | DuplicateSourceOrdinal(ordinal: nat)
    | MissingRowMetadata(row: nat, available: nat)

  // ---- what validate checks ----

  predicate TypeOk(b: Batch, i: nat)
    requires i < |b.columns|
  {
    !Blank(b.columns[i].targetType)
  }

  predicate NameOk(b: Batch, i: nat)
    requires i < |b.columns|
  {
    forall j | 0 <= j < i :: b.columns[j].name != b.columns[i].name
  }

  predicate ColumnsOk(b: Batch, n: nat)
    requires n <= |b.columns|
  {
    forall i | 0 <= i < n :: TypeOk(b, i) && NameOk(b, i)
  }

  predicate Named(b: Batch, name: string) {
    exists i :: 0 <= i < |b.columns| && b.columns[i].name == name
  }

  predicate KeysOk(b: Batch, n: nat)
    requires n <= |b.keyColumns|
  {
    forall i | 0 <= i < n :: Named(b, b.keyColumns[i])
  }

  predicate OrdinalOk(b: Batch, i: nat)
    requires i < |b.rows|
  {
    forall j | 0 <= j < i :: b.rows[j].ordinal != b.rows[i].ordinal
  }

  predicate RowsOk(b: Batch, n: nat)
    requires n <= |b.rows|
  {
    forall i | 0 <= i < n :: |b.rows[i].values| == |b.columns| && b.rows[i].token != [] && OrdinalOk(b, i)
  }

  predicate Accepted(b: Batch) {
    && b.columns != [] && b.keyColumns != []
    && ColumnsOk(b, |b.columns|) && KeysOk(b, |b.keyColumns|) && RowsOk(b, |b.rows|)
  }

  /** The error names the first check that fails, in the order the checks run. */
  ghost predicate Explains(b: Batch, e: BatchError) {
    match e
    case NoColumns => b.columns == []
    case NoKeyColumns => b.columns != [] && b.keyColumns == []
    case EmptyTargetType(c) =>
      exists i :: 0 <= i < |b.columns| && ColumnsOk(b, i) && b.columns[i].name == c && !TypeOk(b, i)
    case DuplicateColumn(c) =>
      exists i :: 0 <= i < |b.columns| && ColumnsOk(b, i) && b.columns[i].name == c && TypeOk(b, i) && !NameOk(b, i)
    case MissingKeyColumn(c) =>
      && ColumnsOk(b, |b.columns|)
      && exists i :: 0 <= i < |b.keyColumns| && KeysOk(b, i) && b.keyColumns[i] == c && !Named(b, c)
    case RowWidth(i, expected, actual) =>
      && ColumnsOk(b, |b.columns|) && KeysOk(b, |b.keyColumns|) && i < |b.rows| && RowsOk(b, i)
      && expected == |b.columns| && actual == |b.rows[i].values| && expected != actual
    case EmptyOrderToken(i) =>
      && ColumnsOk(b, |b.columns|) && KeysOk(b, |b.keyColumns|) && i < |b.rows| && RowsOk(b, i)
      && |b.rows[i].values| == |b.columns| && b.rows[i].token == []
    case DuplicateSourceOrdinal(o) =>
      && ColumnsOk(b, |b.columns|) && KeysOk(b, |b.keyColumns|)
      && exists i :: 0 <= i < |b.rows| && RowsOk(b, i) && b.rows[i].ordinal == o && b.rows[i].token != [] && !OrdinalOk(b, i)
    case MissingRowMetadata(_, _) => false
  }

  lemma KeysNamed(b: Batch)
    ensures KeysOk(b, |b.keyColumns|) <==>
            forall i | 0 <= i < |b.keyColumns| :: b.keyColumns[i] in Names(b.columns)
  {
    forall i | 0 <= i < |b.keyColumns| ensures Named(b, b.keyColumns[i]) <==> b.keyColumns[i] in Names(b.columns) {}
  }

  lemma ColumnsSound(b: Batch)
    ensures ColumnsOk(b, |b.columns|) <==>
            && (forall i | 0 <= i < |b.columns| :: !Blank(b.columns[i].targetType))
            && (forall i, j | 0 <= i < j < |b.columns| :: b.columns[i].name != b.columns[j].name)
  {
    if ColumnsOk(b, |b.columns|) {
      forall i | 0 <= i < |b.columns| ensures !Blank(b.columns[i].targetType) { assert TypeOk(b, i); }
      forall i, j | 0 <= i < j < |b.columns| ensures b.columns[i].name != b.columns[j].name { assert NameOk(b, j); }
    }
  }

  lemma RowsSound(b: Batch)
    ensures RowsOk(b, |b.rows|) <==>
            && (forall i | 0 <= i < |b.rows| :: |b.rows[i].values| == |b.columns| && |b.rows[i].token| > 0)
            && (forall i, j | 0 <= i < j < |b.rows| :: b.rows[i].ordinal != b.rows[j].ordinal)
  {
    if RowsOk(b, |b.rows|) {
      forall i | 0 <= i < |b.rows| ensures |b.rows[i].values| == |b.columns| && |b.rows[i].token| > 0 { assert OrdinalOk(b, i); }
      forall i, j | 0 <= i < j < |b.rows| ensures b.rows[i].ordinal != b.rows[j].ordinal { assert OrdinalOk(b, j); }
    }
  }

  /**
    A batch is accepted when it has columns and key columns, every column a type and a name of its own,
    every key column a column, and every row a value per column, an order token and an ordinal of its own.
   */
  lemma AcceptedExactly(b: Batch)
    ensures Accepted(b) <==>
            && |b.columns| > 0 && |b.keyColumns| > 0
            && (forall i | 0 <= i < |b.columns| :: !Blank(b.columns[i].targetType))
            && (forall i, j | 0 <= i < j < |b.columns| :: b.columns[i].name != b.columns[j].name)
            && (forall i | 0 <= i < |b.keyColumns| :: b.keyColumns[i] in Names(b.columns))
            && (forall i | 0 <= i < |b.rows| :: |b.rows[i].values| == |b.columns| && |b.rows[i].token| > 0)
            && (forall i, j | 0 <= i < j < |b.rows| :: b.rows[i].ordinal != b.rows[j].ordinal)
  {
    ColumnsSound(b);
    KeysNamed(b);
    RowsSound(b);
  }

  method Validate(b: Batch) returns (r: Result<(), BatchError>)
    ensures r.Ok? <==> Accepted(b)
    ensures r.Err? ==> Explains(b, r.error)
  {
    if b.columns == [] { return Err(NoColumns); }
    if b.keyColumns == [] { return Err(NoKeyColumns); }
    var names: set<string> := {};
    for i := 0 to |b.columns|
      invariant ColumnsOk(b, i)
      invariant forall s :: s in names <==> exists j :: 0 <= j < i && b.columns[j].name == s
    {
      var column := b.columns[i];
      if Blank(column.targetType) {
        assert !TypeOk(b, i);
        return Err(EmptyTargetType(column.name));
      }
      if column.name in names {
        assert !NameOk(b, i);
        return Err(DuplicateColumn(column.name));
      }
      names := names + {column.name};
    }
    for i := 0 to |b.keyColumns|
      invariant KeysOk(b, i)
    {
      if b.keyColumns[i] !in names {
        assert !Named(b, b.keyColumns[i]);
        return Err(MissingKeyColumn(b.keyColumns[i]));
      }
    }
    var ordinals: set<nat> := {};
    for i := 0 to |b.rows|
      invariant RowsOk(b, i)
      invariant forall o :: o in ordinals <==> exists j :: 0 <= j < i && b.rows[j].ordinal == o
    {
      var row := b.rows[i];
      if |row.values| != |b.columns| { return Err(RowWidth(i, |b.columns|, |row.values|)); }
      if row.token == [] { return Err(EmptyOrderToken(i)); }
      if row.ordinal in ordinals {
        assert !OrdinalOk(b, i);
        return Err(DuplicateSourceOrdinal(row.ordinal));
      }
      ordinals := ordinals + {row.ordinal};
    }
    return Ok(());
  }

  // ---- filling a batch ----

  datatype MutationKind = Snapshot | InsertRow | UpdateRow | DeleteRow

  datatype RowMeta = RowMeta(kind: MutationKind, eventId: seq<Byte>, token: Token)

  /** The row holds record `i` and its metadata; only a delete event is a delete. */
  ghost predicate Carries(row: BatchRow, records: seq<seq<Value>>, meta: seq<RowMeta>, offset: nat, i: int) {
    && 0 <= i < |records| && offset + i < |meta|
    && var m := meta[offset + i];
       && (row.mutation.Delete? <==> m.kind.DeleteRow?) && row.eventId == m.eventId && row.token == m.token
       && row.ordinal == offset + i && row.values == records[i]
  }

  /** Append a record batch with its aligned metadata; rows before the first gap stay appended. */
  method Append(b: Batch, records: seq<seq<Value>>, meta: seq<RowMeta>, offset: nat)
    returns (b': Batch, r: Result<(), BatchError>)
    ensures b'.columns == b.columns && b'.keyColumns == b.keyColumns
    ensures r.Ok? <==> records == [] || offset + |records| <= |meta|
    ensures r.Err? ==> r.error == MissingRowMetadata(if offset < |meta| then |meta| else offset, |meta|)
    ensures var done := if r.Ok? then |records| else r.error.row - offset;
            && |b'.rows| == |b.rows| + done && b'.rows[..|b.rows|] == b.rows
            && (done > 0 ==> offset + done <= |meta|)
            && forall j | |b.rows| <= j < |b'.rows| :: Carries(b'.rows[j], records, meta, offset, j - |b.rows|)
  {
    b' := b;
    for i := 0 to |records|
      invariant i > 0 ==> offset + i <= |meta|
      invariant b'.columns == b.columns && b'.keyColumns == b.keyColumns
      invariant |b'.rows| == |b.rows| + i && b'.rows[..|b.rows|] == b.rows
      invariant forall j | |b.rows| <= j < |b'.rows| :: Carries(b'.rows[j], records, meta, offset, j - |b.rows|)
    {
      if offset + i >= |meta| {
        return b', Err(MissingRowMetadata(offset + i, |meta|));
      }
      var m := meta[offset + i];
      var mutation := match m.kind
        case Snapshot => Upsert
        case InsertRow => Upsert
        case UpdateRow => Upsert
        case DeleteRow => Delete;
      b' := b'.(rows := b'.rows + [BatchRow(mutation, m.eventId, m.token, offset + i, records[i])]);
    }
    r := Ok(());
  }

  /** Every row so far has an ordinal below `offset`, and they ascend. */
  ghost predicate FilledBelow(b: Batch, offset: nat) {
    && (forall i, j | 0 <= i < j < |b.rows| :: b.rows[i].ordinal < b.rows[j].ordinal)
    && forall i | 0 <= i < |b.rows| :: b.rows[i].ordinal < offset
  }

  /** Record batches appended at their running offset keep the ordinals ascending. */
  lemma AppendKeepsAscending(b: Batch, b': Batch, added: nat, offset: nat)
    requires FilledBelow(b, offset)
    requires |b'.rows| == |b.rows| + added && b'.rows[..|b.rows|] == b.rows
    requires forall j | |b.rows| <= j < |b'.rows| :: b'.rows[j].ordinal == offset + (j - |b.rows|)
    ensures FilledBelow(b', offset + added)
  {
    forall i | 0 <= i < |b'.rows|
      ensures b'.rows[i].ordinal == if i < |b.rows| then b.rows[i].ordinal else offset + (i - |b.rows|)
    {
      if i < |b.rows| {
        assert b'.rows[i] == b'.rows[..|b.rows|][i];
      }
    }
  }

  // ---- the staged rows of a batch ----

  function Names(columns: seq<Column>): set<string> {
    set i | 0 <= i < |columns| :: columns[i].name
  }

  function Position(columns: seq<Column>, name: string): (i: nat)
    requires name in Names(columns)
    ensures i < |columns| && columns[i].name == name
    decreases |columns|
  {
    if columns[0].name == name then 0
    else
      assert name in Names(columns[1..]) by {
        var j :| 0 <= j < |columns| && columns[j].name == name;
        assert columns[1..][j - 1].name == name;
      }
      1 + Position(columns[1..], name)
  }

  function CellsOf(columns: seq<Column>, values: seq<Value>): Cells
    requires |columns| == |values|
  {
    map c | c in Names(columns) :: values[Position(columns, c)]
  }

  function Staged(b: Batch): (rows: seq<Row>)
    requires Accepted(b)
  {
    seq(|b.rows|, i requires 0 <= i < |b.rows| =>
      Row(b.rows[i].mutation, CellsOf(b.columns, b.rows[i].values), b.rows[i].token, b.rows[i].ordinal))
  }

  function LayoutOf(b: Batch): Layout {
    Layout(Names(b.columns), b.keyColumns)
  }

  ghost predicate KeysNotNull(b: Batch)
    requires Accepted(b)
  {
    forall i, c | 0 <= i < |b.rows| && c in b.keyColumns && c in Staged(b)[i].cells :: Staged(b)[i].cells[c] != Null
  }

  /** An accepted batch with non-null keys stages rows the apply paths can take. */
  lemma AcceptedStages(b: Batch)
    requires Accepted(b) && KeysNotNull(b)
    ensures LayoutOf(b).Valid() && AllCover(LayoutOf(b), Staged(b)) && DistinctOrdinals(Staged(b))
  {
    forall c | c in b.keyColumns ensures c in Names(b.columns) {
      var i :| 0 <= i < |b.keyColumns| && b.keyColumns[i] == c;
      assert Named(b, b.keyColumns[i]);
    }
    forall i, j | 0 <= i < j < |b.rows| ensures b.rows[i].ordinal != b.rows[j].ordinal {
      assert OrdinalOk(b, j);
    }
  }

  /**
    Any batch that was filled at running offsets and passed `validate`, whose keys
    are not null and whose columns are the target's: the four MERGEs, Redshift's
    six statements and the guarded fallback leave the same target and watermarks.
   */
  lemma EveryPlanAgrees(b: Batch, offset: nat, t: Tables)
    requires Accepted(b) && KeysNotNull(b) && FilledBelow(b, offset) && Inv(LayoutOf(b), t)
    ensures PathsAgree(LayoutOf(b), t, Staged(b))
    ensures var w := WinnersOf(LayoutOf(b), Staged(b));
            ApplyRedshift(LayoutOf(b), t, w) == ApplyMerges(LayoutOf(b), t, w)
  {
    AcceptedStages(b);
    AscendingBatchAgrees(LayoutOf(b), t, Staged(b));
    RedshiftMatchesMerges(LayoutOf(b), t, WinnersOf(LayoutOf(b), Staged(b)));
  }

  // ---- a batch whose ties disagree ----

  /** Two upserts of one key and token, the later one with the lower ordinal and other values. */
  lemma TiesDisagree(layout: Layout, a: Row, b: Row)
    requires KeyOf(layout, a.cells) == KeyOf(layout, b.cells) && a.token == b.token && b.ordinal < a.ordinal
    requires a.mutation.Upsert? && b.mutation.Upsert? && a.cells != b.cells
    ensures !TiesAgree(layout, [a, b])
  {
    var k, rows := KeyOf(layout, a.cells), [a, b];
    assert rows[1..] == [b];
    if Less(a.token, b.token) { Asymmetric(a.token, b.token); }
    assert Best(layout, [b], k) == Some(b) && Earliest(layout, [b], k) == Some(b);
    assert Best(layout, rows, k) == Some(b) && Earliest(layout, rows, k) == Some(a);
  }

  const TIED: Batch := Batch(
    [Column("id", "INT"), Column("v", "INT")], ["id"],
    [BatchRow(Upsert, [], [1], 1, [Signed(0), Signed(1)]), BatchRow(Upsert, [], [1], 0, [Signed(0), Signed(2)])])

  lemma TiedIsAccepted()
    ensures Accepted(TIED)
  {
    var b := TIED;
    assert b.columns[0].name == "id" && |"id"| != |"v"|;
    assert "INT"[0] == 'I' && !IsWhitespace('I');
    assert Named(b, "id");
  }

  /** `validate` accepts a batch whose ties disagree; only the order in which the appender fills it rules it out. */
  lemma AcceptedTiesDisagree()
    ensures Accepted(TIED) && KeysNotNull(TIED) && !TiesAgree(LayoutOf(TIED), Staged(TIED))
  {
    TiedIsAccepted();
    TwoCells(TIED.columns, TIED.rows[0].values);
    TwoCells(TIED.columns, TIED.rows[1].values);
    var rows, layout := Staged(TIED), LayoutOf(TIED);
    assert KeyOf(layout, rows[0].cells) == [Signed(0)] == KeyOf(layout, rows[1].cells);
    assert rows[0].cells["v"] != rows[1].cells["v"];
    TiesDisagree(layout, rows[0], rows[1]);
    assert rows == [rows[0], rows[1]];
  }

  lemma TwoCells(columns: seq<Column>, values: seq<Value>)
    requires |columns| == |values| == 2 && columns[0].name == "id" && columns[1].name == "v"
    ensures CellsOf(columns, values) == map["id" := values[0], "v" := values[1]]
  {
    assert Names(columns) == {columns[0].name, columns[1].name};
    assert "id" != "v" by { assert |"id"| != |"v"|; }
    assert Position(columns, "id") == 0 && Position(columns, "v") == 1;
  }

  // ---- columns the batch does not name ----

  ghost predicate NamesExactly(layout: Layout, rows: seq<Row>, named: set<string>) {
    forall i | 0 <= i < |rows| :: Fits(layout, rows[i]) && rows[i].cells.Keys == named
  }

  ghost predicate AgreeNaming(layout: Layout, named: set<string>, t: Tables, rows: seq<Row>) {
    Inv(layout, t) && NamesExactly(layout, rows, named) && AscendingOrdinals(rows) ==> PathsAgree(layout, t, rows)
  }

  /**
    A batch that names fewer columns than the target has is safe for neither path
    to replace the other: the two agree on every table and batch exactly when the
    batch's columns are all of the target's.
   */
  lemma CoverageIsExact(layout: Layout, named: set<string>)
    requires layout.Valid() && named <= layout.columns && forall c | c in layout.keyColumns :: c in named
    ensures (forall t, rows :: AgreeNaming(layout, named, t, rows)) <==> named == layout.columns
  {
    if named == layout.columns {
      forall t, rows ensures AgreeNaming(layout, named, t, rows) {
        if Inv(layout, t) && NamesExactly(layout, rows, named) && AscendingOrdinals(rows) {
          AscendingBatchAgrees(layout, t, rows);
        }
      }
    } else {
      var missing :| missing in layout.columns && missing !in named;
      UncoveredDiffers(layout, named, missing);
    }
  }

  /** A batch that deletes a key and inserts it again. */
  ghost predicate Reinserts(layout: Layout, del: Row, up: Row) {
    && del.mutation.Delete? && up.mutation.Upsert? && del.cells == up.cells
    && Less(del.token, up.token) && del.ordinal < up.ordinal
  }

  /** `k` is live with a value in column `c`, older than `token`, and has no tombstone. */
  ghost predicate LiveWith(t: Tables, k: Key, c: string, token: Token) {
    && k in t.target && k !in t.tombs && Below(t.target[k].token, token)
    && c in t.target[k].cells && t.target[k].cells[c] != Null
  }

  lemma UncoveredDiffers(layout: Layout, named: set<string>, missing: string)
    requires layout.Valid() && named <= layout.columns && forall c | c in layout.keyColumns :: c in named
    requires missing in layout.columns && missing !in named
    ensures exists t, rows :: !AgreeNaming(layout, named, t, rows)
  {
    var t, del, up := Witness(layout, named, missing);
    ReinsertDiffers(layout, t, del, up, missing);
    assert !AgreeNaming(layout, named, t, [del, up]);
  }

  lemma ReinsertDiffers(layout: Layout, t: Tables, del: Row, up: Row, missing: string)
    requires Reinserts(layout, del, up) && LiveWith(t, KeyOf(layout, up.cells), missing, del.token)
    requires missing in layout.columns && missing !in up.cells
    ensures !PathsAgree(layout, t, [del, up])
  {
    GuardedClears(layout, t, del, up, missing);
    BulkKeeps(layout, t, del, up, missing);
  }

  lemma Witness(layout: Layout, named: set<string>, missing: string) returns (t: Tables, del: Row, up: Row)
    requires layout.Valid() && named <= layout.columns && forall c | c in layout.keyColumns :: c in named
    requires missing in layout.columns && missing !in named
    ensures Inv(layout, t) && Reinserts(layout, del, up) && missing !in up.cells
    ensures NamesExactly(layout, [del, up], named) && LiveWith(t, KeyOf(layout, up.cells), missing, del.token)
  {
    var before: Cells := map c | c in layout.columns :: Signed(0);
    var cells: Cells := map c | c in named :: Signed(0);
    assert KeyOf(layout, before) == KeyOf(layout, cells);
    t := Tables(map[KeyOf(layout, cells) := Stored(before, Some([1]))], map[]);
    del, up := Row(Delete, cells, [2], 0), Row(Upsert, cells, [3], 1);
  }

  /** The guarded path deletes the row and inserts a new one, which clears the unnamed column. */
  lemma GuardedClears(layout: Layout, t: Tables, del: Row, up: Row, missing: string)
    requires Reinserts(layout, del, up) && LiveWith(t, KeyOf(layout, up.cells), missing, del.token)
    requires missing in layout.columns && missing !in up.cells
    ensures var s, k := ApplyRows(layout, t, [del, up]), KeyOf(layout, up.cells);
            k in s.target && missing in s.target[k].cells && s.target[k].cells[missing] == Null
  {
    var t1 := ApplyRow(layout, t, del);
    assert [del, up][1..] == [up];
    assert ApplyRows(layout, t1, [up]) == ApplyRow(layout, t1, up);
  }

  /** The bulk path only sees the upsert win, and its UPDATE leaves the unnamed column alone. */
  lemma BulkKeeps(layout: Layout, t: Tables, del: Row, up: Row, missing: string)
    requires Reinserts(layout, del, up) && LiveWith(t, KeyOf(layout, up.cells), missing, del.token)
    requires missing in layout.columns && missing !in up.cells
    ensures var b, k := ApplyMerges(layout, t, WinnersOf(layout, [del, up])), KeyOf(layout, up.cells);
            k in b.target && missing in b.target[k].cells && b.target[k].cells[missing] == t.target[k].cells[missing]
  {
    var k, rows := KeyOf(layout, up.cells), [del, up];
    assert rows[1..] == [up];
    assert Best(layout, [up], k) == Some(up);
    assert Best(layout, rows, k) == Some(up);
    if t.target[k].token.Some? { Transitive(t.target[k].token.value, del.token, up.token); }
    WinnersFacts(layout, rows);
    MergesAtKey(layout, t, WinnersOf(layout, rows), k);
  }
}
