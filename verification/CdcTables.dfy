/**
  The two tables a CDC sink keeps, and the guarded row-at-a-time path over them.
  Each function named after a statement is the meaning of that SQL statement: it
  takes the tables before it and gives the tables after it.
 */
module CdcTables {
  import opened Basics
  import opened OrderTokens

  datatype Value =
    | Null
    | Boolean(flag: bool)
    | Signed(int)
    | Unsigned(nat)
    | Float(text: string)
    | Text(text: string)
    | Binary(bytes: seq<Byte>)
    | Date(text: string)
    | Timestamp(text: string)

  /** One table row's values by column name. */
  type Cells = map<string, Value>

  /** The values of the business-key columns, in their declared order. */
  type Key = seq<Value>

  datatype Mutation = Upsert | Delete

  /** The target table's columns (without the order token) and its business key. */
  datatype Layout = Layout(columns: set<string>, keyColumns: seq<string>) {
    predicate Valid() {
      keyColumns != [] && forall c | c in keyColumns :: c in columns
    }
  }

  /** A CDC row: a mutation, the values it carries, its order token and its stage ordinal. */
  datatype Row = Row(mutation: Mutation, cells: Cells, token: Token, ordinal: nat)

  datatype Stored = Stored(cells: Cells, token: Option<Token>)

  datatype Tables = Tables(target: map<Key, Stored>, tombs: map<Key, Token>)

  function Cell(cells: Cells, column: string): Value {
    if column in cells then cells[column] else Null
  }

  function KeyOf(layout: Layout, cells: Cells): Key {
    seq(|layout.keyColumns|, i requires 0 <= i < |layout.keyColumns| => Cell(cells, layout.keyColumns[i]))
  }

  /** The row names existing columns only and has no NULL in its key. */
  predicate Fits(layout: Layout, row: Row) {
    && row.cells.Keys <= layout.columns
    && forall c | c in layout.keyColumns :: c in row.cells && row.cells[c] != Null
  }

  /** The row names every column of the table. */
  predicate Covers(layout: Layout, row: Row) {
    Fits(layout, row) && row.cells.Keys == layout.columns
  }

  // ---- what an UPDATE SET and an INSERT leave in the target row ----

  /** UPDATE SET of every non-key column the row names; the rest of the stored row stays. */
  function Updated(layout: Layout, stored: Cells, row: Row): Cells {
    map c | c in layout.columns ::
      if c in row.cells && c !in layout.keyColumns then row.cells[c] else Cell(stored, c)
  }

  /** INSERT of the columns the row names; the rest of the new row is NULL. */
  function Inserted(layout: Layout, row: Row): Cells {
    map c | c in layout.columns :: Cell(row.cells, c)
  }

  // ---- the statements of the row-at-a-time path ----

  /** MERGE of one upsert whose source is empty when a tombstone is at least as new. */
  function GuardedUpsert(layout: Layout, t: Tables, row: Row): Tables {
    var k := KeyOf(layout, row.cells);
    if k in t.tombs && !Less(t.tombs[k], row.token) then t
    else if k !in t.target then
      t.(target := t.target[k := Stored(Inserted(layout, row), Some(row.token))])
    else if Below(t.target[k].token, row.token) then
      t.(target := t.target[k := Stored(Updated(layout, t.target[k].cells, row), Some(row.token))])
    else t
  }

  /** DELETE of the key's tombstone when it is older than the row. */
  function ClearTombstone(layout: Layout, t: Tables, row: Row): Tables {
    var k := KeyOf(layout, row.cells);
    if k in t.tombs && Less(t.tombs[k], row.token) then t.(tombs := t.tombs - {k}) else t
  }

  /** DELETE of the key's target row when it has no token or an older one. */
  function GuardedDelete(layout: Layout, t: Tables, row: Row): Tables {
    var k := KeyOf(layout, row.cells);
    if k in t.target && Below(t.target[k].token, row.token) then t.(target := t.target - {k}) else t
  }

  /** MERGE that inserts the key's tombstone or advances an older one. */
  function AdvanceTombstone(layout: Layout, t: Tables, row: Row): Tables {
    var k := KeyOf(layout, row.cells);
    if k !in t.tombs || Less(t.tombs[k], row.token) then t.(tombs := t.tombs[k := row.token]) else t
  }

  /** One guarded row transaction. */
  function ApplyRow(layout: Layout, t: Tables, row: Row): Tables {
    if row.mutation.Upsert?
    then ClearTombstone(layout, GuardedUpsert(layout, t, row), row)
    else AdvanceTombstone(layout, GuardedDelete(layout, t, row), row)
  }

  /** The guarded path over a batch: one transaction per row, in row order. */
  function ApplyRows(layout: Layout, t: Tables, rows: seq<Row>): Tables
    decreases |rows|
  {
    if rows == [] then t else ApplyRows(layout, ApplyRow(layout, t, rows[0]), rows[1..])
  }

  // ---- the invariant of reachable tables ----

  /** A target row is stored under its own key with all columns present. */
  ghost predicate WellKeyed(layout: Layout, t: Tables) {
    forall k | k in t.target ::
      t.target[k].cells.Keys == layout.columns && KeyOf(layout, t.target[k].cells) == k
  }

  /** A tombstone beside a live row is never newer than it, and a row without a token has none. */
  ghost predicate TombstonesBehind(t: Tables) {
    forall k | k in t.target && k in t.tombs ::
      t.target[k].token.Some? && !Less(t.target[k].token.value, t.tombs[k])
  }

  ghost predicate Inv(layout: Layout, t: Tables) {
    WellKeyed(layout, t) && TombstonesBehind(t)
  }

  // ---- the register each key implements ----

  /** What the tables hold for one key: the live values, and the newest token seen. */
  datatype Register = Register(content: Option<Cells>, mark: Option<Token>)

  function Watermark(t: Tables, k: Key): Option<Token> {
    Later(if k in t.target then t.target[k].token else None, if k in t.tombs then Some(t.tombs[k]) else None)
  }

  function RegisterAt(t: Tables, k: Key): Register {
    Register(if k in t.target then Some(t.target[k].cells) else None, Watermark(t, k))
  }

  /** Last writer wins: only a strictly newer token changes the register. */
  function Write(reg: Register, row: Row): Register {
    if Below(reg.mark, row.token)
    then Register(if row.mutation.Upsert? then Some(row.cells) else None, Some(row.token))
    else reg
  }

  function WriteAll(layout: Layout, k: Key, reg: Register, rows: seq<Row>): Register
    decreases |rows|
  {
    if rows == [] then reg
    else WriteAll(layout, k, if KeyOf(layout, rows[0].cells) == k then Write(reg, rows[0]) else reg, rows[1..])
  }

  // ---- a row that names every column leaves exactly its own values ----

  lemma CoveringWrites(layout: Layout, stored: Cells, row: Row)
    requires layout.Valid() && Covers(layout, row)
    ensures Inserted(layout, row) == row.cells
    ensures stored.Keys == layout.columns && KeyOf(layout, stored) == KeyOf(layout, row.cells)
            ==> Updated(layout, stored, row) == row.cells
  {
    if stored.Keys == layout.columns && KeyOf(layout, stored) == KeyOf(layout, row.cells) {
      forall c | c in layout.columns
        ensures Updated(layout, stored, row)[c] == row.cells[c]
      {
        if c in layout.keyColumns {
          var i :| 0 <= i < |layout.keyColumns| && layout.keyColumns[i] == c;
          assert KeyOf(layout, stored)[i] == KeyOf(layout, row.cells)[i];
        }
      }
    }
  }

  /** A stored row keeps its key under UPDATE, whatever columns the row names. */
  lemma UpdateKeepsKey(layout: Layout, stored: Cells, row: Row)
    requires stored.Keys == layout.columns && layout.Valid()
    ensures KeyOf(layout, Updated(layout, stored, row)) == KeyOf(layout, stored)
    ensures KeyOf(layout, Inserted(layout, row)) == KeyOf(layout, row.cells)
  {
    forall i | 0 <= i < |layout.keyColumns|
      ensures KeyOf(layout, Updated(layout, stored, row))[i] == KeyOf(layout, stored)[i]
      ensures KeyOf(layout, Inserted(layout, row))[i] == KeyOf(layout, row.cells)[i]
    {
      assert layout.keyColumns[i] in layout.columns;
    }
  }

  lemma UpsertKeepsKeys(layout: Layout, t: Tables, row: Row)
    requires layout.Valid() && WellKeyed(layout, t)
    ensures WellKeyed(layout, GuardedUpsert(layout, t, row))
  {
    var k := KeyOf(layout, row.cells);
    if k in t.target { UpdateKeepsKey(layout, t.target[k].cells, row); }
    UpdateKeepsKey(layout, Inserted(layout, row), row);
  }

  lemma ApplyRowKeepsKeys(layout: Layout, t: Tables, row: Row)
    requires layout.Valid() && WellKeyed(layout, t)
    ensures WellKeyed(layout, ApplyRow(layout, t, row))
  {
    UpsertKeepsKeys(layout, t, row);
  }

  lemma ApplyRowKeepsBehind(layout: Layout, t: Tables, row: Row)
    requires TombstonesBehind(t)
    ensures TombstonesBehind(ApplyRow(layout, t, row))
  {
    var k := KeyOf(layout, row.cells);
    if k in t.tombs {
      Trichotomy(t.tombs[k], row.token);
      if Less(t.tombs[k], row.token) { Asymmetric(t.tombs[k], row.token); }
    }
  }

  /** Every guarded row keeps the invariant, covering or not. */
  lemma ApplyRowKeepsInv(layout: Layout, t: Tables, row: Row)
    requires layout.Valid() && Inv(layout, t)
    ensures Inv(layout, ApplyRow(layout, t, row))
  {
    ApplyRowKeepsKeys(layout, t, row);
    ApplyRowKeepsBehind(layout, t, row);
  }

  lemma UpsertWrites(layout: Layout, t: Tables, row: Row)
    requires layout.Valid() && Inv(layout, t) && Covers(layout, row) && row.mutation.Upsert?
    ensures var k := KeyOf(layout, row.cells);
            RegisterAt(ApplyRow(layout, t, row), k) == Write(RegisterAt(t, k), row)
  {
    var k := KeyOf(layout, row.cells);
    if k in t.target { CoveringWrites(layout, t.target[k].cells, row); }
    CoveringWrites(layout, row.cells, row);
    OrderAt(t, k, row.token);
  }

  lemma DeleteWrites(layout: Layout, t: Tables, row: Row)
    requires TombstonesBehind(t) && row.mutation.Delete?
    ensures var k := KeyOf(layout, row.cells);
            RegisterAt(ApplyRow(layout, t, row), k) == Write(RegisterAt(t, k), row)
  {
    OrderAt(t, KeyOf(layout, row.cells), row.token);
  }

  /** One guarded row is one register write at its key and nothing at any other. */
  lemma ApplyRowWrites(layout: Layout, t: Tables, row: Row, k: Key)
    requires layout.Valid() && Inv(layout, t) && Covers(layout, row)
    ensures RegisterAt(ApplyRow(layout, t, row), k)
            == if KeyOf(layout, row.cells) == k then Write(RegisterAt(t, k), row) else RegisterAt(t, k)
  {
    if KeyOf(layout, row.cells) == k {
      if row.mutation.Upsert? { UpsertWrites(layout, t, row); } else { DeleteWrites(layout, t, row); }
    }
  }

  /** The order facts one row needs about the tokens stored at a key. */
  lemma OrderAt(t: Tables, k: Key, token: Token)
    ensures k in t.tombs ==> Less(t.tombs[k], token) || t.tombs[k] == token || Less(token, t.tombs[k])
    ensures k in t.tombs && Less(t.tombs[k], token) ==> !Less(token, t.tombs[k]) && t.tombs[k] != token
    ensures k in t.tombs && k in t.target && t.target[k].token.Some? && !Less(t.target[k].token.value, t.tombs[k])
            ==> (Less(t.target[k].token.value, token) ==> Less(t.tombs[k], token))
  {
    if k in t.tombs {
      Trichotomy(t.tombs[k], token);
      if Less(t.tombs[k], token) { Asymmetric(t.tombs[k], token); }
      if k in t.target && t.target[k].token.Some? && !Less(t.target[k].token.value, t.tombs[k]) {
        Trichotomy(t.target[k].token.value, t.tombs[k]);
        if Less(t.target[k].token.value, token) && Less(t.tombs[k], t.target[k].token.value) {
          Transitive(t.tombs[k], t.target[k].token.value, token);
        }
      }
    }
  }
}
