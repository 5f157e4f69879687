/**
  Packing encoded stage rows into INSERT statements under a row limit and a byte
  limit. A split of the rows is given by its cut points: statement `i` holds
  `rows[cuts[i]..cuts[i + 1]]`.
 */
module StatementPacker {
  import opened Basics
  import opened Texts

  datatype Limits = Limits(maxLoadRows: nat, maxStatementBytes: nat, maxTotalBytes: nat)

  datatype StageError =
    | SingleRowBytes(row: nat, actual: nat, limit: nat)
    | EncodedRowsBytes(row: nat, actual: nat, limit: nat)

  const SEPARATOR: Bytes := [44, 10]  // ",\n"
  const TERMINATOR: Bytes := [59]     // ";"

  /** The statement that loads `chunk`. */
  function Render(prefix: Bytes, chunk: seq<Bytes>): Bytes {
    prefix + Join(chunk, SEPARATOR) + TERMINATOR
  }

  /** `rows[a..b]` is a statement within the limits; a lone row is never split further. */
  ghost predicate Fits(prefix: Bytes, rows: seq<Bytes>, limits: Limits, a: int, b: int) {
    && 0 <= a < b <= |rows|
    && (b - a <= limits.maxLoadRows || b - a == 1)
    && |Render(prefix, rows[a..b])| <= limits.maxStatementBytes
  }

  /** Cut points from 0 to `n`, strictly ascending. */
  ghost predicate IsSplit(cuts: seq<nat>, n: nat) {
    && cuts != [] && cuts[0] == 0 && cuts[|cuts| - 1] == n
    && forall i, j | 0 <= i < j < |cuts| :: cuts[i] < cuts[j]
  }

  ghost predicate ChunkFits(prefix: Bytes, rows: seq<Bytes>, limits: Limits, cuts: seq<nat>, i: nat)
    requires i + 1 < |cuts|
  {
    Fits(prefix, rows, limits, cuts[i], cuts[i + 1])
  }

  ghost predicate ChunkFull(prefix: Bytes, rows: seq<Bytes>, limits: Limits, cuts: seq<nat>, i: nat)
    requires i + 1 < |cuts|
  {
    !Fits(prefix, rows, limits, cuts[i], cuts[i + 1] + 1)
  }

  ghost predicate AllFit(prefix: Bytes, rows: seq<Bytes>, limits: Limits, cuts: seq<nat>) {
    forall i | 0 <= i < |cuts| - 1 :: ChunkFits(prefix, rows, limits, cuts, i)
  }

  /** No statement but the last could have taken one more row. */
  ghost predicate Full(prefix: Bytes, rows: seq<Bytes>, limits: Limits, cuts: seq<nat>) {
    forall i | 0 <= i < |cuts| - 2 :: ChunkFull(prefix, rows, limits, cuts, i)
  }

  // ---- statement sizes ----

  lemma JoinOneMore(rows: seq<Bytes>, a: nat, b: nat)
    requires a <= b < |rows|
    ensures |Join(rows[a..b + 1], SEPARATOR)| == |Join(rows[a..b], SEPARATOR)| + |rows[b]| + (if a == b then 0 else 2)
  {
    var chunk := rows[a..b + 1];
    assert chunk[..|chunk| - 1] == rows[a..b];
  }

  /** Rows that others follow: each with a comma and a line break behind it. */
  function Lead(rows: seq<Bytes>): Bytes {
    if rows == [] then [] else Lead(rows[..|rows| - 1]) + (rows[|rows| - 1] + [44, 10])
  }

  /** Rows that follow another: each with a comma and a line break in front of it. */
  function Trail(rows: seq<Bytes>): Bytes {
    if rows == [] then [] else Trail(rows[..|rows| - 1]) + ([44, 10] + rows[|rows| - 1])
  }

  lemma FourParts(a: Bytes, b: Bytes, c: Bytes, d: Bytes)
    ensures ((a + b) + c) + d == a + (b + (c + d))
    ensures (a + (b + c)) + d == a + (b + (c + d))
    ensures (a + b) + (c + d) == a + (b + (c + d))
  {
  }

  lemma {:induction false} JoinLead(front: seq<Bytes>, row: Bytes)
    ensures Join(front + [row], SEPARATOR) == Lead(front) + row
    decreases |front|
  {
    if front == [] {
      assert front + [row] == [row];
    } else {
      var n := |front| - 1;
      JoinLast(front, SEPARATOR, row);
      assert front == front[..n] + [front[n]];
      JoinLead(front[..n], front[n]);
      FourParts(Lead(front[..n]), front[n], SEPARATOR, row);
    }
  }

  lemma {:induction false} JoinTrail(front: seq<Bytes>, row: Bytes, back: seq<Bytes>)
    ensures Join(front + [row] + back, SEPARATOR) == (Lead(front) + row) + Trail(back)
    decreases |back|
  {
    if back == [] {
      assert front + [row] + back == front + [row];
      JoinLead(front, row);
    } else {
      var n := |back| - 1;
      var most := front + [row] + back[..n];
      assert front + [row] + back == most + [back[n]];
      JoinLast(most, SEPARATOR, back[n]);
      JoinTrail(front, row, back[..n]);
      FourParts(Lead(front) + row, Trail(back[..n]), SEPARATOR, back[n]);
    }
  }

  /**
    A statement is the prefix, then its rows in order with a comma and a line break between two of them,
    then a semicolon: here is what stands before and after any one row.
   */
  lemma RenderedRows(prefix: Bytes, front: seq<Bytes>, row: Bytes, back: seq<Bytes>)
    ensures Render(prefix, front + [row] + back) == prefix + (Lead(front) + row + Trail(back)) + [59]
  {
    JoinTrail(front, row, back);
  }

  /** A slice of a slice joins to no more bytes. */
  lemma {:induction false} JoinMonotone(rows: seq<Bytes>, a: nat, b: nat, c: nat, d: nat)
    requires a <= b <= c <= d <= |rows|
    ensures |Join(rows[b..c], SEPARATOR)| <= |Join(rows[a..d], SEPARATOR)|
    decreases d - a
  {
    if c < d {
      JoinOneMore(rows, a, d - 1);
      JoinMonotone(rows, a, b, c, d - 1);
    } else if a < b {
      if b == d {
        assert rows[b..c] == [];
      } else {
        JoinOneMore(rows, a, d - 1);
        JoinOneMore(rows, b, d - 1);
        JoinMonotone(rows, a, b, d - 1, d - 1);
      }
    }
  }

  /** Any part of a statement within the limits is within the limits. */
  lemma FitsInside(prefix: Bytes, rows: seq<Bytes>, limits: Limits, a: nat, b: nat, c: nat, d: nat)
    requires a <= b < c <= d && Fits(prefix, rows, limits, a, d)
    ensures Fits(prefix, rows, limits, b, c)
  {
    JoinMonotone(rows, a, b, c, d);
  }

  // ---- greedy packing is optimal ----

  /** After the same number of statements, a full split is never behind another split. */
  lemma {:induction false} FullStaysAhead(
      prefix: Bytes, rows: seq<Bytes>, limits: Limits, cuts: seq<nat>, other: seq<nat>, i: nat)
    requires IsSplit(cuts, |rows|) && Full(prefix, rows, limits, cuts)
    requires IsSplit(other, |rows|) && AllFit(prefix, rows, limits, other)
    requires i < |cuts| && i < |other|
    ensures other[i] <= cuts[i]
    decreases i
  {
    if i > 0 {
      FullStaysAhead(prefix, rows, limits, cuts, other, i - 1);
      if cuts[i] < other[i] {
        assert cuts[i] < |rows| && i < |cuts| - 1 by {
          assert i < |other| - 1 ==> other[i] < other[|other| - 1];
        }
        assert ChunkFits(prefix, rows, limits, other, i - 1);
        assert cuts[i - 1] < cuts[i];
        assert ChunkFull(prefix, rows, limits, cuts, i - 1);
        FitsInside(prefix, rows, limits, other[i - 1], cuts[i - 1], cuts[i] + 1, other[i]);
      }
    }
  }

  /** No order-preserving split within the limits uses fewer statements than a full one. */
  lemma FullIsOptimal(prefix: Bytes, rows: seq<Bytes>, limits: Limits, cuts: seq<nat>, other: seq<nat>)
    requires IsSplit(cuts, |rows|) && Full(prefix, rows, limits, cuts)
    requires IsSplit(other, |rows|) && AllFit(prefix, rows, limits, other)
    ensures |cuts| <= |other|
  {
    if |other| < |cuts| {
      assert cuts[|other| - 1] < cuts[|cuts| - 1];
      FullStaysAhead(prefix, rows, limits, cuts, other, |other| - 1);
    }
  }

  ghost predicate RowFits(prefix: Bytes, rows: seq<Bytes>, limits: Limits, i: nat)
    requires i < |rows|
  {
    |rows[i]| + |prefix| + 1 <= limits.maxStatementBytes && |Join(rows[..i + 1], SEPARATOR)| <= limits.maxTotalBytes
  }

  /** Refuse a batch with a row too long for any statement or too many bytes in all. */
  method CheckRows(prefix: Bytes, rows: seq<Bytes>, limits: Limits) returns (r: Result<(), StageError>)
    ensures r.Ok? <==> forall i | 0 <= i < |rows| :: RowFits(prefix, rows, limits, i)
    ensures r.Err? ==>
              && r.error.row < |rows| && !RowFits(prefix, rows, limits, r.error.row)
              && (forall i | 0 <= i < r.error.row :: RowFits(prefix, rows, limits, i))
              && match r.error
                 case SingleRowBytes(i, actual, limit) =>
                   actual == |Render(prefix, rows[i..i + 1])| && limit == limits.maxStatementBytes < actual
                 case EncodedRowsBytes(i, actual, limit) =>
                   actual == |Join(rows[..i + 1], SEPARATOR)| && limit == limits.maxTotalBytes < actual
  {
    var encoded := 0;
    for i := 0 to |rows|
      invariant encoded == |Join(rows[..i], SEPARATOR)|
      invariant forall j | 0 <= j < i :: RowFits(prefix, rows, limits, j)
    {
      var statementBytes := |rows[i]| + |prefix| + 1;
      assert |Render(prefix, rows[i..i + 1])| == statementBytes;
      JoinOneMore(rows, 0, i);
      assert rows[0..i + 1] == rows[..i + 1] && rows[0..i] == rows[..i];
      if statementBytes > limits.maxStatementBytes {
        assert !RowFits(prefix, rows, limits, i);
        return Err(SingleRowBytes(i, statementBytes, limits.maxStatementBytes));
      }
      encoded := encoded + |rows[i]| + (if i > 0 then 2 else 0);
      if encoded > limits.maxTotalBytes {
        assert !RowFits(prefix, rows, limits, i);
        return Err(EncodedRowsBytes(i, encoded, limits.maxTotalBytes));
      }
    }
    r := Ok(());
  }

  // ---- the packing loop ----

  /** `statements` are the closed chunks of a full split of `rows[..cuts.last]`. */
  ghost predicate Packed(prefix: Bytes, rows: seq<Bytes>, limits: Limits, statements: seq<Bytes>, cuts: seq<nat>) {
    && cuts != [] && IsSplit(cuts, cuts[|cuts| - 1])
    && AllFit(prefix, rows, limits, cuts) && Full(prefix, rows, limits, cuts)
    && |statements| == |cuts| - 1
    && forall i | 0 <= i < |statements| :: Holds(prefix, rows, statements, cuts, i)
  }

  /** Statement `i` is exactly the load of the rows between its cuts. */
  ghost predicate Holds(prefix: Bytes, rows: seq<Bytes>, statements: seq<Bytes>, cuts: seq<nat>, i: nat)
    requires i < |statements| && i + 1 < |cuts|
  {
    cuts[i] <= cuts[i + 1] <= |rows| && statements[i] == Render(prefix, rows[cuts[i]..cuts[i + 1]])
  }

  /** The last closed statement could not have taken the row after it. */
  ghost predicate LastFull(prefix: Bytes, rows: seq<Bytes>, limits: Limits, cuts: seq<nat>) {
    |cuts| >= 2 ==> ChunkFull(prefix, rows, limits, cuts, |cuts| - 2)
  }

  lemma CloseChunk(prefix: Bytes, rows: seq<Bytes>, limits: Limits, statements: seq<Bytes>, cuts: seq<nat>, i: nat)
    requires Packed(prefix, rows, limits, statements, cuts) && LastFull(prefix, rows, limits, cuts)
    requires Fits(prefix, rows, limits, cuts[|cuts| - 1], i)
    ensures Packed(prefix, rows, limits, statements + [Render(prefix, rows[cuts[|cuts| - 1]..i])], cuts + [i])
  {
    var cuts', start := cuts + [i], cuts[|cuts| - 1];
    var statements' := statements + [Render(prefix, rows[start..i])];
    forall a, b | 0 <= a < b < |cuts'| ensures cuts'[a] < cuts'[b] {
      if b == |cuts| && a < |cuts| - 1 { assert cuts[a] < start; }
    }
    forall j | 0 <= j < |cuts'| - 1 ensures ChunkFits(prefix, rows, limits, cuts', j) {
      if j < |cuts| - 1 { assert ChunkFits(prefix, rows, limits, cuts, j); }
    }
    forall j | 0 <= j < |cuts'| - 2 ensures ChunkFull(prefix, rows, limits, cuts', j) {
      if j < |cuts| - 2 { assert ChunkFull(prefix, rows, limits, cuts, j); }
    }
    forall j | 0 <= j < |statements'| ensures Holds(prefix, rows, statements', cuts', j) {
      if j < |statements| { assert Holds(prefix, rows, statements, cuts, j); }
    }
  }

  /** When the open chunk `rows[a..i]` may take row `i`, and how many bytes it then has. */
  lemma TakeRow(prefix: Bytes, rows: seq<Bytes>, limits: Limits, a: nat, i: nat)
    requires a <= i < |rows| && RowFits(prefix, rows, limits, i)
    ensures |Render(prefix, rows[a..i + 1])| == |Render(prefix, rows[a..i])| + |rows[i]| + (if a == i then 0 else 2)
    ensures Fits(prefix, rows, limits, a, i + 1) <==>
            a == i || (i - a < limits.maxLoadRows
                       && |Render(prefix, rows[a..i])| + |rows[i]| + 2 <= limits.maxStatementBytes)
  {
    JoinOneMore(rows, a, i);
  }

  /** Between two rows: the closed statements, and an open chunk that may still take row `i`. */
  ghost predicate Open(prefix: Bytes, rows: seq<Bytes>, limits: Limits, statements: seq<Bytes>, cuts: seq<nat>, i: nat) {
    && Packed(prefix, rows, limits, statements, cuts)
    && cuts[|cuts| - 1] <= i <= |rows|
    && (i > 0 ==> Fits(prefix, rows, limits, cuts[|cuts| - 1], i) && LastFull(prefix, rows, limits, cuts))
    && (i == 0 ==> |cuts| == 1)
  }

  /** The loop's test, as it reads the open chunk and its byte count. */
  predicate MustClose(limits: Limits, chunk: seq<Bytes>, chunkBytes: nat, row: Bytes) {
    chunk != [] && (|chunk| >= limits.maxLoadRows || chunkBytes + |row| + 2 > limits.maxStatementBytes)
  }

  /** The test closes the chunk exactly when the row no longer fits. */
  lemma NextRow(prefix: Bytes, rows: seq<Bytes>, limits: Limits, statements: seq<Bytes>, cuts: seq<nat>, i: nat)
    requires Open(prefix, rows, limits, statements, cuts, i) && i < |rows| && RowFits(prefix, rows, limits, i)
    ensures var chunk := rows[cuts[|cuts| - 1]..i];
            if MustClose(limits, chunk, |Render(prefix, chunk)|, rows[i])
            then Open(prefix, rows, limits, statements + [Render(prefix, chunk)], cuts + [i], i + 1)
            else Open(prefix, rows, limits, statements, cuts, i + 1)
  {
    var start := cuts[|cuts| - 1];
    TakeRow(prefix, rows, limits, start, i);
    TakeRow(prefix, rows, limits, i, i);
    if start < i && !Fits(prefix, rows, limits, start, i + 1) { CloseChunk(prefix, rows, limits, statements, cuts, i); }
  }

  lemma NoShorterSplit(prefix: Bytes, rows: seq<Bytes>, limits: Limits, statements: seq<Bytes>, cuts: seq<nat>)
    requires Packed(prefix, rows, limits, statements, cuts) && cuts[|cuts| - 1] == |rows|
    ensures forall other | IsSplit(other, |rows|) && AllFit(prefix, rows, limits, other) :: |cuts| <= |other|
  {
    forall other | IsSplit(other, |rows|) && AllFit(prefix, rows, limits, other) ensures |cuts| <= |other| {
      FullIsOptimal(prefix, rows, limits, cuts, other);
    }
  }

  lemma ChunkGrows(prefix: Bytes, rows: seq<Bytes>, a: nat, i: nat)
    requires a <= i < |rows|
    ensures rows[a..i] + [rows[i]] == rows[a..i + 1]
    ensures |Render(prefix, rows[a..i + 1])| == |Render(prefix, rows[a..i])| + |rows[i]| + (if a == i then 0 else 2)
  {
    JoinOneMore(rows, a, i);
  }

  /** The loop body: close the open chunk if row `i` does not fit, and take the row. */
  method TakeNext(prefix: Bytes, rows: seq<Bytes>, limits: Limits, i: nat,
                  statements: seq<Bytes>, chunk: seq<Bytes>, chunkBytes: nat, ghost cuts: seq<nat>)
    returns (statements': seq<Bytes>, chunk': seq<Bytes>, chunkBytes': nat, ghost cuts': seq<nat>)
    requires i < |rows| && RowFits(prefix, rows, limits, i) && Open(prefix, rows, limits, statements, cuts, i)
    requires chunk == rows[cuts[|cuts| - 1]..i] && chunkBytes == |Render(prefix, chunk)|
    ensures Open(prefix, rows, limits, statements', cuts', i + 1)
    ensures chunk' == rows[cuts'[|cuts'| - 1]..i + 1] && chunkBytes' == |Render(prefix, chunk')|
  {
    NextRow(prefix, rows, limits, statements, cuts, i);
    if MustClose(limits, chunk, chunkBytes, rows[i]) {
      ChunkGrows(prefix, rows, i, i);
      statements', cuts' := statements + [Render(prefix, chunk)], cuts + [i];
      chunk', chunkBytes' := [], |prefix| + 1;
    } else {
      ChunkGrows(prefix, rows, cuts[|cuts| - 1], i);
      statements', cuts', chunk', chunkBytes' := statements, cuts, chunk, chunkBytes;
    }
    chunkBytes' := chunkBytes' + |rows[i]| + (if chunk' != [] then 2 else 0);
    chunk' := chunk' + [rows[i]];
  }

  /** The loop: closed statements, and the last chunk still open. */
  method PackChunks(prefix: Bytes, rows: seq<Bytes>, limits: Limits)
    returns (statements: seq<Bytes>, chunk: seq<Bytes>, ghost cuts: seq<nat>)
    requires forall i | 0 <= i < |rows| :: RowFits(prefix, rows, limits, i)
    ensures Open(prefix, rows, limits, statements, cuts, |rows|) && chunk == rows[cuts[|cuts| - 1]..|rows|]
  {
    statements, cuts := [], [0];
    chunk := [];
    var chunkBytes := |prefix| + 1;
    for i := 0 to |rows|
      invariant Open(prefix, rows, limits, statements, cuts, i)
      invariant chunk == rows[cuts[|cuts| - 1]..i] && chunkBytes == |Render(prefix, chunk)|
    {
      statements, chunk, chunkBytes, cuts := TakeNext(prefix, rows, limits, i, statements, chunk, chunkBytes, cuts);
    }
  }

  /** The statements load every row once and in order, each within the limits. */
  ghost predicate Loads(prefix: Bytes, rows: seq<Bytes>, limits: Limits, statements: seq<Bytes>, cuts: seq<nat>) {
    && IsSplit(cuts, |rows|) && AllFit(prefix, rows, limits, cuts) && |statements| == |cuts| - 1
    && forall i | 0 <= i < |statements| :: Holds(prefix, rows, statements, cuts, i)
  }

  /** The packed statements load the rows, and no other order-preserving split within the limits needs fewer. */
  method PackRows(prefix: Bytes, rows: seq<Bytes>, limits: Limits) returns (statements: seq<Bytes>)
    requires forall i | 0 <= i < |rows| :: RowFits(prefix, rows, limits, i)
    ensures exists cuts :: Loads(prefix, rows, limits, statements, cuts)
    ensures forall i | 0 <= i < |statements| :: |statements[i]| <= limits.maxStatementBytes
    ensures forall other | IsSplit(other, |rows|) && AllFit(prefix, rows, limits, other) :: |statements| <= |other| - 1
  {
    var chunk: seq<Bytes>;
    ghost var cuts: seq<nat>;
    statements, chunk, cuts := PackChunks(prefix, rows, limits);
    if chunk != [] {
      CloseChunk(prefix, rows, limits, statements, cuts, |rows|);
      statements := statements + [Render(prefix, chunk)];
      cuts := cuts + [|rows|];
    }
    NoShorterSplit(prefix, rows, limits, statements, cuts);
    assert Loads(prefix, rows, limits, statements, cuts);
    forall i | 0 <= i < |statements| ensures |statements[i]| <= limits.maxStatementBytes {
      assert Holds(prefix, rows, statements, cuts, i) && ChunkFits(prefix, rows, limits, cuts, i);
    }
  }
}
