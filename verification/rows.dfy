/** Tables as lists of rows: what a query answers on a list, and the rows a
    batch or a row group stands for. */
module Rows {
  import opened Words
  import opened Storage
  import opened MemTables

  predicate Matches(names: seq<Str>, row: Row, preds: seq<Predicate>) {
    |names| == |row| && SatisfiesAll(names, row, preds)
  }

  function MatchCount(names: seq<Str>, rows: seq<Row>, preds: seq<Predicate>): nat {
    if rows == [] then 0
    else MatchCount(names, rows[..|rows| - 1], preds) + if Matches(names, rows[|rows| - 1], preds) then 1 else 0
  }

  function MatchSum(names: seq<Str>, rows: seq<Row>, preds: seq<Predicate>, agg: Str): int {
    if rows == [] then 0
    else MatchSum(names, rows[..|rows| - 1], preds, agg)
         + if Matches(names, rows[|rows| - 1], preds) then Contribution(names, rows[|rows| - 1], agg) else 0
  }

  lemma {:induction false} MatchAppend(names: seq<Str>, x: seq<Row>, y: seq<Row>, preds: seq<Predicate>, agg: Str)
    ensures MatchCount(names, x + y, preds) == MatchCount(names, x, preds) + MatchCount(names, y, preds)
    ensures MatchSum(names, x + y, preds, agg) == MatchSum(names, x, preds, agg) + MatchSum(names, y, preds, agg)
  {
    hide Matches, Contribution;
    if y == [] {
      assert x + y == x;
    } else {
      MatchAppend(names, x, y[..|y| - 1], preds, agg);
      assert (x + y)[..|x + y| - 1] == x + y[..|y| - 1];
    }
  }

  /** The first n rows of a batch that are marked alive. */
  function Kept(batch: Batch, alive: seq<bool>, n: nat): seq<Row>
    requires batch.Valid() && n <= batch.numRows && n <= |alive|
  {
    if n == 0 then [] else Kept(batch, alive, n - 1) + if alive[n - 1] then [RowAt(batch, n - 1)] else []
  }

  function RowsTo(batch: Batch, n: nat): (rows: seq<Row>)
    requires batch.Valid() && n <= batch.numRows
    ensures |rows| == n
  {
    if n == 0 then [] else RowsTo(batch, n - 1) + [RowAt(batch, n - 1)]
  }

  /** All rows of a batch, in order. */
  function RowsOf(batch: Batch): seq<Row>
    requires batch.Valid()
  {
    RowsTo(batch, batch.numRows)
  }

  lemma {:induction false} KeptAll(batch: Batch, alive: seq<bool>, n: nat)
    requires batch.Valid() && n <= batch.numRows && n <= |alive|
    requires forall r :: 0 <= r < n ==> alive[r]
    ensures Kept(batch, alive, n) == RowsTo(batch, n)
  {
    hide RowAt;
    if n > 0 { KeptAll(batch, alive, n - 1); }
  }

  lemma {:induction false} KeptStep(batch: Batch, alive: seq<bool>, n: nat, preds: seq<Predicate>, agg: Str)
    requires batch.Valid() && n < batch.numRows && n < |alive|
    ensures var row, pass := RowAt(batch, n), alive[n] && Matches(batch.names, RowAt(batch, n), preds);
            && MatchCount(batch.names, Kept(batch, alive, n + 1), preds)
               == MatchCount(batch.names, Kept(batch, alive, n), preds) + (if pass then 1 else 0)
            && MatchSum(batch.names, Kept(batch, alive, n + 1), preds, agg)
               == MatchSum(batch.names, Kept(batch, alive, n), preds, agg) + (if pass then Contribution(batch.names, row, agg) else 0)
  {
    var rest, row := Kept(batch, alive, n), RowAt(batch, n);
    hide RowAt, Matches, Contribution;
    if alive[n] {
      assert Kept(batch, alive, n + 1) == rest + [row];
      MatchSnoc(batch.names, rest, row, preds, agg);
    } else {
      assert Kept(batch, alive, n + 1) == rest;
    }
  }

  lemma MatchSnoc(names: seq<Str>, rows: seq<Row>, row: Row, preds: seq<Predicate>, agg: Str)
    ensures MatchCount(names, rows + [row], preds) == MatchCount(names, rows, preds) + if Matches(names, row, preds) then 1 else 0
    ensures MatchSum(names, rows + [row], preds, agg)
            == MatchSum(names, rows, preds, agg) + if Matches(names, row, preds) then Contribution(names, row, agg) else 0
  {
    hide Matches, Contribution;
    assert (rows + [row])[..|rows + [row]| - 1] == rows;
  }

  /** Row-by-row execution over a batch answers the query on its rows. */
  lemma {:induction false} BatchAnswer(batch: Batch, preds: seq<Predicate>, agg: Str, n: nat)
    requires batch.Valid() && n <= batch.numRows
    ensures CountTo(batch, preds, n) == MatchCount(batch.names, RowsTo(batch, n), preds)
    ensures SumTo(batch, preds, agg, n) == MatchSum(batch.names, RowsTo(batch, n), preds, agg)
  {
    if n > 0 {
      BatchAnswer(batch, preds, agg, n - 1);
      MatchSnoc(batch.names, RowsTo(batch, n - 1), RowAt(batch, n - 1), preds, agg);
      assert Matches(batch.names, RowAt(batch, n - 1), preds) == SatisfiesAll(batch.names, RowAt(batch, n - 1), preds);
      hide SatisfiesAll, RowAt, MatchCount, MatchSum, Contribution, Matches;
    }
  }

  /** Is row r of the group not deleted? */
  function AliveBits(rg: RowGroup): (bits: seq<bool>)
    ensures |bits| == 64 * |rg.blocks|
  {
    seq(64 * |rg.blocks|, r requires 0 <= r < 64 * |rg.blocks| => rg.blocks[r / 64].deleteMask[r % 64])
  }

  lemma AliveBit(rg: RowGroup, b: nat, k: nat)
    requires b < |rg.blocks| && k < 64
    ensures b * 64 + k < |AliveBits(rg)| && AliveBits(rg)[b * 64 + k] == rg.blocks[b].deleteMask[k]
  {
    assert (b * 64 + k) / 64 == b && (b * 64 + k) % 64 == k;
  }

  /** The rows of a row group that have not been deleted; `batch` is the data it holds. */
  function AliveRows(rg: RowGroup, batch: Batch): seq<Row>
    requires batch.Valid() && |rg.blocks| == NumBlocks(batch.numRows)
  {
    Kept(batch, AliveBits(rg), batch.numRows)
  }
}
