/** The state of one table, and the rows it stands for: alive rows of the
    persisted row groups, then the frozen and the active in-memory batches. */
module TableStates {
  import opened Words
  import opened Storage
  import opened TailPayload
  import opened MemTables
  import opened AdaptiveIngester
  import opened BlockReader
  import opened Rows

  datatype TableState = TableState(
    names: seq<Str>,
    types: seq<nat>,
    groups: seq<RowGroup>,
    active: seq<Batch>,
    frozen: Option<seq<Batch>>,
    version: nat)

  predicate IsString(types: seq<nat>, f: nat)
    requires f < |types|
  {
    types[f] == TYPE_STRING
  }

  // ----- rows of a schema, as columns and back

  /** The row has one cell per column, of the column's kind. */
  predicate RowFits(types: seq<nat>, row: Row) {
    |row| == |types| && forall f :: 0 <= f < |types| ==> row[f].StrCell? == IsString(types, f)
  }

  predicate RowsFit(types: seq<nat>, rows: seq<Row>) { forall i :: 0 <= i < |rows| ==> RowFits(types, rows[i]) }

  function EmptyColumn(isString: bool): Column { if isString then Strs([]) else Ints([]) }

  /** `AppendNull` or `Append` on a builder of the right kind. */
  function AppendCell(c: Column, cell: Cell): Column
    requires c.Strs? == cell.StrCell?
  {
    if c.Strs? then Strs(c.strs + [cell.s]) else Ints(c.ints + [cell.n])
  }

  /** Column f of a list of rows. */
  function ColumnOfRows(types: seq<nat>, rows: seq<Row>, f: nat): (c: Column)
    requires RowsFit(types, rows) && f < |types|
    ensures c.Strs? == IsString(types, f) && c.Size() == |rows|
  {
    if rows == [] then EmptyColumn(IsString(types, f))
    else
      assert RowsFit(types, rows[..|rows| - 1]);
      assert RowFits(types, rows[|rows| - 1]);
      AppendCell(ColumnOfRows(types, rows[..|rows| - 1], f), rows[|rows| - 1][f])
  }

  function ColumnsOfRows(types: seq<nat>, rows: seq<Row>): seq<Column>
    requires RowsFit(types, rows)
  {
    seq(|types|, f requires 0 <= f < |types| => ColumnOfRows(types, rows, f))
  }

  /** The batch a list of rows makes. */
  function BatchOf(names: seq<Str>, types: seq<nat>, rows: seq<Row>): (batch: Batch)
    requires |names| == |types| && RowsFit(types, rows)
    ensures batch.Valid() && batch.names == names && batch.numRows == |rows|
    ensures forall f :: 0 <= f < |types| ==> batch.columns[f].Strs? == IsString(types, f)
  {
    Batch(names, ColumnsOfRows(types, rows), |rows|)
  }

  lemma {:induction false} CellOfRows(types: seq<nat>, rows: seq<Row>, f: nat, r: nat)
    requires RowsFit(types, rows) && f < |types| && r < |rows|
    ensures RowFits(types, rows[r])
    ensures CellAt(ColumnOfRows(types, rows, f), r) == rows[r][f]
  {
    if r < |rows| - 1 {
      CellOfRows(types, rows[..|rows| - 1], f, r);
    }
  }

  /** Rows laid out as columns read back as the same rows. */
  lemma {:induction false} RowsOfBatch(names: seq<Str>, types: seq<nat>, rows: seq<Row>, n: nat)
    requires |names| == |types| && RowsFit(types, rows) && n <= |rows|
    ensures RowsTo(BatchOf(names, types, rows), n) == rows[..n]
  {
    if n > 0 {
      var batch := BatchOf(names, types, rows);
      RowsOfBatch(names, types, rows, n - 1);
      forall f | 0 <= f < |types| ensures CellAt(batch.columns[f], n - 1) == rows[n - 1][f] {
        CellOfRows(types, rows, f, n - 1);
      }
      assert RowAt(batch, n - 1) == rows[n - 1];
      assert rows[..n] == rows[..n - 1] + [rows[n - 1]];
    }
  }

  // ----- the columns of a batch that belong to the table

  /** Every column of the table is found in the batch, with its kind. */
  predicate Conforms(batch: Batch, names: seq<Str>, types: seq<nat>) {
    && batch.Valid() && |names| == |types|
    && forall f :: 0 <= f < |names| ==>
         var i := FindColumn(batch.names, names[f]);
         i.Some? && batch.columns[i.value].Strs? == IsString(types, f)
  }

  function Picked(batch: Batch, names: seq<Str>, types: seq<nat>, f: nat): (c: Column)
    requires Conforms(batch, names, types) && f < |names|
    ensures c.Strs? == IsString(types, f) && c.Size() == batch.numRows
  {
    batch.columns[FindColumn(batch.names, names[f]).value]
  }

  /** The batch restricted to the table's columns, in the table's order. */
  function Project(batch: Batch, names: seq<Str>, types: seq<nat>): (p: Batch)
    requires Conforms(batch, names, types)
    ensures p.Valid() && p.names == names && p.numRows == batch.numRows
    ensures forall f :: 0 <= f < |types| ==> p.columns[f].Strs? == IsString(types, f)
  {
    Batch(names, seq(|names|, f requires 0 <= f < |names| => Picked(batch, names, types, f)), batch.numRows)
  }

  predicate AllConform(batches: seq<Batch>, names: seq<Str>, types: seq<nat>) {
    forall i :: 0 <= i < |batches| ==> Conforms(batches[i], names, types)
  }

  function BatchRows(batches: seq<Batch>, names: seq<Str>, types: seq<nat>): seq<Row>
    requires AllConform(batches, names, types)
  {
    if batches == [] then []
    else BatchRows(batches[..|batches| - 1], names, types) + RowsOf(Project(batches[|batches| - 1], names, types))
  }

  lemma ProjectedRowFits(p: Batch, types: seq<nat>, r: nat)
    requires p.Valid() && |p.columns| == |types| && r < p.numRows
    requires forall f :: 0 <= f < |types| ==> p.columns[f].Strs? == IsString(types, f)
    ensures RowFits(types, RowAt(p, r))
  {
  }

  lemma {:induction false} BatchRowsFit(batches: seq<Batch>, names: seq<Str>, types: seq<nat>)
    requires AllConform(batches, names, types)
    ensures RowsFit(types, BatchRows(batches, names, types))
  {
    if batches != [] {
      var p := Project(batches[|batches| - 1], names, types);
      BatchRowsFit(batches[..|batches| - 1], names, types);
      hide RowFits, Project;
      RowsToFit(p, types, p.numRows);
    }
  }

  lemma {:induction false} RowsToFit(p: Batch, types: seq<nat>, n: nat)
    requires p.Valid() && |p.columns| == |types| && n <= p.numRows
    requires forall f :: 0 <= f < |types| ==> p.columns[f].Strs? == IsString(types, f)
    ensures RowsFit(types, RowsTo(p, n))
  {
    if n > 0 {
      RowsToFit(p, types, n - 1);
      ProjectedRowFits(p, types, n - 1);
      hide RowFits, RowAt;
    }
  }

  // ----- reading rows out of a row group

  /** Index of the first tile of column f. */
  function TileIndex(types: seq<nat>, f: nat): nat
    requires f <= |types|
  {
    if f == 0 then 0 else TileIndex(types, f - 1) + if IsString(types, f - 1) then 2 else 1
  }

  /** Number of string columns before column f. */
  function StringsBefore(types: seq<nat>, f: nat): nat
    requires f <= |types|
  {
    if f == 0 then 0 else StringsBefore(types, f - 1) + if IsString(types, f - 1) then 1 else 0
  }

  predicate Extractable(block: Block, types: seq<nat>, rows: nat, f: nat, r: nat)
    requires f < |types|
  {
    CellReadable(block, IsString(types, f), TileIndex(types, f), StringsBefore(types, f), rows, r)
  }

  function ExtractedCell(block: Block, types: seq<nat>, rows: nat, r: nat, f: nat): (cell: Cell)
    requires f < |types|
    ensures cell.StrCell? == IsString(types, f)
  {
    if Extractable(block, types, rows, f, r)
    then ReadCell(block, IsString(types, f), TileIndex(types, f), StringsBefore(types, f), rows, r)
    else if IsString(types, f) then StrCell(None) else IntCell(None)
  }

  function ExtractedRow(block: Block, types: seq<nat>, rows: nat, r: nat): (row: Row)
    ensures RowFits(types, row)
  {
    seq(|types|, f requires 0 <= f < |types| => ExtractedCell(block, types, rows, r, f))
  }

  /** Alive rows among the first n of a block. */
  function BlockAlive(block: Block, types: seq<nat>, rows: nat, n: nat): seq<Row>
    requires n <= 64
  {
    if n == 0 then []
    else BlockAlive(block, types, rows, n - 1) + if block.deleteMask[n - 1] then [ExtractedRow(block, types, rows, n - 1)] else []
  }

  /** The block count matches the row count. */
  predicate Sized(rg: RowGroup) { |rg.blocks| == NumBlocks(rg.numRows) }

  /** Alive rows of block b of a group. */
  function AliveOf(rg: RowGroup, types: seq<nat>, b: nat): seq<Row>
    requires Sized(rg) && b < |rg.blocks|
  {
    BlockAlive(rg.blocks[b], types, RowsIn(rg.numRows, b), RowsIn(rg.numRows, b))
  }

  function GroupAlive(rg: RowGroup, types: seq<nat>, b: nat): seq<Row>
    requires Sized(rg) && b <= |rg.blocks|
  {
    if b == 0 then [] else GroupAlive(rg, types, b - 1) + AliveOf(rg, types, b - 1)
  }

  predicate AllSized(groups: seq<RowGroup>) { forall g :: 0 <= g < |groups| ==> Sized(groups[g]) }

  /** Alive rows of the first n groups. */
  function PersistedRows(groups: seq<RowGroup>, types: seq<nat>, n: nat): seq<Row>
    requires AllSized(groups) && n <= |groups|
  {
    if n == 0 then [] else PersistedRows(groups, types, n - 1) + GroupAlive(groups[n - 1], types, |groups[n - 1].blocks|)
  }

  lemma {:induction false} BlockAliveFits(block: Block, types: seq<nat>, rows: nat, n: nat)
    requires n <= 64
    ensures RowsFit(types, BlockAlive(block, types, rows, n))
  {
    hide RowFits, ExtractedRow;
    if n > 0 { BlockAliveFits(block, types, rows, n - 1); }
  }

  lemma {:induction false} GroupAliveFits(rg: RowGroup, types: seq<nat>, b: nat)
    requires Sized(rg) && b <= |rg.blocks|
    ensures RowsFit(types, GroupAlive(rg, types, b))
  {
    hide RowFits, BlockAlive;
    if b > 0 {
      GroupAliveFits(rg, types, b - 1);
      BlockAliveFits(rg.blocks[b - 1], types, RowsIn(rg.numRows, b - 1), RowsIn(rg.numRows, b - 1));
    }
  }

  lemma {:induction false} PersistedFits(groups: seq<RowGroup>, types: seq<nat>, n: nat)
    requires AllSized(groups) && n <= |groups|
    ensures RowsFit(types, PersistedRows(groups, types, n))
  {
    hide RowFits, GroupAlive;
    if n > 0 {
      PersistedFits(groups, types, n - 1);
      GroupAliveFits(groups[n - 1], types, |groups[n - 1].blocks|);
    }
  }

  // ----- reading a group gives the alive rows of the batch it holds

  predicate SameKinds(columns: seq<Column>, types: seq<nat>) {
    |columns| == |types| && forall f :: 0 <= f < |types| ==> columns[f].Strs? == IsString(types, f)
  }

  lemma {:induction false} SameIndices(columns: seq<Column>, types: seq<nat>, f: nat)
    requires SameKinds(columns, types) && f <= |types|
    ensures TileIndex(types, f) == PhysicalIndex(columns, f) && StringsBefore(types, f) == StringIndex(columns, f)
  {
    if f > 0 { SameIndices(columns, types, f - 1); }
  }

  lemma ExtractCell(block: Block, batch: Batch, types: seq<nat>, b: nat, f: nat, r: nat)
    requires batch.Valid() && Fits(batch) && b * 64 < batch.numRows && HoldsBlock(block, batch, b)
    requires SameKinds(batch.columns, types) && f < |types| && r < RowsIn(batch.numRows, b)
    ensures Extractable(block, types, RowsIn(batch.numRows, b), f, r)
    ensures ExtractedCell(block, types, RowsIn(batch.numRows, b), r, f) == CellAt(batch.columns[f], b * 64 + r)
  {
    assert batch.columns[f].Strs? == IsString(types, f);
    SameIndices(batch.columns, types, f);
    hide ReadCell, CellReadable, Fits, HoldsBlock, Batch.Valid, PhysicalIndex, StringIndex, TileIndex, StringsBefore;
    ReadCellBack(block, batch, b, f, r);
  }

  lemma ExtractRow(block: Block, batch: Batch, types: seq<nat>, b: nat, r: nat)
    requires batch.Valid() && Fits(batch) && b * 64 < batch.numRows && HoldsBlock(block, batch, b)
    requires SameKinds(batch.columns, types) && r < RowsIn(batch.numRows, b)
    ensures b * 64 + r < batch.numRows
    ensures ExtractedRow(block, types, RowsIn(batch.numRows, b), r) == RowAt(batch, b * 64 + r)
  {
    var rows := RowsIn(batch.numRows, b);
    forall f | 0 <= f < |types|
      ensures ExtractedCell(block, types, rows, r, f) == CellAt(batch.columns[f], b * 64 + r)
    {
      hide ExtractedCell, Fits, HoldsBlock, Batch.Valid, SameKinds, CellAt;
      ExtractCell(block, batch, types, b, f, r);
    }
    hide ExtractedCell, CellAt, Fits, HoldsBlock;
  }

  /** The row group holds a batch of the table's schema. */
  ghost predicate StoresBatch(rg: RowGroup, names: seq<Str>, types: seq<nat>, batch: Batch) {
    Holds(rg, batch) && Fits(batch) && batch.names == names && SameKinds(batch.columns, types)
  }

  ghost predicate Stores(rg: RowGroup, names: seq<Str>, types: seq<nat>) {
    exists batch :: StoresBatch(rg, names, types, batch)
  }

  lemma StoredParts(rg: RowGroup, names: seq<Str>, types: seq<nat>, batch: Batch)
    requires StoresBatch(rg, names, types, batch)
    ensures batch.Valid() && Sized(rg) && rg.numRows == batch.numRows && Fits(batch) && SameKinds(batch.columns, types)
    ensures forall b :: 0 <= b < |rg.blocks| ==> b * 64 < batch.numRows && HoldsBlock(rg.blocks[b], batch, b)
  {
    hide HoldsBlock, Fits, SameKinds, PhysicalNames, PhysicalTypes;
  }

  lemma KeptNext(batch: Batch, alive: seq<bool>, n: nat)
    requires batch.Valid() && n < batch.numRows && n < |alive|
    ensures Kept(batch, alive, n + 1) == Kept(batch, alive, n) + if alive[n] then [RowAt(batch, n)] else []
    ensures Kept(batch, alive, 0) == []
  {
  }

  lemma BlockAliveNext(block: Block, types: seq<nat>, rows: nat, n: nat)
    requires n < 64
    ensures BlockAlive(block, types, rows, n + 1)
            == BlockAlive(block, types, rows, n) + if block.deleteMask[n] then [ExtractedRow(block, types, rows, n)] else []
    ensures BlockAlive(block, types, rows, 0) == []
  {
  }

  lemma Reassociate(x: seq<Row>, y: seq<Row>, z: seq<Row>)
    ensures x + (y + z) == (x + y) + z
    ensures x + [] == x
  {
  }

  lemma {:induction false} BlockAliveIs(rg: RowGroup, names: seq<Str>, types: seq<nat>, batch: Batch, b: nat, n: nat)
    requires StoresBatch(rg, names, types, batch) && batch.Valid() && Sized(rg) && rg.numRows == batch.numRows
    requires b < |rg.blocks| && b * 64 < batch.numRows && n <= RowsIn(batch.numRows, b)
    requires |AliveBits(rg)| >= batch.numRows
    ensures Kept(batch, AliveBits(rg), b * 64 + n)
            == Kept(batch, AliveBits(rg), b * 64) + BlockAlive(rg.blocks[b], types, RowsIn(batch.numRows, b), n)
  {
    hide *;
    var block, rows, alive := rg.blocks[b], RowsIn(batch.numRows, b), AliveBits(rg);
    BlockAliveNext(block, types, rows, 0);
    if n > 0 {
      BlockAliveIs(rg, names, types, batch, b, n - 1);
      StoredParts(rg, names, types, batch);
      AliveBit(rg, b, n - 1);
      ExtractRow(block, batch, types, b, n - 1);
      KeptNext(batch, alive, b * 64 + (n - 1));
      BlockAliveNext(block, types, rows, n - 1);
      Reassociate(Kept(batch, alive, b * 64), BlockAlive(block, types, rows, n - 1), [RowAt(batch, b * 64 + (n - 1))]);
    }
  }

  lemma GroupAliveNext(rg: RowGroup, types: seq<nat>, b: nat)
    requires Sized(rg) && b < |rg.blocks|
    ensures b * 64 < rg.numRows
    ensures GroupAlive(rg, types, b + 1)
            == GroupAlive(rg, types, b) + BlockAlive(rg.blocks[b], types, RowsIn(rg.numRows, b), RowsIn(rg.numRows, b))
    ensures Min(b * 64, rg.numRows) == b * 64 && Min((b + 1) * 64, rg.numRows) == b * 64 + RowsIn(rg.numRows, b)
  {
  }

  lemma EnoughBits(rg: RowGroup)
    requires Sized(rg)
    ensures |AliveBits(rg)| >= rg.numRows
  {
  }

  lemma NoRowsYet(rg: RowGroup, types: seq<nat>, batch: Batch)
    requires Sized(rg) && batch.Valid()
    ensures GroupAlive(rg, types, 0) == [] && Kept(batch, AliveBits(rg), 0) == [] && Min(0 * 64, batch.numRows) == 0
  {
  }

  /** Reading a group back gives the alive rows of the batch it holds, in order. */
  lemma {:induction false} GroupAliveIs(rg: RowGroup, names: seq<Str>, types: seq<nat>, batch: Batch, b: nat)
    requires StoresBatch(rg, names, types, batch) && batch.Valid() && Sized(rg) && rg.numRows == batch.numRows && b <= |rg.blocks|
    requires |AliveBits(rg)| >= batch.numRows
    ensures GroupAlive(rg, types, b) == Kept(batch, AliveBits(rg), Min(b * 64, batch.numRows))
  {
    hide *;
    if b == 0 {
      NoRowsYet(rg, types, batch);
    } else {
      GroupAliveNext(rg, types, b - 1);
      GroupAliveIs(rg, names, types, batch, b - 1);
      BlockAliveIs(rg, names, types, batch, b - 1, RowsIn(batch.numRows, b - 1));
    }
  }

  lemma GroupRowsAre(rg: RowGroup, names: seq<Str>, types: seq<nat>, batch: Batch)
    requires StoresBatch(rg, names, types, batch)
    ensures batch.Valid() && Sized(rg) && |rg.blocks| == NumBlocks(batch.numRows)
    ensures GroupAlive(rg, types, |rg.blocks|) == AliveRows(rg, batch)
  {
    hide StoresBatch, AliveBits, BlockAlive, Kept;
    StoredParts(rg, names, types, batch);
    EnoughBits(rg);
    GroupAliveIs(rg, names, types, batch, |rg.blocks|);
  }

  // ----- the whole table

  ghost predicate Valid(t: TableState) {
    && |t.names| == |t.types|
    && (forall g :: 0 <= g < |t.groups| ==> Sized(t.groups[g]) && Stores(t.groups[g], t.names, t.types))
    && AllConform(t.active, t.names, t.types)
    && (t.frozen.Some? ==> AllConform(t.frozen.value, t.names, t.types))
  }

  function FrozenRows(t: TableState): seq<Row>
    requires t.frozen.Some? ==> AllConform(t.frozen.value, t.names, t.types)
  {
    if t.frozen.Some? then BatchRows(t.frozen.value, t.names, t.types) else []
  }

  /** The rows of the table, in order. */
  ghost function Content(t: TableState): seq<Row>
    requires Valid(t)
  {
    PersistedRows(t.groups, t.types, |t.groups|) + FrozenRows(t) + BatchRows(t.active, t.names, t.types)
  }
}
