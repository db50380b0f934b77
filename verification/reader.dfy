/** Reading rows back out of a block: planes are transposed back to scalars,
    the validity plane tells nulls, strings come from the column-major offset
    table at index `string column * rows in block + row`. */
module BlockReader {
  import opened Words
  import opened SimdTransposer
  import opened Storage
  import opened TailPayload
  import opened AdaptiveIngester

  /** Every tail of the batch fits 64-bit offsets. */
  ghost predicate Fits(batch: Batch)
    requires batch.Valid()
  {
    forall b :: 0 <= b && b * 64 < batch.numRows ==> TailSize(StringsOf(batch, b)) < TWO_64
  }

  function StringsOf(batch: Batch, b: nat): seq<Str>
    requires batch.Valid() && b * 64 < batch.numRows
  {
    BlockStrings(batch.columns, |batch.columns|, b * 64, RowsIn(batch.numRows, b))
  }

  /** The block holds the data of block b of the batch; rows may have been deleted. */
  ghost predicate HoldsBlock(block: Block, batch: Batch, b: nat)
    requires batch.Valid() && b * 64 < batch.numRows
  {
    block.columns == BlockOf(batch, b).columns && block.tail == BlockOf(batch, b).tail
  }

  ghost predicate Holds(rg: RowGroup, batch: Batch) {
    && batch.Valid()
    && rg.numRows == batch.numRows
    && rg.columnNames == PhysicalNames(batch, |batch.columns|)
    && rg.columnTypes == PhysicalTypes(batch.columns, |batch.columns|)
    && |rg.blocks| == NumBlocks(batch.numRows)
    && forall b :: 0 <= b < |rg.blocks| ==> HoldsBlock(rg.blocks[b], batch, b)
  }

  lemma IngestedHolds(batch: Batch)
    requires batch.Valid()
    ensures Holds(Ingested(batch), batch)
    ensures forall b :: 0 <= b < |Ingested(batch).blocks| ==> Ingested(batch).blocks[b].deleteMask == ONES
  {
  }

  // ----- where a column's tiles and strings are

  lemma {:induction false} TilesAt(columns: seq<Column>, n: nat, f: nat, base: nat, rows: nat)
    requires f < n <= |columns| && Windows(columns, base, rows)
    ensures |BlockTiles(columns, n, base, rows)| == PhysicalIndex(columns, n)
    ensures PhysicalIndex(columns, f) + Width(columns[f]) <= PhysicalIndex(columns, n)
    ensures var p, t := PhysicalIndex(columns, f), BlockTiles(columns, n, base, rows);
            && t[p] == ColumnTiles(columns[f], base, rows)[0]
            && (columns[f].Strs? ==> t[p + 1] == ColumnTiles(columns[f], base, rows)[1])
  {
    hide TileOf, IntWords, SkeletonWords, SignatureWords, Validity;
    if f < n - 1 {
      TilesAt(columns, n - 1, f, base, rows);
    } else {
      TilesSize(columns, n - 1, base, rows);
    }
  }

  /** The seven words behind the validity plane are 0 in every tile. */
  lemma {:induction false} PaddingIsZero(columns: seq<Column>, n: nat, base: nat, rows: nat, p: nat, k: nat)
    requires n <= |columns| && Windows(columns, base, rows) && p < |BlockTiles(columns, n, base, rows)| && k < 7
    ensures Value(BlockTiles(columns, n, base, rows)[p].padding[k]) == 0
  {
    hide IntWords, SkeletonWords, SignatureWords, Validity, Value, Transposed;
    ZeroWord(ZEROS);
    if n > 0 && p < |BlockTiles(columns, n - 1, base, rows)| {
      PaddingIsZero(columns, n - 1, base, rows, p, k);
    }
  }

  lemma {:induction false} TilesSize(columns: seq<Column>, n: nat, base: nat, rows: nat)
    requires n <= |columns| && Windows(columns, base, rows)
    ensures |BlockTiles(columns, n, base, rows)| == PhysicalIndex(columns, n)
  {
    if n > 0 { TilesSize(columns, n - 1, base, rows); }
  }

  /** Index of a string in the column-major tail table. */
  function Slot(stringColumn: nat, rows: nat, r: nat): nat { stringColumn * rows + r }

  lemma SlotStep(k: nat, rows: nat, r: nat)
    ensures Slot(k + 1, rows, 0) == Slot(k, rows, 0) + rows
    ensures Slot(k, rows, r) == Slot(k, rows, 0) + r
    ensures Slot(0, rows, 0) == 0
  {
    assert (k + 1) * rows == k * rows + rows;
  }

  /** Strings of earlier columns come first, `rows` of them per string column. */
  lemma {:induction false} StringsSize(columns: seq<Column>, n: nat, base: nat, rows: nat)
    requires n <= |columns| && Windows(columns, base, rows)
    ensures |BlockStrings(columns, n, base, rows)| == Slot(StringIndex(columns, n), rows, 0)
  {
    hide Slot, Windows;
    SlotStep(0, rows, 0);
    if n > 0 {
      StringsSize(columns, n - 1, base, rows);
      SlotStep(StringIndex(columns, n - 1), rows, 0);
    }
  }

  lemma {:induction false} StringsPrefix(columns: seq<Column>, n: nat, k: nat, base: nat, rows: nat)
    requires k <= n <= |columns| && Windows(columns, base, rows)
    ensures BlockStrings(columns, k, base, rows) <= BlockStrings(columns, n, base, rows)
  {
    hide ColumnStrings, Windows;
    if k < n { StringsPrefix(columns, n - 1, k, base, rows); }
  }

  lemma StringsAt(columns: seq<Column>, f: nat, base: nat, rows: nat, r: nat)
    requires f < |columns| && Windows(columns, base, rows) && columns[f].Strs? && r < rows
    ensures Window(columns[f], base, rows)
    ensures var strings, i := BlockStrings(columns, |columns|, base, rows), |BlockStrings(columns, f, base, rows)| + r;
            i < |strings| && strings[i] == StoredString(columns[f].strs[base + r])
  {
    var c := columns[f];
    var before, own := BlockStrings(columns, f, base, rows), ColumnStrings(c, base, rows);
    assert Window(c, base, rows);
    hide ColumnStrings, Windows, Window, StoredString;
    OwnString(c, base, rows, r);
    StringsPrefix(columns, |columns|, f + 1, base, rows);
    assert BlockStrings(columns, f + 1, base, rows) == before + own;
    assert (before + own)[|before| + r] == own[r];
  }

  lemma OwnString(c: Column, base: nat, rows: nat, r: nat)
    requires Window(c, base, rows) && c.Strs? && r < rows
    ensures |ColumnStrings(c, base, rows)| == rows
    ensures ColumnStrings(c, base, rows)[r] == StoredString(c.strs[base + r])
  {
  }

  // ----- one cell

  function ReadInt(tile: Tile, r: nat): int64
    requires r < 64
  {
    WordOfValue(Lane(tile, r));
    Signed(Value(Lane(tile, r)))
  }

  /** Shape the reader needs; physical index p, string column index s. */
  predicate CellReadable(block: Block, isString: bool, p: nat, s: nat, rows: nat, r: nat) {
    && r < 64 && p < |block.columns|
    && (isString && block.columns[p].validity[r] ==> Readable(block.tail, Slot(s, rows, r)))
  }

  function ReadCell(block: Block, isString: bool, p: nat, s: nat, rows: nat, r: nat): Cell
    requires CellReadable(block, isString, p, s, rows, r)
  {
    if !block.columns[p].validity[r] then (if isString then StrCell(None) else IntCell(None))
    else if isString then StrCell(Some(ReadString(block.tail, Slot(s, rows, r))))
    else IntCell(Some(ReadInt(block.columns[p], r)))
  }

  lemma LaneOfTile(words: Matrix, valid: Word, r: nat)
    requires r < 64
    ensures Lane(TileOf(words, valid), r) == words[r]
  {
    TransposeInvolution(words);
  }

  lemma ReadIntWord(n: int64)
    ensures Value(WordOf(Unsigned(n))) == Unsigned(n)
    ensures Signed(Unsigned(n)) == n
  {
    WordValue(Unsigned(n));
  }

  lemma ReadStoredString(batch: Batch, b: nat, f: nat, r: nat)
    requires batch.Valid() && Fits(batch) && b * 64 < batch.numRows
    requires f < |batch.columns| && batch.columns[f].Strs? && r < RowsIn(batch.numRows, b)
    ensures var i, tail := Slot(StringIndex(batch.columns, f), RowsIn(batch.numRows, b), r), TailOf(StringsOf(batch, b));
            Readable(tail, i) && ReadString(tail, i) == StoredString(batch.columns[f].strs[b * 64 + r])
  {
    var rows := RowsIn(batch.numRows, b);
    var strings := BlockStrings(batch.columns, |batch.columns|, b * 64, rows);
    assert StringsOf(batch, b) == strings && TailSize(strings) < TWO_64;
    hide *;
    var i := Slot(StringIndex(batch.columns, f), rows, r);
    StringsSize(batch.columns, f, b * 64, rows);
    StringsAt(batch.columns, f, b * 64, rows, r);
    SlotStep(StringIndex(batch.columns, f), rows, r);
    ReadBack(strings, i);
  }

  /** The first tile of a column: its lanes and its validity plane. */
  lemma FirstTile(block: Block, batch: Batch, b: nat, f: nat, r: nat)
    requires batch.Valid() && b * 64 < batch.numRows && HoldsBlock(block, batch, b)
    requires f < |batch.columns| && r < RowsIn(batch.numRows, b)
    ensures var c, p := batch.columns[f], PhysicalIndex(batch.columns, f);
            && p + Width(c) <= |block.columns|
            && block.columns[p].validity[r] == LaneValid(c, b * 64, RowsIn(batch.numRows, b), r)
            && Lane(block.columns[p], r) ==
               (if c.Ints? then IntWord(c.ints[b * 64 + r]) else SkeletonWord(c.strs[b * 64 + r]))
  {
    var c, base, rows := batch.columns[f], b * 64, RowsIn(batch.numRows, b);
    hide IntWord, SkeletonWord;
    TilesSize(batch.columns, |batch.columns|, base, rows);
    TilesAt(batch.columns, |batch.columns|, f, base, rows);
    var words := if c.Ints? then IntWords(c, base, rows) else SkeletonWords(c, base, rows);
    LaneOfTile(words, Validity(c, base, rows), r);
    assert block.columns[PhysicalIndex(batch.columns, f)] == TileOf(words, Validity(c, base, rows));
  }

  /** The second tile of a string column holds the signatures. */
  lemma SecondTile(block: Block, batch: Batch, b: nat, f: nat, r: nat)
    requires batch.Valid() && b * 64 < batch.numRows && HoldsBlock(block, batch, b)
    requires f < |batch.columns| && batch.columns[f].Strs? && r < RowsIn(batch.numRows, b)
    ensures var c, p := batch.columns[f], PhysicalIndex(batch.columns, f) + 1;
            p < |block.columns| && Lane(block.columns[p], r) == SignatureWord(c.strs[b * 64 + r])
  {
    var c, base, rows := batch.columns[f], b * 64, RowsIn(batch.numRows, b);
    hide SignatureWord;
    TilesSize(batch.columns, |batch.columns|, base, rows);
    TilesAt(batch.columns, |batch.columns|, f, base, rows);
    LaneOfTile(SignatureWords(c, base, rows), Validity(c, base, rows), r);
  }

  /** Ingest and extract are inverse: any cell of any block, null or not, reads
      back as the value of the batch. */
  lemma ReadCellBack(block: Block, batch: Batch, b: nat, f: nat, r: nat)
    requires batch.Valid() && Fits(batch) && b * 64 < batch.numRows && HoldsBlock(block, batch, b)
    requires f < |batch.columns| && r < RowsIn(batch.numRows, b)
    ensures var c := batch.columns[f];
            var p, s, rows := PhysicalIndex(batch.columns, f), StringIndex(batch.columns, f), RowsIn(batch.numRows, b);
            && CellReadable(block, c.Strs?, p, s, rows, r)
            && ReadCell(block, c.Strs?, p, s, rows, r) == CellAt(c, b * 64 + r)
  {
    hide TailOf, Readable, ReadString, BlockTiles, BlockStrings, PhysicalIndex, StringIndex, WordOf, Transposed;
    var c := batch.columns[f];
    FirstTile(block, batch, b, f, r);
    if c.Strs? {
      ReadStoredString(batch, b, f, r);
    } else if c.ints[b * 64 + r].Some? {
      ReadIntWord(c.ints[b * 64 + r].value);
    }
  }
}
