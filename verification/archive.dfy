/** An ingested batch survives being written to a file and read back. */
module Archive {
  import opened Words
  import opened Storage
  import opened AdaptiveIngester
  import opened BlockReader
  import opened ColumnLookup
  import opened Exporter

  /** Names, columns, rows and tails fit the fields of the file. */
  predicate Storable(batch: Batch, blocks: seq<Block>)
    requires batch.Valid()
  {
    && batch.numRows + 63 < TWO_64 && PhysicalIndex(batch.columns, |batch.columns|) < TWO_64
    && (forall f :: 0 <= f < |batch.names| ==> |batch.names[f]| + 4 < 0x1_0000_0000)
    && (forall b :: 0 <= b < |blocks| ==> |blocks[b].tail| < TWO_64)
  }

  lemma {:induction false} MetadataFits(batch: Batch, n: nat)
    requires batch.Valid() && n <= |batch.columns|
    requires forall f :: 0 <= f < |batch.names| ==> |batch.names[f]| + 4 < 0x1_0000_0000
    ensures |PhysicalNames(batch, n)| == |PhysicalTypes(batch.columns, n)|
    ensures forall i :: 0 <= i < |PhysicalNames(batch, n)| ==> |PhysicalNames(batch, n)[i]| < 0x1_0000_0000
    ensures forall i :: 0 <= i < |PhysicalTypes(batch.columns, n)| ==> PhysicalTypes(batch.columns, n)[i] < 0x1_0000_0000
  {
    if n > 0 { MetadataFits(batch, n - 1); }
  }

  /** Tiles, delete masks, tails, names and types all come back. */
  lemma IngestedSurvives(batch: Batch)
    requires batch.Valid() && Storable(batch, Ingested(batch).blocks)
    ensures var rg := Ingested(batch);
            |rg.columnNames| == |rg.columnTypes| && |rg.blocks| == NumBlocks(rg.numRows)
            && Parse(SerializedTo(rg, NumBlocks(rg.numRows))) == Ok(rg)
  {
    var rg, n := Ingested(batch), |batch.columns|;
    IngestedHolds(batch);
    MetadataFits(batch, n);
    PhysicalSize(batch, n);
    forall b | 0 <= b < |rg.blocks| ensures |rg.blocks[b].columns| == |rg.columnNames| {
      assert HoldsBlock(rg.blocks[b], batch, b);
      hide BlockTiles, PhysicalNames;
      BlockTilesCount(batch, b);
    }
    assert WellFormed(rg);
    hide Ingested, Parse, SerializedTo;
    RoundTrip(rg);
  }

  lemma BlockTilesCount(batch: Batch, b: nat)
    requires batch.Valid() && b * 64 < batch.numRows
    ensures |BlockOf(batch, b).columns| == PhysicalIndex(batch.columns, |batch.columns|)
  {
    TilesSize(batch.columns, |batch.columns|, b * 64, RowsIn(batch.numRows, b));
    hide BlockTiles;
  }
}
