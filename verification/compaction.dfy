/** Compaction as it runs: freeze the active batches, append every alive
    persisted row and then every frozen row to column builders, ingest the
    result, and publish it as the only row group. */
module PromotionDaemon {
  import opened Words
  import opened SimdTransposer
  import opened Storage
  import opened TailPayload
  import opened MemTables
  import opened AdaptiveIngester
  import opened BlockReader
  import opened Rows
  import opened TableStates
  import opened MetadataRegistry

  // ----- column builders

  lemma FitsAppend(types: seq<nat>, x: seq<Row>, y: seq<Row>)
    requires RowsFit(types, x) && RowsFit(types, y)
    ensures RowsFit(types, x + y)
  {
    hide RowFits;
  }

  lemma AppendRow(types: seq<nat>, rows: seq<Row>, row: Row, f: nat)
    requires RowsFit(types, rows) && RowFits(types, row) && f < |types|
    ensures RowsFit(types, rows + [row])
    ensures ColumnOfRows(types, rows + [row], f) == AppendCell(ColumnOfRows(types, rows, f), row[f])
  {
    assert (rows + [row])[..|rows + [row]| - 1] == rows;
  }

  /** Builders that hold a list of rows, column by column. */
  predicate ColumnsHold(columns: seq<Column>, types: seq<nat>, rows: seq<Row>) {
    && RowsFit(types, rows) && |columns| == |types|
    && forall f :: 0 <= f < |types| ==> columns[f] == ColumnOfRows(types, rows, f)
  }

  /** Builders with a row appended to the first n columns. */
  predicate PartlyBuilt(columns: seq<Column>, types: seq<nat>, rows: seq<Row>, more: seq<Row>, n: nat) {
    && RowsFit(types, rows) && RowsFit(types, more) && |columns| == |types|
    && (forall f :: 0 <= f < n && f < |types| ==> columns[f] == ColumnOfRows(types, more, f))
    && (forall f :: n <= f < |types| ==> columns[f] == ColumnOfRows(types, rows, f))
  }

  lemma {:induction false} NoRows(types: seq<nat>, columns: seq<Column>)
    requires |columns| == |types| && forall f :: 0 <= f < |types| ==> columns[f] == EmptyColumn(IsString(types, f))
    ensures ColumnsHold(columns, types, [])
  {
  }

  method FreshBuilders(types: seq<nat>) returns (columns: seq<Column>)
    ensures ColumnsHold(columns, types, [])
  {
    columns := [];
    for f := 0 to |types|
      invariant |columns| == f && forall i :: 0 <= i < f ==> columns[i] == EmptyColumn(IsString(types, i))
    {
      columns := columns + [EmptyColumn(IsString(types, f))];
    }
    NoRows(types, columns);
  }

  // ----- rows of a block

  predicate RowExtractable(block: Block, types: seq<nat>, rows: nat, r: nat) {
    forall f :: 0 <= f < |types| ==> Extractable(block, types, rows, f, r)
  }

  /** Every alive row can be read. */
  predicate BlockExtractable(block: Block, types: seq<nat>, rows: nat) {
    rows <= 64 && forall r :: 0 <= r < rows ==> RowExtractable(block, types, rows, r)
  }

  method ExtractCellFrom(block: Block, isString: bool, p: nat, s: nat, rows: nat, r: nat) returns (cell: Cell)
    requires CellReadable(block, isString, p, s, rows, r)
    ensures cell == ReadCell(block, isString, p, s, rows, r)
  {
    hide Slot;
    if !block.columns[p].validity[r] {
      cell := if isString then StrCell(None) else IntCell(None);
    } else if isString {
      var i, data := Slot(s, rows, r), DataStart(block.tail);
      var start, end := ReadU64(block.tail, 8 + 8 * i), ReadU64(block.tail, 16 + 8 * i);
      cell := StrCell(Some(block.tail[data + start..data + end - 1]));
    } else {
      cell := IntCell(Some(ReadInt(block.columns[p], r)));
    }
  }

  /** Append row r of a block to every builder. */
  method AppendBlockRow(block: Block, types: seq<nat>, tiles: seq<nat>, strings: seq<nat>, rows: nat, r: nat, columns: seq<Column>, ghost kept: seq<Row>)
      returns (more: seq<Column>)
    requires |tiles| == |types| == |strings|
    requires forall f :: 0 <= f < |types| ==> tiles[f] == TileIndex(types, f) && strings[f] == StringsBefore(types, f)
    requires RowExtractable(block, types, rows, r) && ColumnsHold(columns, types, kept)
    ensures ColumnsHold(more, types, kept + [ExtractedRow(block, types, rows, r)])
  {
    ghost var row := ExtractedRow(block, types, rows, r);
    ghost var longer := kept + [row];
    FitsAppend(types, kept, [row]);
    more := columns;
    hide RowsFit, RowFits, ColumnOfRows, TileIndex, StringsBefore, ReadCell, CellReadable;
    for f := 0 to |types|
      invariant PartlyBuilt(more, types, kept, longer, f)
    {
      assert Extractable(block, types, rows, f, r);
      AppendRow(types, kept, row, f);
      var cell := ExtractCellFrom(block, IsString(types, f), tiles[f], strings[f], rows, r);
      assert cell == ExtractedCell(block, types, rows, r, f) == row[f];
      more := more[f := AppendCell(more[f], cell)];
    }
  }

  lemma IndexNext(types: seq<nat>, f: nat)
    requires f <= |types|
    ensures TileIndex(types, 0) == 0 && StringsBefore(types, 0) == 0
    ensures f < |types| ==> TileIndex(types, f + 1) == TileIndex(types, f) + (if IsString(types, f) then 2 else 1)
    ensures f < |types| ==> StringsBefore(types, f + 1) == StringsBefore(types, f) + (if IsString(types, f) then 1 else 0)
  {
  }

  method LogicalMap(types: seq<nat>) returns (tiles: seq<nat>, strings: seq<nat>)
    ensures |tiles| == |types| == |strings|
    ensures forall f :: 0 <= f < |types| ==> tiles[f] == TileIndex(types, f) && strings[f] == StringsBefore(types, f)
  {
    hide *;
    tiles, strings := [], [];
    var p, s := 0, 0;
    IndexNext(types, 0);
    for f := 0 to |types|
      invariant |tiles| == f == |strings| && p == TileIndex(types, f) && s == StringsBefore(types, f)
      invariant forall i :: 0 <= i < f ==> tiles[i] == TileIndex(types, i)
      invariant forall i :: 0 <= i < f ==> strings[i] == StringsBefore(types, i)
    {
      IndexNext(types, f);
      tiles, strings := tiles + [p], strings + [s];
      if IsString(types, f) { p, s := p + 2, s + 1; } else { p := p + 1; }
    }
  }

  /** Append the alive rows of a block. The delete mask is read once. */
  method AppendBlock(block: Block, types: seq<nat>, tiles: seq<nat>, strings: seq<nat>, rows: nat, columns: seq<Column>, ghost kept: seq<Row>)
      returns (more: seq<Column>)
    requires |tiles| == |types| == |strings|
    requires forall f :: 0 <= f < |types| ==> tiles[f] == TileIndex(types, f) && strings[f] == StringsBefore(types, f)
    requires BlockExtractable(block, types, rows) && ColumnsHold(columns, types, kept)
    ensures ColumnsHold(more, types, kept + BlockAlive(block, types, rows, rows))
  {
    var mask := block.deleteMask;
    more := columns;
    hide ColumnsHold, RowExtractable, ExtractedRow, TileIndex, StringsBefore;
    assert kept + BlockAlive(block, types, rows, 0) == kept;
    for r := 0 to rows
      invariant ColumnsHold(more, types, kept + BlockAlive(block, types, rows, r))
    {
      ghost var before := BlockAlive(block, types, rows, r);
      if mask[r] {
        more := AppendBlockRow(block, types, tiles, strings, rows, r, more, kept + before);
        Reassociate(kept, before, [ExtractedRow(block, types, rows, r)]);
      } else {
        assert BlockAlive(block, types, rows, r + 1) == before;
      }
    }
  }

  predicate GroupExtractable(rg: RowGroup, types: seq<nat>) {
    Sized(rg) && forall b :: 0 <= b < |rg.blocks| ==> BlockExtractable(rg.blocks[b], types, RowsIn(rg.numRows, b))
  }

  method AppendGroup(rg: RowGroup, types: seq<nat>, tiles: seq<nat>, strings: seq<nat>, columns: seq<Column>, ghost kept: seq<Row>)
      returns (more: seq<Column>)
    requires |tiles| == |types| == |strings|
    requires forall f :: 0 <= f < |types| ==> tiles[f] == TileIndex(types, f) && strings[f] == StringsBefore(types, f)
    requires GroupExtractable(rg, types) && ColumnsHold(columns, types, kept)
    ensures ColumnsHold(more, types, kept + GroupAlive(rg, types, |rg.blocks|))
  {
    more := columns;
    hide ColumnsHold, BlockExtractable, BlockAlive, TileIndex, StringsBefore;
    assert kept + GroupAlive(rg, types, 0) == kept;
    for b := 0 to |rg.blocks|
      invariant ColumnsHold(more, types, kept + GroupAlive(rg, types, b))
    {
      var rows := RowsIn(rg.numRows, b);
      ghost var before := GroupAlive(rg, types, b);
      assert BlockExtractable(rg.blocks[b], types, rows);
      more := AppendBlock(rg.blocks[b], types, tiles, strings, rows, more, kept + before);
      Reassociate(kept, before, BlockAlive(rg.blocks[b], types, rows, rows));
    }
  }

  // ----- rows of frozen batches

  method AppendColumn(p: Batch, types: seq<nat>, f: nat, column: Column, ghost kept: seq<Row>) returns (c: Column)
    requires p.Valid() && |p.columns| == |types| && f < |types| && p.columns[f].Strs? == IsString(types, f)
    requires forall i :: 0 <= i < |types| ==> p.columns[i].Strs? == IsString(types, i)
    requires RowsFit(types, kept) && column == ColumnOfRows(types, kept, f)
    ensures RowsFit(types, kept + RowsOf(p)) && c == ColumnOfRows(types, kept + RowsOf(p), f)
  {
    c := column;
    assert kept + RowsTo(p, 0) == kept;
    for r := 0 to p.numRows
      invariant RowsFit(types, kept + RowsTo(p, r)) && c == ColumnOfRows(types, kept + RowsTo(p, r), f)
    {
      ghost var before, row := RowsTo(p, r), RowAt(p, r);
      ProjectedRowFits(p, types, r);
      assert row[f] == CellAt(p.columns[f], r);
      hide RowsFit, RowFits, ColumnOfRows, RowAt;
      AppendRow(types, kept + before, row, f);
      Reassociate(kept, before, [row]);
      c := AppendCell(c, CellAt(p.columns[f], r));
    }
  }

  method AppendBatch(batch: Batch, names: seq<Str>, types: seq<nat>, columns: seq<Column>, ghost kept: seq<Row>) returns (more: seq<Column>)
    requires Conforms(batch, names, types) && ColumnsHold(columns, types, kept)
    ensures ColumnsHold(more, types, kept + RowsOf(Project(batch, names, types)))
  {
    var p := Project(batch, names, types);
    ghost var longer := kept + RowsOf(p);
    RowsToFit(p, types, p.numRows);
    FitsAppend(types, kept, RowsOf(p));
    more := columns;
    hide RowsFit, ColumnOfRows, RowsOf, Project, Conforms;
    for f := 0 to |types|
      invariant PartlyBuilt(more, types, kept, longer, f)
    {
      var c := AppendColumn(p, types, f, more[f], kept);
      more := more[f := c];
    }
  }

  method AppendBatches(batches: seq<Batch>, names: seq<Str>, types: seq<nat>, columns: seq<Column>, ghost kept: seq<Row>) returns (more: seq<Column>)
    requires AllConform(batches, names, types) && ColumnsHold(columns, types, kept)
    ensures ColumnsHold(more, types, kept + BatchRows(batches, names, types))
  {
    more := columns;
    hide ColumnsHold, Conforms, Project, RowsOf;
    assert kept + BatchRows(batches[..0], names, types) == kept;
    for i := 0 to |batches|
      invariant ColumnsHold(more, types, kept + BatchRows(batches[..i], names, types))
    {
      ghost var before := BatchRows(batches[..i], names, types);
      assert batches[..i + 1] == batches[..i] + [batches[i]];
      BatchRowsNext(batches[..i], batches[i], names, types);
      more := AppendBatch(batches[i], names, types, more, kept + before);
      Reassociate(kept, before, RowsOf(Project(batches[i], names, types)));
    }
    assert batches[..|batches|] == batches;
  }

  // ----- the compaction of one table

  /** Nothing to compact: no active rows and no persisted groups. */
  predicate NothingToCompact(t: TableState) { TotalRows(t.active) == 0 && t.groups == [] }

  /** That is: no row group, and every active batch is without rows. */
  lemma NothingExactly(t: TableState)
    ensures NothingToCompact(t) <==> t.groups == [] && forall i :: 0 <= i < |t.active| ==> t.active[i].numRows == 0
  {
    NoRowsAnywhere(t.active);
  }

  lemma {:induction false} NoRowsAnywhere(batches: seq<Batch>)
    ensures TotalRows(batches) == 0 <==> forall i :: 0 <= i < |batches| ==> batches[i].numRows == 0
  {
    if batches != [] {
      NoRowsAnywhere(batches[1..]);
      assert forall i :: 0 < i < |batches| ==> batches[i] == batches[1..][i - 1];
    }
  }

  /** The row count of a memtable is the number of its rows. */
  lemma {:induction false} RowsCounted(batches: seq<Batch>, names: seq<Str>, types: seq<nat>)
    requires AllConform(batches, names, types)
    ensures TotalRows(batches) == |BatchRows(batches, names, types)|
  {
    if batches != [] {
      var rest, last := batches[..|batches| - 1], batches[|batches| - 1];
      assert batches == rest + [last] && Conforms(last, names, types);
      hide Project, Conforms, TotalRows, RowsOf;
      TotalRowsSnoc(rest, last);
      RowsCounted(rest, names, types);
      ProjectionSize(last, names, types);
    } else {
      assert TotalRows([]) == 0;
    }
  }

  lemma ProjectionSize(batch: Batch, names: seq<Str>, types: seq<nat>)
    requires Conforms(batch, names, types)
    ensures |RowsOf(Project(batch, names, types))| == batch.numRows
  {
    hide Picked;
  }

  /** The active batches become the frozen ones. */
  function Frozen(t: TableState): TableState { t.(active := [], frozen := Some(t.active), version := t.version + 1) }

  /** The collected rows become the only row group; no group at all if there are none. */
  ghost function Published(t: TableState, rows: seq<Row>): TableState
    requires |t.names| == |t.types| && RowsFit(t.types, rows)
  {
    t.(groups := if rows == [] then [] else [Ingested(BatchOf(t.names, t.types, rows))],
       frozen := None, version := t.version + 1)
  }

  lemma StoredExtractable(rg: RowGroup, names: seq<Str>, types: seq<nat>)
    requires Stores(rg, names, types)
    ensures GroupExtractable(rg, types)
  {
    var batch :| StoresBatch(rg, names, types, batch);
    hide StoresBatch, Extractable;
    StoredParts(rg, names, types, batch);
    forall b, r, f | 0 <= b < |rg.blocks| && 0 <= r < RowsIn(rg.numRows, b) && 0 <= f < |types|
      ensures Extractable(rg.blocks[b], types, RowsIn(rg.numRows, b), f, r)
    {
      ExtractCell(rg.blocks[b], batch, types, b, f, r);
    }
    hide Extractable, Batch.Valid, Fits, SameKinds, HoldsBlock;
  }

  method Reconstruct(groups: seq<RowGroup>, types: seq<nat>) returns (columns: seq<Column>)
    requires AllSized(groups) && forall g :: 0 <= g < |groups| ==> GroupExtractable(groups[g], types)
    ensures ColumnsHold(columns, types, PersistedRows(groups, types, |groups|))
  {
    var tiles, strings := LogicalMap(types);
    columns := FreshBuilders(types);
    hide ColumnsHold, GroupExtractable, GroupAlive, TileIndex, StringsBefore;
    for g := 0 to |groups|
      invariant ColumnsHold(columns, types, PersistedRows(groups, types, g))
    {
      columns := AppendGroup(groups[g], types, tiles, strings, columns, PersistedRows(groups, types, g));
    }
  }

  lemma BuiltBatch(columns: seq<Column>, names: seq<Str>, types: seq<nat>, rows: seq<Row>)
    requires ColumnsHold(columns, types, rows) && |names| == |types|
    ensures RowsFit(types, rows) && Batch(names, columns, |rows|) == BatchOf(names, types, rows)
    ensures Batch(names, columns, |rows|).Valid()
  {
    assert columns == ColumnsOfRows(types, rows);
    hide ColumnOfRows, RowFits;
  }

  /** The number of rows collected so far, as the compaction counts them. */
  method CountAlive(groups: seq<RowGroup>, types: seq<nat>, batches: seq<Batch>, names: seq<Str>) returns (total: nat)
    requires AllSized(groups) && AllConform(batches, names, types)
    ensures total == |PersistedRows(groups, types, |groups|) + BatchRows(batches, names, types)|
  {
    hide ExtractedRow, Conforms;
    total := 0;
    for g := 0 to |groups|
      invariant total == |PersistedRows(groups, types, g)|
    {
      for b := 0 to |groups[g].blocks|
        invariant total == |PersistedRows(groups, types, g)| + |GroupAlive(groups[g], types, b)|
      {
        var block, rows := groups[g].blocks[b], RowsIn(groups[g].numRows, b);
        for r := 0 to rows
          invariant total == |PersistedRows(groups, types, g)| + |GroupAlive(groups[g], types, b)| + |BlockAlive(block, types, rows, r)|
        {
          if block.deleteMask[r] { total := total + 1; }
        }
      }
    }
    for i := 0 to |batches|
      invariant total == |PersistedRows(groups, types, |groups|)| + |BatchRows(batches[..i], names, types)|
    {
      assert batches[..i + 1] == batches[..i] + [batches[i]];
      BatchRowsNext(batches[..i], batches[i], names, types);
      total := total + batches[i].numRows;
    }
    assert batches[..|batches|] == batches;
  }

  lemma FrozenValid(t: TableState)
    requires Valid(t) && t.frozen.None?
    ensures Valid(Frozen(t))
    ensures Content(Frozen(t)) == Content(t)
  {
    hide Stores, Sized, Conforms, PersistedRows;
    assert BatchRows([], t.names, t.types) == [];
  }

  /** The rows a compaction collects from a frozen state. */
  ghost function Collected(t: TableState): seq<Row>
    requires Valid(t)
  {
    ContentIs(t);
    PersistedRows(t.groups, t.types, |t.groups|) + FrozenRows(t)
  }

  lemma CollectedFits(t: TableState)
    requires Valid(t)
    ensures RowsFit(t.types, Collected(t)) && |t.names| == |t.types|
  {
    ContentIs(t);
    PersistedFits(t.groups, t.types, |t.groups|);
    if t.frozen.Some? { BatchRowsFit(t.frozen.value, t.names, t.types); }
    hide Valid, Content, AllSized, AllConform, PersistedRows, BatchRows, RowFits;
  }

  lemma ValidParts(t: TableState)
    requires Valid(t)
    ensures AllSized(t.groups) && forall g :: 0 <= g < |t.groups| ==> GroupExtractable(t.groups[g], t.types)
  {
    hide Stores, GroupExtractable, AllConform, Sized;
    forall g | 0 <= g < |t.groups| ensures GroupExtractable(t.groups[g], t.types) {
      StoredExtractable(t.groups[g], t.names, t.types);
    }
  }

  method Rebuild(t: TableState) returns (compacted: RowGroup)
    requires Valid(t) && t.frozen.Some?
    ensures RowsFit(t.types, Collected(t)) && |t.names| == |t.types|
    ensures compacted == Ingested(BatchOf(t.names, t.types, Collected(t)))
  {
    ContentIs(t);
    ValidParts(t);
    CollectedFits(t);
    ghost var persisted := PersistedRows(t.groups, t.types, |t.groups|);
    assert Collected(t) == persisted + BatchRows(t.frozen.value, t.names, t.types);
    hide Valid, Content, Stores, GroupExtractable, AllSized, AllConform, ColumnsHold, PersistedRows, BatchRows, RowsFit, Collected;
    var columns := Reconstruct(t.groups, t.types);
    columns := AppendBatches(t.frozen.value, t.names, t.types, columns, persisted);
    var total := CountAlive(t.groups, t.types, t.frozen.value, t.names);
    BuiltBatch(columns, t.names, t.types, Collected(t));
    compacted := Ingest(Batch(t.names, columns, total));
  }

  /** Rebuild and replace: what a compaction publishes from a frozen state. */
  ghost function Republished(t: TableState): TableState
    requires Valid(t)
  {
    CollectedFits(t);
    Published(t, Collected(t))
  }

  method Publish(t: TableState) returns (t': TableState)
    requires Valid(t) && t.frozen.Some?
    ensures t' == Republished(t)
  {
    hide Valid, Content, Collected, Ingested;
    var compacted := Rebuild(t);
    assert compacted.numRows == |Collected(t)| by { IngestedSize(BatchOf(t.names, t.types, Collected(t))); }
    var groups := if compacted.numRows > 0 then [compacted] else [];
    t' := t.(groups := groups, frozen := None, version := t.version + 1);
  }

  lemma IngestedSize(batch: Batch)
    requires batch.Valid()
    ensures Ingested(batch).numRows == batch.numRows
  {
  }

  lemma FrozenCollects(t: TableState)
    requires Valid(t) && t.frozen.None?
    ensures Valid(Frozen(t)) && Collected(Frozen(t)) == Content(t) == Content(Frozen(t))
  {
    FrozenValid(t);
    hide Stores, Sized, Conforms, PersistedRows, BatchRows;
  }

  /** The effect of a whole compaction. */
  ghost function Compacted(t: TableState): TableState
    requires Valid(t) && t.frozen.None?
  {
    FrozenCollects(t);
    if NothingToCompact(t) then t else Republished(Frozen(t))
  }

  /** A whole compaction without interference: the state is replaced twice. */
  method TriggerCompaction(registry: Registry, name: Str)
    requires name in registry.tables ==> Valid(registry.tables[name]) && registry.tables[name].frozen.None?
    modifies registry
    ensures name !in old(registry.tables) ==> registry.tables == old(registry.tables)
    ensures name in old(registry.tables) ==> registry.tables == old(registry.tables)[name := Compacted(old(registry.tables)[name])]
  {
    hide Valid, Content, Collected, NothingToCompact, Republished;
    var found := registry.GetTableState(name);
    if found.None? { return; }
    var t := found.value;
    assert registry.tables == registry.tables[name := t];
    if NothingToCompact(t) { return; }
    FrozenCollects(t);
    var state := Frozen(t);
    registry.UpdateTableState(name, state);
    var compacted := Publish(state);
    registry.UpdateTableState(name, compacted);
  }
}
