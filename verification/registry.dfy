/** The table registry: registering, inserting and deleting, and what each does
    to the rows of a table. */
module MetadataRegistry {
  import opened Words
  import opened Storage
  import opened TailPayload
  import opened MemTables
  import opened AdaptiveIngester
  import opened BlockReader
  import opened Rows
  import opened TableStates

  const NOT_REGISTERED := "Table not registered"

  function NewTable(names: seq<Str>, types: seq<nat>): TableState { TableState(names, types, [], [], None, 1) }

  function WithBatch(t: TableState, batch: Batch): TableState { t.(active := t.active + [batch]) }

  // ----- deletion

  /** Group and position in the group of a global row number, scanning from group g. */
  function Locate(groups: seq<RowGroup>, g: nat, offset: nat): (r: Option<(nat, nat)>)
    requires g <= |groups|
    ensures r.Some? ==> g <= r.value.0 < |groups| && r.value.1 < groups[r.value.0].numRows
    decreases |groups| - g
  {
    if g == |groups| then None
    else if offset < groups[g].numRows then Some((g, offset))
    else Locate(groups, g + 1, offset - groups[g].numRows)
  }

  function ClearRow(rg: RowGroup, local: nat): (r: RowGroup)
    requires Sized(rg) && local < rg.numRows
    ensures Sized(r) && r.numRows == rg.numRows
  {
    var b := local / 64;
    rg.(blocks := rg.blocks[b := rg.blocks[b].(deleteMask := rg.blocks[b].deleteMask[local % 64 := false])])
  }

  /** Rows that are only in memory cannot be deleted. */
  function WithoutRow(t: TableState, idx: nat): TableState
    requires AllSized(t.groups)
  {
    match Locate(t.groups, 0, idx)
    case None => t
    case Some((g, local)) => t.(groups := t.groups[g := ClearRow(t.groups[g], local)])
  }

  /** `mask & ~(1 << k)` clears bit k. */
  lemma ClearBit(mask: Word, k: nat)
    requires k < 64
    ensures Bic(mask, OneBit(k)) == mask[k := false]
  {
  }

  class Registry {
    var tables: map<Str, TableState>

    constructor ()
      ensures tables == map[]
    {
      tables := map[];
    }

    method RegisterTable(name: Str, names: seq<Str>, types: seq<nat>)
      modifies this
      ensures tables == old(tables)[name := NewTable(names, types)]
    {
      tables := tables[name := NewTable(names, types)];
    }

    function GetTableState(name: Str): Option<TableState>
      reads this
    {
      if name in tables then Some(tables[name]) else None
    }

    method UpdateTableState(name: Str, state: TableState)
      modifies this
      ensures tables == old(tables)[name := state]
    {
      tables := tables[name := state];
    }

    method InsertBatch(name: Str, batch: Batch) returns (r: Result<()>)
      modifies this
      ensures name !in old(tables) ==> r == Err(NOT_REGISTERED) && tables == old(tables)
      ensures name in old(tables) ==> r == Ok(()) && tables == old(tables)[name := WithBatch(old(tables)[name], batch)]
    {
      if name !in tables { return Err(NOT_REGISTERED); }
      tables := tables[name := WithBatch(tables[name], batch)];
      return Ok(());
    }

    method DeleteRow(name: Str, idx: nat) returns (r: Result<()>)
      requires name in tables ==> AllSized(tables[name].groups)
      modifies this
      ensures name !in old(tables) ==> r == Err(NOT_REGISTERED) && tables == old(tables)
      ensures name in old(tables) ==> r == Ok(()) && tables == old(tables)[name := WithoutRow(old(tables)[name], idx)]
    {
      if name !in tables { return Err(NOT_REGISTERED); }
      var state := tables[name];
      var base := 0;
      for g := 0 to |state.groups|
        invariant base <= idx && tables == old(tables)
        invariant Locate(state.groups, 0, idx) == Locate(state.groups, g, idx - base)
      {
        var rg := state.groups[g];
        if base <= idx < base + rg.numRows {
          var local := idx - base;
          var b, k := local / 64, local % 64;
          var block := rg.blocks[b];
          ClearBit(block.deleteMask, k);
          var cleared := rg.(blocks := rg.blocks[b := block.(deleteMask := Bic(block.deleteMask, OneBit(k)))]);
          tables := tables[name := state.(groups := state.groups[g := cleared])];
          return Ok(());
        }
        base := base + rg.numRows;
      }
      assert tables == old(tables)[name := state];
      return Ok(());
    }
  }

  // ----- what an insert does to the rows

  lemma BatchRowsNext(batches: seq<Batch>, batch: Batch, names: seq<Str>, types: seq<nat>)
    requires AllConform(batches, names, types) && Conforms(batch, names, types)
    ensures AllConform(batches + [batch], names, types)
    ensures BatchRows(batches + [batch], names, types) == BatchRows(batches, names, types) + RowsOf(Project(batch, names, types))
  {
    assert (batches + [batch])[..|batches + [batch]| - 1] == batches;
    hide Conforms, RowsOf, Project;
  }

  lemma InsertValid(t: TableState, batch: Batch)
    requires Valid(t) && Conforms(batch, t.names, t.types)
    ensures Valid(WithBatch(t, batch))
  {
    BatchRowsNext(t.active, batch, t.names, t.types);
    hide Stores, Sized, Conforms, BatchRows;
  }

  lemma ContentIs(t: TableState)
    requires Valid(t)
    ensures |t.names| == |t.types| && AllSized(t.groups) && AllConform(t.active, t.names, t.types)
    ensures t.frozen.Some? ==> AllConform(t.frozen.value, t.names, t.types)
    ensures Content(t) == PersistedRows(t.groups, t.types, |t.groups|) + FrozenRows(t) + BatchRows(t.active, t.names, t.types)
  {
    hide Stores, Sized, Conforms, BatchRows, FrozenRows, PersistedRows;
  }

  /** The rows of an inserted batch come last. */
  lemma InsertContent(t: TableState, batch: Batch)
    requires Valid(t) && Conforms(batch, t.names, t.types)
    ensures Valid(WithBatch(t, batch))
    ensures Content(WithBatch(t, batch)) == Content(t) + RowsOf(Project(batch, t.names, t.types))
  {
    hide Valid, Content, Conforms, PersistedRows, BatchRows, RowsOf, Project, AllConform;
    InsertValid(t, batch);
    ContentIs(t);
    ContentIs(WithBatch(t, batch));
    BatchRowsNext(t.active, batch, t.names, t.types);
    Reassociate(PersistedRows(t.groups, t.types, |t.groups|) + FrozenRows(t), BatchRows(t.active, t.names, t.types),
                RowsOf(Project(batch, t.names, t.types)));
  }

  // ----- what a delete does to the rows

  function RemoveAt(s: seq<Row>, k: nat): seq<Row>
    requires k < |s|
  {
    s[..k] + s[k + 1..]
  }

  lemma RemoveLeft(x: seq<Row>, y: seq<Row>, k: nat)
    requires k < |x|
    ensures RemoveAt(x + y, k) == RemoveAt(x, k) + y
  {
  }

  lemma RemoveRight(x: seq<Row>, y: seq<Row>, k: nat)
    requires k < |y|
    ensures RemoveAt(x + y, |x| + k) == x + RemoveAt(y, k)
  {
  }

  /** Remove at k if asked to. */
  function RemoveIf(s: seq<Row>, k: nat, alive: bool): seq<Row>
    requires alive ==> k < |s|
  {
    if alive then RemoveAt(s, k) else s
  }

  lemma RemoveIfLeft(x: seq<Row>, y: seq<Row>, k: nat, alive: bool)
    requires alive ==> k < |x|
    ensures RemoveIf(x + y, k, alive) == RemoveIf(x, k, alive) + y
  {
    if alive { RemoveLeft(x, y, k); }
  }

  lemma RemoveIfRight(x: seq<Row>, y: seq<Row>, k: nat, alive: bool)
    requires alive ==> k < |y|
    ensures RemoveIf(x + y, |x| + k, alive) == x + RemoveIf(y, k, alive)
  {
    if alive { RemoveRight(x, y, k); }
  }

  lemma ExtractIgnoresMask(x: Block, y: Block, types: seq<nat>, rows: nat, r: nat)
    requires x.columns == y.columns && x.tail == y.tail
    ensures ExtractedRow(x, types, rows, r) == ExtractedRow(y, types, rows, r)
  {
    forall f | 0 <= f < |types| ensures ExtractedCell(x, types, rows, r, f) == ExtractedCell(y, types, rows, r, f) {
      hide Readable, ReadString, ReadInt, Slot;
    }
    hide ExtractedCell;
  }

  /** Clearing bit k takes out the row at the number of alive rows before it. */
  lemma {:induction false} ClearInBlock(block: Block, types: seq<nat>, rows: nat, n: nat, k: nat)
    requires n <= 64 && k < 64
    ensures var block' := block.(deleteMask := block.deleteMask[k := false]);
            && (k >= n ==> BlockAlive(block', types, rows, n) == BlockAlive(block, types, rows, n))
            && (k < n ==>
                  && (block.deleteMask[k] ==> |BlockAlive(block, types, rows, k)| < |BlockAlive(block, types, rows, n)|)
                  && BlockAlive(block', types, rows, n)
                     == RemoveIf(BlockAlive(block, types, rows, n), |BlockAlive(block, types, rows, k)|, block.deleteMask[k]))
  {
    if n > 0 {
      var block' := block.(deleteMask := block.deleteMask[k := false]);
      var own := if block.deleteMask[n - 1] then [ExtractedRow(block, types, rows, n - 1)] else [];
      var before := BlockAlive(block, types, rows, n - 1);
      ExtractIgnoresMask(block, block', types, rows, n - 1);
      hide ExtractedRow;
      ClearInBlock(block, types, rows, n - 1, k);
      if k < n - 1 {
        RemoveIfLeft(before, own, |BlockAlive(block, types, rows, k)|, block.deleteMask[k]);
      } else if k == n - 1 {
        RemoveIfRight(before, own, 0, block.deleteMask[k]);
      }
    }
  }

  /** Alive rows of a group before a position. */
  function AliveBefore(rg: RowGroup, types: seq<nat>, local: nat): nat
    requires Sized(rg) && local < rg.numRows
  {
    |GroupAlive(rg, types, local / 64)| + |BlockAlive(rg.blocks[local / 64], types, RowsIn(rg.numRows, local / 64), local % 64)|
  }

  predicate IsAlive(rg: RowGroup, local: nat)
    requires Sized(rg) && local < rg.numRows
  {
    rg.blocks[local / 64].deleteMask[local % 64]
  }

  /** The first b blocks of a group after a delete. */
  predicate ClearedBlocks(rg: RowGroup, types: seq<nat>, local: nat, b: nat)
    requires Sized(rg) && local < rg.numRows && b <= |rg.blocks|
  {
    var before, after := GroupAlive(rg, types, b), GroupAlive(ClearRow(rg, local), types, b);
    var k, alive := AliveBefore(rg, types, local), IsAlive(rg, local);
    if b <= local / 64 then after == before else (alive ==> k < |before|) && after == RemoveIf(before, k, alive)
  }

  lemma GroupNext(rg: RowGroup, types: seq<nat>, b: nat)
    requires Sized(rg) && b < |rg.blocks|
    ensures GroupAlive(rg, types, b + 1) == GroupAlive(rg, types, b) + AliveOf(rg, types, b)
  {
  }

  lemma OtherBlock(rg: RowGroup, types: seq<nat>, local: nat, b: nat)
    requires Sized(rg) && local < rg.numRows && b < |rg.blocks| && b != local / 64
    ensures AliveOf(ClearRow(rg, local), types, b) == AliveOf(rg, types, b)
  {
  }

  lemma BlocksLater(rg: RowGroup, types: seq<nat>, local: nat, b: nat)
    requires Sized(rg) && local < rg.numRows && b < |rg.blocks| && b != local / 64 && ClearedBlocks(rg, types, local, b)
    ensures ClearedBlocks(rg, types, local, b + 1)
  {
    GroupNext(rg, types, b);
    GroupNext(ClearRow(rg, local), types, b);
    OtherBlock(rg, types, local, b);
    hide GroupAlive, AliveOf, AliveBefore, IsAlive, RemoveIf, ClearRow;
    if local / 64 < b {
      RemoveIfLeft(GroupAlive(rg, types, b), AliveOf(rg, types, b), AliveBefore(rg, types, local), IsAlive(rg, local));
    }
  }

  lemma BlocksHere(rg: RowGroup, types: seq<nat>, local: nat, b: nat)
    requires Sized(rg) && local < rg.numRows && b < |rg.blocks| && b == local / 64 && ClearedBlocks(rg, types, local, b)
    ensures ClearedBlocks(rg, types, local, b + 1)
  {
    var rows := RowsIn(rg.numRows, b);
    var before := BlockAlive(rg.blocks[b], types, rows, local % 64);
    GroupNext(rg, types, b);
    GroupNext(ClearRow(rg, local), types, b);
    ClearInBlock(rg.blocks[b], types, rows, rows, local % 64);
    hide GroupAlive, BlockAlive, RemoveIf;
    RemoveIfRight(GroupAlive(rg, types, b), AliveOf(rg, types, b), |before|, IsAlive(rg, local));
  }

  lemma {:induction false} ClearInGroup(rg: RowGroup, types: seq<nat>, local: nat, b: nat)
    requires Sized(rg) && local < rg.numRows && b <= |rg.blocks|
    ensures ClearedBlocks(rg, types, local, b)
  {
    hide *;
    if b == 0 {
      NoBlockCleared(rg, types, local);
    } else {
      ClearInGroup(rg, types, local, b - 1);
      if b - 1 == local / 64 { BlocksHere(rg, types, local, b - 1); } else { BlocksLater(rg, types, local, b - 1); }
    }
  }

  lemma NoBlockCleared(rg: RowGroup, types: seq<nat>, local: nat)
    requires Sized(rg) && local < rg.numRows
    ensures ClearedBlocks(rg, types, local, 0)
  {
  }

  /** A row of the persisted part. */
  predicate InGroups(groups: seq<RowGroup>, g: nat, local: nat) {
    AllSized(groups) && g < |groups| && local < groups[g].numRows
  }

  /** Its position among the alive persisted rows. */
  function Rank(groups: seq<RowGroup>, types: seq<nat>, g: nat, local: nat): nat
    requires InGroups(groups, g, local)
  {
    |PersistedRows(groups, types, g)| + AliveBefore(groups[g], types, local)
  }

  function Cleared(groups: seq<RowGroup>, g: nat, local: nat): (r: seq<RowGroup>)
    requires InGroups(groups, g, local)
    ensures AllSized(r) && |r| == |groups|
  {
    groups[g := ClearRow(groups[g], local)]
  }

  /** The first n groups after a delete. */
  predicate ClearedPrefix(groups: seq<RowGroup>, types: seq<nat>, g: nat, local: nat, n: nat)
    requires InGroups(groups, g, local) && n <= |groups|
  {
    var before, after := PersistedRows(groups, types, n), PersistedRows(Cleared(groups, g, local), types, n);
    var k, alive := Rank(groups, types, g, local), IsAlive(groups[g], local);
    if n <= g then after == before else (alive ==> k < |before|) && after == RemoveIf(before, k, alive)
  }

  lemma PersistedNext(groups: seq<RowGroup>, types: seq<nat>, n: nat)
    requires AllSized(groups) && n < |groups|
    ensures PersistedRows(groups, types, n + 1) == PersistedRows(groups, types, n) + GroupAlive(groups[n], types, |groups[n].blocks|)
  {
  }

  lemma ClearedLater(groups: seq<RowGroup>, types: seq<nat>, g: nat, local: nat, n: nat)
    requires InGroups(groups, g, local) && n < |groups| && n != g && ClearedPrefix(groups, types, g, local, n)
    ensures ClearedPrefix(groups, types, g, local, n + 1)
  {
    PersistedNext(groups, types, n);
    PersistedNext(Cleared(groups, g, local), types, n);
    hide PersistedRows, GroupAlive, Rank, IsAlive, RemoveIf, ClearRow;
    if g < n {
      RemoveIfLeft(PersistedRows(groups, types, n), GroupAlive(groups[n], types, |groups[n].blocks|),
                   Rank(groups, types, g, local), IsAlive(groups[g], local));
    }
  }

  lemma ClearedHere(groups: seq<RowGroup>, types: seq<nat>, g: nat, local: nat)
    requires InGroups(groups, g, local) && ClearedPrefix(groups, types, g, local, g)
    ensures ClearedPrefix(groups, types, g, local, g + 1)
  {
    var rg := groups[g];
    PersistedNext(groups, types, g);
    PersistedNext(Cleared(groups, g, local), types, g);
    LastBlock(rg, local);
    hide PersistedRows, GroupAlive, AliveBefore, IsAlive, RemoveIf, ClearRow;
    ClearInGroup(rg, types, local, |rg.blocks|);
    RemoveIfRight(PersistedRows(groups, types, g), GroupAlive(rg, types, |rg.blocks|), AliveBefore(rg, types, local), IsAlive(rg, local));
  }

  lemma {:induction false} ClearInGroups(groups: seq<RowGroup>, types: seq<nat>, g: nat, local: nat, n: nat)
    requires InGroups(groups, g, local) && n <= |groups|
    ensures ClearedPrefix(groups, types, g, local, n)
  {
    hide *;
    if n == 0 {
      NoneCleared(groups, types, g, local);
    } else {
      ClearInGroups(groups, types, g, local, n - 1);
      if n - 1 == g { ClearedHere(groups, types, g, local); } else { ClearedLater(groups, types, g, local, n - 1); }
    }
  }

  lemma NoneCleared(groups: seq<RowGroup>, types: seq<nat>, g: nat, local: nat)
    requires InGroups(groups, g, local)
    ensures ClearedPrefix(groups, types, g, local, 0)
  {
  }

  lemma LastBlock(rg: RowGroup, local: nat)
    requires Sized(rg) && local < rg.numRows
    ensures local / 64 < |rg.blocks| && |ClearRow(rg, local).blocks| == |rg.blocks|
  {
  }

  lemma ClearedStores(rg: RowGroup, names: seq<Str>, types: seq<nat>, local: nat)
    requires Sized(rg) && local < rg.numRows && Stores(rg, names, types)
    ensures Stores(ClearRow(rg, local), names, types)
  {
    var batch :| StoresBatch(rg, names, types, batch);
    hide Fits, SameKinds, PhysicalNames, PhysicalTypes, BlockOf;
    assert Holds(rg, batch);
    assert forall b :: 0 <= b < |rg.blocks| ==> HoldsBlock(rg.blocks[b], batch, b);
    assert Holds(ClearRow(rg, local), batch);
    assert StoresBatch(ClearRow(rg, local), names, types, batch);
  }

  lemma DeleteValid(t: TableState, g: nat, local: nat)
    requires Valid(t) && InGroups(t.groups, g, local)
    ensures Valid(t.(groups := Cleared(t.groups, g, local)))
  {
    ClearedStores(t.groups[g], t.names, t.types, local);
    hide Stores, AllConform, ClearRow;
  }

  /** The row stored at an address, whether alive or not. */
  function AddressedRow(groups: seq<RowGroup>, types: seq<nat>, g: nat, local: nat): Row
    requires InGroups(groups, g, local)
  {
    var b := local / 64;
    ExtractedRow(groups[g].blocks[b], types, RowsIn(groups[g].numRows, b), local % 64)
  }

  lemma {:induction false} AliveInBlock(block: Block, types: seq<nat>, rows: nat, n: nat, k: nat)
    requires k < n <= 64 && block.deleteMask[k]
    ensures |BlockAlive(block, types, rows, k)| < |BlockAlive(block, types, rows, n)|
    ensures BlockAlive(block, types, rows, n)[|BlockAlive(block, types, rows, k)|] == ExtractedRow(block, types, rows, k)
  {
    hide ExtractedRow;
    if k < n - 1 { AliveInBlock(block, types, rows, n - 1, k); }
  }

  lemma InBlock(rg: RowGroup, local: nat)
    requires Sized(rg) && local < rg.numRows
    ensures local / 64 < |rg.blocks| && (local / 64) * 64 < rg.numRows && local % 64 < RowsIn(rg.numRows, local / 64) <= 64
  {
  }

  lemma {:induction false} AliveInGroup(groups: seq<RowGroup>, types: seq<nat>, g: nat, local: nat, b: nat)
    requires InGroups(groups, g, local) && local / 64 < b <= |groups[g].blocks| && IsAlive(groups[g], local)
    ensures AliveBefore(groups[g], types, local) < |GroupAlive(groups[g], types, b)|
    ensures GroupAlive(groups[g], types, b)[AliveBefore(groups[g], types, local)] == AddressedRow(groups, types, g, local)
  {
    var rg := groups[g];
    GroupNext(rg, types, b - 1);
    InBlock(rg, local);
    if local / 64 < b - 1 {
      AliveInGroup(groups, types, g, local, b - 1);
      hide AliveBefore, GroupAlive, AliveOf, AddressedRow, IsAlive;
    } else {
      AliveInBlock(rg.blocks[b - 1], types, RowsIn(rg.numRows, b - 1), RowsIn(rg.numRows, b - 1), local % 64);
      hide BlockAlive, ExtractedRow;
    }
  }

  lemma RankIs(groups: seq<RowGroup>, types: seq<nat>, g: nat, local: nat)
    requires InGroups(groups, g, local)
    ensures Rank(groups, types, g, local) == |PersistedRows(groups, types, g)| + AliveBefore(groups[g], types, local)
    ensures AllSized(groups) && g < |groups| && local < groups[g].numRows && Sized(groups[g])
  {
  }

  /** An alive row stands among the alive ones at its rank. */
  lemma {:induction false} AliveInGroups(groups: seq<RowGroup>, types: seq<nat>, g: nat, local: nat, n: nat)
    requires InGroups(groups, g, local) && g < n <= |groups| && IsAlive(groups[g], local)
    ensures Rank(groups, types, g, local) < |PersistedRows(groups, types, n)|
    ensures PersistedRows(groups, types, n)[Rank(groups, types, g, local)] == AddressedRow(groups, types, g, local)
  {
    hide *;
    RankIs(groups, types, g, local);
    PersistedNext(groups, types, n - 1);
    if g < n - 1 {
      AliveInGroups(groups, types, g, local, n - 1);
    } else {
      InBlock(groups[g], local);
      AliveInGroup(groups, types, g, local, |groups[g].blocks|);
    }
  }

  lemma AddressedContent(t: TableState, g: nat, local: nat)
    requires Valid(t) && InGroups(t.groups, g, local) && IsAlive(t.groups[g], local)
    ensures Rank(t.groups, t.types, g, local) < |Content(t)|
    ensures Content(t)[Rank(t.groups, t.types, g, local)] == AddressedRow(t.groups, t.types, g, local)
  {
    ContentIs(t);
    AliveInGroups(t.groups, t.types, g, local, |t.groups|);
    hide Valid, Content, PersistedRows, BatchRows, FrozenRows, Rank, AddressedRow, IsAlive;
  }

  /** A delete takes out exactly the addressed row if it is still alive, and
      nothing otherwise. */
  lemma DeleteContent(t: TableState, idx: nat)
    requires Valid(t)
    ensures AllSized(t.groups) && Valid(WithoutRow(t, idx))
    ensures match Locate(t.groups, 0, idx)
            case None => Content(WithoutRow(t, idx)) == Content(t)
            case Some((g, local)) =>
              && (IsAlive(t.groups[g], local) ==>
                    Rank(t.groups, t.types, g, local) < |Content(t)|
                    && Content(t)[Rank(t.groups, t.types, g, local)] == AddressedRow(t.groups, t.types, g, local))
              && Content(WithoutRow(t, idx)) == RemoveIf(Content(t), Rank(t.groups, t.types, g, local), IsAlive(t.groups[g], local))
  {
    ContentIs(t);
    var at := Locate(t.groups, 0, idx);
    if at.Some? {
      var (g, local) := at.value;
      var rest := FrozenRows(t) + BatchRows(t.active, t.names, t.types);
      var before, k, alive := PersistedRows(t.groups, t.types, |t.groups|), Rank(t.groups, t.types, g, local), IsAlive(t.groups[g], local);
      assert WithoutRow(t, idx) == t.(groups := Cleared(t.groups, g, local));
      ClearInGroups(t.groups, t.types, g, local, |t.groups|);
      assert alive ==> k < |before|;
      assert PersistedRows(Cleared(t.groups, g, local), t.types, |t.groups|) == RemoveIf(before, k, alive);
      hide Valid, Content, PersistedRows, BatchRows, FrozenRows, Rank, IsAlive, AllConform, Cleared, WithoutRow, Locate, AddressedRow;
      if alive { AddressedContent(t, g, local); }
      DeleteValid(t, g, local);
      ContentIs(t.(groups := Cleared(t.groups, g, local)));
      FrozenUnchanged(t, Cleared(t.groups, g, local));
      Reassociate(before, FrozenRows(t), BatchRows(t.active, t.names, t.types));
      Reassociate(RemoveIf(before, k, alive), FrozenRows(t), BatchRows(t.active, t.names, t.types));
      RemoveIfLeft(before, rest, k, alive);
    }
  }

  lemma FrozenUnchanged(t: TableState, groups: seq<RowGroup>)
    requires t.frozen.Some? ==> AllConform(t.frozen.value, t.names, t.types)
    ensures FrozenRows(t.(groups := groups)) == FrozenRows(t)
  {
  }
}
