/** What a global row number addresses: the persisted rows in order, group after
    group, deleted ones included. */
module RowAddresses {
  import opened Words
  import opened Storage
  import opened MemTables
  import opened BlockReader
  import opened Rows
  import opened TableStates
  import opened MetadataRegistry

  // ----- from a number to a group and a position in it

  /** Rows of the first g groups. */
  function RowsBefore(groups: seq<RowGroup>, g: nat): nat
    requires g <= |groups|
  {
    if g == 0 then 0 else RowsBefore(groups, g - 1) + groups[g - 1].numRows
  }

  lemma {:induction false} BeforeMonotone(groups: seq<RowGroup>, g: nat, h: nat)
    requires g <= h <= |groups|
    ensures RowsBefore(groups, g) <= RowsBefore(groups, h)
    ensures g < h ==> RowsBefore(groups, g) + groups[g].numRows <= RowsBefore(groups, h)
  {
    if g < h { BeforeMonotone(groups, g, h - 1); }
  }

  lemma {:induction false} LocateFrom(groups: seq<RowGroup>, g: nat, offset: nat)
    requires g <= |groups|
    ensures match Locate(groups, g, offset)
            case None => offset + RowsBefore(groups, g) >= RowsBefore(groups, |groups|)
            case Some((h, local)) => h < |groups| && local < groups[h].numRows && offset + RowsBefore(groups, g) == RowsBefore(groups, h) + local
    decreases |groups| - g
  {
    if g < |groups| && offset >= groups[g].numRows { LocateFrom(groups, g + 1, offset - groups[g].numRows); }
  }

  /** A number addresses the row with that many rows before it, or none when there
      are not so many. */
  lemma LocateExactly(groups: seq<RowGroup>, idx: nat)
    ensures forall g: nat, local: nat ::
      Locate(groups, 0, idx) == Some((g, local)) <==> g < |groups| && local < groups[g].numRows && idx == RowsBefore(groups, g) + local
    ensures Locate(groups, 0, idx) == None <==> idx >= RowsBefore(groups, |groups|)
  {
    LocateFrom(groups, 0, idx);
    var at := Locate(groups, 0, idx);
    hide Locate;
    if at.Some? { BeforeMonotone(groups, at.value.0 + 1, |groups|); }
    forall g: nat, local: nat | g < |groups| && local < groups[g].numRows && idx == RowsBefore(groups, g) + local
      ensures at == Some((g, local))
    {
      BeforeMonotone(groups, g, |groups|);
      assert at.Some?;
      var (h, other) := at.value;
      if g < h { BeforeMonotone(groups, g, h); }
      if h < g { BeforeMonotone(groups, h, g); }
    }
  }

  // ----- all stored rows, with their flags

  datatype StoredRow = StoredRow(row: Row, alive: bool)

  function StoredAt(block: Block, types: seq<nat>, rows: nat, k: nat): StoredRow
    requires k < 64
  {
    StoredRow(ExtractedRow(block, types, rows, k), block.deleteMask[k])
  }

  /** The first n rows of a block. */
  function BlockStored(block: Block, types: seq<nat>, rows: nat, n: nat): (s: seq<StoredRow>)
    requires n <= 64
    ensures |s| == n
  {
    seq(n, k requires 0 <= k < n => StoredAt(block, types, rows, k))
  }

  /** The rows of the first b blocks of a group. */
  function GroupStored(rg: RowGroup, types: seq<nat>, b: nat): seq<StoredRow>
    requires Sized(rg) && b <= |rg.blocks|
  {
    if b == 0 then []
    else GroupStored(rg, types, b - 1) + BlockStored(rg.blocks[b - 1], types, RowsIn(rg.numRows, b - 1), RowsIn(rg.numRows, b - 1))
  }

  /** The rows of the first n groups. */
  function AllStored(groups: seq<RowGroup>, types: seq<nat>, n: nat): seq<StoredRow>
    requires AllSized(groups) && n <= |groups|
  {
    if n == 0 then [] else AllStored(groups, types, n - 1) + GroupStored(groups[n - 1], types, |groups[n - 1].blocks|)
  }

  function Living(s: seq<StoredRow>): seq<Row> {
    if s == [] then [] else Living(s[..|s| - 1]) + if s[|s| - 1].alive then [s[|s| - 1].row] else []
  }

  lemma LivingSnoc(s: seq<StoredRow>, x: StoredRow)
    ensures Living(s + [x]) == Living(s) + if x.alive then [x.row] else []
  {
    assert (s + [x])[..|s + [x]| - 1] == s;
  }

  lemma {:induction false} LivingAppend(x: seq<StoredRow>, y: seq<StoredRow>)
    ensures Living(x + y) == Living(x) + Living(y)
    decreases |y|
  {
    if y == [] {
      assert x + y == x;
    } else {
      LivingAppend(x, y[..|y| - 1]);
      assert (x + y)[..|x + y| - 1] == x + y[..|y| - 1];
    }
  }

  lemma BlockStoredNext(block: Block, types: seq<nat>, rows: nat, n: nat)
    requires n < 64
    ensures BlockStored(block, types, rows, n + 1) == BlockStored(block, types, rows, n) + [StoredAt(block, types, rows, n)]
    ensures BlockStored(block, types, rows, 0) == []
  {
    hide StoredAt;
  }

  lemma {:induction false} BlockLiving(block: Block, types: seq<nat>, rows: nat, n: nat)
    requires n <= 64
    ensures Living(BlockStored(block, types, rows, n)) == BlockAlive(block, types, rows, n)
  {
    if n > 0 {
      BlockLiving(block, types, rows, n - 1);
      BlockStoredNext(block, types, rows, n - 1);
      LivingSnoc(BlockStored(block, types, rows, n - 1), StoredAt(block, types, rows, n - 1));
      hide ExtractedRow, BlockStored, Living;
    }
  }

  lemma {:induction false} GroupLiving(rg: RowGroup, types: seq<nat>, b: nat)
    requires Sized(rg) && b <= |rg.blocks|
    ensures Living(GroupStored(rg, types, b)) == GroupAlive(rg, types, b)
    ensures |GroupStored(rg, types, b)| == Min(64 * b, rg.numRows)
  {
    if b > 0 {
      var rows := RowsIn(rg.numRows, b - 1);
      GroupLiving(rg, types, b - 1);
      BlockLiving(rg.blocks[b - 1], types, rows, rows);
      LivingAppend(GroupStored(rg, types, b - 1), BlockStored(rg.blocks[b - 1], types, rows, rows));
      hide BlockAlive, BlockStored, Living;
    }
  }

  lemma GroupStoredSize(rg: RowGroup, types: seq<nat>)
    requires Sized(rg)
    ensures |GroupStored(rg, types, |rg.blocks|)| == rg.numRows
  {
    GroupLiving(rg, types, |rg.blocks|);
    hide GroupStored, GroupAlive, Living;
  }

  lemma AllStoredNext(groups: seq<RowGroup>, types: seq<nat>, n: nat)
    requires AllSized(groups) && n < |groups|
    ensures Sized(groups[n]) && AllStored(groups, types, 0) == []
    ensures AllStored(groups, types, n + 1) == AllStored(groups, types, n) + GroupStored(groups[n], types, |groups[n].blocks|)
    ensures RowsBefore(groups, n + 1) == RowsBefore(groups, n) + groups[n].numRows
  {
    hide GroupStored, Sized;
  }

  lemma NoGroupsStored(groups: seq<RowGroup>, types: seq<nat>)
    requires AllSized(groups)
    ensures AllStored(groups, types, 0) == [] && RowsBefore(groups, 0) == 0 && Living([]) == [] == PersistedRows(groups, types, 0)
  {
  }

  /** The alive ones among all stored rows are the persisted rows of the table. */
  lemma {:induction false} PersistedLiving(groups: seq<RowGroup>, types: seq<nat>, n: nat)
    requires AllSized(groups) && n <= |groups|
    ensures Living(AllStored(groups, types, n)) == PersistedRows(groups, types, n)
    ensures |AllStored(groups, types, n)| == RowsBefore(groups, n)
  {
    hide *;
    if n == 0 {
      NoGroupsStored(groups, types);
    } else {
      var rg := groups[n - 1];
      PersistedLiving(groups, types, n - 1);
      AllStoredNext(groups, types, n - 1);
      PersistedNext(groups, types, n - 1);
      GroupLiving(rg, types, |rg.blocks|);
      GroupStoredSize(rg, types);
      LivingAppend(AllStored(groups, types, n - 1), GroupStored(rg, types, |rg.blocks|));
    }
  }

  // ----- clearing a row

  /** Stored row k is dead, the others are as before. */
  function Dead(s: seq<StoredRow>, k: nat): seq<StoredRow>
    requires k < |s|
  {
    s[k := s[k].(alive := false)]
  }

  lemma DeadLeft(x: seq<StoredRow>, y: seq<StoredRow>, k: nat)
    requires k < |x|
    ensures Dead(x + y, k) == Dead(x, k) + y
  {
  }

  lemma DeadRight(x: seq<StoredRow>, y: seq<StoredRow>, k: nat)
    requires k < |y|
    ensures Dead(x + y, |x| + k) == x + Dead(y, k)
  {
  }

  lemma BlockDies(block: Block, types: seq<nat>, rows: nat, n: nat, k: nat)
    requires k < n <= 64
    ensures BlockStored(block.(deleteMask := block.deleteMask[k := false]), types, rows, n) == Dead(BlockStored(block, types, rows, n), k)
  {
    var block' := block.(deleteMask := block.deleteMask[k := false]);
    forall i | 0 <= i < n ensures ExtractedRow(block', types, rows, i) == ExtractedRow(block, types, rows, i) {
      ExtractIgnoresMask(block', block, types, rows, i);
    }
    hide ExtractedRow;
  }

  lemma GroupStoredNext(rg: RowGroup, types: seq<nat>, b: nat)
    requires Sized(rg) && b < |rg.blocks|
    ensures GroupStored(rg, types, 0) == [] && b * 64 < rg.numRows
    ensures GroupStored(rg, types, b + 1)
            == GroupStored(rg, types, b) + BlockStored(rg.blocks[b], types, RowsIn(rg.numRows, b), RowsIn(rg.numRows, b))
  {
    hide BlockStored;
  }

  lemma ClearedBlock(rg: RowGroup, local: nat)
    requires Sized(rg) && local < rg.numRows
    ensures var b, rg' := local / 64, ClearRow(rg, local);
            && b < |rg.blocks| && |rg'.blocks| == |rg.blocks| && rg'.numRows == rg.numRows && Sized(rg')
            && rg'.blocks[b] == rg.blocks[b].(deleteMask := rg.blocks[b].deleteMask[local % 64 := false])
            && forall i :: 0 <= i < |rg.blocks| && i != b ==> rg'.blocks[i] == rg.blocks[i]
  {
  }

  lemma Position(local: nat, b: nat)
    requires b == local / 64
    ensures local == 64 * b + local % 64
  {
  }

  /** Deleting position `local` of a group flags that stored row and no other. */
  lemma {:induction false} GroupDies(rg: RowGroup, types: seq<nat>, local: nat, b: nat)
    requires Sized(rg) && local < rg.numRows && b <= |rg.blocks| && |ClearRow(rg, local).blocks| == |rg.blocks|
    ensures b > local / 64 ==> local < |GroupStored(rg, types, b)|
    ensures GroupStored(ClearRow(rg, local), types, b)
            == if b > local / 64 then Dead(GroupStored(rg, types, b), local) else GroupStored(rg, types, b)
  {
    hide *;
    ClearedBlock(rg, local);
    if b == 0 {
      NoBlocksStored(rg, types);
      NoBlocksStored(ClearRow(rg, local), types);
    } else {
      var c := b - 1;
      GroupDies(rg, types, local, c);
      GroupStoredNext(rg, types, c);
      var rows := RowsIn(rg.numRows, c);
      GroupStoredNext(ClearRow(rg, local), types, c);
      var before, own := GroupStored(rg, types, c), BlockStored(rg.blocks[c], types, rows, rows);
      if c == local / 64 {
        StoredSoFar(rg, types, c);
        InBlock(rg, local);
        Position(local, c);
        BlockDies(rg.blocks[c], types, rows, rows, local % 64);
        DeadRight(before, own, local % 64);
      } else if c > local / 64 {
        DeadLeft(before, own, local);
      }
    }
  }

  lemma NoBlocksStored(rg: RowGroup, types: seq<nat>)
    requires Sized(rg)
    ensures GroupStored(rg, types, 0) == []
  {
  }

  lemma StoredSoFar(rg: RowGroup, types: seq<nat>, b: nat)
    requires Sized(rg) && b < |rg.blocks|
    ensures |GroupStored(rg, types, b)| == 64 * b
  {
    GroupLiving(rg, types, b);
    hide GroupStored, GroupAlive, Living;
  }

  lemma ClearedGroups(groups: seq<RowGroup>, g: nat, local: nat)
    requires InGroups(groups, g, local)
    ensures AllSized(Cleared(groups, g, local)) && |Cleared(groups, g, local)| == |groups| && g < |groups| && local < groups[g].numRows
    ensures Sized(groups[g]) && |ClearRow(groups[g], local).blocks| == |groups[g].blocks| && AllSized(groups)
    ensures Cleared(groups, g, local)[g] == ClearRow(groups[g], local)
    ensures forall i :: 0 <= i < |groups| && i != g ==> Cleared(groups, g, local)[i] == groups[i]
  {
    LastBlock(groups[g], local);
  }

  /** Among the stored rows of all groups the delete flags the one with as many rows
      before it as its address says. */
  lemma {:induction false} StoredDies(groups: seq<RowGroup>, types: seq<nat>, g: nat, local: nat, n: nat)
    requires InGroups(groups, g, local) && n <= |groups| == |Cleared(groups, g, local)| && AllSized(Cleared(groups, g, local))
    ensures n > g ==> RowsBefore(groups, g) + local < |AllStored(groups, types, n)|
    ensures AllStored(Cleared(groups, g, local), types, n)
            == if n > g then Dead(AllStored(groups, types, n), RowsBefore(groups, g) + local) else AllStored(groups, types, n)
  {
    hide *;
    ClearedGroups(groups, g, local);
    var groups' := Cleared(groups, g, local);
    if n == 0 {
      NoGroupsStored(groups, types);
      NoGroupsStored(groups', types);
    } else {
      var m := n - 1;
      StoredDies(groups, types, g, local, m);
      AllStoredNext(groups, types, m);
      AllStoredNext(groups', types, m);
      var before, own := AllStored(groups, types, m), GroupStored(groups[m], types, |groups[m].blocks|);
      if m == g {
        PersistedLiving(groups, types, m);
        LastBlock(groups[g], local);
        GroupDies(groups[g], types, local, |groups[g].blocks|);
        DeadRight(before, own, local);
      } else if m > g {
        DeadLeft(before, own, RowsBefore(groups, g) + local);
      }
    }
  }

  // ----- deleting by number

  /** The rows of a table: the alive stored ones, then those in memory. */
  ghost function InMemory(t: TableState): seq<Row>
    requires Valid(t)
  {
    ContentIs(t);
    FrozenRows(t) + BatchRows(t.active, t.names, t.types)
  }

  lemma ContentStored(t: TableState)
    requires Valid(t)
    ensures AllSized(t.groups)
    ensures Content(t) == Living(AllStored(t.groups, t.types, |t.groups|)) + InMemory(t)
    ensures |AllStored(t.groups, t.types, |t.groups|)| == RowsBefore(t.groups, |t.groups|)
  {
    hide *;
    ContentIs(t);
    PersistedLiving(t.groups, t.types, |t.groups|);
    InMemoryIs(t);
    Reassociate(PersistedRows(t.groups, t.types, |t.groups|), FrozenRows(t), BatchRows(t.active, t.names, t.types));
  }

  lemma InMemoryIs(t: TableState)
    requires Valid(t)
    ensures |t.names| == |t.types| && AllConform(t.active, t.names, t.types) && (t.frozen.Some? ==> AllConform(t.frozen.value, t.names, t.types))
    ensures InMemory(t) == FrozenRows(t) + BatchRows(t.active, t.names, t.types)
  {
    ContentIs(t);
    hide Valid, Content, FrozenRows, BatchRows, AllConform;
  }

  lemma WithoutIs(t: TableState, idx: nat)
    requires AllSized(t.groups)
    ensures Locate(t.groups, 0, idx).None? ==> WithoutRow(t, idx) == t
    ensures Locate(t.groups, 0, idx).Some? ==>
      var (g, local) := Locate(t.groups, 0, idx).value;
      InGroups(t.groups, g, local) && WithoutRow(t, idx) == t.(groups := Cleared(t.groups, g, local))
  {
    hide ClearRow, Sized;
  }

  lemma MemoryKept(t: TableState, groups: seq<RowGroup>)
    requires Valid(t) && Valid(t.(groups := groups))
    ensures InMemory(t.(groups := groups)) == InMemory(t)
  {
    InMemoryIs(t);
    InMemoryIs(t.(groups := groups));
    hide Valid, BatchRows;
  }

  /** Deleting row number idx flags the idx-th stored row of the persisted groups,
      deleted ones counted, and changes nothing else; beyond them it does nothing. */
  lemma DeleteByNumber(t: TableState, idx: nat)
    requires Valid(t)
    ensures AllSized(t.groups) && Valid(WithoutRow(t, idx))
    ensures |AllStored(t.groups, t.types, |t.groups|)| == RowsBefore(t.groups, |t.groups|)
    ensures Content(WithoutRow(t, idx)) ==
            Living(if idx < RowsBefore(t.groups, |t.groups|) then Dead(AllStored(t.groups, t.types, |t.groups|), idx)
                   else AllStored(t.groups, t.types, |t.groups|)) + InMemory(t)
  {
    hide *;
    ContentStored(t);
    LocateExactly(t.groups, idx);
    WithoutIs(t, idx);
    DeleteContent(t, idx);
    var at := Locate(t.groups, 0, idx);
    if at.Some? {
      var (g, local) := at.value;
      ClearedGroups(t.groups, g, local);
      StoredDies(t.groups, t.types, g, local, |t.groups|);
      ContentStored(WithoutRow(t, idx));
      MemoryKept(t, Cleared(t.groups, g, local));
    }
  }

  predicate NothingDeleted(groups: seq<RowGroup>) {
    forall g, b :: 0 <= g < |groups| && 0 <= b < |groups[g].blocks| ==> groups[g].blocks[b].deleteMask == ONES
  }

  predicate AllAlive(s: seq<StoredRow>) { forall i :: 0 <= i < |s| ==> s[i].alive }

  lemma {:induction false} GroupAllAlive(rg: RowGroup, types: seq<nat>, b: nat)
    requires Sized(rg) && b <= |rg.blocks| && forall i :: 0 <= i < |rg.blocks| ==> rg.blocks[i].deleteMask == ONES
    ensures AllAlive(GroupStored(rg, types, b))
  {
    hide ExtractedRow;
    if b > 0 { GroupAllAlive(rg, types, b - 1); }
  }

  lemma {:induction false} StoredAllAlive(groups: seq<RowGroup>, types: seq<nat>, n: nat)
    requires AllSized(groups) && NothingDeleted(groups) && n <= |groups|
    ensures AllAlive(AllStored(groups, types, n))
  {
    hide GroupStored, Sized;
    if n > 0 {
      StoredAllAlive(groups, types, n - 1);
      assert Sized(groups[n - 1]);
      GroupAllAlive(groups[n - 1], types, |groups[n - 1].blocks|);
    }
  }

  lemma {:induction false} LivingAll(s: seq<StoredRow>)
    requires AllAlive(s)
    ensures |Living(s)| == |s|
  {
    if s != [] { LivingAll(s[..|s| - 1]); }
  }

  /** With one dead row among alive ones, just that row is missing. */
  lemma LivingButOne(s: seq<StoredRow>, k: nat)
    requires AllAlive(s) && k < |s|
    ensures k < |Living(s)| && Living(Dead(s, k)) == RemoveAt(Living(s), k)
  {
    var x, y := s[..k], s[k + 1..];
    assert s == (x + [s[k]]) + y;
    assert Dead(s, k) == (x + [s[k].(alive := false)]) + y;
    hide Living;
    LivingAppend(x + [s[k]], y);
    LivingAppend(x + [s[k].(alive := false)], y);
    LivingSnoc(x, s[k]);
    LivingSnoc(x, s[k].(alive := false));
    LivingAll(x);
    RemoveMiddle(Living(x), s[k].row, Living(y));
  }

  lemma RemoveMiddle(x: seq<Row>, row: Row, y: seq<Row>)
    ensures RemoveAt((x + [row]) + y, |x|) == (x + []) + y
  {
  }

  /** On a table without deletions, deleting number idx removes the idx-th row. */
  lemma FirstDelete(t: TableState, idx: nat)
    requires Valid(t) && NothingDeleted(t.groups) && idx < RowsBefore(t.groups, |t.groups|)
    ensures AllSized(t.groups) && Valid(WithoutRow(t, idx)) && idx < |Content(t)|
    ensures Content(WithoutRow(t, idx)) == RemoveAt(Content(t), idx)
  {
    hide *;
    ContentStored(t);
    DeleteByNumber(t, idx);
    var s := AllStored(t.groups, t.types, |t.groups|);
    StoredAllAlive(t.groups, t.types, |t.groups|);
    LivingAll(s);
    LivingButOne(s, idx);
    RemoveLeft(Living(s), InMemory(t), idx);
  }
}
