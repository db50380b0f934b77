/** The end-to-end statement: planning, compiling and executing a conjunction on
    an ingested table gives the count and the sum of row-by-row execution. */
module QueryRefinement {
  import opened Words
  import opened SimdTransposer
  import opened Storage
  import opened TailPayload
  import opened MemTables
  import opened AdaptiveIngester
  import opened BlockReader
  import opened MicroOps
  import opened MicroOpCompiler
  import opened QueryPlanner
  import opened PlanMeaning
  import opened Prefilter
  import opened NumericTests
  import opened ColumnLookup
  import opened QueryRunner
  import opened Rows
  import opened StoredRows

  // ----- counts and sums over rows

  /** On every row that is not deleted the compiled verdict is the reference verdict. */
  ghost predicate Agreeing(s: Setting)
    requires s.batch.Valid() && |s.rg.blocks| == NumBlocks(s.batch.numRows)
  {
    forall r :: 0 <= r < s.batch.numRows && AliveBits(s.rg)[r] ==>
      (StoredRow(s.batch, s.preds, r) <==> Matches(s.batch.names, RowAt(s.batch, r), s.preds))
  }

  /** Every cell a predicate looks at is safe, on rows that are not deleted. */
  ghost predicate SafeRows(s: Setting)
    requires s.batch.Valid() && |s.rg.blocks| == NumBlocks(s.batch.numRows)
  {
    forall r, i :: 0 <= r < s.batch.numRows && AliveBits(s.rg)[r] && 0 <= i < |s.preds| ==>
      Placed(s.batch, s.preds[i]) && Safe(CellOf(s.batch, s.preds[i], r), s.preds[i])
  }

  lemma SatisfiesCell(batch: Batch, pred: Predicate, r: nat)
    requires batch.Valid() && Placed(batch, pred) && r < batch.numRows
    ensures Satisfies(batch.names, RowAt(batch, r), pred) == CellMatches(CellOf(batch, pred, r), pred)
  {
    hide CellMatches;
  }

  lemma SafeRowAgrees(s: Setting, r: nat)
    requires AllWellKinded(s.preds) && s.batch.Valid() && r < s.batch.numRows
    requires forall i :: 0 <= i < |s.preds| ==> Placed(s.batch, s.preds[i]) && Safe(CellOf(s.batch, s.preds[i], r), s.preds[i])
    ensures StoredRow(s.batch, s.preds, r) <==> Matches(s.batch.names, RowAt(s.batch, r), s.preds)
  {
    forall i | 0 <= i < |s.preds|
      ensures Satisfies(s.batch.names, RowAt(s.batch, r), s.preds[i])
              == (Placed(s.batch, s.preds[i]) && StoredMatches(CellOf(s.batch, s.preds[i], r), s.preds[i]))
    {
      hide Safe, StoredMatches, CellMatches;
      SafeExact(CellOf(s.batch, s.preds[i], r), s.preds[i]);
      SatisfiesCell(s.batch, s.preds[i], r);
    }
    hide Satisfies, Placed, StoredMatches, CellOf;
  }

  lemma SafeRowsAgree(s: Setting)
    requires InDomain(s) && s.batch.Valid() && |s.rg.blocks| == NumBlocks(s.batch.numRows) && SafeRows(s)
    ensures Agreeing(s)
  {
    DomainAll(s);
    hide InDomain, StoredRow, Matches, RowAt, Safe, Placed, CellOf, AliveBits, Batch.Valid, AllWellKinded;
    forall r | 0 <= r < s.batch.numRows && AliveBits(s.rg)[r]
      ensures StoredRow(s.batch, s.preds, r) <==> Matches(s.batch.names, RowAt(s.batch, r), s.preds)
    {
      SafeRowAgrees(s, r);
    }
  }

  /** The aggregate is absent, or a numeric column whose values fit the planned planes. */
  ghost predicate AggregateInDomain(s: Setting)
    requires s.batch.Valid() && WellShaped(s.plan)
  {
    s.agg == [] ||
    var f, p := FindColumn(s.batch.names, s.agg), FirstIndex(s.plan.columnNames, s.agg);
    && f.Some? && s.batch.columns[f.value].Ints? && Reachable(s.batch, f.value) && p.Some?
    && forall r :: 0 <= r < s.batch.numRows ==>
         StoredNumber(s.batch.columns[f.value].ints[r]) < Pow2(HighestPlane(s.plan.blocks, p.value, 64) + 1)
  }

  function MaskSum(run: Runner, block: Block, mask: Word, k: nat): nat
    requires run.maxAggBit < 64 && (run.aggIndex.Some? ==> run.aggIndex.value < |block.columns|) && k <= 64
  {
    if run.aggIndex.None? then 0 else LaneSum(mask, block.columns[run.aggIndex.value].planes, run.maxAggBit + 1, k)
  }

  function AggValue(s: Setting, r: nat): int
    requires s.batch.Valid() && r < s.batch.numRows
  {
    Contribution(s.batch.names, RowAt(s.batch, r), s.agg)
  }

  lemma FitsWidth(x: nat, k: nat)
    requires k <= 64 && x < Pow2(k)
    ensures Value(WordOf(x)[..k]) == x
  {
    LowBits(x, k);
    SmallModulo(x, Pow2(k));
    hide WordOf, Value, Pow2;
  }

  lemma WrapPlus(a: int, x: int, y: int)
    requires Wrap(x) == Wrap(y)
    ensures Wrap(a + x) == Wrap(a + y)
  {
    WrapAdd(x, a);
    WrapAdd(y, a);
    hide Wrap;
  }

  lemma WrapUnsigned(n: int64)
    ensures Wrap(Unsigned(n)) == Wrap(n)
  {
    if n < 0 { WrapUnique(n, -1, n + TWO_64); }
  }

  /** What the planes below maxAggBit hold for a row is what the row contributes, modulo 2^64. */
  lemma AggregateOnRow(s: Setting, run: Runner, b: nat, r: nat)
    requires Ready(s, run) && s.agg != [] && RowIn(s, b, r) && WellShaped(s.plan) && AggregateInDomain(s)
    ensures run.aggIndex.Some? && run.aggIndex.value < |s.rg.blocks[b].columns| && run.maxAggBit < 64
    ensures b * 64 + r < s.batch.numRows
    ensures Wrap(Value(Lane(s.rg.blocks[b].columns[run.aggIndex.value], r)[..run.maxAggBit + 1])) == Wrap(AggValue(s, b * 64 + r))
  {
    hide *;
    RowInside(s, b, r);
    var ops := ReadyParts(s, run);
    RunnerParallel(s, run);
    var v := AggregateCell(s, run, b, r);
    StoredInt(v);
    FitsWidth(StoredNumber(v), run.maxAggBit + 1);
    WrapStored(v);
  }

  lemma WrapStored(v: Option<int64>)
    ensures Wrap(StoredNumber(v)) == Wrap(if v.Some? then v.value else 0)
  {
    if v.Some? { WrapUnsigned(v.value); }
  }

  lemma AggregateCell(s: Setting, run: Runner, b: nat, r: nat) returns (v: Option<int64>)
    requires InDomain(s) && s.agg != [] && RowIn(s, b, r) && WellShaped(s.plan) && AggregateInDomain(s)
    requires var p := FirstIndex(s.plan.columnNames, s.agg);
             p.Some? && p.value < |s.plan.columnNames| && run.aggIndex == p && run.maxAggBit == HighestPlane(s.plan.blocks, p.value, 64)
    ensures run.aggIndex.Some? && run.aggIndex.value < |s.rg.blocks[b].columns| && run.maxAggBit < 64
    ensures b * 64 + r < s.batch.numRows
    ensures Lane(s.rg.blocks[b].columns[run.aggIndex.value], r) == IntWord(v) && StoredNumber(v) < Pow2(run.maxAggBit + 1)
    ensures AggValue(s, b * 64 + r) == if v.Some? then v.value else 0
  {
    RowInside(s, b, r);
    var f := FindColumn(s.batch.names, s.agg).value;
    v := s.batch.columns[f].ints[b * 64 + r];
    assert HoldsBlock(s.rg.blocks[b], s.batch, b);
    assert s.plan.columnNames == PhysicalNames(s.batch, |s.batch.names|);
    hide InDomain, Holds, HoldsBlock, HighestPlane, FirstIndex, PhysicalNames, PhysicalIndex, Lane, LaneValid, Unshadowed, StoredNumber, Pow2;
    LookupData(s.batch, f);
    FirstTile(s.rg.blocks[b], s.batch, b, f, r);
    ContributionOf(s.batch, s.agg, f, b * 64 + r);
    AboveHighest(s.plan.blocks, run.aggIndex.value, 64);
  }

  /** Everything the theorem asks for. */
  ghost predicate Refinable(s: Setting, run: Runner) {
    && Ready(s, run) && s.batch.Valid() && WellShaped(s.plan) && |s.rg.blocks| == NumBlocks(s.batch.numRows)
    && s.rg.numRows == s.batch.numRows
    && Agreeing(s) && AggregateInDomain(s)
  }

  /** Count and sum over the rows kept among the first n. */
  function CountKept(s: Setting, n: nat): nat
    requires s.batch.Valid() && n <= s.batch.numRows && |s.rg.blocks| == NumBlocks(s.batch.numRows)
  {
    MatchCount(s.batch.names, Kept(s.batch, AliveBits(s.rg), n), s.preds)
  }

  function SumKept(s: Setting, n: nat): int
    requires s.batch.Valid() && n <= s.batch.numRows && |s.rg.blocks| == NumBlocks(s.batch.numRows)
  {
    MatchSum(s.batch.names, Kept(s.batch, AliveBits(s.rg), n), s.preds, s.agg)
  }

  /** The row is kept and matches. */
  predicate Counted(s: Setting, n: nat)
    requires s.batch.Valid() && n < s.batch.numRows && |s.rg.blocks| == NumBlocks(s.batch.numRows)
  {
    AliveBits(s.rg)[n] && Matches(s.batch.names, RowAt(s.batch, n), s.preds)
  }

  lemma KeptCounts(s: Setting, n: nat)
    requires s.batch.Valid() && n < s.batch.numRows && |s.rg.blocks| == NumBlocks(s.batch.numRows)
    ensures CountKept(s, n + 1) == CountKept(s, n) + if Counted(s, n) then 1 else 0
    ensures SumKept(s, n + 1) == SumKept(s, n) + if Counted(s, n) then AggValue(s, n) else 0
  {
    hide MatchCount, MatchSum, Kept, Matches, RowAt, Contribution;
    KeptStep(s.batch, AliveBits(s.rg), n, s.preds, s.agg);
  }

  lemma RefinableParts(s: Setting, run: Runner)
    requires Refinable(s, run)
    ensures Ready(s, run) && s.batch.Valid() && WellShaped(s.plan) && |s.rg.blocks| == NumBlocks(s.batch.numRows)
    ensures s.rg.numRows == s.batch.numRows && AggregateInDomain(s) && Agreeing(s)
  {
    hide Ready, WellShaped, AggregateInDomain, Agreeing;
  }

  lemma AgreesOn(s: Setting, n: nat)
    requires s.batch.Valid() && |s.rg.blocks| == NumBlocks(s.batch.numRows) && Agreeing(s) && n < s.batch.numRows
    ensures AliveBits(s.rg)[n] && StoredRow(s.batch, s.preds, n) <==> Counted(s, n)
  {
    hide StoredRow, Matches, RowAt, AliveBits;
  }

  lemma LaneCounted(s: Setting, run: Runner, ctx: Context, b: nat, r: nat)
    requires Refinable(s, run) && RowIn(s, b, r) && Room(ctx, s.rg.blocks[b].columns)
    ensures Parallel(run) && s.batch.Valid() && |s.rg.blocks| == NumBlocks(s.batch.numRows) && b * 64 + r < s.batch.numRows
    ensures Matched(run, s.rg.blocks[b], RowsIn(s.batch.numRows, b), ctx)[r] == Counted(s, b * 64 + r)
  {
    hide *;
    RowInside(s, b, r);
    RefinableParts(s, run);
    RunnerParallel(s, run);
    MatchedOnRow(s, run, ctx, b, r);
    AliveBit(s.rg, b, r);
    AgreesOn(s, b * 64 + r);
  }

  /** The aggregate of a runner fits a block. */
  predicate Summable(run: Runner, block: Block) {
    run.maxAggBit < 64 && (run.aggIndex.Some? ==> run.aggIndex.value < |block.columns|)
  }

  lemma SummableBlock(s: Setting, run: Runner, b: nat)
    requires Refinable(s, run) && b < |s.rg.blocks|
    ensures Summable(run, s.rg.blocks[b])
  {
    hide *;
    RefinableParts(s, run);
    var ops := ReadyParts(s, run);
    RunnerParallel(s, run);
    TilesCount(s, b);
    SummableWhen(run, s.plan, s.rg.blocks[b], s.agg);
  }

  lemma SummableWhen(run: Runner, plan: RowGroup, block: Block, agg: Str)
    requires WellShaped(plan) && |block.columns| == |plan.columnNames|
    requires agg == [] ==> run.aggIndex == None && run.maxAggBit == 0
    requires agg != [] ==> var p := FirstIndex(plan.columnNames, agg);
                           p.Some? && p.value < |plan.columnNames| && run.aggIndex == p && run.maxAggBit == HighestPlane(plan.blocks, p.value, 64)
    ensures Summable(run, block)
  {
    hide FirstIndex, HighestPlane;
    if agg != [] { AboveHighest(plan.blocks, run.aggIndex.value, 64); }
  }

  lemma MaskSumNext(run: Runner, block: Block, mask: Word, k: nat)
    requires Summable(run, block) && k < 64
    ensures MaskSum(run, block, mask, k + 1) == MaskSum(run, block, mask, k) +
            if mask[k] && run.aggIndex.Some? then Value(Lane(block.columns[run.aggIndex.value], k)[..run.maxAggBit + 1]) else 0
  {
    hide Value, Transposed;
  }

  lemma NoAggregate(s: Setting, run: Runner, n: nat)
    requires Refinable(s, run) && s.agg == [] && s.batch.Valid() && n < s.batch.numRows
    ensures run.aggIndex.None? && AggValue(s, n) == 0
  {
    assert Ready(s, run);
    hide Refinable, RowAt;
    var ops := ReadyParts(s, run);
    hide Ready, InDomain;
  }

  lemma SumNext(s: Setting, run: Runner, b: nat, r: nat, mask: Word)
    requires Refinable(s, run) && RowIn(s, b, r) && Summable(run, s.rg.blocks[b]) && r < 64 && b * 64 + r < s.batch.numRows && s.batch.Valid()
    requires mask[r]
    ensures Wrap(MaskSum(run, s.rg.blocks[b], mask, r + 1))
            == Wrap(MaskSum(run, s.rg.blocks[b], mask, r) + AggValue(s, b * 64 + r))
  {
    hide *;
    RowInside(s, b, r);
    RefinableParts(s, run);
    SummableParts(run, s.rg.blocks[b]);
    MaskSumNext(run, s.rg.blocks[b], mask, r);
    if s.agg == [] {
      NoAggregate(s, run, b * 64 + r);
    } else {
      AggregateOnRow(s, run, b, r);
      WrapPlus(MaskSum(run, s.rg.blocks[b], mask, r),
               Value(Lane(s.rg.blocks[b].columns[run.aggIndex.value], r)[..run.maxAggBit + 1]), AggValue(s, b * 64 + r));
    }
  }

  lemma SummableParts(run: Runner, block: Block)
    requires Summable(run, block)
    ensures run.maxAggBit < 64 && (run.aggIndex.Some? ==> run.aggIndex.value < |block.columns|)
  {
  }

  /** What the first k lanes of a block add. */
  lemma {:induction false} BlockProgress(s: Setting, run: Runner, ctx: Context, b: nat, k: nat, mask: Word)
    requires Refinable(s, run) && Parallel(run) && b < |s.rg.blocks| && Room(ctx, s.rg.blocks[b].columns)
    requires s.batch.Valid() && b * 64 < s.batch.numRows && k <= RowsIn(s.batch.numRows, b)
    requires |s.rg.blocks| == NumBlocks(s.batch.numRows) && Summable(run, s.rg.blocks[b])
    requires mask == Matched(run, s.rg.blocks[b], RowsIn(s.batch.numRows, b), ctx)
    ensures CountKept(s, b * 64 + k) == CountKept(s, b * 64) + Popcount(mask[..k])
    ensures Wrap(SumKept(s, b * 64 + k)) == Wrap(SumKept(s, b * 64) + MaskSum(run, s.rg.blocks[b], mask, k))
  {
    hide *;
    SummableParts(run, s.rg.blocks[b]);
    if k == 0 {
      NothingYet(run, s.rg.blocks[b], mask);
    } else {
      var n, block := b * 64 + (k - 1), s.rg.blocks[b];
      BlockProgress(s, run, ctx, b, k - 1, mask);
      RowIsIn(s, b, k - 1);
      LaneCounted(s, run, ctx, b, k - 1);
      KeptCounts(s, n);
      PopcountLow(mask, k - 1);
      MaskSumNext(run, block, mask, k - 1);
      if mask[k - 1] {
        SumNext(s, run, b, k - 1, mask);
        WrapStep(SumKept(s, b * 64), SumKept(s, n), MaskSum(run, block, mask, k - 1), AggValue(s, n), MaskSum(run, block, mask, k));
      }
    }
  }

  lemma RowIsIn(s: Setting, b: nat, r: nat)
    requires s.batch.Valid() && b < |s.rg.blocks| && b * 64 < s.batch.numRows && r < RowsIn(s.batch.numRows, b)
    ensures RowIn(s, b, r)
  {
  }

  lemma NothingYet(run: Runner, block: Block, mask: Word)
    requires Summable(run, block)
    ensures Popcount(mask[..0]) == 0 && MaskSum(run, block, mask, 0) == 0
  {
  }

  lemma WrapStep(start: int, sum: int, low: int, value: int, next: int)
    requires Wrap(sum) == Wrap(start + low) && Wrap(next) == Wrap(low + value)
    ensures Wrap(sum + value) == Wrap(start + next)
  {
    WrapPlus(value, sum, start + low);
    WrapPlus(start, next, low + value);
    hide Wrap;
  }

  // ----- the whole row group

  lemma MaskBeyond(run: Runner, block: Block, rows: nat, ctx: Context, r: nat)
    requires Parallel(run) && rows <= r < 64
    ensures !Matched(run, block, rows, ctx)[r]
  {
    hide *;
    FinalLane(run, block, rows, ctx, r);
  }

  lemma {:induction false} ClearBeyond(mask: Word, rows: nat, k: nat)
    requires rows <= k <= 64 && forall r :: rows <= r < 64 ==> !mask[r]
    ensures Popcount(mask[..k]) == Popcount(mask[..rows])
  {
    if k > rows {
      ClearBeyond(mask, rows, k - 1);
      PopcountLow(mask, k - 1);
    }
  }

  lemma {:induction false} SumBeyond(run: Runner, block: Block, mask: Word, rows: nat, k: nat)
    requires Summable(run, block) && rows <= k <= 64 && forall r :: rows <= r < 64 ==> !mask[r]
    ensures MaskSum(run, block, mask, k) == MaskSum(run, block, mask, rows)
  {
    if k > rows {
      SumBeyond(run, block, mask, rows, k - 1);
      MaskSumNext(run, block, mask, k - 1);
      hide MaskSum, Value;
    }
  }

  lemma BlockSumIs(run: Runner, block: Block, mask: Word)
    requires Summable(run, block)
    ensures BlockSum(run, block, mask) == MaskSum(run, block, mask, 64)
    ensures mask[..64] == mask
  {
  }

  /** What a block adds. */
  lemma BlockAdds(s: Setting, run: Runner, ctx: Context, b: nat)
    requires Refinable(s, run) && Parallel(run) && b < |s.rg.blocks| && Room(ctx, s.rg.blocks[b].columns)
    requires s.batch.Valid() && b * 64 < s.batch.numRows
    requires |s.rg.blocks| == NumBlocks(s.batch.numRows) && Summable(run, s.rg.blocks[b])
    ensures var rows := RowsIn(s.batch.numRows, b); var mask := Matched(run, s.rg.blocks[b], rows, ctx);
            && CountKept(s, b * 64 + rows) == CountKept(s, b * 64) + Popcount(mask)
            && Wrap(SumKept(s, b * 64 + rows)) == Wrap(SumKept(s, b * 64) + BlockSum(run, s.rg.blocks[b], mask))
  {
    hide *;
    SummableParts(run, s.rg.blocks[b]);
    var rows := RowsIn(s.batch.numRows, b);
    var mask := Matched(run, s.rg.blocks[b], rows, ctx);
    BlockProgress(s, run, ctx, b, rows, mask);
    forall r | rows <= r < 64 ensures !mask[r] { MaskBeyond(run, s.rg.blocks[b], rows, ctx, r); }
    ClearBeyond(mask, rows, 64);
    SumBeyond(run, s.rg.blocks[b], mask, rows, 64);
    BlockSumIs(run, s.rg.blocks[b], mask);
  }

  predicate Roomy(rg: RowGroup, ctxs: seq<Context>) {
    |ctxs| == |rg.blocks| && forall b :: 0 <= b < |ctxs| ==> Room(ctxs[b], rg.blocks[b].columns)
  }

  lemma RoomAt(rg: RowGroup, ctxs: seq<Context>, b: nat)
    requires Roomy(rg, ctxs) && b < |ctxs|
    ensures |ctxs| == |rg.blocks| && Room(ctxs[b], rg.blocks[b].columns)
  {
  }

  lemma BlockExecutable(s: Setting, run: Runner, ctxs: seq<Context>, b: nat)
    requires Refinable(s, run) && Roomy(s.rg, ctxs) && b < |s.rg.blocks| == |ctxs|
    ensures ExecutableBlock(run, s.rg, ctxs, b)
  {
    hide *;
    RefinableParts(s, run);
    RunnerParallel(s, run);
    SummableBlock(s, run, b);
    SummableParts(run, s.rg.blocks[b]);
    var block, rows := s.rg.blocks[b], RowsIn(s.rg.numRows, b);
    forall r | 0 <= r < 64 && Candidates(run, block, rows, ctxs[b])[r]
      ensures TextsAt(run, block.tail, rows, r)
    {
      FinalLane(run, block, rows, ctxs[b], r);
      RowIsIn(s, b, r);
      VerifiedOnRow(s, run, b, r);
      TextsAtWhen(run, block.tail, rows, r);
    }
    ExecutableWhen(run, s.rg, ctxs, b);
  }

  predicate TextsAt(run: Runner, tail: Str, rows: nat, r: nat) {
    forall p :: 0 <= p < |run.stringCols| ==> Readable(tail, Slot(run.stringCols[p], rows, r))
  }

  lemma TextsAtWhen(run: Runner, tail: Str, rows: nat, r: nat)
    requires forall p :: 0 <= p < |run.stringCols| ==> Readable(tail, Slot(run.stringCols[p], rows, r))
    ensures TextsAt(run, tail, rows, r)
  {
  }

  lemma ExecutableWhen(run: Runner, rg: RowGroup, ctxs: seq<Context>, b: nat)
    requires Parallel(run) && b < |rg.blocks| == |ctxs| && b * 64 < rg.numRows && Summable(run, rg.blocks[b])
    requires var rows := RowsIn(rg.numRows, b);
             forall r :: 0 <= r < 64 && Candidates(run, rg.blocks[b], rows, ctxs[b])[r] ==> TextsAt(run, rg.blocks[b].tail, rows, r)
    ensures ExecutableBlock(run, rg, ctxs, b)
  {
    hide Candidates, Readable, Slot;
  }

  lemma GroupExecutable(s: Setting, run: Runner, ctxs: seq<Context>)
    requires Refinable(s, run) && Roomy(s.rg, ctxs)
    ensures Executable(run, s.rg, ctxs)
  {
    RefinableParts(s, run);
    RunnerParallel(s, run);
    assert |ctxs| == |s.rg.blocks|;
    hide Refinable, Ready, Agreeing, AggregateInDomain, ExecutableBlock, InDomain, Roomy, WellShaped, Batch.Valid;
    var ops := ReadyParts(s, run);
    if s.agg != [] {
      PlanTiles(s.plan, run.aggIndex.value);
      AboveHighest(s.plan.blocks, run.aggIndex.value, 64);
    }
    forall b | 0 <= b < |s.rg.blocks| ensures ExecutableBlock(run, s.rg, ctxs, b) {
      BlockExecutable(s, run, ctxs, b);
    }
  }

  lemma PlanTiles(plan: RowGroup, p: nat)
    requires WellShaped(plan) && p < |plan.columnNames|
    ensures forall b :: 0 <= b < |plan.blocks| ==> p < |plan.blocks[b].columns|
  {
  }

  lemma BlocksNext(run: Runner, rg: RowGroup, ctxs: seq<Context>, b: nat)
    requires Executable(run, rg, ctxs) && b < |rg.blocks|
    ensures Parallel(run) && |ctxs| == |rg.blocks| && b * 64 < rg.numRows && Summable(run, rg.blocks[b])
    ensures var mask := Matched(run, rg.blocks[b], RowsIn(rg.numRows, b), ctxs[b]);
            && CountBlocks(run, rg, ctxs, b + 1) == CountBlocks(run, rg, ctxs, b) + Popcount(mask)
            && SumBlocks(run, rg, ctxs, b + 1) == SumBlocks(run, rg, ctxs, b) + BlockSum(run, rg.blocks[b], mask)
  {
    assert ExecutableBlock(run, rg, ctxs, b);
    hide Matched, BlockSum, TextsReadable;
  }

  lemma BlockRange(numRows: nat, blocks: nat, b: nat)
    requires blocks == NumBlocks(numRows) && b < blocks
    ensures b * 64 < numRows && Min(b * 64, numRows) == b * 64 && Min((b + 1) * 64, numRows) == b * 64 + RowsIn(numRows, b)
  {
  }

  lemma NoBlocks(s: Setting, run: Runner, ctxs: seq<Context>)
    requires Executable(run, s.rg, ctxs) && s.batch.Valid() && |s.rg.blocks| == NumBlocks(s.batch.numRows)
    ensures CountBlocks(run, s.rg, ctxs, 0) == 0 && SumBlocks(run, s.rg, ctxs, 0) == 0
    ensures Min(0 * 64, s.batch.numRows) == 0 && CountKept(s, 0) == 0 && SumKept(s, 0) == 0
  {
  }

  lemma {:induction false} BlocksAdd(s: Setting, run: Runner, ctxs: seq<Context>, k: nat)
    requires Refinable(s, run) && Roomy(s.rg, ctxs) && Executable(run, s.rg, ctxs)
    requires k <= |s.rg.blocks| == NumBlocks(s.batch.numRows) && s.batch.Valid()
    ensures var n := Min(k * 64, s.batch.numRows);
            && CountBlocks(run, s.rg, ctxs, k) == CountKept(s, n)
            && Wrap(SumBlocks(run, s.rg, ctxs, k)) == Wrap(SumKept(s, n))
  {
    hide *;
    if k == 0 {
      NoBlocks(s, run, ctxs);
    } else {
      var b := k - 1;
      BlocksAdd(s, run, ctxs, b);
      RefinableParts(s, run);
      BlocksNext(run, s.rg, ctxs, b);
      RoomAt(s.rg, ctxs, b);
      BlockRange(s.batch.numRows, |s.rg.blocks|, b);
      SummableParts(run, s.rg.blocks[b]);
      BlockAdds(s, run, ctxs[b], b);
      var mask := Matched(run, s.rg.blocks[b], RowsIn(s.batch.numRows, b), ctxs[b]);
      WrapPlus(BlockSum(run, s.rg.blocks[b], mask), SumBlocks(run, s.rg, ctxs, b), SumKept(s, b * 64));
    }
  }

  /** The setting of the end-to-end theorem: a plan made on `plan`, run on a row
      group that holds a batch, rows possibly deleted. */
  ghost predicate QueryDomain(s: Setting, run: Runner) {
    && InDomain(s) && WellShaped(s.plan) && Planned(s.plan, s.preds, s.agg) == Ok(run)
    && s.batch.Valid() && |s.rg.blocks| == NumBlocks(s.batch.numRows)
    && SafeRows(s) && AggregateInDomain(s)
  }

  lemma DomainRefinable(s: Setting, run: Runner)
    requires QueryDomain(s, run)
    ensures Refinable(s, run)
  {
    assert Ready(s, run) && SafeRows(s) && AggregateInDomain(s) && InDomain(s) && s.batch.Valid() && |s.rg.blocks| == NumBlocks(s.batch.numRows);
    assert Refinable(s, run) by {
      hide Ready, SafeRows, AggregateInDomain, Agreeing, InDomain, WellShaped, Batch.Valid, QueryDomain;
      SafeRowsAgree(s);
      DomainAll(s);
    }
  }

  /** End to end: planning, compiling and executing a conjunction returns the
      count and, modulo 2^64, the sum of the reference semantics over the rows that
      are not deleted. No bound on rows, blocks, columns or predicates. */
  lemma ExecuteRefines(s: Setting, run: Runner, ctxs: seq<Context>)
    requires QueryDomain(s, run) && Roomy(s.rg, ctxs)
    ensures Executable(run, s.rg, ctxs) && s.batch.Valid() && |s.rg.blocks| == NumBlocks(s.batch.numRows)
    ensures CountBlocks(run, s.rg, ctxs, |s.rg.blocks|) == MatchCount(s.batch.names, AliveRows(s.rg, s.batch), s.preds)
    ensures Wrap(SumBlocks(run, s.rg, ctxs, |s.rg.blocks|)) == Wrap(MatchSum(s.batch.names, AliveRows(s.rg, s.batch), s.preds, s.agg))
  {
    hide *;
    DomainRefinable(s, run);
    RefinableParts(s, run);
    GroupExecutable(s, run, ctxs);
    BlocksAdd(s, run, ctxs, |s.rg.blocks|);
    AllKept(s);
  }

  lemma AllKept(s: Setting)
    requires s.batch.Valid() && |s.rg.blocks| == NumBlocks(s.batch.numRows)
    ensures Min(|s.rg.blocks| * 64, s.batch.numRows) == s.batch.numRows
    ensures CountKept(s, s.batch.numRows) == MatchCount(s.batch.names, AliveRows(s.rg, s.batch), s.preds)
    ensures SumKept(s, s.batch.numRows) == MatchSum(s.batch.names, AliveRows(s.rg, s.batch), s.preds, s.agg)
  {
    hide MatchCount, MatchSum, Kept, AliveBits;
  }

  // ----- a plan made on the row group it runs on

  /** Planes above the highest active one are zero, so lanes fit the planned width. */
  lemma LaneFits(blocks: seq<Block>, p: nat, b: nat, r: nat)
    requires b < |blocks| && r < 64 && forall i :: 0 <= i < |blocks| ==> p < |blocks[i].columns|
    ensures HighestPlane(blocks, p, 64) < 64
    ensures Value(Lane(blocks[b].columns[p], r)) < Pow2(HighestPlane(blocks, p, 64) + 1)
  {
    var h, lane := HighestPlane(blocks, p, 64), Lane(blocks[b].columns[p], r);
    AboveHighest(blocks, p, 64);
    hide HighestPlane, Value, Pow2;
    forall bit | h + 1 <= bit < 64 ensures !lane[bit] {
      assert blocks[b].columns[p].planes[bit] == ZEROS;
    }
    ValueTrim(lane, h + 1);
    ValueBound(lane[..h + 1]);
  }

  lemma NumberLane(rg: RowGroup, batch: Batch, f: nat, n: nat)
    requires Holds(rg, batch) && f < |batch.columns| && batch.columns[f].Ints? && n < batch.numRows
    ensures var p, b := PhysicalIndex(batch.columns, f), n / 64;
            && b < |rg.blocks| && p < |rg.blocks[b].columns|
            && Lane(rg.blocks[b].columns[p], n % 64) == WordOf(StoredNumber(batch.columns[f].ints[n]))
  {
    var b, r := n / 64, n % 64;
    assert b < |rg.blocks| && b * 64 + r == n;
    assert HoldsBlock(rg.blocks[b], batch, b) && r < RowsIn(batch.numRows, b) && batch.Valid();
    hide Holds, HoldsBlock, PhysicalIndex, Lane, LaneValid, StoredNumber, WordOf, Batch.Valid;
    FirstTile(rg.blocks[b], batch, b, f, r);
    StoredInt(batch.columns[f].ints[n]);
  }

  lemma PlaneEverywhere(rg: RowGroup, p: nat, b: nat)
    requires WellShaped(rg) && b < |rg.blocks| && p < |rg.blocks[b].columns|
    ensures forall i :: 0 <= i < |rg.blocks| ==> p < |rg.blocks[i].columns|
  {
  }

  lemma NumberFits(rg: RowGroup, batch: Batch, f: nat, n: nat)
    requires Holds(rg, batch) && WellShaped(rg) && f < |batch.columns| && batch.columns[f].Ints? && n < batch.numRows
    requires n < |batch.columns[f].ints|
    ensures var p := PhysicalIndex(batch.columns, f);
            (forall i :: 0 <= i < |rg.blocks| ==> p < |rg.blocks[i].columns|)
            && StoredNumber(batch.columns[f].ints[n]) < Pow2(HighestPlane(rg.blocks, p, 64) + 1)
  {
    hide *;
    NumberLane(rg, batch, f, n);
    var p, b := PhysicalIndex(batch.columns, f), n / 64;
    PlaneEverywhere(rg, p, b);
    LaneFits(rg.blocks, p, b, n % 64);
    StoredInt(batch.columns[f].ints[n]);
    WordValue(StoredNumber(batch.columns[f].ints[n]));
  }

  /** What a caller checks before planning on a freshly ingested batch. */
  predicate QueryOn(batch: Batch, preds: seq<Predicate>, agg: Str) {
    && batch.Valid() && AllWellKinded(preds)
    && (forall i :: 0 <= i < |preds| ==> Placed(batch, preds[i]) && Reachable(batch, ColumnOf(batch, preds[i])))
    && (forall i :: 0 <= i < |preds| && preds[i].isString ==> GoodPattern(preds[i].op, preds[i].value))
    && (agg == [] || (FindColumn(batch.names, agg).Some? && batch.columns[FindColumn(batch.names, agg).value].Ints?
                     && Reachable(batch, FindColumn(batch.names, agg).value)))
  }

  ghost predicate SafeBatch(batch: Batch, preds: seq<Predicate>)
    requires batch.Valid()
  {
    && (forall i :: 0 <= i < |preds| ==> Placed(batch, preds[i]))
    && (forall r, i :: 0 <= r < batch.numRows && 0 <= i < |preds| ==> Safe(CellOf(batch, preds[i], r), preds[i]))
  }

  lemma IngestedShape(batch: Batch)
    requires batch.Valid()
    ensures WellShaped(Ingested(batch)) && Holds(Ingested(batch), batch)
  {
    var rg, n := Ingested(batch), |batch.columns|;
    IngestedHolds(batch);
    PhysicalSize(batch, n);
    forall b | 0 <= b < |rg.blocks| ensures |rg.blocks[b].columns| == |rg.columnNames| {
      assert HoldsBlock(rg.blocks[b], batch, b);
      hide BlockTiles, PhysicalNames;
      TilesSize(batch.columns, n, b * 64, RowsIn(batch.numRows, b));
    }
  }

  lemma OwnWidth(batch: Batch, pred: Predicate)
    requires batch.Valid() && Placed(batch, pred) && Reachable(batch, ColumnOf(batch, pred))
    ensures WellShaped(Ingested(batch)) && WidthCovers(Ingested(batch), batch, pred)
  {
    var rg, f := Ingested(batch), ColumnOf(batch, pred);
    IngestedShape(batch);
    assert rg.columnNames == PhysicalNames(batch, |batch.names|);
    if !pred.isString {
      hide Ingested, Holds, PhysicalNames, FirstIndex, HighestPlane, Pow2, StoredNumber, Unshadowed, NumCompareBits, PhysicalIndex;
      LookupData(batch, f);
      forall r | 0 <= r < batch.numRows
        ensures StoredNumber(batch.columns[f].ints[r]) < Pow2(PlannedWidth(rg, pred, PhysicalIndex(batch.columns, f)))
      {
        OwnNumber(rg, batch, pred, f, r);
      }
    }
  }

  lemma OwnNumber(rg: RowGroup, batch: Batch, pred: Predicate, f: nat, n: nat)
    requires Holds(rg, batch) && WellShaped(rg) && f < |batch.columns| && batch.columns[f].Ints? && n < batch.numRows
    requires n < |batch.columns[f].ints|
    ensures var p := PhysicalIndex(batch.columns, f);
            (forall i :: 0 <= i < |rg.blocks| ==> p < |rg.blocks[i].columns|)
            && StoredNumber(batch.columns[f].ints[n]) < Pow2(PlannedWidth(rg, pred, p))
  {
    hide WellShaped, Holds, HighestPlane, Pow2, StoredNumber, PhysicalIndex, NumCompareBits;
    var p := PhysicalIndex(batch.columns, f);
    NumberFits(rg, batch, f, n);
    AboveHighest(rg.blocks, p, 64);
    TargetCovered(HighestPlane(rg.blocks, p, 64), pred.number);
    Pow2Monotone(HighestPlane(rg.blocks, p, 64) + 1, PlannedWidth(rg, pred, p));
  }

  lemma OwnAggregate(batch: Batch, preds: seq<Predicate>, agg: Str)
    requires QueryOn(batch, preds, agg)
    ensures var rg := Ingested(batch); WellShaped(rg) && AggregateInDomain(Setting(rg, rg, batch, preds, agg))
  {
    var rg := Ingested(batch);
    IngestedShape(batch);
    assert rg.columnNames == PhysicalNames(batch, |batch.names|);
    if agg != [] {
      var f := FindColumn(batch.names, agg).value;
      hide Ingested, Holds, PhysicalNames, FirstIndex, HighestPlane, Pow2, StoredNumber, Unshadowed, PhysicalIndex, AllWellKinded;
      LookupData(batch, f);
      forall r | 0 <= r < batch.numRows
        ensures StoredNumber(batch.columns[f].ints[r]) < Pow2(HighestPlane(rg.blocks, PhysicalIndex(batch.columns, f), 64) + 1)
      {
        NumberFits(rg, batch, f, r);
      }
    }
  }

  lemma FreshInDomain(batch: Batch, preds: seq<Predicate>, agg: Str)
    requires QueryOn(batch, preds, agg) && Fits(batch)
    ensures var rg := Ingested(batch); InDomain(Setting(rg, rg, batch, preds, agg))
  {
    var rg := Ingested(batch);
    IngestedShape(batch);
    var s := Setting(rg, rg, batch, preds, agg);
    hide Ingested, Holds, WellShaped, Fits, Reachable, AllWellKinded, GoodPattern, WidthCovers, Placed;
    forall i | 0 <= i < |preds| ensures PredicateInDomain(s, preds[i]) {
      OwnWidth(batch, preds[i]);
    }
  }

  lemma FreshAlive(batch: Batch)
    requires batch.Valid()
    ensures var rg := Ingested(batch); |rg.blocks| == NumBlocks(batch.numRows) && AliveRows(rg, batch) == RowsOf(batch)
  {
    var rg := Ingested(batch);
    IngestedHolds(batch);
    hide BlockOf;
    KeptAll(batch, AliveBits(rg), batch.numRows);
  }

  /** On a freshly ingested batch the compiled query returns what row-by-row
      execution returns, and planned widths never lose anything. */
  lemma IngestedQuery(batch: Batch, preds: seq<Predicate>, agg: Str, run: Runner, ctxs: seq<Context>)
    requires QueryOn(batch, preds, agg) && Fits(batch) && SafeBatch(batch, preds)
    requires WellShaped(Ingested(batch)) && Planned(Ingested(batch), preds, agg) == Ok(run) && Roomy(Ingested(batch), ctxs)
    ensures var rg := Ingested(batch);
            && Executable(run, rg, ctxs)
            && CountBlocks(run, rg, ctxs, |rg.blocks|) == CountTo(batch, preds, batch.numRows)
            && Wrap(SumBlocks(run, rg, ctxs, |rg.blocks|)) == Wrap(SumTo(batch, preds, agg, batch.numRows))
  {
    hide *;
    QueryOnValid(batch, preds, agg);
    var rg := Ingested(batch);
    var s := Setting(rg, rg, batch, preds, agg);
    FreshInDomain(batch, preds, agg);
    OwnAggregate(batch, preds, agg);
    FreshAlive(batch);
    FreshSafe(s);
    QueryDomainWhen(s, run);
    ExecuteRefines(s, run, ctxs);
    BatchAnswer(batch, preds, agg, batch.numRows);
    RowsOfIs(batch);
  }

  lemma RowsOfIs(batch: Batch)
    requires batch.Valid()
    ensures RowsOf(batch) == RowsTo(batch, batch.numRows)
  {
  }

  lemma QueryOnValid(batch: Batch, preds: seq<Predicate>, agg: Str)
    requires QueryOn(batch, preds, agg)
    ensures batch.Valid()
  {
  }

  lemma QueryDomainWhen(s: Setting, run: Runner)
    requires InDomain(s) && WellShaped(s.plan) && Planned(s.plan, s.preds, s.agg) == Ok(run)
    requires s.batch.Valid() && |s.rg.blocks| == NumBlocks(s.batch.numRows)
    requires SafeRows(s) && AggregateInDomain(s)
    ensures QueryDomain(s, run)
  {
    hide InDomain, WellShaped, Planned, SafeRows, AggregateInDomain;
  }

  lemma FreshSafe(s: Setting)
    requires s.batch.Valid() && |s.rg.blocks| == NumBlocks(s.batch.numRows) && SafeBatch(s.batch, s.preds)
    ensures SafeRows(s)
  {
    forall r, i | 0 <= r < s.batch.numRows && AliveBits(s.rg)[r] && 0 <= i < |s.preds|
      ensures Placed(s.batch, s.preds[i]) && Safe(CellOf(s.batch, s.preds[i], r), s.preds[i])
    {
      hide Safe, CellOf, Placed, AliveBits;
    }
  }
}
