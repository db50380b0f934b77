/** A batch whose column names collide, and a query that the compiled path answers
    from the wrong column. */
module NameCollision {
  import opened Words
  import opened SimdTransposer
  import opened Storage
  import opened MemTables
  import opened AdaptiveIngester
  import opened BlockReader
  import opened Machine
  import opened MicroOps
  import opened MicroOpCompiler
  import opened OwnTile
  import opened QueryPlanner
  import opened PlanMeaning
  import opened ColumnLookup
  import opened RegisterBound
  import opened QueryRunner
  import opened StoredRows
  import opened QueryRefinement
  import opened EndToEnd

  const NAME: Str := [97]
  const SUFFIXED: Str := NAME + KIM_SUFFIX

  /** A string column and a numeric one named like the first one's signature. */
  const COLLIDING := Batch([NAME, SUFFIXED], [Strs([None]), Ints([Some(7)])], 1)

  const ABOVE_FIVE := Predicate(SUFFIXED, GT, [], 5, false)

  lemma CollidingNames()
    ensures COLLIDING.Valid() && PhysicalNames(COLLIDING, 2) == [NAME, SUFFIXED, SUFFIXED]
    ensures FirstIndex(PhysicalNames(COLLIDING, 2), SUFFIXED) == Some(1)
    ensures !Unshadowed(COLLIDING, 1, SUFFIXED)
  {
    assert COLLIDING.Valid();
    assert PhysicalNames(COLLIDING, 0) == [];
    assert PhysicalNames(COLLIDING, 1) == [NAME, SUFFIXED];
    assert NAME != SUFFIXED;
    FirstIndexIs([NAME, SUFFIXED, SUFFIXED], SUFFIXED, 1);
    hide FirstIndex;
  }

  lemma CollidingAnswer()
    ensures COLLIDING.Valid() && Placed(COLLIDING, ABOVE_FIVE)
    ensures CountTo(COLLIDING, [ABOVE_FIVE], 1) == 1
  {
    assert COLLIDING.Valid() && NAME != SUFFIXED;
    FoundExactly(COLLIDING.names, SUFFIXED);
    assert OnlyAt(COLLIDING.names, SUFFIXED, 1);
    assert RowAt(COLLIDING, 0) == [StrCell(None), IntCell(Some(7))];
    hide FindColumn, RowAt;
    assert Satisfies(COLLIDING.names, RowAt(COLLIDING, 0), ABOVE_FIVE);
    assert CountTo(COLLIDING, [ABOVE_FIVE], 0) == 0;
  }

  /** Its lookup finds the signature tile of the other column. */
  lemma CollidingGroup()
    ensures var rg := Ingested(COLLIDING);
            && COLLIDING.Valid() && WellShaped(rg) && Holds(rg, COLLIDING) && |rg.blocks| == 1 && rg.numRows == 1
            && rg.columnNames == [NAME, SUFFIXED, SUFFIXED] && Located(rg, ABOVE_FIVE) && FirstIndex(rg.columnNames, SUFFIXED) == Some(1)
  {
    assert COLLIDING.Valid();
    assert |COLLIDING.names| == 2 == |COLLIDING.columns|;
    assert NumBlocks(1) == 1;
    CollidingNames();
    IngestedShape(COLLIDING);
    hide PhysicalNames, FirstIndex, PhysicalTypes, BlockOf, HoldsBlock;
  }

  lemma KindFits()
    ensures AllWellKinded([ABOVE_FIVE]) && WellKinded(ABOVE_FIVE)
    ensures TotalCost([ABOVE_FIVE], 1) <= 14 && MappedAtLast([ABOVE_FIVE], 1) <= 10
  {
    assert TotalCost([ABOVE_FIVE], 0) == 0;
  }

  lemma CollidingEmits()
    ensures WellShaped(Ingested(COLLIDING)) && PlannedOps(Ingested(COLLIDING), [ABOVE_FIVE]).Ok?
  {
    var rg := Ingested(COLLIDING);
    var preds := [ABOVE_FIVE];
    assert !ABOVE_FIVE.isString && preds[0] == ABOVE_FIVE;
    hide *;
    CollidingGroup();
    KindFits();
    NothingTidy(rg, preds);
    EmitSome(rg, EmitPredicates(rg, preds, 0).value, ABOVE_FIVE);
    EmitNext(rg, preds, 0, EmitPredicates(rg, preds, 0).value);
    var e := EmitPredicates(rg, preds, 1).value;
    PredicatesTidy(rg, preds, 1, e);
    OpsWhen(rg, preds, e);
  }

  lemma CollidingPlans() returns (run: Runner, ops: seq<MicroOp>)
    ensures var rg := Ingested(COLLIDING);
            && WellShaped(rg) && PlannedOps(rg, [ABOVE_FIVE]) == Ok(ops) && Planned(rg, [ABOVE_FIVE], []) == Ok(run)
            && CompiledFunction(ops) == Ok(run.code)
    ensures run.stringPreds == [] && run.stringCols == [] && run.patterns == [] && run.aggIndex == None && run.maxAggBit == 0
  {
    CollidingEmits();
    KindFits();
    var rg := Ingested(COLLIDING);
    ops := PlannedOps(rg, [ABOVE_FIVE]).value;
    CompilesIff(rg, [ABOVE_FIVE], ops);
    PlannedWhen(rg, [ABOVE_FIVE], [], ops);
    run := Planned(rg, [ABOVE_FIVE], []).value;
    NoStrings();
    hide Ingested, PlannedOps, CompiledFunction, StringPredicates, StringColumns, Patterns, FirstIndex, TotalCost, MappedAtLast;
  }

  lemma NoStrings()
    ensures StringPredicates([ABOVE_FIVE], 1) == [] && Patterns([]) == []
    ensures forall names :: StringColumns(names, []) == []
  {
    assert StringPredicates([ABOVE_FIVE], 0) == [];
  }

  /** The tile looked at holds zero where the value is seven. */
  lemma CollidingTile(block: Block)
    requires COLLIDING.Valid() && HoldsBlock(block, COLLIDING, 0)
    ensures 1 < |block.columns| && Lane(block.columns[1], 0) == ZEROS
  {
    SecondTile(block, COLLIDING, 0, 0, 0);
    assert PhysicalIndex(COLLIDING.columns, 0) == 0;
    hide HoldsBlock, Lane;
  }

  lemma CollidingTest(rg: RowGroup, tiles: seq<Tile>)
    requires WellShaped(rg) && Located(rg, ABOVE_FIVE) && FirstIndex(rg.columnNames, SUFFIXED) == Some(1) && |tiles| == |rg.columnNames|
    requires 1 < |tiles| && Lane(tiles[1], 0) == ZEROS && AllWellKinded([ABOVE_FIVE])
    ensures !PassesTo(rg, [ABOVE_FIVE], 1, tiles, 0)
  {
    TestsAreGood(rg, ABOVE_FIVE, tiles);
    var t := NumericTest(rg.blocks, ABOVE_FIVE, 1);
    assert TestsFor(rg, ABOVE_FIVE) == [t];
    var n := CompareBits(t.op, t.bits);
    Dominated(ZEROS[..n], t.imm[..n]);
    hide Lane, FirstIndex, NumCompareBits, HighestPlane, Value, WordOf, CompareBits;
    assert !PassesTest(t, tiles, 0);
    assert !PassesTests([t], tiles, 0) by { assert !PassesTest([t][0], tiles, 0); }
    assert !PassesPredicate(rg, [ABOVE_FIVE][0], tiles, 0);
  }

  lemma FirstBlock(rg: RowGroup)
    requires COLLIDING.Valid() && Holds(rg, COLLIDING) && |rg.blocks| == 1 && WellShaped(rg)
    ensures HoldsBlock(rg.blocks[0], COLLIDING, 0) && |rg.blocks[0].columns| == |rg.columnNames| && RowsIn(1, 0) == 1
  {
    hide HoldsBlock;
  }

  lemma NothingFound(run: Runner, ops: seq<MicroOp>, ctx: Context)
    requires COLLIDING.Valid() && |Ingested(COLLIDING).blocks| == 1
    requires var rg := Ingested(COLLIDING);
             && WellShaped(rg) && PlannedOps(rg, [ABOVE_FIVE]) == Ok(ops) && CompiledFunction(ops) == Ok(run.code)
             && Room(ctx, rg.blocks[0].columns)
    requires Parallel(run)
    ensures Matched(run, Ingested(COLLIDING).blocks[0], 1, ctx) == ZEROS
  {
    hide *;
    var rg := Ingested(COLLIDING);
    var block := rg.blocks[0];
    CollidingGroup();
    KindFits();
    FirstBlock(rg);
    CollidingTile(block);
    CollidingTest(rg, block.columns);
    LaneMeaning(rg, [ABOVE_FIVE], ops, block, ctx);
    var mask := Matched(run, block, 1, ctx);
    assert !mask[0] by { FinalLane(run, block, 1, ctx, 0); }
    forall r | 1 <= r < 64 ensures !mask[r] { MaskBeyond(run, block, 1, ctx, r); }
    AllClear(mask);
  }

  lemma AllClear(mask: Word)
    requires forall r :: 0 <= r < 64 ==> !mask[r]
    ensures mask == ZEROS
  {
  }

  lemma OneBlock(run: Runner, rg: RowGroup, ctxs: seq<Context>)
    requires |rg.blocks| == 1 == |ctxs| && rg.numRows == 1 && run.stringPreds == [] && run.stringCols == [] && run.patterns == []
    requires run.aggIndex == None && run.maxAggBit == 0
    ensures Parallel(run) && Executable(run, rg, ctxs)
    ensures CountBlocks(run, rg, ctxs, 1) == Popcount(Matched(run, rg.blocks[0], 1, ctxs[0]))
  {
    assert ExecutableBlock(run, rg, ctxs, 0);
    assert RowsIn(rg.numRows, 0) == 1;
    hide Matched, Candidates, Popcount;
    assert CountBlocks(run, rg, ctxs, 0) == 0;
  }

  /** Planned and executed, the query finds nothing, where the one row matches. */
  lemma CollisionChangesAnswer(ctxs: seq<Context>) returns (run: Runner)
    requires COLLIDING.Valid() && Roomy(Ingested(COLLIDING), ctxs)
    ensures var rg := Ingested(COLLIDING);
            && WellShaped(rg) && Planned(rg, [ABOVE_FIVE], []) == Ok(run) && Executable(run, rg, ctxs)
            && CountBlocks(run, rg, ctxs, |rg.blocks|) == 0
    ensures CountTo(COLLIDING, [ABOVE_FIVE], COLLIDING.numRows) == 1
    ensures Placed(COLLIDING, ABOVE_FIVE) && !Reachable(COLLIDING, ColumnOf(COLLIDING, ABOVE_FIVE))
  {
    assert COLLIDING.numRows == 1;
    hide *;
    var rg := Ingested(COLLIDING);
    CollidingGroup();
    CollidingAnswer();
    CollidingLookup();
    var ops;
    run, ops := CollidingPlans();
    RoomyParts(rg, ctxs);
    OneBlock(run, rg, ctxs);
    RoomAt(rg, ctxs, 0);
    NothingFound(run, ops, ctxs[0]);
    PopcountZero(ZEROS);
    NoBitSet();
  }

  lemma RoomyParts(rg: RowGroup, ctxs: seq<Context>)
    requires Roomy(rg, ctxs)
    ensures |ctxs| == |rg.blocks|
  {
  }

  lemma NoBitSet()
    ensures forall i :: 0 <= i < |ZEROS| ==> !ZEROS[i]
  {
  }

  lemma CollidingLookup()
    ensures COLLIDING.Valid() && Placed(COLLIDING, ABOVE_FIVE) && !Reachable(COLLIDING, ColumnOf(COLLIDING, ABOVE_FIVE))
  {
    CollidingNames();
    CollidingAnswer();
    var f := ColumnOf(COLLIDING, ABOVE_FIVE);
    assert COLLIDING.names[f] == SUFFIXED;
    assert f == 1 by { assert NAME != SUFFIXED; }
    hide Unshadowed;
  }
}
