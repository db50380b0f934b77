/** What the compiled path decides about a row: the tests of each predicate, the
    deferred string verification, and one lane of a block's final mask. */
module StoredRows {
  import opened Words
  import opened SimdTransposer
  import opened Storage
  import opened TailPayload
  import opened MemTables
  import opened AdaptiveIngester
  import opened BlockReader
  import opened MicroOps
  import opened MicroOpCompiler
  import opened QueryPlanner
  import opened PlanMeaning
  import opened Prefilter
  import opened NumericTests
  import opened ColumnLookup
  import opened QueryRunner
  import opened Rows

  // ----- what the tiles store

  /** Nulls are stored as zero. */
  function StoredNumber(n: Option<int64>): nat { if n.Some? then Unsigned(n.value) else 0 }

  /** The compiled verdict on a cell: unsigned comparison, nulls read as 0 or "". */
  predicate StoredMatches(cell: Cell, pred: Predicate) {
    if pred.isString then cell.StrCell? && MatchString(StoredString(cell.s), pred.op, CleanPattern(pred.op, pred.value))
    else cell.IntCell? && UnsignedMatch(pred.op, StoredNumber(cell.n), pred.number)
  }

  /** Operands of one sign, and no null whose stored default would match. */
  predicate Safe(cell: Cell, pred: Predicate) {
    if pred.isString then cell.StrCell? && (cell.s.None? ==> !MatchString([], pred.op, CleanPattern(pred.op, pred.value)))
    else cell.IntCell? && match cell.n
         case None => !UnsignedMatch(pred.op, 0, pred.number)
         case Some(n) => pred.op == EQ || (n < 0) == (Signed(pred.number) < 0)
  }

  /** The compiled verdict agrees with the reference exactly on safe cells. */
  lemma SafeExact(cell: Cell, pred: Predicate)
    requires WellKinded(pred) && cell.StrCell? == pred.isString
    ensures Safe(cell, pred) <==> (StoredMatches(cell, pred) <==> CellMatches(cell, pred))
  {
    hide MatchString, CleanPattern;
    if cell.IntCell? && cell.n.Some? {
      SignedAgreement(pred.op, cell.n.value, pred.number);
    }
  }

  lemma StoredWords(v: Option<Str>)
    ensures SkeletonWord(v) == WordOf(SkeletonOf(StoredString(v)))
    ensures SignatureWord(v) == Signature(StoredString(v))
  {
    if v.None? {
      assert SkeletonOf([]) == 0;
      ZeroBits();
      assert forall b :: 0 <= b < 64 ==> !SignatureBit([], b);
      assert Signature([]) == ZEROS;
    }
  }

  lemma ZeroBits()
    ensures WordOf(0) == ZEROS
  {
    WordValue(0);
    ZeroWord(WordOf(0));
    hide WordOf;
  }

  lemma StoredInt(v: Option<int64>)
    ensures IntWord(v) == WordOf(StoredNumber(v)) && StoredNumber(v) < TWO_64
  {
    ZeroBits();
  }

  // ----- the tests of one predicate on one lane

  lemma StringLane(pred: Predicate, skel: nat, kim: nat, tiles: seq<Tile>, r: nat, text: Str)
    requires pred.isString && WellKinded(pred) && skel < |tiles| && kim < |tiles| && r < 64
    requires Lane(tiles[skel], r) == WordOf(SkeletonOf(text)) && Lane(tiles[kim], r) == Signature(text)
    ensures GoodTests(StringTests(pred, skel, kim), tiles)
    ensures PassesTests(StringTests(pred, skel, kim), tiles, r) <==> Survives(pred.op, pred.value, text)
  {
    var tests := StringTests(pred, skel, kim);
    assert CompareBits(CMP_KIM, 64) == 64;
    hide LaneTest, Lane, WordOf, Signature, SkeletonOf, CompareBits, CleanPattern;
    if pred.op == EQ {
      assert PassesTests(tests, tiles, r) <==> PassesTest(tests[0], tiles, r) && PassesTest(tests[1], tiles, r);
    } else {
      assert PassesTests(tests, tiles, r) <==> PassesTest(tests[0], tiles, r);
    }
  }

  /** The number of bits a plan compares for a numeric predicate on tile p. */
  ghost function PlannedWidth(plan: RowGroup, pred: Predicate, p: nat): nat
    requires forall b :: 0 <= b < |plan.blocks| ==> p < |plan.blocks[b].columns|
  {
    NumCompareBits(HighestPlane(plan.blocks, p, 64), pred.number)
  }

  lemma NumericLaneOf(plan: RowGroup, pred: Predicate, p: nat, tiles: seq<Tile>, r: nat, x: nat)
    requires forall b :: 0 <= b < |plan.blocks| ==> p < |plan.blocks[b].columns|
    requires !pred.isString && WellKinded(pred) && p < |tiles| && r < 64
    requires Lane(tiles[p], r) == WordOf(x) && x < Pow2(PlannedWidth(plan, pred, p))
    ensures GoodTest(NumericTest(plan.blocks, pred, p), tiles)
    ensures PassesTest(NumericTest(plan.blocks, pred, p), tiles, r) <==> UnsignedMatch(pred.op, x, pred.number)
  {
    var t, n := NumericTest(plan.blocks, pred, p), PlannedWidth(plan, pred, p);
    AboveHighest(plan.blocks, p, 64);
    TargetCovered(HighestPlane(plan.blocks, p, 64), pred.number);
    assert CompareBits(t.op, t.bits) == n;
    hide LaneTest, Lane, WordOf, HighestPlane, NumCompareBits, Pow2;
    NumericLane(pred.op, x, pred.number, n);
    SmallModulo(x, Pow2(n));
    SmallModulo(pred.number, Pow2(n));
  }

  // ----- the domain of the theorem

  /** A plan made on the row group `plan`, executed on `rg`, which holds `batch`. */
  datatype Setting = Setting(plan: RowGroup, rg: RowGroup, batch: Batch, preds: seq<Predicate>, agg: Str)

  /** The predicate is about a column of the batch, of its own kind. */
  predicate Placed(batch: Batch, pred: Predicate)
    requires batch.Valid()
  {
    var f := FindColumn(batch.names, pred.column);
    f.Some? && batch.columns[f.value].Strs? == pred.isString
  }

  function ColumnOf(batch: Batch, pred: Predicate): (f: nat)
    requires batch.Valid() && Placed(batch, pred)
    ensures f < |batch.columns| && batch.names[f] == pred.column && batch.columns[f].Strs? == pred.isString
  {
    FindColumn(batch.names, pred.column).value
  }

  /** Every stored number fits the width planned for the predicate. */
  ghost predicate WidthCovers(plan: RowGroup, batch: Batch, pred: Predicate)
    requires WellShaped(plan) && batch.Valid() && Placed(batch, pred)
  {
    var p := FirstIndex(plan.columnNames, pred.column);
    !pred.isString && p.Some? ==>
      forall r :: 0 <= r < batch.numRows ==>
        StoredNumber(batch.columns[ColumnOf(batch, pred)].ints[r]) < Pow2(PlannedWidth(plan, pred, p.value))
  }

  /** Row r of block b. */
  predicate RowIn(s: Setting, b: nat, r: nat) {
    s.batch.Valid() && b < |s.rg.blocks| && b * 64 < s.batch.numRows && r < RowsIn(s.batch.numRows, b)
  }

  lemma RowInside(s: Setting, b: nat, r: nat)
    requires RowIn(s, b, r)
    ensures s.batch.Valid() && b < |s.rg.blocks| && b * 64 + r < s.batch.numRows && r < RowsIn(s.batch.numRows, b) <= 64
  {
  }

  ghost predicate InDomain(s: Setting) {
    && WellShaped(s.plan) && Holds(s.rg, s.batch) && Fits(s.batch) && s.plan.columnNames == s.rg.columnNames
    && AllWellKinded(s.preds)
    && forall i :: 0 <= i < |s.preds| ==> PredicateInDomain(s, s.preds[i])
  }

  ghost predicate PredicateInDomain(s: Setting, pred: Predicate)
    requires WellShaped(s.plan) && s.batch.Valid()
  {
    && Placed(s.batch, pred) && Reachable(s.batch, ColumnOf(s.batch, pred))
    && (pred.isString ==> GoodPattern(pred.op, pred.value))
    && WidthCovers(s.plan, s.batch, pred)
  }

  /** The cell a predicate looks at. */
  function CellOf(batch: Batch, pred: Predicate, r: nat): (cell: Cell)
    requires batch.Valid() && Placed(batch, pred) && r < batch.numRows
    ensures cell.StrCell? == pred.isString
  {
    CellAt(batch.columns[ColumnOf(batch, pred)], r)
  }

  /** The text stored for the cell of a string predicate. */
  function StoredText(batch: Batch, pred: Predicate, r: nat): Str
    requires batch.Valid() && Placed(batch, pred) && r < batch.numRows && pred.isString
  {
    StoredString(CellOf(batch, pred, r).s)
  }

  predicate StoredRow(batch: Batch, preds: seq<Predicate>, r: nat)
    requires batch.Valid() && r < batch.numRows
  {
    forall i :: 0 <= i < |preds| ==> Placed(batch, preds[i]) && StoredMatches(CellOf(batch, preds[i], r), preds[i])
  }

  // ----- one predicate on one row

  lemma LookupInPlan(s: Setting, pred: Predicate)
    requires WellShaped(s.plan) && Holds(s.rg, s.batch) && s.plan.columnNames == s.rg.columnNames
    requires s.batch.Valid() && Placed(s.batch, pred) && Reachable(s.batch, ColumnOf(s.batch, pred))
    ensures var f := ColumnOf(s.batch, pred);
            && FirstIndex(s.plan.columnNames, pred.column) == Some(PhysicalIndex(s.batch.columns, f))
            && (pred.isString ==>
                  StringColumn(s.plan.columnNames, pred.column, 0, 0) == Some(StringIndex(s.batch.columns, f))
                  && FirstIndex(s.plan.columnNames, pred.column + KIM_SUFFIX) == Some(PhysicalIndex(s.batch.columns, f) + 1))
    ensures Located(s.plan, pred)
  {
    var f := ColumnOf(s.batch, pred);
    assert s.plan.columnNames == PhysicalNames(s.batch, |s.batch.names|);
    hide Unshadowed, PhysicalNames, FirstIndex, StringColumn, HoldsBlock;
    LookupData(s.batch, f);
    if pred.isString { LookupSignature(s.batch, f); }
  }

  lemma TilesCount(s: Setting, b: nat)
    requires InDomain(s) && b < |s.rg.blocks|
    ensures |s.rg.blocks[b].columns| == |s.plan.columnNames|
  {
    var n := |s.batch.columns|;
    assert HoldsBlock(s.rg.blocks[b], s.batch, b);
    hide PhysicalNames, BlockTiles, PredicateInDomain;
    TilesSize(s.batch.columns, n, b * 64, RowsIn(s.batch.numRows, b));
    PhysicalSize(s.batch, n);
  }

  lemma NumericOnRow(s: Setting, pred: Predicate, b: nat, r: nat)
    requires RowIn(s, b, r) && InDomain(s) && PredicateInDomain(s, pred) && WellKinded(pred) && !pred.isString
    requires |s.rg.blocks[b].columns| == |s.plan.columnNames|
    ensures Located(s.plan, pred)
    ensures PassesPredicate(s.plan, pred, s.rg.blocks[b].columns, r) <==> StoredMatches(CellOf(s.batch, pred, b * 64 + r), pred)
  {
    var block, f := s.rg.blocks[b], ColumnOf(s.batch, pred);
    var v, p := s.batch.columns[f].ints[b * 64 + r], PhysicalIndex(s.batch.columns, f);
    assert HoldsBlock(block, s.batch, b) && s.batch.Valid();
    LookupInPlan(s, pred);
    assert StoredNumber(v) < Pow2(PlannedWidth(s.plan, pred, p));
    hide Holds, Fits, HoldsBlock, PhysicalIndex, Lane, LaneTest, StoredNumber, PlannedWidth, HighestPlane, FirstIndex, NumericTest, LaneValid;
    FirstTile(block, s.batch, b, f, r);
    StoredInt(v);
    NumericLaneOf(s.plan, pred, p, block.columns, r, StoredNumber(v));
    assert TestsFor(s.plan, pred) == [NumericTest(s.plan.blocks, pred, p)];
    OneTestPasses(s.plan, pred, block.columns, r, NumericTest(s.plan.blocks, pred, p));
  }

  lemma OneTestPasses(plan: RowGroup, pred: Predicate, tiles: seq<Tile>, r: nat, t: TileTest)
    requires WellShaped(plan) && Located(plan, pred) && WellKinded(pred) && |tiles| == |plan.columnNames| && r < 64
    requires TestsFor(plan, pred) == [t] && GoodTest(t, tiles)
    ensures PassesPredicate(plan, pred, tiles, r) <==> PassesTest(t, tiles, r)
  {
    TestsAreGood(plan, pred, tiles);
    hide TestsFor, PassesTest;
    assert PassesTests([t], tiles, r) <==> PassesTest([t][0], tiles, r);
  }

  lemma StringPasses(plan: RowGroup, pred: Predicate, skel: nat, kim: nat, tiles: seq<Tile>, r: nat, text: Str)
    requires WellShaped(plan) && Located(plan, pred) && WellKinded(pred) && pred.isString && |tiles| == |plan.columnNames| && r < 64
    requires FirstIndex(plan.columnNames, pred.column) == Some(skel) && FirstIndex(plan.columnNames, pred.column + KIM_SUFFIX) == Some(kim)
    requires Lane(tiles[skel], r) == WordOf(SkeletonOf(text)) && Lane(tiles[kim], r) == Signature(text)
    requires GoodPattern(pred.op, pred.value) && MatchString(text, pred.op, CleanPattern(pred.op, pred.value))
    ensures PassesPredicate(plan, pred, tiles, r)
  {
    assert TestsFor(plan, pred) == StringTests(pred, skel, kim);
    hide Lane, FirstIndex, StringTests, Survives, Signature, WordOf, SkeletonOf, GoodPattern, CleanPattern, MatchString, PassesTests, TestsFor;
    StringLane(pred, skel, kim, tiles, r, text);
    NoMatchLost(pred.op, pred.value, text);
  }

  /** The tiles of the predicate's column hold the stored text. */
  lemma StringTilesOf(s: Setting, pred: Predicate, b: nat, r: nat)
    requires InDomain(s) && RowIn(s, b, r) && Placed(s.batch, pred) && pred.isString
    ensures var p, tiles := PhysicalIndex(s.batch.columns, ColumnOf(s.batch, pred)), s.rg.blocks[b].columns;
            var text := StoredText(s.batch, pred, b * 64 + r);
            && p + 1 < |tiles| && Lane(tiles[p], r) == WordOf(SkeletonOf(text)) && Lane(tiles[p + 1], r) == Signature(text)
  {
    var block, f := s.rg.blocks[b], ColumnOf(s.batch, pred);
    assert HoldsBlock(block, s.batch, b) && s.batch.Valid();
    hide Holds, Fits, HoldsBlock, PhysicalIndex, Lane, Signature, SkeletonWord, SignatureWord, LaneValid, WordOf, SkeletonOf;
    FirstTile(block, s.batch, b, f, r);
    SecondTile(block, s.batch, b, f, r);
    StoredWords(s.batch.columns[f].strs[b * 64 + r]);
  }

  predicate OneOf(preds: seq<Predicate>, pred: Predicate) {
    exists i :: 0 <= i < |preds| && preds[i] == pred
  }

  lemma DomainOf(s: Setting, pred: Predicate)
    requires InDomain(s) && OneOf(s.preds, pred)
    ensures WellShaped(s.plan) && Holds(s.rg, s.batch) && s.batch.Valid() && s.plan.columnNames == s.rg.columnNames
    ensures WellKinded(pred) && PredicateInDomain(s, pred)
    ensures Placed(s.batch, pred) && Reachable(s.batch, ColumnOf(s.batch, pred)) && (pred.isString ==> GoodPattern(pred.op, pred.value))
  {
    hide WellShaped, Fits, Reachable, Holds, WellKinded, Placed, GoodPattern, WidthCovers;
    var i :| 0 <= i < |s.preds| && s.preds[i] == pred;
    assert Holds(s.rg, s.batch) ==> s.batch.Valid() by { HoldsValid(s.rg, s.batch); }
  }

  lemma HoldsValid(rg: RowGroup, batch: Batch)
    ensures Holds(rg, batch) ==> batch.Valid()
  {
  }

  lemma StoredMatchText(batch: Batch, pred: Predicate, r: nat)
    requires batch.Valid() && Placed(batch, pred) && r < batch.numRows && pred.isString
    ensures StoredMatches(CellOf(batch, pred, r), pred)
            == MatchString(StoredText(batch, pred, r), pred.op, CleanPattern(pred.op, pred.value))
  {
    hide MatchString, CleanPattern;
  }

  lemma StringOnRow(s: Setting, pred: Predicate, b: nat, r: nat)
    requires InDomain(s) && OneOf(s.preds, pred) && pred.isString && RowIn(s, b, r)
    requires |s.rg.blocks[b].columns| == |s.plan.columnNames|
    ensures WellShaped(s.plan) && Located(s.plan, pred) && WellKinded(pred) && Placed(s.batch, pred)
    ensures StoredMatches(CellOf(s.batch, pred, b * 64 + r), pred) ==> PassesPredicate(s.plan, pred, s.rg.blocks[b].columns, r)
  {
    hide *;
    RowInside(s, b, r);
    DomainOf(s, pred);
    LookupInPlan(s, pred);
    StringTilesOf(s, pred, b, r);
    StoredMatchText(s.batch, pred, b * 64 + r);
    if StoredMatches(CellOf(s.batch, pred, b * 64 + r), pred) {
      var p := PhysicalIndex(s.batch.columns, ColumnOf(s.batch, pred));
      StringPasses(s.plan, pred, p, p + 1, s.rg.blocks[b].columns, r, StoredText(s.batch, pred, b * 64 + r));
    }
  }

  // ----- deferred verification on one row

  lemma {:induction false} CollectedStrings(names: seq<Str>, sp: seq<Predicate>)
    requires forall q :: 0 <= q < |sp| ==> StringColumn(names, sp[q].column, 0, 0).Some?
    ensures |StringColumns(names, sp)| == |sp| == |Patterns(sp)|
    ensures forall q :: 0 <= q < |sp| ==> StringColumns(names, sp)[q] == StringColumn(names, sp[q].column, 0, 0).value
    ensures forall q :: 0 <= q < |sp| ==> Patterns(sp)[q] == CleanPattern(sp[q].op, sp[q].value)
  {
    hide StringColumn, CleanPattern;
    if sp != [] { CollectedStrings(names, sp[..|sp| - 1]); }
  }

  /** Sound and complete: only string predicates of the list, and all of them below n. */
  predicate CollectsStrings(preds: seq<Predicate>, n: nat, sp: seq<Predicate>) {
    && n <= |preds|
    && (forall q :: 0 <= q < |sp| ==> sp[q].isString && OneOf(preds, sp[q]))
    && (forall i :: 0 <= i < n && preds[i].isString ==> OneOf(sp, preds[i]))
  }

  lemma OneOfLonger(preds: seq<Predicate>, last: Predicate, pred: Predicate)
    ensures OneOf(preds, pred) ==> OneOf(preds + [last], pred)
    ensures OneOf(preds + [last], last)
  {
    var more := preds + [last];
    assert more[|preds|] == last;
    if OneOf(preds, pred) {
      var i :| 0 <= i < |preds| && preds[i] == pred;
      assert more[i] == pred;
    }
  }

  lemma CollectsNext(preds: seq<Predicate>, n: nat, sp: seq<Predicate>)
    requires n < |preds| && CollectsStrings(preds, n, sp)
    ensures CollectsStrings(preds, n + 1, sp + if preds[n].isString then [preds[n]] else [])
  {
    OneOfAt(preds, n);
    if preds[n].isString {
      forall i | 0 <= i <= n && preds[i].isString ensures OneOf(sp + [preds[n]], preds[i]) {
        OneOfLonger(sp, preds[n], preds[i]);
      }
      hide OneOf;
    } else {
      assert sp + [] == sp;
    }
  }

  /** The collected predicates are exactly the string predicates. */
  lemma {:induction false} StringsCollected(preds: seq<Predicate>, n: nat)
    requires n <= |preds|
    ensures CollectsStrings(preds, n, StringPredicates(preds, n))
  {
    if n > 0 {
      StringsCollected(preds, n - 1);
      CollectsNext(preds, n - 1, StringPredicates(preds, n - 1));
      hide CollectsStrings;
    }
  }

  lemma StringPredicatesAre(preds: seq<Predicate>, n: nat)
    requires n <= |preds|
    ensures var sp := StringPredicates(preds, n);
            && (forall q :: 0 <= q < |sp| ==> sp[q].isString && OneOf(preds, sp[q]))
            && (forall i :: 0 <= i < n && preds[i].isString ==> OneOf(sp, preds[i]))
  {
    StringsCollected(preds, n);
    hide OneOf, StringPredicates;
  }

  lemma PlannedParts(s: Setting, run: Runner) returns (ops: seq<MicroOp>)
    requires WellShaped(s.plan) && Planned(s.plan, s.preds, s.agg) == Ok(run)
    ensures PlannedOps(s.plan, s.preds) == Ok(ops) && CompiledFunction(ops) == Ok(run.code)
    ensures run.preds == s.preds && run.aggName == s.agg
    ensures run.stringPreds == StringPredicates(s.preds, |s.preds|)
    ensures run.stringCols == StringColumns(s.plan.columnNames, run.stringPreds) && run.patterns == Patterns(run.stringPreds)
    ensures s.agg == [] ==> run.aggIndex == None && run.maxAggBit == 0
    ensures s.agg != [] ==> var p := FirstIndex(s.plan.columnNames, s.agg);
                            p.Some? && run.aggIndex == p && run.maxAggBit == HighestPlane(s.plan.blocks, p.value, 64)
  {
    hide PlannedOps, CompiledFunction, StringPredicates, StringColumns, Patterns, FirstIndex, HighestPlane;
    ops := PlannedOps(s.plan, s.preds).value;
  }

  ghost predicate Ready(s: Setting, run: Runner) {
    WellShaped(s.plan) && Planned(s.plan, s.preds, s.agg) == Ok(run) && InDomain(s)
  }

  lemma ReadyIs(s: Setting, run: Runner)
    requires Ready(s, run)
    ensures InDomain(s) && WellShaped(s.plan) && Planned(s.plan, s.preds, s.agg) == Ok(run)
  {
    hide InDomain, WellShaped, Planned;
  }

  lemma RunnerParallel(s: Setting, run: Runner)
    requires Ready(s, run)
    ensures InDomain(s) && Parallel(run) && run.preds == s.preds && run.stringPreds == StringPredicates(s.preds, |s.preds|)
    ensures forall q :: 0 <= q < |run.stringPreds| ==>
      var pred := run.stringPreds[q]; OneOf(s.preds, pred) && pred.isString
    ensures forall q :: 0 <= q < |run.stringPreds| ==>
      var pred := run.stringPreds[q];
      Some(run.stringCols[q]) == StringColumn(s.plan.columnNames, pred.column, 0, 0) && run.patterns[q] == CleanPattern(pred.op, pred.value)
  {
    hide *;
    ReadyIs(s, run);
    var ops := PlannedParts(s, run);
    StringPredicatesAre(s.preds, |s.preds|);
    forall j | 0 <= j < |run.stringPreds| ensures StringColumn(s.plan.columnNames, run.stringPreds[j].column, 0, 0).Some? {
      DomainOf(s, run.stringPreds[j]);
      LookupInPlan(s, run.stringPreds[j]);
    }
    CollectedStrings(s.plan.columnNames, run.stringPreds);
    assert Parallel(run) by { ParallelWhen(run); }
  }

  lemma ParallelWhen(run: Runner)
    requires |run.stringCols| == |run.stringPreds| == |run.patterns|
    ensures Parallel(run)
  {
  }

  lemma AcceptsText(run: Runner, tail: Str, rows: nat, q: nat, r: nat, text: Str)
    requires Parallel(run) && q < |run.stringPreds| && IsStringOp(run.stringPreds[q].op)
    requires Readable(tail, Slot(run.stringCols[q], rows, r)) && ReadString(tail, Slot(run.stringCols[q], rows, r)) == text
    ensures Accepts(run, tail, rows, q, r) == MatchString(text, run.stringPreds[q].op, run.patterns[q])
  {
    hide MatchString, Readable, ReadString, Slot;
  }

  lemma StoredTextInTail(s: Setting, pred: Predicate, b: nat, r: nat)
    requires InDomain(s) && RowIn(s, b, r) && Placed(s.batch, pred) && pred.isString
    ensures var i, tail := Slot(StringIndex(s.batch.columns, ColumnOf(s.batch, pred)), RowsIn(s.batch.numRows, b), r), s.rg.blocks[b].tail;
            Readable(tail, i) && ReadString(tail, i) == StoredText(s.batch, pred, b * 64 + r)
  {
    var f := ColumnOf(s.batch, pred);
    assert HoldsBlock(s.rg.blocks[b], s.batch, b) && s.batch.Valid() && Fits(s.batch);
    assert s.rg.blocks[b].tail == TailOf(StringsOf(s.batch, b));
    assert CellOf(s.batch, pred, b * 64 + r) == StrCell(s.batch.columns[f].strs[b * 64 + r]);
    hide InDomain, HoldsBlock, Slot, Readable, ReadString, TailOf, StringsOf, Fits, ColumnOf, CellOf, Placed;
    ReadStoredString(s.batch, b, f, r);
  }

  lemma TextOnRow(s: Setting, run: Runner, q: nat, b: nat, r: nat)
    requires Ready(s, run) && q < |run.stringPreds| && RowIn(s, b, r)
    ensures Parallel(run)
    ensures var tail, rows, pred := s.rg.blocks[b].tail, RowsIn(s.batch.numRows, b), run.stringPreds[q];
            && OneOf(s.preds, pred) && pred.isString && Placed(s.batch, pred)
            && Readable(tail, Slot(run.stringCols[q], rows, r))
            && Accepts(run, tail, rows, q, r) == StoredMatches(CellOf(s.batch, pred, b * 64 + r), pred)
  {
    hide *;
    RowInside(s, b, r);
    RunnerParallel(s, run);
    var pred := run.stringPreds[q];
    DomainOf(s, pred);
    LookupInPlan(s, pred);
    StoredTextInTail(s, pred, b, r);
    StringOps(pred);
    AcceptsText(run, s.rg.blocks[b].tail, RowsIn(s.batch.numRows, b), q, r, StoredText(s.batch, pred, b * 64 + r));
    StoredMatchText(s.batch, pred, b * 64 + r);
  }

  predicate IsStringOp(op: PredicateOp) { op in {EQ, LIKE_PREFIX, LIKE_CONTAINS} }

  lemma StringOps(pred: Predicate)
    requires WellKinded(pred) && pred.isString
    ensures IsStringOp(pred.op)
  {
  }

  /** String predicate q decides what the tiles store for row n of the batch. */
  ghost predicate Decides(run: Runner, tail: Str, rows: nat, q: nat, r: nat, batch: Batch, n: nat)
    requires Parallel(run) && q < |run.stringPreds| && batch.Valid() && n < batch.numRows
  {
    var pred := run.stringPreds[q];
    && IsStringOp(pred.op) && Placed(batch, pred)
    && Readable(tail, Slot(run.stringCols[q], rows, r))
    && Accepts(run, tail, rows, q, r) == StoredMatches(CellOf(batch, pred, n), pred)
  }

  lemma VerifiedWhen(run: Runner, tail: Str, rows: nat, r: nat, batch: Batch, n: nat)
    requires Parallel(run) && batch.Valid() && n < batch.numRows
    requires forall q :: 0 <= q < |run.stringPreds| ==> Decides(run, tail, rows, q, r, batch, n)
    ensures Verified(run, tail, rows, r) <==> StoredRow(batch, run.stringPreds, n)
    ensures forall q :: 0 <= q < |run.stringCols| ==> Readable(tail, Slot(run.stringCols[q], rows, r))
  {
    forall q | 0 <= q < |run.stringPreds|
      ensures Accepts(run, tail, rows, q, r) == (Placed(batch, run.stringPreds[q]) && StoredMatches(CellOf(batch, run.stringPreds[q], n), run.stringPreds[q]))
      ensures Placed(batch, run.stringPreds[q]) && IsStringOp(run.stringPreds[q].op) && Readable(tail, Slot(run.stringCols[q], rows, r))
    {
      hide Accepts, Placed, StoredMatches, CellOf, Readable, Slot;
      assert Decides(run, tail, rows, q, r, batch, n);
    }
    hide Accepts, Placed, StoredMatches, CellOf, Readable, Slot;
  }

  lemma DecidesOnRow(s: Setting, run: Runner, q: nat, b: nat, r: nat)
    requires Ready(s, run) && q < |run.stringPreds| && RowIn(s, b, r)
    ensures Parallel(run) && b * 64 + r < s.batch.numRows
    ensures Decides(run, s.rg.blocks[b].tail, RowsIn(s.batch.numRows, b), q, r, s.batch, b * 64 + r)
  {
    hide *;
    RowInside(s, b, r);
    RunnerParallel(s, run);
    TextOnRow(s, run, q, b, r);
    DomainOf(s, run.stringPreds[q]);
    StringOps(run.stringPreds[q]);
    DecidesWhen(run, s.rg.blocks[b].tail, RowsIn(s.batch.numRows, b), q, r, s.batch, b * 64 + r);
  }

  lemma DecidesWhen(run: Runner, tail: Str, rows: nat, q: nat, r: nat, batch: Batch, n: nat)
    requires Parallel(run) && q < |run.stringPreds| && batch.Valid() && n < batch.numRows
    requires IsStringOp(run.stringPreds[q].op) && Placed(batch, run.stringPreds[q])
    requires Readable(tail, Slot(run.stringCols[q], rows, r))
    requires Accepts(run, tail, rows, q, r) == StoredMatches(CellOf(batch, run.stringPreds[q], n), run.stringPreds[q])
    ensures Decides(run, tail, rows, q, r, batch, n)
  {
    hide Placed, StoredMatches, CellOf, Readable, Slot, Accepts;
  }

  lemma VerifiedOnRow(s: Setting, run: Runner, b: nat, r: nat)
    requires Ready(s, run) && RowIn(s, b, r)
    ensures Parallel(run) && b * 64 + r < s.batch.numRows
    ensures Verified(run, s.rg.blocks[b].tail, RowsIn(s.batch.numRows, b), r) <==> StoredRow(s.batch, run.stringPreds, b * 64 + r)
    ensures forall q :: 0 <= q < |run.stringCols| ==> Readable(s.rg.blocks[b].tail, Slot(run.stringCols[q], RowsIn(s.batch.numRows, b), r))
  {
    hide *;
    RowInside(s, b, r);
    RunnerParallel(s, run);
    var n, tail, rows := b * 64 + r, s.rg.blocks[b].tail, RowsIn(s.batch.numRows, b);
    forall q | 0 <= q < |run.stringPreds| ensures Decides(run, tail, rows, q, r, s.batch, n) {
      DecidesOnRow(s, run, q, b, r);
    }
    VerifiedWhen(run, tail, rows, r, s.batch, n);
  }

  // ----- one lane of the final mask

  /** What the tests of one predicate say about a row. */
  lemma PassesOnRow(s: Setting, pred: Predicate, b: nat, r: nat)
    requires InDomain(s) && OneOf(s.preds, pred) && RowIn(s, b, r) && |s.rg.blocks[b].columns| == |s.plan.columnNames|
    ensures WellShaped(s.plan) && Located(s.plan, pred) && WellKinded(pred) && Placed(s.batch, pred)
    ensures StoredMatches(CellOf(s.batch, pred, b * 64 + r), pred) ==> PassesPredicate(s.plan, pred, s.rg.blocks[b].columns, r)
    ensures !pred.isString && PassesPredicate(s.plan, pred, s.rg.blocks[b].columns, r) ==> StoredMatches(CellOf(s.batch, pred, b * 64 + r), pred)
  {
    hide *;
    RowInside(s, b, r);
    DomainOf(s, pred);
    if pred.isString { StringOnRow(s, pred, b, r); } else { NumericOnRow(s, pred, b, r); }
  }

  lemma StoredRowAt(batch: Batch, preds: seq<Predicate>, n: nat, pred: Predicate)
    requires batch.Valid() && n < batch.numRows && StoredRow(batch, preds, n) && OneOf(preds, pred)
    ensures Placed(batch, pred) && StoredMatches(CellOf(batch, pred, n), pred)
  {
    hide Placed, StoredMatches, CellOf;
    var i :| 0 <= i < |preds| && preds[i] == pred;
  }

  lemma StoredRowFrom(batch: Batch, preds: seq<Predicate>, some: seq<Predicate>, n: nat)
    requires batch.Valid() && n < batch.numRows && StoredRow(batch, preds, n)
    requires forall q :: 0 <= q < |some| ==> OneOf(preds, some[q])
    ensures StoredRow(batch, some, n)
  {
    forall q | 0 <= q < |some| ensures Placed(batch, some[q]) && StoredMatches(CellOf(batch, some[q], n), some[q]) {
      hide *;
      StoredRowAt(batch, preds, n, some[q]);
    }
    hide Placed, StoredMatches, CellOf;
  }

  lemma OneOfAt(preds: seq<Predicate>, i: nat)
    requires i < |preds|
    ensures OneOf(preds, preds[i])
  {
  }

  lemma StoredRowPasses(s: Setting, b: nat, r: nat)
    requires InDomain(s) && WellShaped(s.plan) && AllWellKinded(s.preds) && RowIn(s, b, r) && |s.rg.blocks[b].columns| == |s.plan.columnNames|
    requires StoredRow(s.batch, s.preds, b * 64 + r)
    ensures PassesTo(s.plan, s.preds, |s.preds|, s.rg.blocks[b].columns, r)
  {
    forall i | 0 <= i < |s.preds|
      ensures Located(s.plan, s.preds[i]) && WellKinded(s.preds[i]) && PassesPredicate(s.plan, s.preds[i], s.rg.blocks[b].columns, r)
    {
      hide *;
      RowInside(s, b, r);
      OneOfAt(s.preds, i);
      StoredRowAt(s.batch, s.preds, b * 64 + r, s.preds[i]);
      PassesOnRow(s, s.preds[i], b, r);
    }
    hide Located, PassesPredicate, InDomain, StoredRow, RowIn, WellShaped;
  }

  lemma PassesAt(plan: RowGroup, preds: seq<Predicate>, tiles: seq<Tile>, r: nat, i: nat)
    requires WellShaped(plan) && AllWellKinded(preds) && |tiles| == |plan.columnNames| && r < 64 && i < |preds|
    requires PassesTo(plan, preds, |preds|, tiles, r)
    ensures Located(plan, preds[i]) && WellKinded(preds[i]) && PassesPredicate(plan, preds[i], tiles, r)
  {
    hide Located, PassesPredicate, WellShaped, WellKinded;
  }

  lemma PassesStoredAt(s: Setting, b: nat, r: nat, i: nat)
    requires InDomain(s) && WellShaped(s.plan) && AllWellKinded(s.preds) && RowIn(s, b, r) && |s.rg.blocks[b].columns| == |s.plan.columnNames|
    requires PassesTo(s.plan, s.preds, |s.preds|, s.rg.blocks[b].columns, r)
    requires StoredRow(s.batch, StringPredicates(s.preds, |s.preds|), b * 64 + r) && i < |s.preds|
    ensures Placed(s.batch, s.preds[i]) && StoredMatches(CellOf(s.batch, s.preds[i], b * 64 + r), s.preds[i])
  {
    hide *;
    RowInside(s, b, r);
    OneOfAt(s.preds, i);
    PassesOnRow(s, s.preds[i], b, r);
    if s.preds[i].isString {
      StringPredicatesAre(s.preds, |s.preds|);
      StoredRowAt(s.batch, StringPredicates(s.preds, |s.preds|), b * 64 + r, s.preds[i]);
    } else {
      PassesAt(s.plan, s.preds, s.rg.blocks[b].columns, r, i);
    }
  }

  lemma StoredRowWhen(batch: Batch, preds: seq<Predicate>, n: nat)
    requires batch.Valid() && n < batch.numRows
    requires forall i :: 0 <= i < |preds| ==> Placed(batch, preds[i]) && StoredMatches(CellOf(batch, preds[i], n), preds[i])
    ensures StoredRow(batch, preds, n)
  {
    hide Placed, StoredMatches, CellOf;
  }

  lemma PassesStored(s: Setting, b: nat, r: nat)
    requires InDomain(s) && WellShaped(s.plan) && AllWellKinded(s.preds) && RowIn(s, b, r) && |s.rg.blocks[b].columns| == |s.plan.columnNames|
    requires PassesTo(s.plan, s.preds, |s.preds|, s.rg.blocks[b].columns, r)
    requires StoredRow(s.batch, StringPredicates(s.preds, |s.preds|), b * 64 + r)
    ensures StoredRow(s.batch, s.preds, b * 64 + r)
  {
    hide *;
    RowInside(s, b, r);
    forall i | 0 <= i < |s.preds|
      ensures Placed(s.batch, s.preds[i]) && StoredMatches(CellOf(s.batch, s.preds[i], b * 64 + r), s.preds[i])
    {
      PassesStoredAt(s, b, r, i);
    }
    StoredRowWhen(s.batch, s.preds, b * 64 + r);
  }

  lemma DomainAll(s: Setting)
    requires InDomain(s)
    ensures WellShaped(s.plan) && AllWellKinded(s.preds) && s.batch.Valid() && s.rg.numRows == s.batch.numRows
    ensures |s.rg.blocks| == NumBlocks(s.batch.numRows)
  {
    hide WellShaped, AllWellKinded, Fits, PredicateInDomain;
  }

  lemma ScanOnRow(s: Setting, run: Runner, ctx: Context, b: nat, r: nat)
    requires Ready(s, run) && b < |s.rg.blocks| && Room(ctx, s.rg.blocks[b].columns) && r < 64
    ensures InDomain(s) && WellShaped(s.plan) && AllWellKinded(s.preds) && |s.rg.blocks[b].columns| == |s.plan.columnNames|
    ensures ScanBlock(run.code, s.rg.blocks[b], ctx)[r]
            <==> s.rg.blocks[b].deleteMask[r] && PassesTo(s.plan, s.preds, |s.preds|, s.rg.blocks[b].columns, r)
  {
    hide *;
    RunnerParallel(s, run);
    DomainAll(s);
    TilesCount(s, b);
    var ops := ReadyParts(s, run);
    LaneMeaning(s.plan, s.preds, ops, s.rg.blocks[b], ctx);
  }

  lemma ReadyParts(s: Setting, run: Runner) returns (ops: seq<MicroOp>)
    requires Ready(s, run)
    ensures WellShaped(s.plan) && PlannedOps(s.plan, s.preds) == Ok(ops) && CompiledFunction(ops) == Ok(run.code)
    ensures s.agg == [] ==> run.aggIndex == None && run.maxAggBit == 0
    ensures s.agg != [] ==> var p := FirstIndex(s.plan.columnNames, s.agg);
                            p.Some? && p.value < |s.plan.columnNames| && run.aggIndex == p && run.maxAggBit == HighestPlane(s.plan.blocks, p.value, 64)
  {
    hide Planned, InDomain, PlannedOps, CompiledFunction, FirstIndex, HighestPlane;
    ops := PlannedParts(s, run);
  }

  lemma MaskedLane(w: Word, rows: nat, r: nat)
    requires rows <= 64 && r < 64
    ensures (if rows < 64 then And(w, LowMask(rows)) else w)[r] == (w[r] && r < rows)
  {
  }

  lemma FinalLane(run: Runner, block: Block, rows: nat, ctx: Context, r: nat)
    requires Parallel(run) && rows <= 64 && r < 64
    ensures Candidates(run, block, rows, ctx)[r] == (ScanBlock(run.code, block, ctx)[r] && r < rows)
    ensures Matched(run, block, rows, ctx)[r] == (ScanBlock(run.code, block, ctx)[r] && r < rows && Verified(run, block.tail, rows, r))
  {
    hide ScanBlock, Verified;
    MaskedLane(ScanBlock(run.code, block, ctx), rows, r);
  }

  /** Lane r of the final mask of a block: row r exists, is not deleted, and its
      stored cells match every predicate. */
  lemma MatchedOnRow(s: Setting, run: Runner, ctx: Context, b: nat, r: nat)
    requires Ready(s, run) && b < |s.rg.blocks| && Room(ctx, s.rg.blocks[b].columns) && RowIn(s, b, r)
    ensures Parallel(run)
    ensures Matched(run, s.rg.blocks[b], RowsIn(s.batch.numRows, b), ctx)[r]
            <==> s.rg.blocks[b].deleteMask[r] && StoredRow(s.batch, s.preds, b * 64 + r)
  {
    hide *;
    RowInside(s, b, r);
    RunnerParallel(s, run);
    ScanOnRow(s, run, ctx, b, r);
    VerifiedOnRow(s, run, b, r);
    FinalLane(run, s.rg.blocks[b], RowsIn(s.batch.numRows, b), ctx, r);
    var n, all := b * 64 + r, PassesTo(s.plan, s.preds, |s.preds|, s.rg.blocks[b].columns, r);
    if StoredRow(s.batch, s.preds, n) {
      StoredRowPasses(s, b, r);
      StoredRowSubset(s.batch, s.preds, run.stringPreds, n);
    } else if all && StoredRow(s.batch, run.stringPreds, n) {
      PassesStored(s, b, r);
    }
  }

  lemma StoredRowSubset(batch: Batch, preds: seq<Predicate>, sp: seq<Predicate>, n: nat)
    requires batch.Valid() && n < batch.numRows && StoredRow(batch, preds, n) && sp == StringPredicates(preds, |preds|)
    ensures StoredRow(batch, sp, n)
  {
    hide *;
    StringPredicatesAre(preds, |preds|);
    StoredRowFrom(batch, preds, sp, n);
  }
}
