/** Plans with an order on a text column, for which no test is emitted: what their
    scans return, exactly. */
module UntestedPredicates {
  import opened Words
  import opened Storage
  import opened MemTables
  import opened AdaptiveIngester
  import opened Machine
  import opened MicroOps
  import opened MicroOpCompiler
  import opened Simulation
  import opened QueryPlanner
  import opened PlanMeaning
  import opened NumericTests
  import opened ColumnLookup
  import opened RegisterBound

  /** `<` or `>` on a text column. */
  predicate TextOrder(pred: Predicate) { pred.isString && pred.op in {GT, LT} }

  predicate Planable(preds: seq<Predicate>) {
    forall i :: 0 <= i < |preds| ==> WellKinded(preds[i]) || TextOrder(preds[i])
  }

  function TestedCount(preds: seq<Predicate>, k: nat): nat
    requires k <= |preds|
  {
    if k == 0 then 0 else TestedCount(preds, k - 1) + if TextOrder(preds[k - 1]) then 0 else 1
  }

  /** Row r passes the tests of the first k predicates that have any. */
  ghost predicate PassesTested(rg: RowGroup, preds: seq<Predicate>, k: nat, tiles: seq<Tile>, r: nat)
    requires WellShaped(rg) && Planable(preds) && |tiles| == |rg.columnNames| && r < 64 && k <= |preds|
  {
    forall i :: 0 <= i < k && !TextOrder(preds[i]) ==> Located(rg, preds[i]) && PassesPredicate(rg, preds[i], tiles, r)
  }

  lemma TestedNext(rg: RowGroup, preds: seq<Predicate>, k: nat, tiles: seq<Tile>, r: nat)
    requires WellShaped(rg) && Planable(preds) && |tiles| == |rg.columnNames| && r < 64 && 0 < k <= |preds|
    ensures TextOrder(preds[k - 1]) ==> PassesTested(rg, preds, k, tiles, r) == PassesTested(rg, preds, k - 1, tiles, r)
    ensures !TextOrder(preds[k - 1]) && Located(rg, preds[k - 1]) ==>
              WellKinded(preds[k - 1])
              && PassesTested(rg, preds, k, tiles, r) == (PassesTested(rg, preds, k - 1, tiles, r) && PassesPredicate(rg, preds[k - 1], tiles, r))
  {
    hide PassesPredicate, WellShaped, Located, WellKinded, TextOrder;
  }

  lemma EmittedStep(rg: RowGroup, preds: seq<Predicate>, k: nat, e: Emitted) returns (before: Emitted)
    requires WellShaped(rg) && 0 < k <= |preds| && EmitPredicates(rg, preds, k) == Ok(e) && Planable(preds)
    ensures EmitPredicates(rg, preds, k - 1) == Ok(before) && EmitPredicate(rg, before, preds[k - 1]) == Ok(e)
    ensures WellKinded(preds[k - 1]) || TextOrder(preds[k - 1])
    ensures TestedCount(preds, k) == TestedCount(preds, k - 1) + if TextOrder(preds[k - 1]) then 0 else 1
  {
    hide EmitPredicate, WellShaped, WellKinded, TextOrder;
    before := EmitPredicates(rg, preds, k - 1).value;
  }

  /** All that is emitted for an order on text is the load of its column's first tile. */
  lemma OrderEmits(rg: RowGroup, e: Emitted, pred: Predicate, e': Emitted)
    requires WellShaped(rg) && TextOrder(pred) && EmitPredicate(rg, e, pred) == Ok(e')
    ensures FirstIndex(rg.columnNames, pred.column).Some?
    ensures e' == Emitted(e.ops + [Load(e.next, FirstIndex(rg.columnNames, pred.column).value)], e.masks, e.next + 1)
  {
    hide FirstIndex, StringColumn, StringTests;
  }

  lemma TestedEmits(pred: Predicate)
    requires WellKinded(pred)
    ensures !TextOrder(pred)
  {
  }

  lemma KeepMasks(masks: seq<int>, env: Env, v: nat, w: Word, r: nat, pass: bool)
    requires r < 64 && MasksAre(masks, env, v, r, pass)
    ensures MasksAre(masks, Assign(env, v, w), v + 1, r, pass)
  {
    assert MasksIn(masks, Assign(env, v, w), v + 1);
    assert AllSet(masks, |masks|, Assign(env, v, w), r) <==> AllSet(masks, |masks|, env, r);
  }

  /** What the last op leaves: the mask of the last test, or the address of a tile. */
  ghost predicate LastOp(rg: RowGroup, preds: seq<Predicate>, k: nat, e: Emitted, env: Env, f: Frame)
    requires 0 < k <= |preds|
  {
    if TextOrder(preds[k - 1]) then
      && EndsIn(e.ops, e.next - 1) && e.next > 0 && (e.next - 1) in env.vregs
      && FirstIndex(rg.columnNames, preds[k - 1].column).Some?
      && env.vregs[e.next - 1] == TileAt(f, FirstIndex(rg.columnNames, preds[k - 1].column).value)
    else e.masks != [] && EndsIn(e.ops, e.masks[|e.masks| - 1])
  }

  lemma OrderBuilt(rg: RowGroup, preds: seq<Predicate>, k: nat, before: Emitted, e: Emitted, env0: Env, f: Frame) returns (env: Env, w: Word)
    requires WellShaped(rg) && 0 < k <= |preds| && TextOrder(preds[k - 1]) && EmitPredicate(rg, before, preds[k - 1]) == Ok(e)
    requires Built(before.ops, before.next, env0, f)
    ensures Built(e.ops, e.next, env, f) && e.masks == before.masks && e.next == before.next + 1
    ensures env == Assign(env0, before.next, w) && LastOp(rg, preds, k, e, env, f)
  {
    hide *;
    OrderEmits(rg, before, preds[k - 1], e);
    var p := FirstIndex(rg.columnNames, preds[k - 1].column).value;
    w := TileAt(f, p);
    env := Assign(env0, before.next, w);
    TileAtIs(f, p);
    PushLoad(before.ops, before.next, env0, p, f);
    LastLoad(rg, preds, k, before, e, env0, w, f);
  }

  lemma TileAtIs(f: Frame, p: nat)
    ensures TileAt(f, p) == TileAddress(f.base, WordOf(p))
  {
  }

  lemma LastLoad(rg: RowGroup, preds: seq<Predicate>, k: nat, before: Emitted, e: Emitted, env0: Env, w: Word, f: Frame)
    requires 0 < k <= |preds| && TextOrder(preds[k - 1]) && FirstIndex(rg.columnNames, preds[k - 1].column).Some?
    requires var p := FirstIndex(rg.columnNames, preds[k - 1].column).value;
             e == Emitted(before.ops + [Load(before.next, p)], before.masks, before.next + 1) && w == TileAt(f, p)
    ensures LastOp(rg, preds, k, e, Assign(env0, before.next, w), f)
  {
    hide TileAt, FirstIndex;
  }

  lemma TestBuilt(rg: RowGroup, preds: seq<Predicate>, done: nat, k: nat, before: Emitted, e: Emitted, env0: Env, f: Frame) returns (env: Env)
    requires WellShaped(rg) && Planable(preds) && done + 1 == k <= |preds| && WellKinded(preds[done]) && EmitPredicate(rg, before, preds[done]) == Ok(e)
    requires TilesIn(f) && |f.tiles| == |rg.columnNames| && Built(before.ops, before.next, env0, f)
    requires forall r :: 0 <= r < 64 ==> MasksAre(before.masks, env0, before.next, r, PassesTested(rg, preds, done, f.tiles, r))
    ensures Built(e.ops, e.next, env, f) && |e.masks| == |before.masks| + 1
    ensures forall r :: 0 <= r < 64 ==> MasksAre(e.masks, env, e.next, r, PassesTested(rg, preds, k, f.tiles, r))
    ensures LastOp(rg, preds, k, e, env, f)
  {
    hide *;
    TestedEmits(preds[done]);
    env := PredicateBuilt(rg, before, preds[done], e, env0, f);
    LastTest(rg, preds, k, e, env, f);
    forall r | 0 <= r < 64 ensures MasksAre(e.masks, env, e.next, r, PassesTested(rg, preds, k, f.tiles, r)) {
      TestMask(rg, preds, done, k, before, e, env0, env, f.tiles, r);
    }
  }

  lemma TestMask(rg: RowGroup, preds: seq<Predicate>, done: nat, k: nat, before: Emitted, e: Emitted, env0: Env, env: Env, tiles: seq<Tile>, r: nat)
    requires WellShaped(rg) && Planable(preds) && done + 1 == k <= |preds| && WellKinded(preds[done]) && Located(rg, preds[done])
    requires |tiles| == |rg.columnNames| && r < 64 && before.next < e.next && e.masks == before.masks + [e.next - 1]
    requires MasksAre(before.masks, env0, before.next, r, PassesTested(rg, preds, done, tiles, r))
    requires Adds(env0, before.next, env, e.next - 1, PredicateWord(rg, preds[done], tiles))
    ensures MasksAre(e.masks, env, e.next, r, PassesTested(rg, preds, k, tiles, r))
  {
    hide *;
    TestedEmits(preds[done]);
    PredicateWordLane(rg, preds[done], tiles, r);
    TestedNext(rg, preds, k, tiles, r);
    AddMask(before.masks, env0, before.next, env, e.next, e.next - 1, PredicateWord(rg, preds[done], tiles), r,
            PassesTested(rg, preds, done, tiles, r));
  }

  lemma LastTest(rg: RowGroup, preds: seq<Predicate>, k: nat, e: Emitted, env: Env, f: Frame)
    requires 0 < k <= |preds| && !TextOrder(preds[k - 1]) && e.masks != [] && EndsIn(e.ops, e.masks[|e.masks| - 1])
    ensures LastOp(rg, preds, k, e, env, f)
  {
    hide EndsIn;
  }

  lemma {:induction false} AnyBuilt(rg: RowGroup, preds: seq<Predicate>, k: nat, e: Emitted, f: Frame) returns (env: Env)
    requires WellShaped(rg) && Planable(preds) && k <= |preds| && EmitPredicates(rg, preds, k) == Ok(e)
    requires TilesIn(f) && |f.tiles| == |rg.columnNames|
    ensures Built(e.ops, e.next, env, f) && |e.masks| == TestedCount(preds, k)
    ensures k > 0 ==> LastOp(rg, preds, k, e, env, f)
    ensures forall r :: 0 <= r < 64 ==> MasksAre(e.masks, env, e.next, r, PassesTested(rg, preds, k, f.tiles, r))
  {
    hide *;
    if k == 0 {
      env := Env(NOTHING, f.dest);
      NothingAny(rg, preds, f);
    } else {
      var before := EmittedStep(rg, preds, k, e);
      var env0 := AnyBuilt(rg, preds, k - 1, before, f);
      if TextOrder(preds[k - 1]) {
        var w;
        env, w := OrderBuilt(rg, preds, k, before, e, env0, f);
        forall r | 0 <= r < 64 ensures MasksAre(e.masks, env, e.next, r, PassesTested(rg, preds, k, f.tiles, r)) {
          TestedNext(rg, preds, k, f.tiles, r);
          KeepMasks(before.masks, env0, before.next, w, r, PassesTested(rg, preds, k - 1, f.tiles, r));
        }
      } else {
        env := TestBuilt(rg, preds, k - 1, k, before, e, env0, f);
      }
    }
  }

  lemma NothingAny(rg: RowGroup, preds: seq<Predicate>, f: Frame)
    requires WellShaped(rg) && Planable(preds) && |f.tiles| == |rg.columnNames|
    ensures EmitPredicates(rg, preds, 0) == Ok(NOTHING_EMITTED)
    ensures |NOTHING_EMITTED.masks| == TestedCount(preds, 0)
    ensures Built(NOTHING_EMITTED.ops, NOTHING_EMITTED.next, Env(NOTHING, f.dest), f)
    ensures forall r :: 0 <= r < 64 ==>
              MasksAre(NOTHING_EMITTED.masks, Env(NOTHING, f.dest), NOTHING_EMITTED.next, r, PassesTested(rg, preds, 0, f.tiles, r))
  {
  }

  /** One test in all, and an order on text behind it. */
  predicate EndsWithLoad(preds: seq<Predicate>) {
    preds != [] && TestedCount(preds, |preds|) == 1 && TextOrder(preds[|preds| - 1])
  }

  lemma AnyResult(rg: RowGroup, preds: seq<Predicate>, ops: seq<MicroOp>, f: Frame)
    requires WellShaped(rg) && Planable(preds) && PlannedOps(rg, preds) == Ok(ops)
    requires TilesIn(f) && |f.tiles| == |rg.columnNames|
    ensures ScanOps(ops) && TilesKept(ops) && preds != []
    ensures EndsWithLoad(preds) ==>
              var p := FirstIndex(rg.columnNames, preds[|preds| - 1].column);
              p.Some? && ScanResult(ops, f.dest, f.base, f.mem) == TileAt(f, p.value)
    ensures !EndsWithLoad(preds) ==>
              forall r :: 0 <= r < 64 ==> ScanResult(ops, f.dest, f.base, f.mem)[r] == PassesTested(rg, preds, |preds|, f.tiles, r)
  {
    hide *;
    var e := EmittedBefore(rg, preds, ops);
    var n := |e.masks|;
    var (_, mask, next) := CombineMasks(e, n);
    var env := AnyBuilt(rg, preds, |preds|, e, f);
    MasksOf(e.masks, env, e.next, 0, PassesTested(rg, preds, |preds|, f.tiles, 0));
    var end := CombineBuilt(e, n, env, f);
    CombinedParts(e, n, ops, mask, next, env, end, f);
    NoTests(preds);
    LastParts(rg, preds, e, env, f);
    EndsWithLoadIs(preds);
    if EndsWithLoad(preds) {
      BuiltIsScan(ops, e.next, env, e.next - 1, f);
    } else {
      BuiltIsScan(ops, next, end, mask, f);
      forall r | 0 <= r < 64 ensures end.vregs[mask][r] == PassesTested(rg, preds, |preds|, f.tiles, r) {
        MasksOf(e.masks, env, e.next, r, PassesTested(rg, preds, |preds|, f.tiles, r));
      }
    }
  }

  lemma NoTests(preds: seq<Predicate>)
    ensures preds == [] ==> TestedCount(preds, |preds|) == 0
  {
  }

  lemma EndsWithLoadIs(preds: seq<Predicate>)
    ensures EndsWithLoad(preds) <==> preds != [] && TestedCount(preds, |preds|) == 1 && TextOrder(preds[|preds| - 1])
  {
  }

  lemma LastParts(rg: RowGroup, preds: seq<Predicate>, e: Emitted, env: Env, f: Frame)
    ensures preds != [] && LastOp(rg, preds, |preds|, e, env, f) && TextOrder(preds[|preds| - 1]) ==>
              && EndsIn(e.ops, e.next - 1) && e.next > 0 && (e.next - 1) in env.vregs
              && FirstIndex(rg.columnNames, preds[|preds| - 1].column).Some?
              && env.vregs[e.next - 1] == TileAt(f, FirstIndex(rg.columnNames, preds[|preds| - 1].column).value)
    ensures preds != [] && LastOp(rg, preds, |preds|, e, env, f) && !TextOrder(preds[|preds| - 1]) ==>
              e.masks != [] && EndsIn(e.ops, e.masks[|e.masks| - 1])
  {
    hide EndsIn, TextOrder, TileAt, FirstIndex;
  }

  /** What the scan of any plan returns. Orders on text are not tested; and when a single
      test stands before one that comes last, the scan does not return that test's mask
      but the address of the text column's tile. */
  lemma AnyPlan(rg: RowGroup, preds: seq<Predicate>, ops: seq<MicroOp>, code: seq<Instr>, block: Block, ctx: Context, r: nat)
    requires WellShaped(rg) && Planable(preds) && PlannedOps(rg, preds) == Ok(ops) && CompiledFunction(ops) == Ok(code)
    requires Room(ctx, block.columns) && |block.columns| == |rg.columnNames| && r < 64
    ensures !EndsWithLoad(preds) ==> (ScanBlock(code, block, ctx)[r] <==> block.deleteMask[r] && PassesTested(rg, preds, |preds|, block.columns, r))
    ensures EndsWithLoad(preds) ==>
              var p := FirstIndex(rg.columnNames, preds[|preds| - 1].column);
              && p.Some? && p.value < |block.columns|
              && (ScanBlock(code, block, ctx)[r] <==> block.deleteMask[r] && WordOf(ctx.base + 576 * p.value)[r])
  {
    hide *;
    var f, entry := FrameOf(block, ctx), ScanEntry(block, ctx);
    FrameHoldsTiles(block, ctx);
    EntryIs(code, block, ctx);
    AnyResult(rg, preds, ops, f);
    CompiledScan(ops, code, entry);
    AndAt(ScanResult(ops, entry.dest, entry.regs[0], entry.mem), entry.regs[3], r);
    if EndsWithLoad(preds) {
      var p := FirstIndex(rg.columnNames, preds[|preds| - 1].column).value;
      IndexBound(rg.columnNames, preds[|preds| - 1].column);
      AddressIs(block, ctx, p);
    }
  }

  lemma EntryIs(code: seq<Instr>, block: Block, ctx: Context)
    ensures var f, entry := FrameOf(block, ctx), ScanEntry(block, ctx);
            && f.tiles == block.columns && entry.dest == f.dest && entry.regs[0] == f.base && entry.mem == f.mem && entry.regs[3] == block.deleteMask
    ensures ScanBlock(code, block, ctx) == CallScan(code, ScanEntry(block, ctx))
  {
    hide LoadFrom, WordOf, Run;
  }

  lemma AndAt(x: Word, y: Word, r: nat)
    requires r < 64
    ensures And(x, y)[r] <==> x[r] && y[r]
  {
  }

  lemma AddressIs(block: Block, ctx: Context, p: nat)
    requires p < |block.columns| && Room(ctx, block.columns)
    ensures TileAt(FrameOf(block, ctx), p) == WordOf(ctx.base + 576 * p)
  {
    hide LoadFrom, Value;
    TileAddressValue(ctx.base, p, |block.columns|);
    WordValue(ctx.base + 576 * p);
    ValueInjective(TileAt(FrameOf(block, ctx), p), WordOf(ctx.base + 576 * p));
    hide WordOf;
  }

  lemma HighBit(w: Word, r: nat, n: nat)
    requires r < 63 && n < Pow2(r) && Value(w) == Pow2(r) + n
    ensures w[r]
  {
    SumFits(r);
    hide *;
    forall i | r < i < 64 ensures !w[i] { SmallValueBits(w, r + 1, i); }
    if !w[r] {
      ValueTrim(w, r);
      ValueBound(w[..r]);
      assert false;
    }
  }

  lemma BitOfSum(r: nat, n: nat)
    requires r < 63 && n < Pow2(r)
    ensures !WordOf(n)[r] && WordOf(Pow2(r) + n)[r]
  {
    hide *;
    SumFits(r);
    WordValue(n);
    WordValue(Pow2(r) + n);
    SmallValueBits(WordOf(n), r, r);
    HighBit(WordOf(Pow2(r) + n), r, n);
  }

  lemma SumFits(r: nat)
    requires r < 63
    ensures Pow2(r + 1) == 2 * Pow2(r) && 2 * Pow2(r) <= TWO_64
  {
    Pow2Of64();
    Pow2Monotone(r + 1, 64);
  }

  /** Such a plan selects by where the tiles happen to lie: at one address a row that is
      not deleted is not selected, at another it is, whatever the block holds. */
  lemma AddressDecides(rg: RowGroup, preds: seq<Predicate>, ops: seq<MicroOp>, code: seq<Instr>, block: Block, ctx: Context, r: nat)
    requires WellShaped(rg) && Planable(preds) && PlannedOps(rg, preds) == Ok(ops) && CompiledFunction(ops) == Ok(code)
    requires EndsWithLoad(preds) && |block.columns| == |rg.columnNames| && r < 63 && 576 * |block.columns| <= Pow2(r) && block.deleteMask[r]
    ensures !ScanBlock(code, block, ctx.(base := 0))[r] && ScanBlock(code, block, ctx.(base := Pow2(r)))[r]
  {
    hide *;
    SumFits(r);
    EndsWithLoadIs(preds);
    RoomAt(ctx, block.columns, 0);
    RoomAt(ctx, block.columns, Pow2(r));
    AnyPlan(rg, preds, ops, code, block, ctx.(base := 0), r);
    AnyPlan(rg, preds, ops, code, block, ctx.(base := Pow2(r)), r);
    BitOfSum(r, 576 * FirstIndex(rg.columnNames, preds[|preds| - 1].column).value);
  }

  lemma RoomAt(ctx: Context, tiles: seq<Tile>, base: nat)
    requires base + 576 * |tiles| <= TWO_64 && base < TWO_64
    ensures Room(ctx.(base := base), tiles)
  {
  }

  // ----- there are such plans

  const TESTED: Str := [97]
  const ORDERED: Str := [98]

  /** An integer column and a text column, of no rows. */
  const ROWLESS := RowGroup(0, [TESTED, ORDERED, ORDERED + KIM_SUFFIX], [TYPE_INT64, TYPE_STRING, TYPE_UINT64], [])

  /** The first is 1 and the second is above the empty text. */
  const ONE_AND_ORDER := [Predicate(TESTED, EQ, [], 1, false), Predicate(ORDERED, GT, [], 0, true)]

  lemma ColumnsFound()
    ensures WellShaped(ROWLESS)
    ensures FirstIndex(ROWLESS.columnNames, TESTED) == Some(0) && FirstIndex(ROWLESS.columnNames, ORDERED) == Some(1)
    ensures FirstIndex(ROWLESS.columnNames, ORDERED + KIM_SUFFIX).Some?
    ensures StringColumn(ROWLESS.columnNames, ORDERED, 0, 0).Some?
  {
    var names := ROWLESS.columnNames;
    assert TESTED != ORDERED && ORDERED != ORDERED + KIM_SUFFIX && ORDERED != TESTED + KIM_SUFFIX;
    FirstIndexIs(names, TESTED, 0);
    FirstIndexIs(names, ORDERED, 1);
    FirstIndexIs(names, ORDERED + KIM_SUFFIX, 2);
    hide FirstIndex;
    assert !FollowedByKim(names, 0);
    assert StringColumn(names, ORDERED, 1, 0) == Some(0);
  }

  lemma FirstEmits() returns (t: TileTest)
    ensures WellShaped(ROWLESS) && t.op == CMP_EQ
    ensures EmitPredicate(ROWLESS, NOTHING_EMITTED, ONE_AND_ORDER[0]) == Ok(Emitted([Load(0, 0), Compare(1, 0, t)], [1], 2))
  {
    ColumnsFound();
    t := NumericTest(ROWLESS.blocks, ONE_AND_ORDER[0], 0);
    hide FirstIndex, StringColumn, NumCompareBits, HighestPlane, WordOf;
    assert EmitNumeric(NOTHING_EMITTED, t) == Emitted([Load(0, t.tile), Compare(1, 0, t)], [1], 2);
  }

  lemma SecondEmits(e: Emitted)
    ensures WellShaped(ROWLESS)
    ensures EmitPredicate(ROWLESS, e, ONE_AND_ORDER[1]) == Ok(Emitted(e.ops + [Load(e.next, 1)], e.masks, e.next + 1))
  {
    ColumnsFound();
    hide FirstIndex, StringColumn, StringTests, NumericTest, WordOf;
  }

  lemma BothEmit(e1: Emitted, e2: Emitted)
    requires WellShaped(ROWLESS)
    requires EmitPredicate(ROWLESS, NOTHING_EMITTED, ONE_AND_ORDER[0]) == Ok(e1) && EmitPredicate(ROWLESS, e1, ONE_AND_ORDER[1]) == Ok(e2)
    ensures EmitPredicates(ROWLESS, ONE_AND_ORDER, 2) == Ok(e2)
  {
    hide EmitPredicate, WellShaped;
    assert EmitPredicates(ROWLESS, ONE_AND_ORDER, 0) == Ok(NOTHING_EMITTED);
    assert EmitPredicates(ROWLESS, ONE_AND_ORDER, 1) == Ok(e1);
  }

  lemma RowlessEmits() returns (e: Emitted, t: TileTest)
    ensures WellShaped(ROWLESS) && EmitPredicates(ROWLESS, ONE_AND_ORDER, 2) == Ok(e)
    ensures e == Emitted([Load(0, 0), Compare(1, 0, t), Load(2, 1)], [1], 3) && t.op == CMP_EQ
  {
    hide *;
    t := FirstEmits();
    var e1 := Emitted([Load(0, 0), Compare(1, 0, t)], [1], 2);
    SecondEmits(e1);
    e := Emitted(e1.ops + [Load(2, 1)], [1], 3);
    BothEmit(e1, e);
    assert e.ops == [Load(0, 0), Compare(1, 0, t), Load(2, 1)];
  }

  lemma SuchPlansExist() returns (ops: seq<MicroOp>, code: seq<Instr>)
    ensures WellShaped(ROWLESS) && Planable(ONE_AND_ORDER) && EndsWithLoad(ONE_AND_ORDER)
    ensures PlannedOps(ROWLESS, ONE_AND_ORDER) == Ok(ops) && CompiledFunction(ops) == Ok(code)
  {
    var e, t := RowlessEmits();
    ops := e.ops;
    hide EmitPredicates, CompiledFunction, WordOf;
    assert TestedCount(ONE_AND_ORDER, 0) == 0 && TestedCount(ONE_AND_ORDER, 1) == 1;
    assert PlannedOps(ROWLESS, ONE_AND_ORDER) == Ok(ops);
    assert DefinesInOrder(ops[0], 0) && DefinesInOrder(ops[1], 1) && DefinesInOrder(ops[2], 2);
    CompilesExactly(ops);
    code := CompiledFunction(ops).value;
  }
}
