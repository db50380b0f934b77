/** What a compiled plan computes on one block: lane r of the mask is set exactly
    when the row is not deleted and passes every emitted tile test. */
module PlanMeaning {
  import opened Words
  import opened SimdTransposer
  import opened Storage
  import opened MemTables
  import opened AdaptiveIngester
  import opened Machine
  import opened MicroOps
  import opened MicroOpCompiler
  import opened Simulation
  import opened QueryPlanner

  // ----- a block in memory

  /** Word k of a tile: planes, validity, padding. */
  function TileWord(t: Tile, k: nat): Word
    requires k < 72
  {
    if k < 64 then t.planes[k] else if k == 64 then t.validity else t.padding[k - 65]
  }

  /** The tile array at address `base`; other addresses hold whatever they hold. */
  function LoadFrom(tiles: seq<Tile>, base: nat, outside: Memory, a: nat): Word {
    if base <= a < base + TILE_BYTES * |tiles| && (a - base) % 8 == 0
    then TileWord(tiles[(a - base) / TILE_BYTES], ((a - base) % TILE_BYTES) / 8)
    else outside(a)
  }

  /** What a call finds: where the tiles are, the other registers, the rest of
      memory, and what a callee would leave behind. */
  datatype Context = Context(base: nat, regs: Regs, outside: Memory, dest: Matrix, junk: Regs)

  predicate Room(ctx: Context, tiles: seq<Tile>) { ctx.base + TILE_BYTES * |tiles| <= TWO_64 && ctx.base < TWO_64 }

  function ScanEntry(block: Block, ctx: Context): State {
    EntryState(ctx.regs[0 := WordOf(ctx.base)][3 := block.deleteMask],
               a => LoadFrom(block.columns, ctx.base, ctx.outside, a), ctx.dest, ctx.junk)
  }

  /** Running compiled code on a block. */
  function ScanBlock(code: seq<Instr>, block: Block, ctx: Context): Word { CallScan(code, ScanEntry(block, ctx)) }

  lemma PlaneOffset(p: nat, k: nat, n: nat)
    requires p < n && k < 72
    ensures (TILE_BYTES * p + 8 * k) / TILE_BYTES == p
    ensures (TILE_BYTES * p + 8 * k) % TILE_BYTES == 8 * k
    ensures TILE_BYTES * p + 8 * k < TILE_BYTES * n
    ensures (TILE_BYTES * p + 8 * k) % 8 == 0
  {
  }

  lemma TileAddressValue(base: nat, p: nat, n: nat)
    requires p < n && base + TILE_BYTES * n <= TWO_64
    ensures Value(TileAddress(WordOf(base), WordOf(p))) == base + TILE_BYTES * p
  {
    WordValue(base);
    WordValue(p);
    assert Value(WordOf(base)) == base && Value(WordOf(p)) == p;
    assert Wrap(p * TILE_BYTES) == p * TILE_BYTES;
    WordValue(base + p * TILE_BYTES);
    hide WordOf, Value;
  }

  lemma PlaneWord(tiles: seq<Tile>, base: nat, outside: Memory, p: nat, k: nat)
    requires p < |tiles| && k < 64
    ensures TILE_BYTES * p + 8 * k < TILE_BYTES * |tiles|
    ensures LoadFrom(tiles, base, outside, base + (TILE_BYTES * p + 8 * k)) == tiles[p].planes[k]
  {
    PlaneOffset(p, k, |tiles|);
  }

  lemma SmallAddress(address: Word, offset: nat)
    requires Value(address) + offset < TWO_64
    ensures Address(address, offset) == Value(address) + offset
  {
    hide Value;
  }

  lemma PlanesOfTile(block: Block, ctx: Context, p: nat)
    requires p < |block.columns| && Room(ctx, block.columns)
    ensures PlanesAt(ScanEntry(block, ctx).mem, TileAddress(WordOf(ctx.base), WordOf(p))) == block.columns[p].planes
  {
    var n := |block.columns|;
    var address := TileAddress(WordOf(ctx.base), WordOf(p));
    TileAddressValue(ctx.base, p, n);
    var mem := ScanEntry(block, ctx).mem;
    hide WordOf, Value, TileAddress, Wrap, LoadFrom, Address;
    forall k | 0 <= k < 64 ensures PlanesAt(mem, address)[k] == block.columns[p].planes[k] {
      PlaneWord(block.columns, ctx.base, ctx.outside, p, k);
      SmallAddress(address, 8 * k);
    }
  }

  /** What the ops run against: the tile array's address, memory, the
      destination buffer, and the tiles found there. */
  datatype Frame = Frame(base: Word, mem: Memory, dest: Matrix, tiles: seq<Tile>)

  ghost predicate TilesIn(f: Frame) {
    forall p :: 0 <= p < |f.tiles| ==> PlanesAt(f.mem, TileAddress(f.base, WordOf(p))) == f.tiles[p].planes
  }

  function FrameOf(block: Block, ctx: Context): Frame {
    Frame(WordOf(ctx.base), ScanEntry(block, ctx).mem, ctx.dest, block.columns)
  }

  lemma FrameHoldsTiles(block: Block, ctx: Context)
    requires Room(ctx, block.columns)
    ensures TilesIn(FrameOf(block, ctx))
  {
    hide PlanesAt, TileAddress, WordOf;
    forall p | 0 <= p < |block.columns|
      ensures PlanesAt(FrameOf(block, ctx).mem, TileAddress(WordOf(ctx.base), WordOf(p))) == block.columns[p].planes
    {
      PlanesOfTile(block, ctx, p);
    }
  }

  // ----- emitting ops one by one

  /** Ops over virtual registers 0..v-1 and the environment they lead to. */
  ghost predicate Built(ops: seq<MicroOp>, v: nat, env: Env, f: Frame) {
    && DefinedBeforeUse(ops, NOTHING.Keys) && TilesKept(ops)
    && ExecAll(ops, Env(NOTHING, f.dest), f.base, f.mem) == env
    && forall x :: x in env.vregs <==> 0 <= x < v
  }

  lemma {:induction false} ExecSnoc(ops: seq<MicroOp>, op: MicroOp, env: Env, base: Word, mem: Memory)
    requires DefinedBeforeUse(ops, env.vregs.Keys)
    requires Usable(op, ExecAll(ops, env, base, mem).vregs.Keys)
    ensures DefinedBeforeUse(ops + [op], env.vregs.Keys)
    ensures ExecAll(ops + [op], env, base, mem) == Exec(op, ExecAll(ops, env, base, mem), base, mem)
    decreases |ops|
  {
    if ops == [] {
      assert ops + [op] == [op];
      assert [op][1..] == [];
    } else {
      var next := Exec(ops[0], env, base, mem);
      assert next.vregs.Keys == DefinedAfter(ops[0], env.vregs.Keys);
      hide Exec, Usable;
      ExecSnoc(ops[1..], op, next, base, mem);
      assert (ops + [op])[0] == ops[0] && (ops + [op])[1..] == ops[1..] + [op];
    }
  }

  function Assign(env: Env, v: int, w: Word): Env { env.(vregs := env.vregs[v := w]) }

  lemma Push(ops: seq<MicroOp>, v: nat, env: Env, op: MicroOp, f: Frame, w: Word)
    requires Built(ops, v, env, f)
    requires op.dest == v && Usable(op, env.vregs.Keys) && TileKept(op) && Exec(op, env, f.base, f.mem) == Assign(env, v, w)
    ensures Built(ops + [op], v + 1, Assign(env, v, w), f)
  {
    hide DefinedBeforeUse, ExecAll, Usable, TileKept;
    ExecSnoc(ops, op, Env(NOTHING, f.dest), f.base, f.mem);
  }

  lemma PushLoad(ops: seq<MicroOp>, v: nat, env: Env, p: nat, f: Frame)
    requires Built(ops, v, env, f)
    ensures Built(ops + [Load(v, p)], v + 1, Assign(env, v, TileAddress(f.base, WordOf(p))), f)
  {
    hide Built, TileAddress, WordOf;
    Push(ops, v, env, Load(v, p), f, TileAddress(f.base, WordOf(p)));
  }

  predicate GoodTest(t: TileTest, tiles: seq<Tile>) { IsCompare(t.op) && t.tile < |tiles| }

  /** The mask of one tile test. */
  function TestWord(t: TileTest, tiles: seq<Tile>): Word
    requires GoodTest(t, tiles)
  {
    Compared(t.op, tiles[t.tile].planes, t.imm, CompareBits(t.op, t.bits))
  }

  /** `src` holds the address of the test's tile. */
  lemma PushCompare(ops: seq<MicroOp>, v: nat, env: Env, src: nat, t: TileTest, f: Frame)
    requires TilesIn(f) && GoodTest(t, f.tiles) && Built(ops, v, env, f)
    requires src < v && src in env.vregs && env.vregs[src] == TileAddress(f.base, WordOf(t.tile))
    ensures Built(ops + [Compare(v, src, t)], v + 1, Assign(env, v, TestWord(t, f.tiles)), f)
  {
    hide Built, TileAddress, WordOf, PlanesAt, Compared, CompareBits;
    Push(ops, v, env, Compare(v, src, t), f, TestWord(t, f.tiles));
  }

  lemma PushAnd(ops: seq<MicroOp>, v: nat, env: Env, x: int, y: int, f: Frame)
    requires Built(ops, v, env, f) && x in env.vregs && y in env.vregs
    ensures Built(ops + [AndOp(v, x, y)], v + 1, Assign(env, v, And(env.vregs[x], env.vregs[y])), f)
  {
    var w := And(env.vregs[x], env.vregs[y]);
    hide Built, And;
    Push(ops, v, env, AndOp(v, x, y), f, w);
  }

  // ----- the op patterns of the predicates

  function TileAt(f: Frame, p: nat): Word { TileAddress(f.base, WordOf(p)) }

  /** Old registers keep their values, and register m holds w. */
  ghost predicate Adds(env: Env, v: nat, env': Env, m: int, w: Word) {
    && m in env'.vregs && env'.vregs[m] == w
    && env'.vregs.Keys >= env.vregs.Keys && forall x :: x in env.vregs && x < v ==> env'.vregs[x] == env.vregs[x]
  }

  lemma OneTest(ops: seq<MicroOp>, v: nat, env: Env, t: TileTest, f: Frame) returns (env': Env)
    requires TilesIn(f) && GoodTest(t, f.tiles) && Built(ops, v, env, f)
    ensures Built(ops + [Load(v, t.tile)] + [Compare(v + 1, v, t)], v + 2, env', f)
    ensures Adds(env, v, env', v + 1, TestWord(t, f.tiles))
  {
    hide Built, TestWord, TileAddress, WordOf, TilesIn, Load, Compare;
    var env1 := Assign(env, v, TileAt(f, t.tile));
    env' := Assign(env1, v + 1, TestWord(t, f.tiles));
    PushLoad(ops, v, env, t.tile, f);
    PushCompare(ops + [Load(v, t.tile)], v + 1, env1, v, t, f);
  }

  lemma SecondTileTest(ops: seq<MicroOp>, v: nat, env: Env, other: nat, t: TileTest, f: Frame) returns (env': Env)
    requires TilesIn(f) && GoodTest(t, f.tiles) && Built(ops, v, env, f)
    ensures Built(ops + [Load(v, other)] + [Load(v + 1, t.tile)] + [Compare(v + 2, v + 1, t)], v + 3, env', f)
    ensures Adds(env, v, env', v + 2, TestWord(t, f.tiles))
  {
    hide Built, TestWord, TileAddress, WordOf, TilesIn, Load, Compare;
    var env1 := Assign(env, v, TileAt(f, other));
    PushLoad(ops, v, env, other, f);
    env' := OneTest(ops + [Load(v, other)], v + 1, env1, t, f);
  }

  lemma TwoTests(ops: seq<MicroOp>, v: nat, env: Env, t0: TileTest, t1: TileTest, f: Frame) returns (env': Env)
    requires TilesIn(f) && GoodTest(t0, f.tiles) && GoodTest(t1, f.tiles) && Built(ops, v, env, f)
    ensures Built(ops + [Load(v, t0.tile)] + [Load(v + 1, t1.tile)] + [Compare(v + 2, v, t0)] + [Compare(v + 3, v + 1, t1)]
                  + [AndOp(v + 4, v + 2, v + 3)], v + 5, env', f)
    ensures Adds(env, v, env', v + 4, And(TestWord(t0, f.tiles), TestWord(t1, f.tiles)))
  {
    hide Built, TestWord, TileAddress, WordOf, TilesIn, Load, Compare, AndOp, And;
    var ops1 := ops + [Load(v, t0.tile)] + [Load(v + 1, t1.tile)];
    var env2 := Assign(Assign(env, v, TileAt(f, t0.tile)), v + 1, TileAt(f, t1.tile));
    PushLoad(ops, v, env, t0.tile, f);
    PushLoad(ops + [Load(v, t0.tile)], v + 1, Assign(env, v, TileAt(f, t0.tile)), t1.tile, f);
    env' := CompareBoth(ops1, v + 2, env2, v, v + 1, t0, t1, f);
  }

  lemma CompareBoth(ops: seq<MicroOp>, v: nat, env: Env, a0: nat, a1: nat, t0: TileTest, t1: TileTest, f: Frame) returns (env': Env)
    requires TilesIn(f) && GoodTest(t0, f.tiles) && GoodTest(t1, f.tiles) && Built(ops, v, env, f)
    requires a0 < v && a1 < v && a0 in env.vregs && a1 in env.vregs
    requires env.vregs[a0] == TileAt(f, t0.tile) && env.vregs[a1] == TileAt(f, t1.tile)
    ensures Built(ops + [Compare(v, a0, t0)] + [Compare(v + 1, a1, t1)] + [AndOp(v + 2, v, v + 1)], v + 3, env', f)
    ensures Adds(env, v, env', v + 2, And(TestWord(t0, f.tiles), TestWord(t1, f.tiles)))
  {
    hide Built, TestWord, TileAddress, WordOf, TilesIn, Compare, AndOp, And;
    var w0, w1 := TestWord(t0, f.tiles), TestWord(t1, f.tiles);
    var env1 := Assign(env, v, w0);
    var env2 := Assign(env1, v + 1, w1);
    env' := Assign(env2, v + 2, And(w0, w1));
    PushCompare(ops, v, env, a0, t0, f);
    PushCompare(ops + [Compare(v, a0, t0)], v + 1, env1, a1, t1, f);
    PushAnd(ops + [Compare(v, a0, t0)] + [Compare(v + 1, a1, t1)], v + 2, env2, v, v + 1, f);
  }

  // ----- a row passes the tests of a predicate

  predicate PassesTest(t: TileTest, tiles: seq<Tile>, r: nat)
    requires GoodTest(t, tiles) && r < 64
  {
    LaneTest(t.op, Lane(tiles[t.tile], r), t.imm, CompareBits(t.op, t.bits))
  }

  predicate GoodTests(tests: seq<TileTest>, tiles: seq<Tile>) {
    forall i :: 0 <= i < |tests| ==> GoodTest(tests[i], tiles)
  }

  predicate PassesTests(tests: seq<TileTest>, tiles: seq<Tile>, r: nat)
    requires GoodTests(tests, tiles) && r < 64
  {
    forall i :: 0 <= i < |tests| ==> PassesTest(tests[i], tiles, r)
  }

  lemma TestWordLane(t: TileTest, tiles: seq<Tile>, r: nat)
    requires GoodTest(t, tiles) && r < 64
    ensures TestWord(t, tiles)[r] == PassesTest(t, tiles, r)
  {
    hide Transposed, LaneTest;
  }

  /** The first i masks are set in lane r. */
  predicate AllSet(masks: seq<int>, i: nat, env: Env, r: nat)
    requires r < 64 && i <= |masks|
  {
    forall j :: 0 <= j < i ==> masks[j] in env.vregs && env.vregs[masks[j]][r]
  }

  predicate MasksIn(masks: seq<int>, env: Env, v: nat) {
    forall j :: 0 <= j < |masks| ==> masks[j] in env.vregs && masks[j] < v
  }

  /** The mask registers together say whether row r passes. */
  predicate MasksAre(masks: seq<int>, env: Env, v: nat, r: nat, pass: bool)
    requires r < 64
  {
    MasksIn(masks, env, v) && (pass <==> AllSet(masks, |masks|, env, r))
  }

  lemma AddMask(masks: seq<int>, env: Env, v: nat, env': Env, v': nat, m: int, w: Word, r: nat, pass: bool)
    requires r < 64 && v <= m < v' && MasksAre(masks, env, v, r, pass) && Adds(env, v, env', m, w)
    ensures MasksAre(masks + [m], env', v', r, pass && w[r])
  {
    var more := masks + [m];
    forall j | 0 <= j < |more| ensures more[j] in env'.vregs && more[j] < v' {
      if j < |masks| { assert more[j] == masks[j]; }
    }
    if pass && w[r] {
      forall j | 0 <= j < |more| ensures env'.vregs[more[j]][r] {
        if j < |masks| { assert more[j] == masks[j]; }
      }
    }
    if AllSet(more, |more|, env', r) {
      forall j | 0 <= j < |masks| ensures env.vregs[masks[j]][r] { assert more[j] == masks[j]; }
      assert more[|masks|] == m;
    }
  }

  // ----- one predicate, all predicates, the combined mask

  /** Operators that fit the predicate's kind. */
  predicate WellKinded(pred: Predicate) {
    if pred.isString then pred.op in {EQ, LIKE_PREFIX, LIKE_CONTAINS} else pred.op in {EQ, GT, LT}
  }

  predicate AllWellKinded(preds: seq<Predicate>) { forall i :: 0 <= i < |preds| ==> WellKinded(preds[i]) }

  predicate Located(rg: RowGroup, pred: Predicate) {
    && FirstIndex(rg.columnNames, pred.column).Some?
    && (pred.isString ==> FirstIndex(rg.columnNames, pred.column + KIM_SUFFIX).Some?)
  }

  /** The tile tests a plan on rg makes for a predicate. */
  ghost function TestsFor(rg: RowGroup, pred: Predicate): seq<TileTest>
    requires WellShaped(rg) && Located(rg, pred)
  {
    if pred.isString then
      StringTests(pred, FirstIndex(rg.columnNames, pred.column).value, FirstIndex(rg.columnNames, pred.column + KIM_SUFFIX).value)
    else [NumericTest(rg.blocks, pred, FirstIndex(rg.columnNames, pred.column).value)]
  }

  lemma TestsAreGood(rg: RowGroup, pred: Predicate, tiles: seq<Tile>)
    requires WellShaped(rg) && Located(rg, pred) && WellKinded(pred) && |tiles| == |rg.columnNames|
    ensures GoodTests(TestsFor(rg, pred), tiles)
    ensures |TestsFor(rg, pred)| == if pred.isString && pred.op == EQ then 2 else 1
  {
    hide Signature, SkeletonConstant, HighestPlane;
  }

  ghost predicate PassesPredicate(rg: RowGroup, pred: Predicate, tiles: seq<Tile>, r: nat)
    requires WellShaped(rg) && Located(rg, pred) && WellKinded(pred) && |tiles| == |rg.columnNames| && r < 64
  {
    TestsAreGood(rg, pred, tiles);
    PassesTests(TestsFor(rg, pred), tiles, r)
  }

  /** Conjunction over the tests of a predicate, as a word. */
  ghost function PredicateWord(rg: RowGroup, pred: Predicate, tiles: seq<Tile>): Word
    requires WellShaped(rg) && Located(rg, pred) && WellKinded(pred) && |tiles| == |rg.columnNames|
  {
    TestsAreGood(rg, pred, tiles);
    var tests := TestsFor(rg, pred);
    if |tests| == 2 then And(TestWord(tests[0], tiles), TestWord(tests[1], tiles)) else TestWord(tests[0], tiles)
  }

  lemma PredicateWordLane(rg: RowGroup, pred: Predicate, tiles: seq<Tile>, r: nat)
    requires WellShaped(rg) && Located(rg, pred) && WellKinded(pred) && |tiles| == |rg.columnNames| && r < 64
    ensures PredicateWord(rg, pred, tiles)[r] == PassesPredicate(rg, pred, tiles, r)
  {
    TestsAreGood(rg, pred, tiles);
    var tests := TestsFor(rg, pred);
    hide TestsFor, PassesTest, TestWord;
    TestWordLane(tests[0], tiles, r);
    if |tests| == 2 { TestWordLane(tests[1], tiles, r); }
  }

  /** The last op defines register m. */
  predicate EndsIn(ops: seq<MicroOp>, m: int) { ops != [] && ops[|ops| - 1].dest == m && Defines(ops[|ops| - 1]) }

  lemma StringBuilt(e: Emitted, env: Env, pred: Predicate, skel: nat, kim: nat, f: Frame) returns (env': Env)
    requires pred.op in {EQ, LIKE_PREFIX, LIKE_CONTAINS} && TilesIn(f) && skel < |f.tiles| && kim < |f.tiles|
    requires Built(e.ops, e.next, env, f) && GoodTests(StringTests(pred, skel, kim), f.tiles)
    ensures var e', tests := EmitString(e, pred, skel, kim), StringTests(pred, skel, kim);
            && Built(e'.ops, e'.next, env', f) && e'.next > e.next
            && EndsIn(e'.ops, e'.next - 1) && e'.masks == e.masks + [e'.next - 1]
            && Adds(env, e.next, env', e'.next - 1,
                    if pred.op == EQ then And(TestWord(tests[0], f.tiles), TestWord(tests[1], f.tiles)) else TestWord(tests[0], f.tiles))
  {
    var e', tests, v, ops := EmitString(e, pred, skel, kim), StringTests(pred, skel, kim), e.next, e.ops;
    hide Built, TilesIn, TestWord, Adds, Signature, SkeletonConstant, And, WordOf;
    if pred.op == EQ {
      env' := TwoTests(ops, v, env, tests[0], tests[1], f);
      assert e'.ops == ops + [Load(v, skel)] + [Load(v + 1, kim)] + [Compare(v + 2, v, tests[0])] + [Compare(v + 3, v + 1, tests[1])]
                       + [AndOp(v + 4, v + 2, v + 3)];
    } else if pred.op == LIKE_PREFIX {
      env' := OneTest(ops, v, env, tests[0], f);
      assert e'.ops == ops + [Load(v, skel)] + [Compare(v + 1, v, tests[0])];
    } else {
      env' := SecondTileTest(ops, v, env, skel, tests[0], f);
      assert e'.ops == ops + [Load(v, skel)] + [Load(v + 1, kim)] + [Compare(v + 2, v + 1, tests[0])];
    }
  }

  lemma PredicateWordIs(rg: RowGroup, pred: Predicate, tiles: seq<Tile>, tests: seq<TileTest>)
    requires WellShaped(rg) && Located(rg, pred) && WellKinded(pred) && |tiles| == |rg.columnNames|
    requires tests == TestsFor(rg, pred)
    ensures GoodTests(tests, tiles) && |tests| == (if pred.isString && pred.op == EQ then 2 else 1)
    ensures PredicateWord(rg, pred, tiles) ==
            if pred.isString && pred.op == EQ then And(TestWord(tests[0], tiles), TestWord(tests[1], tiles)) else TestWord(tests[0], tiles)
  {
    hide TestsFor, And, TestWord, GoodTests;
    TestsAreGood(rg, pred, tiles);
  }

  lemma PredicateBuilt(rg: RowGroup, e: Emitted, pred: Predicate, e': Emitted, env: Env, f: Frame) returns (env': Env)
    requires WellShaped(rg) && WellKinded(pred) && EmitPredicate(rg, e, pred) == Ok(e')
    requires TilesIn(f) && |f.tiles| == |rg.columnNames| && Built(e.ops, e.next, env, f)
    ensures Located(rg, pred)
    ensures Built(e'.ops, e'.next, env', f) && e'.next > e.next
    ensures EndsIn(e'.ops, e'.next - 1) && e'.masks == e.masks + [e'.next - 1]
    ensures Adds(env, e.next, env', e'.next - 1, PredicateWord(rg, pred, f.tiles))
  {
    LocatedWhenEmitted(rg, e, pred, e');
    if pred.isString {
      env' := StringCase(rg, e, pred, e', env, f);
    } else {
      env' := NumericCase(rg, e, pred, e', env, f);
    }
  }

  lemma LocatedWhenEmitted(rg: RowGroup, e: Emitted, pred: Predicate, e': Emitted)
    requires WellShaped(rg) && EmitPredicate(rg, e, pred) == Ok(e')
    ensures Located(rg, pred)
    ensures pred.isString ==> e' == EmitString(e, pred, FirstIndex(rg.columnNames, pred.column).value,
                                               FirstIndex(rg.columnNames, pred.column + KIM_SUFFIX).value)
    ensures !pred.isString ==> e' == EmitNumeric(e, NumericTest(rg.blocks, pred, FirstIndex(rg.columnNames, pred.column).value))
  {
    hide EmitString, EmitNumeric, NumericTest, FirstIndex, StringColumn;
  }

  lemma TestsForString(rg: RowGroup, pred: Predicate)
    requires WellShaped(rg) && pred.isString && Located(rg, pred)
    ensures FirstIndex(rg.columnNames, pred.column).Some? && FirstIndex(rg.columnNames, pred.column + KIM_SUFFIX).Some?
    ensures TestsFor(rg, pred) == StringTests(pred, FirstIndex(rg.columnNames, pred.column).value,
                                              FirstIndex(rg.columnNames, pred.column + KIM_SUFFIX).value)
  {
    hide StringTests, FirstIndex;
  }

  lemma IndexBound(names: seq<Str>, name: Str)
    requires FirstIndex(names, name).Some?
    ensures FirstIndex(names, name).value < |names|
  {
  }

  lemma StringCase(rg: RowGroup, e: Emitted, pred: Predicate, e': Emitted, env: Env, f: Frame) returns (env': Env)
    requires WellShaped(rg) && WellKinded(pred) && pred.isString && EmitPredicate(rg, e, pred) == Ok(e') && Located(rg, pred)
    requires TilesIn(f) && |f.tiles| == |rg.columnNames| && Built(e.ops, e.next, env, f)
    ensures Built(e'.ops, e'.next, env', f) && e'.next > e.next
    ensures EndsIn(e'.ops, e'.next - 1) && e'.masks == e.masks + [e'.next - 1]
    ensures Adds(env, e.next, env', e'.next - 1, PredicateWord(rg, pred, f.tiles))
  {
    var skel, kim := FirstIndex(rg.columnNames, pred.column).value, FirstIndex(rg.columnNames, pred.column + KIM_SUFFIX).value;
    var tests := StringTests(pred, skel, kim);
    hide *;
    LocatedWhenEmitted(rg, e, pred, e');
    TestsForString(rg, pred);
    IndexBound(rg.columnNames, pred.column);
    IndexBound(rg.columnNames, pred.column + KIM_SUFFIX);
    PredicateWordIs(rg, pred, f.tiles, tests);
    env' := StringPredicateBuilt(e, env, pred, skel, kim, f, e', tests);
  }

  lemma NumericCase(rg: RowGroup, e: Emitted, pred: Predicate, e': Emitted, env: Env, f: Frame) returns (env': Env)
    requires WellShaped(rg) && WellKinded(pred) && !pred.isString && EmitPredicate(rg, e, pred) == Ok(e') && Located(rg, pred)
    requires TilesIn(f) && |f.tiles| == |rg.columnNames| && Built(e.ops, e.next, env, f)
    ensures Built(e'.ops, e'.next, env', f) && e'.next > e.next
    ensures EndsIn(e'.ops, e'.next - 1) && e'.masks == e.masks + [e'.next - 1]
    ensures Adds(env, e.next, env', e'.next - 1, PredicateWord(rg, pred, f.tiles))
  {
    var t := NumericTest(rg.blocks, pred, FirstIndex(rg.columnNames, pred.column).value);
    LocatedWhenEmitted(rg, e, pred, e');
    assert TestsFor(rg, pred) == [t];
    hide *;
    PredicateWordIs(rg, pred, f.tiles, [t]);
    env' := NumericPredicateBuilt(e, env, t, f, [t]);
  }

  lemma StringPredicateBuilt(e: Emitted, env: Env, pred: Predicate, skel: nat, kim: nat, f: Frame, e': Emitted, tests: seq<TileTest>)
      returns (env': Env)
    requires pred.isString && WellKinded(pred) && TilesIn(f) && skel < |f.tiles| && kim < |f.tiles|
    requires e' == EmitString(e, pred, skel, kim) && tests == StringTests(pred, skel, kim)
    requires Built(e.ops, e.next, env, f) && GoodTests(tests, f.tiles) && |tests| == if pred.op == EQ then 2 else 1
    ensures Built(e'.ops, e'.next, env', f) && e'.next > e.next
    ensures EndsIn(e'.ops, e'.next - 1) && e'.masks == e.masks + [e'.next - 1]
    ensures Adds(env, e.next, env', e'.next - 1,
                 if pred.op == EQ then And(TestWord(tests[0], f.tiles), TestWord(tests[1], f.tiles)) else TestWord(tests[0], f.tiles))
  {
    hide StringTests, EmitString, Built, Adds, TilesIn, GoodTests;
    env' := StringBuilt(e, env, pred, skel, kim, f);
  }

  lemma NumericPredicateBuilt(e: Emitted, env: Env, t: TileTest, f: Frame, tests: seq<TileTest>) returns (env': Env)
    requires tests == [t] && TilesIn(f) && GoodTests(tests, f.tiles) && Built(e.ops, e.next, env, f)
    ensures var e' := EmitNumeric(e, t);
            && Built(e'.ops, e'.next, env', f) && e'.next > e.next
            && EndsIn(e'.ops, e'.next - 1) && e'.masks == e.masks + [e'.next - 1]
            && Adds(env, e.next, env', e'.next - 1, TestWord(tests[0], f.tiles))
  {
    hide Built, Adds, TilesIn, TestWord;
    assert tests[0] == t;
    env' := OneTest(e.ops, e.next, env, t, f);
    assert EmitNumeric(e, t).ops == e.ops + [Load(e.next, t.tile)] + [Compare(e.next + 1, e.next, t)];
  }

  ghost predicate PassesTo(rg: RowGroup, preds: seq<Predicate>, k: nat, tiles: seq<Tile>, r: nat)
    requires WellShaped(rg) && AllWellKinded(preds) && |tiles| == |rg.columnNames| && r < 64 && k <= |preds|
  {
    forall i :: 0 <= i < k ==> Located(rg, preds[i]) && PassesPredicate(rg, preds[i], tiles, r)
  }

  lemma PassesStep(rg: RowGroup, preds: seq<Predicate>, k: nat, tiles: seq<Tile>, r: nat)
    requires WellShaped(rg) && AllWellKinded(preds) && |tiles| == |rg.columnNames| && r < 64 && 0 < k <= |preds|
    requires Located(rg, preds[k - 1])
    ensures PassesTo(rg, preds, k, tiles, r) <==> PassesTo(rg, preds, k - 1, tiles, r) && PassesPredicate(rg, preds[k - 1], tiles, r)
  {
    hide PassesPredicate, WellShaped, Located;
  }

  lemma {:induction false} PredicatesBuilt(rg: RowGroup, preds: seq<Predicate>, k: nat, e: Emitted, f: Frame) returns (env: Env)
    requires WellShaped(rg) && AllWellKinded(preds) && k <= |preds| && EmitPredicates(rg, preds, k) == Ok(e)
    requires TilesIn(f) && |f.tiles| == |rg.columnNames|
    ensures Built(e.ops, e.next, env, f) && |e.masks| == k
    ensures k > 0 ==> EndsIn(e.ops, e.masks[k - 1])
    ensures forall r :: 0 <= r < 64 ==> MasksAre(e.masks, env, e.next, r, PassesTo(rg, preds, k, f.tiles, r))
  {
    hide *;
    if k == 0 {
      env := Env(NOTHING, f.dest);
      NothingBuilt(rg, preds, f);
    } else {
      var before := EmitStep(rg, preds, k, e);
      var env0 := PredicatesBuilt(rg, preds, k - 1, before, f);
      env := PredicateBuilt(rg, before, preds[k - 1], e, env0, f);
      forall r | 0 <= r < 64 ensures MasksAre(e.masks, env, e.next, r, PassesTo(rg, preds, k, f.tiles, r)) {
        NextMask(rg, preds, k, before, env0, e, env, f.tiles, r);
      }
    }
  }

  lemma NothingBuilt(rg: RowGroup, preds: seq<Predicate>, f: Frame)
    requires WellShaped(rg) && AllWellKinded(preds) && |f.tiles| == |rg.columnNames|
    ensures EmitPredicates(rg, preds, 0) == Ok(NOTHING_EMITTED)
    ensures NOTHING_EMITTED.masks == []
    ensures Built(NOTHING_EMITTED.ops, NOTHING_EMITTED.next, Env(NOTHING, f.dest), f)
    ensures forall r :: 0 <= r < 64 ==> MasksAre([], Env(NOTHING, f.dest), NOTHING_EMITTED.next, r, PassesTo(rg, preds, 0, f.tiles, r))
  {
  }

  lemma EmitStep(rg: RowGroup, preds: seq<Predicate>, k: nat, e: Emitted) returns (before: Emitted)
    requires WellShaped(rg) && 0 < k <= |preds| && EmitPredicates(rg, preds, k) == Ok(e) && AllWellKinded(preds)
    ensures EmitPredicates(rg, preds, k - 1) == Ok(before) && EmitPredicate(rg, before, preds[k - 1]) == Ok(e)
    ensures WellKinded(preds[k - 1])
  {
    hide EmitPredicate, WellShaped, WellKinded;
    before := EmitPredicates(rg, preds, k - 1).value;
  }

  lemma NextMask(rg: RowGroup, preds: seq<Predicate>, k: nat, before: Emitted, env0: Env, e: Emitted, env: Env, tiles: seq<Tile>, r: nat)
    requires WellShaped(rg) && AllWellKinded(preds) && |tiles| == |rg.columnNames| && r < 64 && 0 < k <= |preds|
    requires Located(rg, preds[k - 1])
    requires before.next < e.next && e.masks == before.masks + [e.next - 1]
    requires MasksAre(before.masks, env0, before.next, r, PassesTo(rg, preds, k - 1, tiles, r))
    requires Adds(env0, before.next, env, e.next - 1, PredicateWord(rg, preds[k - 1], tiles))
    ensures MasksAre(e.masks, env, e.next, r, PassesTo(rg, preds, k, tiles, r))
  {
    hide PredicateWord, PassesTo, MasksAre, Adds, WellShaped, Located, PassesPredicate;
    PredicateWordLane(rg, preds[k - 1], tiles, r);
    PassesStep(rg, preds, k, tiles, r);
    AddMask(before.masks, env0, before.next, env, e.next, e.next - 1, PredicateWord(rg, preds[k - 1], tiles), r,
            PassesTo(rg, preds, k - 1, tiles, r));
  }

  /** The combined mask after i masks, in register `mask`. */
  ghost predicate Combined(e: Emitted, i: nat, ops: seq<MicroOp>, mask: int, next: nat, env: Env, env': Env, f: Frame)
    requires i <= |e.masks|
  {
    && next >= e.next && Built(ops, next, env', f) && mask in env'.vregs
    && (i > 1 ==> EndsIn(ops, mask))
    && (i == 1 ==> ops == e.ops && mask == e.masks[0])
    && (forall r :: 0 <= r < 64 ==> env'.vregs[mask][r] == AllSet(e.masks, i, env, r))
    && env'.vregs.Keys >= env.vregs.Keys && forall x :: x in env.vregs && x < e.next ==> env'.vregs[x] == env.vregs[x]
  }

  lemma CombineNext(e: Emitted, i: nat)
    requires 1 <= i < |e.masks|
    ensures var (ops, mask, next) := CombineMasks(e, i);
            CombineMasks(e, i + 1) == (ops + [AndOp(next, mask, e.masks[i])], next, next + 1)
  {
  }

  lemma AllSetNext(masks: seq<int>, i: nat, env: Env, r: nat)
    requires r < 64 && i < |masks|
    ensures AllSet(masks, i + 1, env, r) <==> AllSet(masks, i, env, r) && masks[i] in env.vregs && env.vregs[masks[i]][r]
  {
  }

  lemma CombineOne(e: Emitted, env: Env, f: Frame)
    requires e.masks != [] && Built(e.ops, e.next, env, f) && MasksIn(e.masks, env, e.next)
    ensures CombineMasks(e, 1) == (e.ops, e.masks[0], e.next)
    ensures Combined(e, 1, e.ops, e.masks[0], e.next, env, env, f)
  {
    hide Built;
  }

  lemma CombineAnd(e: Emitted, i: nat, ops: seq<MicroOp>, mask: int, next: nat, env: Env, env0: Env, f: Frame) returns (env': Env)
    requires 1 <= i < |e.masks| && Combined(e, i, ops, mask, next, env, env0, f) && MasksIn(e.masks, env, e.next)
    ensures Combined(e, i + 1, ops + [AndOp(next, mask, e.masks[i])], next, next + 1, env, env', f)
  {
    var m := e.masks[i];
    assert m in env0.vregs && env0.vregs[m] == env.vregs[m];
    env' := Assign(env0, next, And(env0.vregs[mask], env0.vregs[m]));
    hide Built, AllSet;
    PushAnd(ops, next, env0, mask, m, f);
    forall r | 0 <= r < 64 ensures env'.vregs[next][r] == AllSet(e.masks, i + 1, env, r) {
      AllSetNext(e.masks, i, env, r);
    }
  }

  /** Left-to-right ANDs of the first i masks. */
  lemma {:induction false} CombineBuilt(e: Emitted, i: nat, env: Env, f: Frame) returns (env': Env)
    requires 1 <= i <= |e.masks| && Built(e.ops, e.next, env, f) && MasksIn(e.masks, env, e.next)
    ensures var (ops, mask, next) := CombineMasks(e, i); Combined(e, i, ops, mask, next, env, env', f)
  {
    hide *;
    if i == 1 {
      CombineOne(e, env, f);
      env' := env;
    } else {
      var (ops, mask, next) := CombineMasks(e, i - 1);
      var env0 := CombineBuilt(e, i - 1, env, f);
      CombineNext(e, i - 1);
      env' := CombineAnd(e, i - 1, ops, mask, next, env, env0, f);
    }
  }

  lemma CombinedParts(e: Emitted, i: nat, ops: seq<MicroOp>, mask: int, next: nat, env: Env, env': Env, f: Frame)
    requires i <= |e.masks| && Combined(e, i, ops, mask, next, env, env', f)
    ensures next >= e.next && Built(ops, next, env', f) && mask in env'.vregs
    ensures (i > 1 ==> EndsIn(ops, mask)) && (i == 1 ==> ops == e.ops && mask == e.masks[0])
    ensures forall r :: 0 <= r < 64 ==> env'.vregs[mask][r] == AllSet(e.masks, i, env, r)
  {
    hide Built, EndsIn, AllSet;
  }

  /** The micro-ops of a plan compute, in lane r, the conjunction of all tile tests. */
  lemma PlannedResult(rg: RowGroup, preds: seq<Predicate>, ops: seq<MicroOp>, f: Frame)
    requires WellShaped(rg) && AllWellKinded(preds) && PlannedOps(rg, preds) == Ok(ops)
    requires TilesIn(f) && |f.tiles| == |rg.columnNames|
    ensures ScanOps(ops) && TilesKept(ops)
    ensures forall r :: 0 <= r < 64 ==> ScanResult(ops, f.dest, f.base, f.mem)[r] == PassesTo(rg, preds, |preds|, f.tiles, r)
  {
    hide *;
    var e := EmittedBefore(rg, preds, ops);
    var n := |e.masks|;
    var (_, mask, next) := CombineMasks(e, n);
    var env := PredicatesBuilt(rg, preds, |preds|, e, f);
    MasksOf(e.masks, env, e.next, 0, PassesTo(rg, preds, |preds|, f.tiles, 0));
    var end := CombineBuilt(e, n, env, f);
    CombinedParts(e, n, ops, mask, next, env, end, f);
    BuiltIsScan(ops, next, end, mask, f);
    forall r | 0 <= r < 64 ensures end.vregs[mask][r] == PassesTo(rg, preds, |preds|, f.tiles, r) {
      MasksOf(e.masks, env, e.next, r, PassesTo(rg, preds, |preds|, f.tiles, r));
    }
  }

  lemma EmittedBefore(rg: RowGroup, preds: seq<Predicate>, ops: seq<MicroOp>) returns (e: Emitted)
    requires WellShaped(rg) && PlannedOps(rg, preds) == Ok(ops)
    ensures EmitPredicates(rg, preds, |preds|) == Ok(e) && |e.masks| >= 1 && ops == CombineMasks(e, |e.masks|).0
  {
    hide EmitPredicates, CombineMasks;
    e := EmitPredicates(rg, preds, |preds|).value;
  }

  lemma MasksOf(masks: seq<int>, env: Env, v: nat, r: nat, pass: bool)
    requires r < 64 && MasksAre(masks, env, v, r, pass)
    ensures MasksIn(masks, env, v) && (pass <==> AllSet(masks, |masks|, env, r))
  {
    hide MasksIn, AllSet;
  }

  lemma BuiltIsScan(ops: seq<MicroOp>, v: nat, env: Env, mask: int, f: Frame)
    requires Built(ops, v, env, f) && EndsIn(ops, mask) && mask in env.vregs
    ensures ScanOps(ops) && TilesKept(ops) && ScanResult(ops, f.dest, f.base, f.mem) == env.vregs[mask]
  {
    assert NOTHING.Keys == {};
    hide ExecAll, DefinedBeforeUse, TilesKept;
  }

  lemma LaneMeaning(rg: RowGroup, preds: seq<Predicate>, ops: seq<MicroOp>, block: Block, ctx: Context)
    requires WellShaped(rg) && AllWellKinded(preds) && PlannedOps(rg, preds) == Ok(ops)
    requires Room(ctx, block.columns) && |block.columns| == |rg.columnNames|
    ensures ScanOps(ops)
    ensures forall code :: CompiledFunction(ops) == Ok(code) ==> forall r :: 0 <= r < 64 ==>
      (ScanBlock(code, block, ctx)[r] <==> block.deleteMask[r] && PassesTo(rg, preds, |preds|, block.columns, r))
  {
    var f, entry := FrameOf(block, ctx), ScanEntry(block, ctx);
    FrameHoldsTiles(block, ctx);
    hide PlannedOps, CompiledFunction, Run, WellShaped, PassesTo, TilesIn, LoadFrom, ScanResult, ScanOps, TilesKept;
    PlannedResult(rg, preds, ops, f);
    forall code, r | CompiledFunction(ops) == Ok(code) && 0 <= r < 64
      ensures ScanBlock(code, block, ctx)[r] <==> block.deleteMask[r] && PassesTo(rg, preds, |preds|, block.columns, r)
    {
      CompiledScan(ops, code, entry);
    }
  }
}