/** The ops no plan uses: what the bitwise ones compute lane by lane, what
    materialising a tile leaves in the destination, and what no ops at all return. */
module Scalars {
  import opened Words
  import opened SimdTransposer
  import opened Storage
  import opened AdaptiveIngester
  import opened BlockReader
  import opened MicroOps
  import opened Machine
  import opened MicroOpCompiler
  import opened Simulation
  import opened PlanMeaning

  /** Lane r of a bitwise op, for all four of them. */
  lemma BitwiseLane(op: Opcode, x: Word, y: Word, r: nat)
    requires IsBitwise(op) && r < 64
    ensures Bitwise(op, x, y)[r] <==>
            || (x[r] && y[r] && op in {BIT_AND, BIT_OR})
            || (x[r] && !y[r] && op in {BIT_OR, BIT_XOR, BIT_BIC})
            || (!x[r] && y[r] && op in {BIT_OR, BIT_XOR})
  {
  }

  /** Load tile p, then materialise it. */
  function ScalarOps(p: nat): seq<MicroOp> {
    [MicroOp(LOAD_TILE, 0, -1, -1, WordOf(p)), MicroOp(MATERIALIZE_SCALAR, 0, 0, -1, ZEROS)]
  }

  lemma ScalarOpsCompile(p: nat)
    ensures CompileOps(ScalarOps(p), FRESH).Ok?
  {
    var ops := ScalarOps(p);
    var a := Alloc(map[0 := POOL[0]], 1);
    hide LoadTileCode;
    assert ops[1..] == [ops[1]];
    assert ops[1..][1..] == [];
    assert FRESH.map_ == map[];
    assert GetReg(FRESH, 0) == Some((POOL[0], a));
    assert GetReg(a, 0) == Some((POOL[0], a));
    assert CompileOps([], a).Ok?;
    assert CompileOps(ops[1..], a).Ok?;
  }

  lemma ScalarOpsUsable(p: nat)
    ensures DefinedBeforeUse(ScalarOps(p), NOTHING.Keys) && TilesKept(ScalarOps(p))
  {
    var ops := ScalarOps(p);
    assert ops[1..] == [ops[1]];
    assert ops[1..][1..] == [];
  }

  lemma ExecScalars(p: nat, dest: Matrix, base: Word, mem: Memory)
    requires DefinedBeforeUse(ScalarOps(p), NOTHING.Keys)
    ensures ExecAll(ScalarOps(p), Env(NOTHING, dest), base, mem).dest == Transposed(PlanesAt(mem, TileAddress(base, WordOf(p))))
  {
    var ops, start := ScalarOps(p), Env(NOTHING, dest);
    var loaded := Env(NOTHING[0 := TileAddress(base, WordOf(p))], dest);
    hide Transposed, PlanesAt, TileAddress, WordOf;
    assert Exec(ops[0], start, base, mem) == loaded;
    assert ops[1..] == [ops[1]];
    assert ops[1..][1..] == [];
    assert ExecAll(ops, start, base, mem) == ExecAll(ops[1..], loaded, base, mem);
    var last := Exec(ops[1], loaded, base, mem);
    assert last.dest == Transposed(PlanesAt(mem, TileAddress(base, WordOf(p))));
    assert ExecAll([], last, base, mem) == last;
  }

  /** The machine before its first op, on a block. */
  lemma ScanStart(block: Block, ctx: Context)
    ensures var entry := ScanEntry(block, ctx);
            && Linked(FRESH, Env(NOTHING, entry.dest), Run(PROLOGUE, entry), WordOf(ctx.base), entry.mem, entry.regs[3])
            && WellAllocated(FRESH)
  {
    RunPrologue(ScanEntry(block, ctx));
    hide Run, LoadFrom, WordOf;
  }

  /** Compiled code that materialises tile p leaves its 64 values in the destination:
      bit k of value r is bit r of plane k. */
  lemma MaterializedScalars(block: Block, ctx: Context, p: nat, r: nat, k: nat)
    requires p < |block.columns| && Room(ctx, block.columns) && r < 64 && k < 64
    ensures CompileOps(ScalarOps(p), FRESH).Ok?
    ensures var (body, _) := CompileOps(ScalarOps(p), FRESH).value;
            Run(body, Run(PROLOGUE, ScanEntry(block, ctx))).dest[r][k] == block.columns[p].planes[k][r]
  {
    hide *;
    ScalarOpsCompile(p);
    ScalarsLeft(block, ctx, p);
    TransposedAt(block.columns[p].planes, r, k);
  }

  lemma TransposedAt(m: Matrix, r: nat, k: nat)
    requires r < 64 && k < 64
    ensures Transposed(m)[r][k] == m[k][r]
  {
  }

  lemma ScalarsLeft(block: Block, ctx: Context, p: nat)
    requires p < |block.columns| && Room(ctx, block.columns) && CompileOps(ScalarOps(p), FRESH).Ok?
    ensures var (body, _) := CompileOps(ScalarOps(p), FRESH).value;
            Run(body, Run(PROLOGUE, ScanEntry(block, ctx))).dest == Transposed(block.columns[p].planes)
  {
    hide *;
    var (body, a) := CompileOps(ScalarOps(p), FRESH).value;
    var entry := ScanEntry(block, ctx);
    var start := Run(PROLOGUE, entry);
    ScalarOpsUsable(p);
    ScanStart(block, ctx);
    SimulateOps(ScalarOps(p), FRESH, body, a, Env(NOTHING, entry.dest), start, WordOf(ctx.base), entry.mem, entry.regs[3]);
    ExecScalars(p, entry.dest, WordOf(ctx.base), entry.mem);
    PlanesOfTile(block, ctx, p);
    LinkedDest(a, ExecAll(ScalarOps(p), Env(NOTHING, entry.dest), WordOf(ctx.base), entry.mem), Run(body, start), WordOf(ctx.base), entry.mem, entry.regs[3]);
  }

  lemma LinkedDest(a: Alloc, env: Env, st: State, base: Word, mem: Memory, mask: Word)
    requires Linked(a, env, st, base, mem, mask)
    ensures st.dest == env.dest
  {
  }

  /** On an ingested integer column those are the values, as 64-bit words, and 0 for
      nulls and behind the last row. */
  lemma IngestedScalars(batch: Batch, b: nat, f: nat, ctx: Context, r: nat)
    requires batch.Valid() && b * 64 < batch.numRows && f < |batch.columns| && batch.columns[f].Ints? && r < 64
    requires Room(ctx, BlockOf(batch, b).columns)
    ensures |batch.columns[f].ints| == batch.numRows
    ensures var p := PhysicalIndex(batch.columns, f);
            && CompileOps(ScalarOps(p), FRESH).Ok?
            && var (body, _) := CompileOps(ScalarOps(p), FRESH).value;
               Value(Run(body, Run(PROLOGUE, ScanEntry(BlockOf(batch, b), ctx))).dest[r])
               == StoredScalar(batch.columns[f].ints, b * 64 + r)
  {
    hide *;
    var block, p := BlockOf(batch, b), PhysicalIndex(batch.columns, f);
    ScalarOpsCompile(p);
    IntTile(batch, b, f, r);
    ScalarsLeft(block, ctx, p);
    LaneIs(block.columns[p], r);
  }

  /** The value of a row, as an unsigned number. */
  function StoredScalar(ints: seq<Option<int64>>, r: nat): nat {
    if r < |ints| && ints[r].Some? then (if ints[r].value < 0 then ints[r].value + TWO_64 else ints[r].value) else 0
  }

  lemma LaneIs(t: Tile, r: nat)
    requires r < 64
    ensures Lane(t, r) == Transposed(t.planes)[r]
  {
  }

  lemma IntTile(batch: Batch, b: nat, f: nat, r: nat)
    requires batch.Valid() && b * 64 < batch.numRows && f < |batch.columns| && batch.columns[f].Ints? && r < 64
    ensures |batch.columns[f].ints| == batch.numRows
    ensures var block, p := BlockOf(batch, b), PhysicalIndex(batch.columns, f);
            p < |block.columns| && Value(Lane(block.columns[p], r)) == StoredScalar(batch.columns[f].ints, b * 64 + r)
  {
    hide *;
    var c, base, rows := batch.columns[f], b * 64, RowsIn(batch.numRows, b);
    BlockParts(batch, b, f);
    TilesSize(batch.columns, |batch.columns|, base, rows);
    TilesAt(batch.columns, |batch.columns|, f, base, rows);
    IntParts(c, base, rows, r);
    LaneOfTile(IntWords(c, base, rows), Validity(c, base, rows), r);
    IntLaneValue(c, base, rows, r);
  }

  lemma BlockParts(batch: Batch, b: nat, f: nat)
    requires batch.Valid() && b * 64 < batch.numRows && f < |batch.columns| && batch.columns[f].Ints?
    ensures Windows(batch.columns, b * 64, RowsIn(batch.numRows, b)) && Window(batch.columns[f], b * 64, RowsIn(batch.numRows, b))
    ensures BlockOf(batch, b).columns == BlockTiles(batch.columns, |batch.columns|, b * 64, RowsIn(batch.numRows, b))
    ensures |batch.columns[f].ints| == batch.numRows
    ensures RowsIn(batch.numRows, b) == 64 || b * 64 + RowsIn(batch.numRows, b) == batch.numRows
    ensures Width(batch.columns[f]) == 1
  {
    hide BlockTiles;
  }

  lemma IntParts(c: Column, base: nat, rows: nat, r: nat)
    requires c.Ints? && Window(c, base, rows) && r < 64
    ensures |ColumnTiles(c, base, rows)| > 0
    ensures ColumnTiles(c, base, rows)[0] == TileOf(IntWords(c, base, rows), Validity(c, base, rows))
    ensures IntWords(c, base, rows)[r] == IntLane(c, base, rows, r)
  {
    hide TileOf, Validity, IntLane;
  }

  lemma IntLaneValue(c: Column, base: nat, rows: nat, r: nat)
    requires c.Ints? && Window(c, base, rows) && r < 64 && (rows == 64 || base + rows == |c.ints|)
    ensures Value(IntLane(c, base, rows, r)) == StoredScalar(c.ints, base + r)
  {
    hide Value, WordOf;
    ZeroIs();
    if r < rows && c.ints[base + r].Some? { ReadIntWord(c.ints[base + r].value); }
  }

  lemma ZeroIs()
    ensures Value(ZEROS) == 0
  {
    ZeroWord(ZEROS);
  }

  /** No ops at all: the compiled function finds no row. */
  lemma NothingScanned(entry: State)
    ensures CompiledFunction([]).Ok?
    ensures Value(CallScan(CompiledFunction([]).value, entry)) == 0
  {
    var code := PROLOGUE + [MovImm(0, ZEROS)];
    assert CompileOps([], FRESH) == Ok(([], FRESH));
    assert PROLOGUE + [] + [MovImm(0, ZEROS)] == code;
    hide Run, Step, Value;
    RunAppend(PROLOGUE, [MovImm(0, ZEROS)], entry);
    RunOne(MovImm(0, ZEROS), Run(PROLOGUE, entry));
    ZeroRegister(Run(PROLOGUE, entry));
  }

  lemma ZeroRegister(st: State)
    ensures Value(Step(MovImm(0, ZEROS), st).regs[0]) == 0
  {
    ZeroIs();
    hide Value;
  }
}
