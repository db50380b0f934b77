/** Compiled code simulates the micro-ops: each virtual register lives in its
    own physical register, scratch registers never overwrite one in use. */
module Simulation {
  import opened Words
  import opened SimdTransposer
  import opened Storage
  import opened Machine
  import opened MicroOps
  import opened MicroOpCompiler
  import opened Comparators
  import opened OwnTile

  ghost predicate WellAllocated(a: Alloc) {
    && a.next <= |POOL|
    && (forall v :: v in a.map_ ==> a.map_[v] in POOL[..a.next])
    && (forall v, w :: v in a.map_ && w in a.map_ && a.map_[v] == a.map_[w] ==> v == w)
  }

  lemma FreshPoolRegister(k: nat)
    requires k < |POOL|
    ensures POOL[k] !in POOL[..k]
  {
    forall i | 0 <= i < k ensures POOL[..k][i] != POOL[k] { PoolDistinct(i, k); }
  }

  lemma Allocated(a: Alloc, v: int, r: Reg, a1: Alloc)
    requires WellAllocated(a) && GetReg(a, v) == Some((r, a1))
    ensures WellAllocated(a1) && InPool(r)
    ensures v in a1.map_ && a1.map_[v] == r
    ensures a1.map_.Keys == a.map_.Keys + {v}
    ensures forall w :: w in a.map_ ==> a1.map_[w] == a.map_[w]
  {
    if v in a.map_ {
      var i :| 0 <= i < a.next && POOL[i] == r;
      PoolDistinct(i, i);
    } else {
      FreshPoolRegister(a.next);
      PoolDistinct(a.next, a.next);
      assert POOL[..a.next + 1] == POOL[..a.next] + [r];
    }
  }

  lemma {:induction false} FreeIsFree(a: Alloc, exclude: set<Reg>, k: nat)
    requires k <= |POOL|
    ensures var r := FirstFree(a, exclude, k);
            r.Some? ==> r.value !in a.map_.Values && r.value !in exclude && InPool(r.value)
    decreases |POOL| - k
  {
    if k < |POOL| {
      PoolDistinct(k, k);
      FreeIsFree(a, exclude, k + 1);
    }
  }

  lemma TempsAreFree(a: Alloc, acc: Reg, tile: Reg, t: Temps)
    requires GetTemps(a, acc, tile) == Some(t)
    ensures Apart(acc, tile, t)
    ensures forall x :: x in {t.t0, t.t1, t.t2, t.t3} ==> x !in a.map_.Values && InPool(x)
  {
    FreeIsFree(a, {acc, tile}, 0);
    FreeIsFree(a, {acc, tile, t.t0}, 0);
    FreeIsFree(a, {acc, tile, t.t0, t.t1}, 0);
    FreeIsFree(a, {acc, tile, t.t0, t.t1, t.t2}, 0);
    hide FirstFree;
  }

  /** The machine state represents the virtual one. */
  ghost predicate Linked(a: Alloc, env: Env, st: State, base: Word, mem: Memory, mask: Word) {
    && env.vregs.Keys <= a.map_.Keys
    && (forall v :: v in env.vregs ==> st.regs[a.map_[v]] == env.vregs[v])
    && st.regs[19] == base && st.mem == mem && st.mask == mask && st.dest == env.dest
  }

  /** Writing one mapped register, and free ones, is an assignment to one
      virtual register. */
  lemma AssignLinked(a: Alloc, env: Env, st: State, st': State, v: int, touched: set<Reg>, base: Word, mem: Memory, mask: Word)
    requires WellAllocated(a) && v in a.map_ && Linked(a, env, st, base, mem, mask)
    requires Keeps(st, st', touched) && 19 !in touched
    requires forall w :: w in a.map_ && w != v ==> a.map_[w] !in touched
    ensures Linked(a, env.(vregs := env.vregs[v := st'.regs[a.map_[v]]]), st', base, mem, mask)
  {
  }

  lemma GrowLinked(a: Alloc, a1: Alloc, env: Env, st: State, base: Word, mem: Memory, mask: Word)
    requires Linked(a, env, st, base, mem, mask)
    requires a.map_.Keys <= a1.map_.Keys && forall w :: w in a.map_ ==> a1.map_[w] == a.map_[w]
    ensures Linked(a1, env, st, base, mem, mask)
  {
  }

  /** Another virtual register is in another physical one. */
  lemma OthersApart(a: Alloc, v: int, free: set<Reg>)
    requires WellAllocated(a) && v in a.map_ && forall x :: x in free ==> x !in a.map_.Values
    ensures forall w :: w in a.map_ && w != v ==> a.map_[w] !in {a.map_[v]} + free
  {
  }

  lemma RunLoadFirst(r: Reg, index: Word, st: State)
    requires TileOffset(index) == 0
    ensures var st' := Run(LoadTileCode(r, index), st);
            Keeps(st, st', {r, 8}) && st'.regs[r] == TileAddress(st.regs[19], index)
  {
    RunOne(Mov(r, 19), st);
    WordOfValue(st.regs[19]);
    assert Wrap(Value(st.regs[19]) + 0) == Value(st.regs[19]);
    hide Value, WordOf, Wrap;
  }

  lemma LoadSteps(r: Reg, w: Word, st: State)
    requires r != 8
    ensures var st' := Step(Add(r, 19, 8), Step(MovImm(8, w), st));
            Keeps(st, st', {r, 8}) && st'.regs[r] == WordOf(Wrap(Value(st.regs[19]) + Value(w)))
  {
    hide WordOf, Value, Wrap;
  }

  lemma LoadParts(r: Reg, index: Word, base: Word)
    requires TileOffset(index) != 0
    ensures LoadTileCode(r, index) == [MovImm(8, WordOf(TileOffset(index)))] + [Add(r, 19, 8)]
    ensures TileAddress(base, index) == WordOf(Wrap(Value(base) + TileOffset(index)))
  {
    hide WordOf, Value, Wrap;
  }

  lemma RunLoadOther(r: Reg, index: Word, st: State)
    requires r != 8 && TileOffset(index) != 0
    ensures var st' := Run(LoadTileCode(r, index), st);
            Keeps(st, st', {r, 8}) && st'.regs[r] == TileAddress(st.regs[19], index)
  {
    hide *;
    var off := TileOffset(index);
    var i0, i1 := MovImm(8, WordOf(off)), Add(r, 19, 8);
    LoadParts(r, index, st.regs[19]);
    OffsetFits(index);
    WordValue(off);
    RunOne(i0, st);
    RunOne(i1, Step(i0, st));
    RunTwo([i0], [i1], st, Step(i0, st), Step(i1, Step(i0, st)));
    LoadSteps(r, WordOf(off), st);
  }

  lemma OffsetFits(index: Word)
    ensures TileOffset(index) < TWO_64
  {
    hide Value;
  }

  lemma RunLoadTile(r: Reg, index: Word, st: State)
    requires InPool(r)
    ensures var st' := Run(LoadTileCode(r, index), st);
            Keeps(st, st', {r, 8}) && st'.regs[r] == TileAddress(st.regs[19], index)
  {
    hide LoadTileCode, Run, TileAddress, TileOffset, Keeps;
    if TileOffset(index) == 0 { RunLoadFirst(r, index, st); } else { RunLoadOther(r, index, st); }
  }

  lemma RunBitwise(op: Opcode, d: Reg, x: Reg, y: Reg, st: State)
    requires IsBitwise(op)
    ensures var st' := Run(BitwiseCode(op, d, x, y), st);
            Keeps(st, st', {d}) && st'.regs[d] == Bitwise(op, st.regs[x], st.regs[y])
  {
    var code := BitwiseCode(op, d, x, y);
    RunOne(code[0], st);
    assert code == [code[0]];
    hide And, Or, Xor, Bic;
  }

  lemma SimulateLoad(op: MicroOp, a: Alloc, code: seq<Instr>, a1: Alloc, env: Env, st: State, base: Word, mem: Memory, mask: Word)
    requires op.op == LOAD_TILE && WellAllocated(a) && Linked(a, env, st, base, mem, mask)
    requires CompileOp(op, a) == Ok((code, a1))
    ensures WellAllocated(a1) && Linked(a1, Exec(op, env, base, mem), Run(code, st), base, mem, mask)
  {
    var Some((d, _)) := GetReg(a, op.dest);
    Allocated(a, op.dest, d, a1);
    GrowLinked(a, a1, env, st, base, mem, mask);
    RunLoadTile(d, op.imm, st);
    hide LoadTileCode, Run, TileAddress, GetReg;
    forall w | w in a1.map_ && w != op.dest ensures a1.map_[w] !in {d, 8} {
      OthersApart(a1, op.dest, {});
      MappedInPool(a1, w);
    }
    AssignLinked(a1, env, st, Run(code, st), op.dest, {d, 8}, base, mem, mask);
  }

  lemma MappedInPool(a: Alloc, v: int)
    requires WellAllocated(a) && v in a.map_
    ensures InPool(a.map_[v])
  {
    var i :| 0 <= i < a.next && POOL[i] == a.map_[v];
    PoolDistinct(i, i);
  }

  lemma SimulateBitwise(op: MicroOp, a: Alloc, code: seq<Instr>, a1: Alloc, env: Env, st: State, base: Word, mem: Memory, mask: Word)
    requires IsBitwise(op.op) && Usable(op, env.vregs.Keys) && WellAllocated(a) && Linked(a, env, st, base, mem, mask)
    requires CompileOp(op, a) == Ok((code, a1))
    ensures WellAllocated(a1) && Linked(a1, Exec(op, env, base, mem), Run(code, st), base, mem, mask)
  {
    var Some((d, b)) := GetReg(a, op.dest);
    Allocated(a, op.dest, d, b);
    assert b == a1 && code == BitwiseCode(op.op, d, a1.map_[op.src1], a1.map_[op.src2]);
    hide GetReg, BitwiseCode, Bitwise, Run;
    GrowLinked(a, a1, env, st, base, mem, mask);
    RunBitwise(op.op, d, a1.map_[op.src1], a1.map_[op.src2], st);
    OthersApart(a1, op.dest, {});
    AssignLinked(a1, env, st, Run(code, st), op.dest, {d}, base, mem, mask);
  }

  /** The registers a compiled comparison uses. */
  lemma CompareParts(op: MicroOp, a: Alloc, code: seq<Instr>, a1: Alloc, env: Env, st: State, base: Word, mem: Memory, mask: Word)
      returns (d: Reg, s1: Reg, t: Temps)
    requires IsCompare(op.op) && Usable(op, env.vregs.Keys) && WellAllocated(a) && Linked(a, env, st, base, mem, mask)
    requires CompileOp(op, a) == Ok((code, a1))
    ensures GetReg(a, op.dest) == Some((d, a1)) && op.src1 in a1.map_ && s1 == a1.map_[op.src1]
    ensures GetTemps(a1, d, s1) == Some(t) && code == CompareCode(op, d, s1, t)
  {
    var b := GetReg(a, op.dest).value.1;
    d := GetReg(a, op.dest).value.0;
    Allocated(a, op.dest, d, b);
    s1 := b.map_[op.src1];
    t := GetTemps(b, d, s1).value;
    hide GetTemps, CompareCode;
  }

  /** The comparison writes over another register than its tile's, or looks at no lane. */
  lemma RunCompare(op: MicroOp, d: Reg, s1: Reg, t: Temps, st: State)
    requires IsCompare(op.op) && Apart(d, s1, t) && (d == s1 ==> Blind(op))
    ensures var st' := Run(CompareCode(op, d, s1, t), st);
            Keeps(st, st', Touched(d, t)) && st'.regs[d] == ComparedAt(op, st.mem, st.regs[s1])
  {
    hide CompareCode, Compared, Run, PlanesAt, CompareBits, Keeps, Blind;
    if d == s1 { RunBlindCompare(op, d, s1, t, st); } else { RunCompareCode(op, d, s1, t, st); }
  }

  /** A mapped register is shared by no other virtual one. */
  lemma SharedOnlyWith(a: Alloc, v: int, w: int)
    requires WellAllocated(a) && v in a.map_ && w in a.map_ && a.map_[v] == a.map_[w]
    ensures v == w
  {
  }

  lemma TileNeeded(op: MicroOp, a: Alloc, d: Reg)
    requires WellAllocated(a) && IsCompare(op.op) && TileKept(op) && op.dest in a.map_ && op.src1 in a.map_ && a.map_[op.dest] == d
    ensures d == a.map_[op.src1] ==> Blind(op)
  {
    if d == a.map_[op.src1] { SharedOnlyWith(a, op.dest, op.src1); }
    hide Blind;
  }

  lemma ExecCompare(op: MicroOp, env: Env, base: Word, mem: Memory)
    requires IsCompare(op.op) && Usable(op, env.vregs.Keys)
    ensures op.src1 in env.vregs
    ensures Exec(op, env, base, mem) == env.(vregs := env.vregs[op.dest := ComparedAt(op, mem, env.vregs[op.src1])])
  {
    hide Compared, PlanesAt, CompareBits;
  }

  lemma LinkedReads(a: Alloc, env: Env, st: State, v: int, base: Word, mem: Memory, mask: Word)
    requires Linked(a, env, st, base, mem, mask) && v in env.vregs
    ensures v in a.map_ && st.regs[a.map_[v]] == env.vregs[v] && st.mem == mem
  {
  }

  lemma TempsSpare(a: Alloc, d: Reg, s1: Reg, t: Temps, v: int)
    requires GetTemps(a, d, s1) == Some(t) && WellAllocated(a) && v in a.map_ && d == a.map_[v]
    ensures 19 !in Touched(d, t) && forall w :: w in a.map_ && w != v ==> a.map_[w] !in Touched(d, t)
  {
    TempsAreFree(a, d, s1, t);
    MappedInPool(a, v);
    OthersApart(a, v, {t.t0, t.t1, t.t2, t.t3});
    assert Touched(d, t) == {d} + {t.t0, t.t1, t.t2, t.t3};
    hide GetTemps, WellAllocated;
  }

  lemma SimulateCompare(op: MicroOp, a: Alloc, code: seq<Instr>, a1: Alloc, env: Env, st: State, base: Word, mem: Memory, mask: Word)
    requires IsCompare(op.op) && TileKept(op) && Usable(op, env.vregs.Keys) && WellAllocated(a) && Linked(a, env, st, base, mem, mask)
    requires CompileOp(op, a) == Ok((code, a1))
    ensures WellAllocated(a1) && Linked(a1, Exec(op, env, base, mem), Run(code, st), base, mem, mask)
  {
    hide *;
    var d, s1, t := CompareParts(op, a, code, a1, env, st, base, mem, mask);
    Allocated(a, op.dest, d, a1);
    GrowLinked(a, a1, env, st, base, mem, mask);
    TempsAreFree(a1, d, s1, t);
    TileNeeded(op, a1, d);
    RunCompare(op, d, s1, t, st);
    ExecCompare(op, env, base, mem);
    LinkedReads(a1, env, st, op.src1, base, mem, mask);
    TempsSpare(a1, d, s1, t, op.dest);
    AssignLinked(a1, env, st, Run(code, st), op.dest, Touched(d, t), base, mem, mask);
  }

  lemma SimulateMaterialize(op: MicroOp, a: Alloc, code: seq<Instr>, a1: Alloc, env: Env, st: State, base: Word, mem: Memory, mask: Word)
    requires op.op == MATERIALIZE_SCALAR && Usable(op, env.vregs.Keys) && WellAllocated(a) && Linked(a, env, st, base, mem, mask)
    requires CompileOp(op, a) == Ok((code, a1))
    ensures WellAllocated(a1) && Linked(a1, Exec(op, env, base, mem), Run(code, st), base, mem, mask)
  {
    var tile := a.map_[op.src1];
    MappedInPool(a, op.src1);
    var i0, i1, i2 := Mov(0, tile), Mov(1, 21), CallTranspose;
    assert code == [i0, i1, i2] && a1 == a;
    RunThree(i0, i1, i2, st);
    var s2 := Step(i1, Step(i0, st));
    var st' := Run(code, st);
    assert s2.regs[0] == env.vregs[op.src1];
    hide Transposed, PlanesAt, Run;
    forall v | v in env.vregs ensures st'.regs[a.map_[v]] == env.vregs[v] {
      MappedInPool(a, v);
    }
  }

  lemma SimulateOp(op: MicroOp, a: Alloc, code: seq<Instr>, a1: Alloc, env: Env, st: State, base: Word, mem: Memory, mask: Word)
    requires TileKept(op) && Usable(op, env.vregs.Keys) && WellAllocated(a) && Linked(a, env, st, base, mem, mask)
    requires CompileOp(op, a) == Ok((code, a1))
    ensures WellAllocated(a1) && Linked(a1, Exec(op, env, base, mem), Run(code, st), base, mem, mask)
  {
    hide CompileOp, Linked, WellAllocated, Exec, Run, TileKept;
    Kinds(op.op);
    if op.op == LOAD_TILE {
      SimulateLoad(op, a, code, a1, env, st, base, mem, mask);
    } else if op.op == MATERIALIZE_SCALAR {
      SimulateMaterialize(op, a, code, a1, env, st, base, mem, mask);
    } else if IsBitwise(op.op) {
      SimulateBitwise(op, a, code, a1, env, st, base, mem, mask);
    } else {
      SimulateCompare(op, a, code, a1, env, st, base, mem, mask);
    }
  }

  /** The invariant of the whole compilation, for every list of ops that keep the
      tiles they read; `StepExact` shows that no other op is simulated. */
  lemma {:induction false} SimulateOps(ops: seq<MicroOp>, a: Alloc, code: seq<Instr>, a1: Alloc, env: Env, st: State, base: Word, mem: Memory, mask: Word)
    requires TilesKept(ops) && DefinedBeforeUse(ops, env.vregs.Keys) && WellAllocated(a) && Linked(a, env, st, base, mem, mask)
    requires CompileOps(ops, a) == Ok((code, a1))
    ensures WellAllocated(a1) && Linked(a1, ExecAll(ops, env, base, mem), Run(code, st), base, mem, mask)
    decreases |ops|
  {
    hide CompileOp, Linked, WellAllocated, Step, TileKept;
    if ops != [] {
      var Ok((first, mid)) := CompileOp(ops[0], a);
      var Ok((rest, _)) := CompileOps(ops[1..], mid);
      SimulateOp(ops[0], a, first, mid, env, st, base, mem, mask);
      var next := Exec(ops[0], env, base, mem);
      assert next.vregs.Keys == DefinedAfter(ops[0], env.vregs.Keys);
      hide Exec;
      SimulateOps(ops[1..], mid, rest, a1, next, Run(first, st), base, mem, mask);
      RunAppend(first, rest, st);
    }
  }

  // ----- calling the compiled function

  /** Registers at the call: x0 tiles, x1 tail, x2 destination, x3 delete mask;
      the others are whatever the caller left. */
  function EntryState(regs: Regs, mem: Memory, dest: Matrix, junk: Regs): State { State(regs, mem, ZEROS, dest, junk) }

  function CallScan(code: seq<Instr>, entry: State): Word { Run(code, entry).regs[0] }

  lemma RunPrologue(st: State)
    ensures var st' := Run(PROLOGUE, st);
            st'.mask == st.regs[3] && st'.regs[19] == st.regs[0] && st'.mem == st.mem && st'.dest == st.dest
  {
    hide Step;
    var i0, i1, i2, i3 := PushMask(3), Mov(19, 0), Mov(20, 1), Mov(21, 2);
    assert PROLOGUE == [i0] + [i1, i2, i3];
    RunOne(i0, st);
    RunThree(i1, i2, i3, Step(i0, st));
    RunAppend([i0], [i1, i2, i3], st);
    PrologueSteps(st);
  }

  lemma PrologueSteps(st: State)
    ensures var st' := Step(Mov(21, 2), Step(Mov(20, 1), Step(Mov(19, 0), Step(PushMask(3), st))));
            st'.mask == st.regs[3] && st'.regs[19] == st.regs[0] && st'.mem == st.mem && st'.dest == st.dest
  {
  }

  lemma RunEpilogue(r: Reg, st: State)
    requires r != 8
    ensures Run(Epilogue(r), st).regs[0] == And(st.regs[r], st.mask)
  {
    hide And;
    var i0, i1 := LoadMask(8), AndR(0, r, 8);
    RunOne(i0, st);
    RunOne(i1, Step(i0, st));
    RunTwo([i0], [i1], st, Step(i0, st), Step(i1, Step(i0, st)));
    assert Epilogue(r) == [i0] + [i1];
  }

  lemma RunScanBody(ops: seq<MicroOp>, body: seq<Instr>, a: Alloc, entry: State)
    requires ScanOps(ops) && TilesKept(ops) && CompileOps(ops, FRESH) == Ok((body, a))
    ensures ops[|ops| - 1].dest in a.map_
    ensures var end, r := Run(body, Run(PROLOGUE, entry)), a.map_[ops[|ops| - 1].dest];
            && InPool(r)
            && end.mask == entry.regs[3]
            && end.regs[r] == ScanResult(ops, entry.dest, entry.regs[0], entry.mem)
  {
    var start, env := Run(PROLOGUE, entry), Env(NOTHING, entry.dest);
    RunPrologue(entry);
    hide Run, ExecAll, CompileOps, TilesKept;
    assert env.vregs.Keys == {};
    assert Linked(FRESH, env, start, entry.regs[0], entry.mem, entry.regs[3]);
    SimulateOps(ops, FRESH, body, a, env, start, entry.regs[0], entry.mem, entry.regs[3]);
    LastDefined(ops, env, entry.regs[0], entry.mem);
    MappedInPool(a, ops[|ops| - 1].dest);
  }

  /** Register allocation is sound: whenever compilation succeeds, calling the
      function returns the last op's virtual result, ANDed with the delete mask. */
  lemma CompiledScan(ops: seq<MicroOp>, code: seq<Instr>, entry: State)
    requires ScanOps(ops) && TilesKept(ops) && CompiledFunction(ops) == Ok(code)
    ensures CallScan(code, entry) == And(ScanResult(ops, entry.dest, entry.regs[0], entry.mem), entry.regs[3])
  {
    var Ok((body, a)) := CompileOps(ops, FRESH);
    RunScanBody(ops, body, a, entry);
    var r := a.map_[ops[|ops| - 1].dest];
    assert code == PROLOGUE + body + Epilogue(r);
    hide CompileOps, CompiledFunction, Run, Step, ScanResult, Epilogue, ScanOps, TilesKept;
    var start := Run(PROLOGUE, entry);
    var end := Run(body, start);
    RunEpilogue(r, end);
    RunTwo(PROLOGUE, body, entry, start, end);
    RunTwo(PROLOGUE + body, Epilogue(r), entry, end, Run(Epilogue(r), end));
  }

  // ----- exactly which ops are simulated

  /** The code does what the op does, whatever the registers and memory hold. */
  ghost predicate StepSimulated(op: MicroOp, a: Alloc, code: seq<Instr>, a1: Alloc) {
    forall env: Env, st: State, base: Word, mem: Memory, mask: Word ::
      Linked(a, env, st, base, mem, mask) && Usable(op, env.vregs.Keys) ==>
        Linked(a1, Exec(op, env, base, mem), Run(code, st), base, mem, mask)
  }

  /** The environment a machine state stands for. */
  function EnvOf(a: Alloc, st: State): Env {
    Env(map v | v in a.map_ :: st.regs[a.map_[v]], st.dest)
  }

  lemma EnvLinked(a: Alloc, st: State, op: MicroOp)
    requires Usable(op, a.map_.Keys)
    ensures Linked(a, EnvOf(a, st), st, st.regs[19], st.mem, st.mask) && Usable(op, EnvOf(a, st).vregs.Keys)
  {
    assert EnvOf(a, st).vregs.Keys == a.map_.Keys;
  }

  /** A comparison over its own tile uses one register for both. */
  lemma OwnTileParts(op: MicroOp, a: Alloc, code: seq<Instr>, a1: Alloc) returns (d: Reg, t: Temps)
    requires IsCompare(op.op) && op.dest == op.src1 && op.src1 in a.map_ && CompileOp(op, a) == Ok((code, a1))
    ensures a1 == a && a.map_[op.dest] == d && Apart(d, d, t) && code == CompareCode(op, d, d, t) && GetTemps(a, d, d) == Some(t)
  {
    hide CompareCode, GetTemps, Apart;
    d := a.map_[op.dest];
    t := GetTemps(a, d, d).value;
    TempsAreFree(a, d, d, t);
  }

  lemma WrongResult(op: MicroOp, a: Alloc, d: Reg, st: State, st': State)
    requires IsCompare(op.op) && op.dest == op.src1 && op.dest in a.map_ && a.map_[op.dest] == d && Usable(op, EnvOf(a, st).vregs.Keys)
    requires st'.regs[d] != ComparedAt(op, st.mem, st.regs[d])
    ensures !Linked(a, Exec(op, EnvOf(a, st), st.regs[19], st.mem), st', st.regs[19], st.mem, st.mask)
  {
    ExecCompare(op, EnvOf(a, st), st.regs[19], st.mem);
    hide Exec, ComparedAt;
  }

  lemma NotSimulated(op: MicroOp, a: Alloc, code: seq<Instr>, a1: Alloc, env: Env, st: State, base: Word, mem: Memory, mask: Word)
    requires Linked(a, env, st, base, mem, mask) && Usable(op, env.vregs.Keys)
    requires !Linked(a1, Exec(op, env, base, mem), Run(code, st), base, mem, mask)
    ensures !StepSimulated(op, a, code, a1)
  {
    hide Linked, Usable, Exec, Run;
  }

  lemma OverwritingFails(op: MicroOp, a: Alloc, code: seq<Instr>, a1: Alloc)
    requires Usable(op, a.map_.Keys) && CompileOp(op, a) == Ok((code, a1)) && !TileKept(op)
    ensures !StepSimulated(op, a, code, a1)
  {
    assert IsCompare(op.op) && op.dest == op.src1 && !Blind(op) && op.src1 in a.map_;
    hide *;
    var d, t := OwnTileParts(op, a, code, a1);
    var st := OwnTileFails(op, d, t);
    EnvLinked(a, st, op);
    WrongResult(op, a, d, st, Run(code, st));
    NotSimulated(op, a, code, a1, EnvOf(a, st), st, st.regs[19], st.mem, st.mask);
  }

  /** An op whose sources are mapped is simulated in every state if and only if it is
      no comparison that overwrites its own tile's address while looking at lanes. */
  lemma StepExact(op: MicroOp, a: Alloc, code: seq<Instr>, a1: Alloc)
    requires WellAllocated(a) && Usable(op, a.map_.Keys) && CompileOp(op, a) == Ok((code, a1))
    ensures StepSimulated(op, a, code, a1) <==> TileKept(op)
  {
    if TileKept(op) {
      hide WellAllocated, Linked, Usable, CompileOp, TileKept, Exec, Run;
      forall env: Env, st: State, base: Word, mem: Memory, mask: Word | Linked(a, env, st, base, mem, mask) && Usable(op, env.vregs.Keys)
        ensures Linked(a1, Exec(op, env, base, mem), Run(code, st), base, mem, mask)
      {
        SimulateOp(op, a, code, a1, env, st, base, mem, mask);
      }
    } else {
      OverwritingFails(op, a, code, a1);
    }
  }

  /** Every op of a compiled list is simulated. */
  ghost predicate StepsSimulated(ops: seq<MicroOp>, a: Alloc)
    requires CompileOps(ops, a).Ok?
  {
    ops == [] || (StepSimulated(ops[0], a, CompileOp(ops[0], a).value.0, CompileOp(ops[0], a).value.1)
                  && StepsSimulated(ops[1..], CompileOp(ops[0], a).value.1))
  }

  lemma CompiledMaps(op: MicroOp, a: Alloc, code: seq<Instr>, a1: Alloc)
    requires WellAllocated(a) && Usable(op, a.map_.Keys) && CompileOp(op, a) == Ok((code, a1))
    ensures WellAllocated(a1) && a1.map_.Keys == DefinedAfter(op, a.map_.Keys)
  {
    Kinds(op.op);
    if op.op == MATERIALIZE_SCALAR {
      assert a1 == a;
    } else {
      var Some((d, b)) := GetReg(a, op.dest);
      Allocated(a, op.dest, d, b);
      hide GetReg, GetTemps, CompareCode, LoadTileCode, BitwiseCode, WellAllocated;
      MappedAgain(b, op);
    }
  }

  lemma MappedAgain(b: Alloc, op: MicroOp)
    ensures op.src1 in b.map_ ==> GetReg(b, op.src1) == Some((b.map_[op.src1], b))
    ensures op.src2 in b.map_ ==> GetReg(b, op.src2) == Some((b.map_[op.src2], b))
  {
  }

  lemma KeptFirst(ops: seq<MicroOp>)
    requires ops != []
    ensures TilesKept(ops) <==> TileKept(ops[0]) && TilesKept(ops[1..])
  {
    hide TileKept;
    if TileKept(ops[0]) && TilesKept(ops[1..]) {
      forall i | 0 <= i < |ops| ensures TileKept(ops[i]) { assert i > 0 ==> ops[i] == ops[1..][i - 1]; }
    }
  }

  lemma StepsParts(ops: seq<MicroOp>, a: Alloc)
    requires ops != [] && CompileOps(ops, a).Ok?
    ensures CompileOp(ops[0], a).Ok? && CompileOps(ops[1..], CompileOp(ops[0], a).value.1).Ok?
    ensures StepsSimulated(ops, a) <==>
            StepSimulated(ops[0], a, CompileOp(ops[0], a).value.0, CompileOp(ops[0], a).value.1)
            && StepsSimulated(ops[1..], CompileOp(ops[0], a).value.1)
  {
    hide CompileOp, StepSimulated;
  }

  /** Of a compiled list that defines before it uses, all ops are simulated if and
      only if all keep the tiles they read. */
  lemma {:induction false} StepsExact(ops: seq<MicroOp>, a: Alloc)
    requires WellAllocated(a) && DefinedBeforeUse(ops, a.map_.Keys) && CompileOps(ops, a).Ok?
    ensures StepsSimulated(ops, a) <==> TilesKept(ops)
  {
    if ops != [] {
      assert Usable(ops[0], a.map_.Keys) && DefinedBeforeUse(ops[1..], DefinedAfter(ops[0], a.map_.Keys));
      hide *;
      StepsParts(ops, a);
      var r := CompileOp(ops[0], a);
      StepExact(ops[0], a, r.value.0, r.value.1);
      CompiledMaps(ops[0], a, r.value.0, r.value.1);
      KeptFirst(ops);
      StepsExact(ops[1..], r.value.1);
    }
  }
}
