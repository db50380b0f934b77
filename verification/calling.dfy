/** The one call compiled code makes: wherever it stands, the transpose routine is
    handed the destination the scan was called with. */
module CallingConvention {
  import opened Words
  import opened SimdTransposer
  import opened Storage
  import opened Machine
  import opened MicroOps
  import opened MicroOpCompiler
  import opened Comparators
  import opened OwnTile
  import opened Simulation

  /** Registers that code between calls may write: the pool, and x8. */
  const WORK: set<Reg> := {8, 9, 10, 11, 12, 13, 14, 15, 22, 23, 24, 25, 26, 27, 28}

  /** Every call in a run finds the destination in x1. */
  predicate CallsRight(code: seq<Instr>, st: State, destination: Word) {
    code == [] || ((code[0].CallTranspose? ==> st.regs[1] == destination) && CallsRight(code[1..], Step(code[0], st), destination))
  }

  lemma {:induction false} CallsAppend(x: seq<Instr>, y: seq<Instr>, st: State, destination: Word)
    ensures CallsRight(x + y, st, destination) <==> CallsRight(x, st, destination) && CallsRight(y, Run(x, st), destination)
  {
    hide Step;
    if x == [] {
      assert x + y == y;
    } else {
      assert (x + y)[0] == x[0] && (x + y)[1..] == x[1..] + y;
      CallsAppend(x[1..], y, Step(x[0], st), destination);
    }
  }

  /** Code without calls leaves x21 alone. */
  lemma {:induction false} QuietCode(code: seq<Instr>, st: State, destination: Word)
    requires AllWrite(code, WORK)
    ensures CallsRight(code, st, destination) && Run(code, st).regs[21] == st.regs[21]
  {
    if code != [] {
      assert Writes(code[0], WORK);
      assert AllWrite(code[1..], WORK);
      QuietCode(code[1..], Step(code[0], st), destination);
    }
  }

  lemma WriteBoth(x: seq<Instr>, y: seq<Instr>, touched: set<Reg>)
    requires AllWrite(x, touched) && AllWrite(y, touched)
    ensures AllWrite(x + y, touched)
  {
    hide Writes;
  }

  lemma WritesStep(op: Opcode, acc: Reg, t: Reg, bit: bool)
    requires acc in WORK
    ensures AllWrite(MatchStep(op, acc, t, bit), WORK)
  {
    hide WORK;
  }

  lemma WritesLoads(tile: Reg, t: Temps, a: nat, b: nat, c: nat, d: nat)
    requires Scratches(t) <= WORK
    ensures AllWrite([Ldr(t.t0, tile, a)], WORK)
    ensures AllWrite([Ldr(t.t0, tile, a), Ldr(t.t1, tile, b), Ldr(t.t2, tile, c), Ldr(t.t3, tile, d)], WORK)
  {
    assert forall x :: x in Scratches(t) ==> x in WORK;
    hide WORK;
  }

  lemma WritesQuad(op: Opcode, acc: Reg, tile: Reg, t: Temps, imm: Word, bit: int)
    requires acc in WORK && Scratches(t) <= WORK && 3 <= bit < 64
    ensures AllWrite(MatchQuad(op, acc, tile, t, imm, bit), WORK)
  {
    var loads := [Ldr(t.t0, tile, bit * 8), Ldr(t.t1, tile, (bit - 1) * 8), Ldr(t.t2, tile, (bit - 2) * 8), Ldr(t.t3, tile, (bit - 3) * 8)];
    var c0, c1, c2, c3 := MatchStep(op, acc, t.t0, imm[bit]), MatchStep(op, acc, t.t1, imm[bit - 1]),
                          MatchStep(op, acc, t.t2, imm[bit - 2]), MatchStep(op, acc, t.t3, imm[bit - 3]);
    assert MatchQuad(op, acc, tile, t, imm, bit) == loads + c0 + c1 + c2 + c3;
    hide *;
    WritesLoads(tile, t, bit * 8, (bit - 1) * 8, (bit - 2) * 8, (bit - 3) * 8);
    WritesStep(op, acc, t.t0, imm[bit]);
    WritesStep(op, acc, t.t1, imm[bit - 1]);
    WritesStep(op, acc, t.t2, imm[bit - 2]);
    WritesStep(op, acc, t.t3, imm[bit - 3]);
    WriteBoth(loads, c0, WORK);
    WriteBoth(loads + c0, c1, WORK);
    WriteBoth(loads + c0 + c1, c2, WORK);
    WriteBoth(loads + c0 + c1 + c2, c3, WORK);
  }

  lemma WritesMatch(op: Opcode, acc: Reg, tile: Reg, t: Temps, imm: Word, bit: int)
    requires acc in WORK && Scratches(t) <= WORK && 0 <= bit < 64
    ensures AllWrite(MatchOne(op, acc, tile, t, imm, bit), WORK)
    ensures bit >= 3 ==> AllWrite(MatchQuad(op, acc, tile, t, imm, bit), WORK)
  {
    if bit >= 3 { WritesQuad(op, acc, tile, t, imm, bit); }
    hide AllWrite, MatchStep, MatchQuad, WORK, Scratches;
    WritesLoads(tile, t, bit * 8, 0, 0, 0);
    WritesStep(op, acc, t.t0, imm[bit]);
    WriteBoth([Ldr(t.t0, tile, bit * 8)], MatchStep(op, acc, t.t0, imm[bit]), WORK);
  }

  lemma {:induction false} WritesMatches(op: Opcode, acc: Reg, tile: Reg, t: Temps, imm: Word, bit: int)
    requires acc in WORK && Scratches(t) <= WORK && -1 <= bit < 64
    ensures AllWrite(MatchCode(op, acc, tile, t, imm, bit), WORK)
    decreases bit + 1
  {
    hide MatchOne, MatchQuad, Writes, WORK;
    if bit >= 3 {
      WritesMatch(op, acc, tile, t, imm, bit);
      WritesMatches(op, acc, tile, t, imm, bit - 4);
    } else if bit >= 0 {
      WritesMatch(op, acc, tile, t, imm, bit);
      WritesMatches(op, acc, tile, t, imm, bit - 1);
    }
  }

  lemma WritesOrder(op: Opcode, acc: Reg, t: Temps, plane: Reg, bit: bool)
    requires acc in WORK && Scratches(t) <= WORK
    ensures AllWrite(OrderStep(op, acc, t, plane, bit), WORK)
  {
    assert forall x :: x in Scratches(t) ==> x in WORK;
    hide WORK;
  }

  lemma WritesPair(op: Opcode, acc: Reg, tile: Reg, t: Temps, imm: Word, bit: int)
    requires acc in WORK && Scratches(t) <= WORK && 0 <= bit < 64
    ensures bit >= 1 ==> AllWrite(OrderPair(op, acc, tile, t, imm, bit), WORK)
    ensures AllWrite(OrderOne(op, acc, tile, t, imm), WORK)
  {
    assert t.t2 in Scratches(t) && t.t3 in Scratches(t);
    hide OrderStep, WORK;
    WritesOrder(op, acc, t, t.t2, imm[bit]);
    WritesOrder(op, acc, t, t.t2, imm[0]);
    if bit >= 1 { WritesOrder(op, acc, t, t.t3, imm[bit - 1]); }
  }

  lemma {:induction false} WritesOrders(op: Opcode, acc: Reg, tile: Reg, t: Temps, imm: Word, bit: int)
    requires acc in WORK && Scratches(t) <= WORK && -1 <= bit < 64
    ensures AllWrite(OrderCode(op, acc, tile, t, imm, bit), WORK)
    decreases bit + 1
  {
    hide OrderPair, OrderOne, Writes, WORK;
    if bit >= 0 {
      WritesPair(op, acc, tile, t, imm, bit);
      if bit >= 1 { WritesOrders(op, acc, tile, t, imm, bit - 2); }
    }
  }

  lemma WritesCompare(op: MicroOp, acc: Reg, tile: Reg, t: Temps)
    requires IsCompare(op.op) && acc in WORK && Scratches(t) <= WORK
    ensures AllWrite(CompareCode(op, acc, tile, t), WORK)
  {
    var n := CompareBits(op.op, op.src2);
    assert t.t0 in Scratches(t);
    WritesMatches(op.op, acc, tile, t, op.imm, n - 1);
    WritesOrders(op.op, acc, tile, t, op.imm, n - 1);
    hide WORK, MatchCode, OrderCode, CompareBits, Scratches;
  }

  lemma PoolWorks(r: Reg)
    requires InPool(r)
    ensures r in WORK && 8 in WORK
  {
  }

  lemma WritesSimple(op: Opcode, d: Reg, x: Reg, y: Reg, index: Word)
    requires d in WORK
    ensures AllWrite(LoadTileCode(d, index), WORK)
    ensures IsBitwise(op) ==> AllWrite(BitwiseCode(op, d, x, y), WORK)
  {
    PoolWorks(9);
    hide WORK, TileOffset, WordOf;
  }

  /** A compiled op either calls nothing, or is the call with its two arguments. */
  lemma OpWrites(op: MicroOp, a: Alloc, code: seq<Instr>, a1: Alloc)
    requires WellAllocated(a) && CompileOp(op, a) == Ok((code, a1))
    ensures WellAllocated(a1)
    ensures op.op != MATERIALIZE_SCALAR ==> AllWrite(code, WORK)
    ensures op.op == MATERIALIZE_SCALAR ==> exists tile: Reg :: code == [Mov(0, tile), Mov(1, 21), CallTranspose]
  {
    Kinds(op.op);
    hide WellAllocated, GetReg, GetTemps, AllWrite, CompareCode, LoadTileCode, BitwiseCode, WORK, InPool;
    if op.op == MATERIALIZE_SCALAR {
      var (tile, a2) := GetReg(a, op.src1).value;
      Allocated(a, op.src1, tile, a2);
      assert code == [Mov(0, tile), Mov(1, 21), CallTranspose];
    } else {
      var (d, a2) := GetReg(a, op.dest).value;
      Allocated(a, op.dest, d, a2);
      PoolWorks(d);
      if op.op == LOAD_TILE {
        WritesSimple(op.op, d, d, d, op.imm);
      } else {
        var (s1, a3) := GetReg(a2, op.src1).value;
        Allocated(a2, op.src1, s1, a3);
        if IsBitwise(op.op) {
          var (s2, a4) := GetReg(a3, op.src2).value;
          Allocated(a3, op.src2, s2, a4);
          WritesSimple(op.op, d, s1, s2, op.imm);
        } else {
          var t := GetTemps(a3, d, s1).value;
          TempsWork(a3, d, s1, t);
          WritesCompare(op, d, s1, t);
        }
      }
    }
  }

  lemma TempsWork(a: Alloc, acc: Reg, tile: Reg, t: Temps)
    requires GetTemps(a, acc, tile) == Some(t)
    ensures Scratches(t) <= WORK
  {
    TempsAreFree(a, acc, tile, t);
    hide GetTemps, WORK, InPool;
    forall x | x in Scratches(t) ensures x in WORK { PoolWorks(x); }
  }

  lemma CallSteps(tile: Reg, st: State, destination: Word)
    requires st.regs[21] == destination
    ensures var code := [Mov(0, tile), Mov(1, 21), CallTranspose];
            CallsRight(code, st, destination) && Run(code, st).regs[21] == destination
  {
    var i0, i1, i2 := Mov(0, tile), Mov(1, 21), CallTranspose;
    var s1 := Step(i0, st);
    var s2 := Step(i1, s1);
    assert s2.regs[1] == destination && s2.regs[21] == destination;
    assert Step(i2, s2).regs[21] == destination by { hide Transposed, PlanesAt; }
    hide Step;
    assert [i0, i1, i2][1..] == [i1, i2] && [i1, i2][1..] == [i2] && [i2][1..] == [];
    assert CallsRight([], Step(i2, s2), destination);
    assert CallsRight([i2], s2, destination);
    assert CallsRight([i1, i2], s1, destination);
    assert Run([i2], s2) == Step(i2, s2);
    assert Run([i1, i2], s1) == Step(i2, s2);
  }

  lemma {:induction false} OpsCall(ops: seq<MicroOp>, a: Alloc, code: seq<Instr>, a1: Alloc, st: State, destination: Word)
    requires WellAllocated(a) && CompileOps(ops, a) == Ok((code, a1)) && st.regs[21] == destination
    ensures CallsRight(code, st, destination) && Run(code, st).regs[21] == destination && WellAllocated(a1)
    decreases |ops|
  {
    hide *;
    if |ops| == 0 {
      NoOps(ops, a, st, destination);
    } else {
      var first, a2, rest := FirstOp(ops, a, code, a1);
      OpWrites(ops[0], a, first, a2);
      if ops[0].op == MATERIALIZE_SCALAR {
        var tile: Reg :| first == [Mov(0, tile), Mov(1, 21), CallTranspose];
        CallSteps(tile, st, destination);
      } else {
        QuietCode(first, st, destination);
      }
      OpsCall(ops[1..], a2, rest, a1, Run(first, st), destination);
      CallsAppend(first, rest, st, destination);
      RunAppend(first, rest, st);
    }
  }

  lemma NoOps(ops: seq<MicroOp>, a: Alloc, st: State, destination: Word)
    requires |ops| == 0
    ensures CompileOps(ops, a) == Ok(([], a)) && CallsRight([], st, destination) && Run([], st) == st
  {
  }

  lemma FirstOp(ops: seq<MicroOp>, a: Alloc, code: seq<Instr>, a1: Alloc) returns (first: seq<Instr>, a2: Alloc, rest: seq<Instr>)
    requires ops != [] && CompileOps(ops, a) == Ok((code, a1))
    ensures CompileOp(ops[0], a) == Ok((first, a2)) && CompileOps(ops[1..], a2) == Ok((rest, a1)) && code == first + rest
  {
    hide CompileOp;
    first, a2 := CompileOp(ops[0], a).value.0, CompileOp(ops[0], a).value.1;
    rest := CompileOps(ops[1..], a2).value.0;
  }

  lemma Entered(entry: State)
    ensures CallsRight(PROLOGUE, entry, entry.regs[2]) && Run(PROLOGUE, entry).regs[21] == entry.regs[2]
  {
    var i0, i1, i2, i3 := PushMask(3), Mov(19, 0), Mov(20, 1), Mov(21, 2);
    assert PROLOGUE == [i0, i1, i2, i3];
    var s1 := Step(i0, entry);
    var s2 := Step(i1, s1);
    var s3 := Step(i2, s2);
    var s4 := Step(i3, s3);
    assert s4.regs[21] == entry.regs[2];
    hide Step;
    assert [i0, i1, i2, i3][1..] == [i1, i2, i3] && [i1, i2, i3][1..] == [i2, i3] && [i2, i3][1..] == [i3] && [i3][1..] == [];
    assert Run([i3], s3) == s4;
    assert Run([i2, i3], s2) == s4;
    assert Run([i1, i2, i3], s1) == s4;
    assert CallsRight([], s4, entry.regs[2]);
    assert CallsRight([i3], s3, entry.regs[2]);
    assert CallsRight([i2, i3], s2, entry.regs[2]);
    assert CallsRight([i1, i2, i3], s1, entry.regs[2]);
  }

  /** Whatever ops are compiled and whatever the caller passes: every call in the run of
      the compiled function is handed the caller's destination. */
  lemma CallsAreRight(ops: seq<MicroOp>, code: seq<Instr>, entry: State)
    requires CompiledFunction(ops) == Ok(code)
    ensures CallsRight(code, entry, entry.regs[2])
  {
    hide *;
    var body, a, last := FunctionParts(ops, code);
    var start := Run(PROLOGUE, entry);
    Entered(entry);
    FreshAllocated();
    OpsCall(ops, FRESH, body, a, start, entry.regs[2]);
    LastCalls(last, Run(body, start), entry.regs[2]);
    CallsAppend(PROLOGUE, body, entry, entry.regs[2]);
    RunAppend(PROLOGUE, body, entry);
    CallsAppend(PROLOGUE + body, last, entry, entry.regs[2]);
  }

  predicate NoCalls(code: seq<Instr>) { forall i :: 0 <= i < |code| ==> !code[i].CallTranspose? }

  lemma {:induction false} LastCalls(code: seq<Instr>, st: State, destination: Word)
    requires NoCalls(code)
    ensures CallsRight(code, st, destination)
  {
    hide Step;
    if code != [] { LastCalls(code[1..], Step(code[0], st), destination); }
  }

  lemma FreshAllocated()
    ensures WellAllocated(FRESH)
  {
  }

  lemma FunctionParts(ops: seq<MicroOp>, code: seq<Instr>) returns (body: seq<Instr>, a: Alloc, last: seq<Instr>)
    requires CompiledFunction(ops) == Ok(code)
    ensures CompileOps(ops, FRESH) == Ok((body, a)) && code == PROLOGUE + body + last && NoCalls(last)
  {
    hide CompileOps, GetReg;
    body, a := CompileOps(ops, FRESH).value.0, CompileOps(ops, FRESH).value.1;
    if ops == [] {
      last := [MovImm(0, ZEROS)];
    } else {
      last := Epilogue(GetReg(a, ops[|ops| - 1].dest).value.0);
    }
  }
}
