/** A list of two ops that the compiler accepts and compiles to code that returns
    the wrong rows: a comparison into the register of its own tile's address. */
module OverwrittenTiles {
  import opened Words
  import opened SimdTransposer
  import opened Storage
  import opened Machine
  import opened MicroOps
  import opened MicroOpCompiler
  import opened Comparators
  import opened OwnTile
  import opened Simulation

  function OwnCompare(imm: Word): MicroOp { MicroOp(CMP_EQ, 0, 0, 64, imm) }

  /** Load the first tile, and compare it into the register of its own address. */
  function OwnOps(imm: Word): seq<MicroOp> { [MicroOp(LOAD_TILE, 0, -1, -1, ZEROS), OwnCompare(imm)] }

  const OWN_TEMPS := Temps(23, 24, 25, 26)
  const OWN_ALLOC := Alloc(map[0 := 22], 1)

  function OwnCode(imm: Word): seq<Instr> {
    PROLOGUE + ([Mov(22, 19)] + CompareCode(OwnCompare(imm), 22, 22, OWN_TEMPS)) + Epilogue(22)
  }

  lemma {:induction false} FirstFreeIs(a: Alloc, exclude: set<Reg>, k: nat, m: nat)
    requires k <= m < |POOL| && POOL[m] !in a.map_.Values && POOL[m] !in exclude
    requires forall j :: k <= j < m ==> POOL[j] in a.map_.Values || POOL[j] in exclude
    ensures FirstFree(a, exclude, k) == Some(POOL[m])
    decreases m - k
  {
    if k < m { FirstFreeIs(a, exclude, k + 1, m); }
  }

  lemma OwnTemps()
    ensures GetTemps(OWN_ALLOC, 22, 22) == Some(OWN_TEMPS)
  {
    assert OWN_ALLOC.map_[0] == 22 && OWN_ALLOC.map_.Values == {22};
    FirstFreeIs(OWN_ALLOC, {22, 22}, 0, 1);
    FirstFreeIs(OWN_ALLOC, {22, 22, 23}, 0, 2);
    FirstFreeIs(OWN_ALLOC, {22, 22, 23, 24}, 0, 3);
    FirstFreeIs(OWN_ALLOC, {22, 22, 23, 24, 25}, 0, 4);
    hide FirstFree;
  }

  lemma CompilesLoad()
    ensures CompileOp(MicroOp(LOAD_TILE, 0, -1, -1, ZEROS), FRESH) == Ok(([Mov(22, 19)], OWN_ALLOC))
  {
    ZeroWord(ZEROS);
    hide Value;
  }

  lemma CompilesCompare(imm: Word)
    ensures CompileOp(OwnCompare(imm), OWN_ALLOC) == Ok((CompareCode(OwnCompare(imm), 22, 22, OWN_TEMPS), OWN_ALLOC))
  {
    OwnTemps();
    hide GetTemps, CompareCode;
  }

  lemma CompilesTwo(first: MicroOp, second: MicroOp, a: Alloc, code1: seq<Instr>, a1: Alloc, code2: seq<Instr>, a2: Alloc)
    requires CompileOp(first, a) == Ok((code1, a1)) && CompileOp(second, a1) == Ok((code2, a2))
    ensures CompileOps([first, second], a) == Ok((code1 + code2, a2))
  {
    hide CompileOp;
    assert [first, second][1..] == [second] && [second][1..] == [];
    assert CompileOps([], a2) == Ok(([], a2));
    assert code2 + [] == code2;
    assert CompileOps([second], a1) == Ok((code2, a2));
  }

  lemma CompiledIs(ops: seq<MicroOp>, body: seq<Instr>, a: Alloc)
    requires CompileOps(ops, FRESH) == Ok((body, a)) && ops != [] && ops[|ops| - 1].dest in a.map_
    ensures CompiledFunction(ops) == Ok(PROLOGUE + body + Epilogue(a.map_[ops[|ops| - 1].dest]))
  {
    hide CompileOps, Epilogue;
  }

  lemma OwnCompiles(imm: Word)
    ensures CompiledFunction(OwnOps(imm)) == Ok(OwnCode(imm))
  {
    assert OWN_ALLOC.map_[0] == 22;
    assert OwnOps(imm)[1].dest == 0;
    hide CompareCode, CompileOps, CompileOp, CompiledFunction, Epilogue;
    CompilesLoad();
    CompilesCompare(imm);
    CompilesTwo(MicroOp(LOAD_TILE, 0, -1, -1, ZEROS), OwnCompare(imm), FRESH, [Mov(22, 19)], OWN_ALLOC,
                CompareCode(OwnCompare(imm), 22, 22, OWN_TEMPS), OWN_ALLOC);
    CompiledIs(OwnOps(imm), [Mov(22, 19)] + CompareCode(OwnCompare(imm), 22, 22, OWN_TEMPS), OWN_ALLOC);
  }

  function OwnReg(r: nat): Word { if r == 0 then WordOf(TILE) else if r == 3 then ONES else ZEROS }

  function OwnRegs(): Regs { seq(31, r requires 0 <= r < 31 => OwnReg(r)) }

  /** The tiles start at TILE and every row is alive. */
  function OwnEntry(w: Word): State { EntryState(OwnRegs(), TileMemory(w), PlanesAt(TileMemory(w), ZEROS), OwnRegs()) }

  /** The registers behind the prologue and the tile's address in x22. */
  function LoadedReg(r: nat): Word {
    if r in {19, 22} then OwnReg(0) else if r == 20 then OwnReg(1) else if r == 21 then OwnReg(2) else OwnReg(r)
  }

  function OwnLoaded(): Regs { seq(31, r requires 0 <= r < 31 => LoadedReg(r)) }

  lemma LoadedIs()
    ensures OwnRegs()[19 := OwnRegs()[0]][20 := OwnRegs()[1]][21 := OwnRegs()[2]][22 := OwnRegs()[0]] == OwnLoaded()
    ensures OwnRegs()[3] == ONES
  {
    hide OwnReg;
    OwnMask();
  }

  lemma PrologueThenLoad(st: State)
    ensures Run(PROLOGUE + [Mov(22, 19)], st)
            == st.(mask := st.regs[3], regs := st.regs[19 := st.regs[0]][20 := st.regs[1]][21 := st.regs[2]][22 := st.regs[0]])
  {
    var i0, i1, i2, i3, i4 := PushMask(3), Mov(19, 0), Mov(20, 1), Mov(21, 2), Mov(22, 19);
    var s1 := Step(i0, st);
    var s4 := Step(i3, Step(i2, Step(i1, s1)));
    FourSteps(st);
    assert PROLOGUE == [i0] + [i1, i2, i3];
    hide *;
    RunOne(i0, st);
    RunThree(i1, i2, i3, s1);
    RunOne(i4, s4);
    RunTwo([i0], [i1, i2, i3], st, s1, s4);
    RunTwo(PROLOGUE, [i4], st, s4, Step(i4, s4));
  }

  lemma FourSteps(st: State)
    ensures Step(Mov(22, 19), Step(Mov(21, 2), Step(Mov(20, 1), Step(Mov(19, 0), Step(PushMask(3), st)))))
            == st.(mask := st.regs[3], regs := st.regs[19 := st.regs[0]][20 := st.regs[1]][21 := st.regs[2]][22 := st.regs[0]])
  {
  }

  lemma OwnArrives(w: Word)
    ensures Run(PROLOGUE + [Mov(22, 19)], OwnEntry(w)) == OwnEntry(w).(regs := OwnLoaded(), mask := ONES)
  {
    PrologueThenLoad(OwnEntry(w));
    LoadedIs();
    hide OwnRegs, OwnLoaded, TileMemory, PlanesAt, Run;
  }

  lemma OwnMask()
    ensures OwnReg(3) == ONES && OwnReg(0) == WordOf(TILE)
    ensures OwnLoaded()[22] == WordOf(TILE)
    ensures forall r :: r in Scratches(OWN_TEMPS) ==> OwnLoaded()[r] == ZEROS
  {
    hide WordOf;
    assert OwnLoaded()[22] == LoadedReg(22);
  }

  lemma OwnAtTile(yes: Word, no: Word)
    ensures AtTile(OwnEntry(yes).(regs := OwnLoaded(), mask := ONES), OwnEntry(no).(regs := OwnLoaded(), mask := ONES), 22, OWN_TEMPS, yes, no)
  {
    OwnMask();
    hide OwnLoaded, TileMemory, WordOf, PlanesAt, OwnRegs;
  }

  lemma LocalKeepsMask(code: seq<Instr>, d: Reg, t: Temps, st: State)
    requires AllLocal(code, d, t)
    ensures Run(code, st).mask == st.mask
  {
    forall k | 0 <= k < |code| ensures Writes(code[k], Touched(d, t)) { assert Local(code[k], d, t); }
    hide Local, Writes, Run;
    RunWrites(code, Touched(d, t), st);
  }

  lemma AndOnes(w: Word)
    ensures And(w, ONES) == w
  {
  }

  lemma OwnCodeIs(imm: Word)
    ensures OwnCode(imm) == ((PROLOGUE + [Mov(22, 19)]) + CompareCode(OwnCompare(imm), 22, 22, OWN_TEMPS)) + Epilogue(22)
    ensures IsCompare(OwnCompare(imm).op) && !Blind(OwnCompare(imm))
  {
    hide CompareCode, Epilogue;
  }

  lemma CallIs(code: seq<Instr>, entry: State)
    ensures CallScan(code, entry) == Run(code, entry).regs[0]
  {
  }

  /** What the compiled list returns: the compared register, as it was left. */
  lemma OwnReturns(imm: Word, w: Word)
    ensures var st := OwnEntry(w).(regs := OwnLoaded(), mask := ONES);
            CallScan(OwnCode(imm), OwnEntry(w)) == Run(CompareCode(OwnCompare(imm), 22, 22, OWN_TEMPS), st).regs[22]
  {
    hide *;
    var op, entry, st := OwnCompare(imm), OwnEntry(w), OwnEntry(w).(regs := OwnLoaded(), mask := ONES);
    OwnCodeIs(imm);
    CallIs(OwnCode(imm), entry);
    var code := CompareCode(op, 22, 22, OWN_TEMPS);
    var end := Run(code, st);
    OwnArrives(w);
    LocalCompare(op, 22, OWN_TEMPS);
    LocalKeepsMask(code, 22, OWN_TEMPS, st);
    RunTwo(PROLOGUE + [Mov(22, 19)], code, entry, st, end);
    RunEpilogue(22, end);
    RunTwo((PROLOGUE + [Mov(22, 19)]) + code, Epilogue(22), entry, end, Run(Epilogue(22), end));
    AndOnes(end.regs[22]);
  }

  lemma FirstTile()
    ensures TileAddress(WordOf(TILE), ZEROS) == WordOf(TILE)
  {
    ZeroWord(ZEROS);
    WordValue(TILE);
    hide Value, WordOf;
  }

  lemma ExecTwo(first: MicroOp, second: MicroOp, env: Env, base: Word, mem: Memory)
    requires DefinedBeforeUse([first, second], env.vregs.Keys)
    ensures Usable(first, env.vregs.Keys) && Usable(second, Exec(first, env, base, mem).vregs.Keys)
    ensures ExecAll([first, second], env, base, mem) == Exec(second, Exec(first, env, base, mem), base, mem)
  {
    var next := Exec(first, env, base, mem);
    assert [first, second][1..] == [second] && [second][1..] == [];
    assert next.vregs.Keys == DefinedAfter(first, env.vregs.Keys);
    assert DefinedBeforeUse([second], next.vregs.Keys);
    hide Exec;
    assert ExecAll([], Exec(second, next, base, mem), base, mem) == Exec(second, next, base, mem);
    assert ExecAll([second], next, base, mem) == Exec(second, next, base, mem);
  }

  lemma OwnDefines(imm: Word)
    ensures ScanOps(OwnOps(imm)) && DefinedBeforeUse(OwnOps(imm), NOTHING.Keys)
  {
    assert OwnOps(imm)[1..] == [OwnCompare(imm)] && [OwnCompare(imm)][1..] == [];
    assert NOTHING.Keys == {};
    assert DefinedBeforeUse([OwnCompare(imm)], {0});
  }

  lemma EntryIs(w: Word)
    ensures OwnEntry(w).regs[0] == WordOf(TILE) && OwnEntry(w).regs[3] == ONES && OwnEntry(w).mem == TileMemory(w)
  {
    hide TileMemory, WordOf, PlanesAt;
  }

  lemma ExecOwn(imm: Word, env: Env, mem: Memory)
    requires Usable(OwnOps(imm)[0], env.vregs.Keys)
    requires Usable(OwnOps(imm)[1], Exec(OwnOps(imm)[0], env, WordOf(TILE), mem).vregs.Keys)
    ensures var end := Exec(OwnOps(imm)[1], Exec(OwnOps(imm)[0], env, WordOf(TILE), mem), WordOf(TILE), mem);
            0 in end.vregs && end.vregs[0] == ComparedAt(OwnCompare(imm), mem, WordOf(TILE))
  {
    FirstTile();
    hide TileAddress, WordOf, Compared, PlanesAt;
  }

  lemma ScanResultIs(ops: seq<MicroOp>, dest: Matrix, base: Word, mem: Memory)
    requires ScanOps(ops)
    ensures DefinedBeforeUse(ops, NOTHING.Keys)
    ensures ops[|ops| - 1].dest in ExecAll(ops, Env(NOTHING, dest), base, mem).vregs
    ensures ScanResult(ops, dest, base, mem) == ExecAll(ops, Env(NOTHING, dest), base, mem).vregs[ops[|ops| - 1].dest]
  {
    assert NOTHING.Keys == {};
    LastDefined(ops, Env(NOTHING, dest), base, mem);
    hide ExecAll, DefinedBeforeUse;
  }

  lemma OwnMeaning(imm: Word, w: Word)
    ensures ScanOps(OwnOps(imm)) && OwnEntry(w).regs[3] == ONES
    ensures ScanResult(OwnOps(imm), OwnEntry(w).dest, OwnEntry(w).regs[0], OwnEntry(w).mem)
            == ComparedAt(OwnCompare(imm), TileMemory(w), WordOf(TILE))
  {
    var ops := OwnOps(imm);
    assert ops == [ops[0], ops[1]] && ops[1].dest == 0 && IsCompare(OwnCompare(imm).op);
    hide *;
    EntryIs(w);
    OwnDefines(imm);
    var base, mem, dest := OwnEntry(w).regs[0], OwnEntry(w).mem, OwnEntry(w).dest;
    ScanResultIs(ops, dest, base, mem);
    ExecTwo(ops[0], ops[1], Env(NOTHING, dest), base, mem);
    ExecOwn(imm, Env(NOTHING, dest), mem);
  }

  /** For every immediate the compiler accepts the list, and for some memory its code
      returns the wrong rows. */
  lemma OverwrittenTile(imm: Word) returns (entry: State)
    ensures ScanOps(OwnOps(imm)) && CompiledFunction(OwnOps(imm)) == Ok(OwnCode(imm))
    ensures CallScan(OwnCode(imm), entry) != And(ScanResult(OwnOps(imm), entry.dest, entry.regs[0], entry.mem), entry.regs[3])
  {
    var op := OwnCompare(imm);
    hide *;
    OwnCodeIs(imm);
    OwnCompiles(imm);
    var yes, no := SeesLanes(op);
    OwnAtTile(yes, no);
    SameOutcome(op, 22, OWN_TEMPS, OwnEntry(yes).(regs := OwnLoaded(), mask := ONES), OwnEntry(no).(regs := OwnLoaded(), mask := ONES), yes, no);
    OwnReturns(imm, yes);
    OwnReturns(imm, no);
    OwnMeaning(imm, yes);
    OwnMeaning(imm, no);
    VerdictsDiffer(op, yes, no);
    AndOnes(ComparedAt(op, TileMemory(yes), WordOf(TILE)));
    AndOnes(ComparedAt(op, TileMemory(no), WordOf(TILE)));
    entry := OwnEntry(yes);
    if CallScan(OwnCode(imm), entry) == ComparedAt(op, TileMemory(yes), WordOf(TILE)) { entry := OwnEntry(no); }
  }
}
