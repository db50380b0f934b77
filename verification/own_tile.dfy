/** Comparisons that write over the register holding their own tile's address:
    the compiler accepts them, and their code is right exactly when the comparison
    looks at no lane. */
module OwnTile {
  import opened Words
  import opened SimdTransposer
  import opened Machine
  import opened MicroOps
  import opened MicroOpCompiler
  import opened Comparators

  /** What the comparison at an address should give. */
  function ComparedAt(op: MicroOp, mem: Memory, base: Word): Word
    requires IsCompare(op.op)
  {
    Compared(op.op, PlanesAt(mem, base), op.imm, CompareBits(op.op, op.src2))
  }

  // ----- blind comparisons

  predicate Writes(i: Instr, touched: set<Reg>) {
    match i
    case Mov(dst, _) => dst in touched
    case MovImm(dst, _) => dst in touched
    case Add(dst, _, _) => dst in touched
    case AndR(dst, _, _) => dst in touched
    case Orr(dst, _, _) => dst in touched
    case Eor(dst, _, _) => dst in touched
    case BicR(dst, _, _) => dst in touched
    case Ldr(dst, _, _) => dst in touched
    case LoadMask(dst) => dst in touched
    case PushMask(_) => false
    case CallTranspose => false
  }

  predicate AllWrite(code: seq<Instr>, touched: set<Reg>) {
    forall k :: 0 <= k < |code| ==> Writes(code[k], touched)
  }

  lemma {:induction false} RunWrites(code: seq<Instr>, touched: set<Reg>, st: State)
    requires AllWrite(code, touched)
    ensures Keeps(st, Run(code, st), touched)
  {
    if code != [] {
      assert Writes(code[0], touched);
      RunWrites(code[1..], touched, Step(code[0], st));
    }
  }

  function Scratches(t: Temps): set<Reg> { {t.t0, t.t1, t.t2, t.t3} }

  lemma {:induction false} BlindMatch(acc: Reg, tile: Reg, t: Temps, imm: Word, bit: int)
    requires -1 <= bit < 64 && BlindBits(CMP_KIM, imm, bit + 1)
    ensures AllWrite(MatchCode(CMP_KIM, acc, tile, t, imm, bit), Scratches(t))
    decreases bit + 1
  {
    if bit >= 3 {
      BlindMatch(acc, tile, t, imm, bit - 4);
    } else if bit >= 0 {
      BlindMatch(acc, tile, t, imm, bit - 1);
    }
  }

  lemma BlindPair(op: Opcode, acc: Reg, tile: Reg, t: Temps, imm: Word, bit: int)
    requires 1 <= bit < 64 && op in {CMP_GT, CMP_LT} && BlindBits(op, imm, bit + 1)
    ensures AllWrite(OrderPair(op, acc, tile, t, imm, bit), Scratches(t))
  {
  }

  lemma {:induction false} BlindOrder(op: Opcode, acc: Reg, tile: Reg, t: Temps, imm: Word, bit: int)
    requires -1 <= bit < 64 && op in {CMP_GT, CMP_LT} && BlindBits(op, imm, bit + 1)
    ensures AllWrite(OrderCode(op, acc, tile, t, imm, bit), Scratches(t))
    decreases bit + 1
  {
    if bit >= 1 {
      BlindPair(op, acc, tile, t, imm, bit);
      BlindOrder(op, acc, tile, t, imm, bit - 2);
      hide OrderPair;
    }
  }

  lemma BlindVerdict(op: MicroOp, planes: Matrix)
    requires IsCompare(op.op) && Blind(op)
    ensures Compared(op.op, planes, op.imm, CompareBits(op.op, op.src2)) == if op.op == CMP_KIM then ONES else ZEROS
  {
    var n := CompareBits(op.op, op.src2);
    forall r | 0 <= r < 64 ensures LaneTest(op.op, Transposed(planes)[r], op.imm, n) == (op.op == CMP_KIM) {
      Extremes(Transposed(planes)[r], op.imm, n);
    }
    hide Transposed, LaneTest;
  }

  /** All ones is the largest number of n bits, and zero the smallest. */
  lemma Extremes(lane: Word, imm: Word, n: nat)
    requires n <= 64
    ensures (forall b :: 0 <= b < n ==> imm[b]) ==> Value(lane[..n]) <= Value(imm[..n])
    ensures (forall b :: 0 <= b < n ==> !imm[b]) ==> Value(lane[..n]) >= Value(imm[..n])
  {
    if forall b :: 0 <= b < n ==> imm[b] { Dominated(lane[..n], imm[..n]); }
    if forall b :: 0 <= b < n ==> !imm[b] { Dominated(imm[..n], lane[..n]); }
    hide Value;
  }

  lemma {:induction false} Dominated(x: seq<bool>, y: seq<bool>)
    requires |x| == |y| && forall b :: 0 <= b < |x| && x[b] ==> y[b]
    ensures Value(x) <= Value(y)
  {
    if x != [] { Dominated(x[1..], y[1..]); }
  }

  lemma BlindBitsOf(op: MicroOp)
    requires IsCompare(op.op) && Blind(op)
    ensures BlindBits(op.op, op.imm, CompareBits(op.op, op.src2)) && op.op in {CMP_KIM, CMP_GT, CMP_LT}
  {
  }

  lemma BlindParts(op: MicroOp, acc: Reg, tile: Reg, t: Temps)
    requires IsCompare(op.op) && Blind(op)
    ensures CompareCode(op, acc, tile, t) != []
    ensures CompareCode(op, acc, tile, t)[0] == MovImm(acc, if op.op == CMP_KIM then ONES else ZEROS)
    ensures AllWrite(CompareCode(op, acc, tile, t)[1..], Scratches(t))
  {
    var n := CompareBits(op.op, op.src2);
    BlindBitsOf(op);
    hide Blind, BlindBits, CompareBits, MatchCode, OrderCode;
    if op.op == CMP_KIM {
      BlindMatch(acc, tile, t, op.imm, n - 1);
    } else {
      BlindOrder(op.op, acc, tile, t, op.imm, n - 1);
    }
  }

  lemma RunSplit(code: seq<Instr>, st: State)
    requires code != []
    ensures Run(code, st) == Run(code[1..], Step(code[0], st))
  {
  }

  /** A blind comparison may write over its own tile's address. */
  lemma RunBlindCompare(op: MicroOp, acc: Reg, tile: Reg, t: Temps, st: State)
    requires IsCompare(op.op) && Blind(op) && acc !in Scratches(t)
    ensures var st' := Run(CompareCode(op, acc, tile, t), st);
            Keeps(st, st', Touched(acc, t)) && st'.regs[acc] == ComparedAt(op, st.mem, st.regs[tile])
  {
    var code := CompareCode(op, acc, tile, t);
    BlindParts(op, acc, tile, t);
    BlindVerdict(op, PlanesAt(st.mem, st.regs[tile]));
    RunSplit(code, st);
    hide CompareCode, Blind, Compared, PlanesAt, Run, AllWrite;
    RunWrites(code[1..], Scratches(t), Step(code[0], st));
  }

  // ----- code whose registers stay all zeros or all ones

  const TILE: nat := 1024

  predicate Flat(w: Word) { w == ZEROS || w == ONES }

  lemma FlatOps(x: Word, y: Word)
    requires Flat(x) && Flat(y)
    ensures Flat(And(x, y)) && Flat(Or(x, y)) && Flat(Bic(x, y))
  {
    var i: nat := 0;
    assert x[i] ==> x == ONES;
    assert y[i] ==> y == ONES;
    var a, o, b := And(x, y), Or(x, y), Bic(x, y);
    assert a == if a[i] then ONES else ZEROS;
    assert o == if o[i] then ONES else ZEROS;
    assert b == if b[i] then ONES else ZEROS;
  }

  /** Loads through d within 512 bytes, and bitwise work on d and the scratches. */
  predicate Local(i: Instr, d: Reg, t: Temps) {
    match i
    case Ldr(dst, base, offset) => dst in Scratches(t) && base == d && offset <= 504
    case MovImm(dst, imm) => dst in Touched(d, t) && Flat(imm)
    case AndR(dst, a, b) => dst in Touched(d, t) && a in Touched(d, t) && b in Touched(d, t)
    case Orr(dst, a, b) => dst in Touched(d, t) && a in Touched(d, t) && b in Touched(d, t)
    case BicR(dst, a, b) => dst in Touched(d, t) && a in Touched(d, t) && b in Touched(d, t)
    case _ => false
  }

  predicate AllLocal(code: seq<Instr>, d: Reg, t: Temps) {
    forall k :: 0 <= k < |code| ==> Local(code[k], d, t)
  }

  /** Near address zero there are only ones. */
  ghost predicate OnesNearZero(mem: Memory) {
    forall w: Word, offset: nat :: Flat(w) && offset <= 504 ==> mem(Address(w, offset)) == ONES
  }

  /** The registers of two runs agree, and those the code works on are flat. */
  ghost predicate Level(st1: State, st2: State, d: Reg, t: Temps) {
    && st1.regs == st2.regs && OnesNearZero(st1.mem) && OnesNearZero(st2.mem)
    && forall r :: r in Touched(d, t) ==> Flat(st1.regs[r])
  }

  lemma LevelStep(i: Instr, d: Reg, t: Temps, st1: State, st2: State)
    requires Local(i, d, t) && Level(st1, st2, d, t)
    ensures Level(Step(i, st1), Step(i, st2), d, t)
  {
    hide Flat, Address, And, Or, Bic;
    match i {
      case Ldr(dst, base, offset) =>
        assert st1.mem(Address(st1.regs[base], offset)) == ONES == st2.mem(Address(st2.regs[base], offset));
        assert Flat(ONES) by { OnesFlat(); }
      case AndR(dst, a, b) => FlatOps(st1.regs[a], st1.regs[b]);
      case Orr(dst, a, b) => FlatOps(st1.regs[a], st1.regs[b]);
      case BicR(dst, a, b) => FlatOps(st1.regs[a], st1.regs[b]);
      case MovImm(dst, imm) =>
    }
  }

  lemma OnesFlat()
    ensures Flat(ONES) && Flat(ZEROS)
  {
  }

  lemma {:induction false} LevelRun(code: seq<Instr>, d: Reg, t: Temps, st1: State, st2: State)
    requires AllLocal(code, d, t) && Level(st1, st2, d, t)
    ensures Run(code, st1).regs == Run(code, st2).regs
  {
    if code != [] {
      assert Local(code[0], d, t);
      hide Local, Level, Step;
      LevelStep(code[0], d, t, st1, st2);
      LevelRun(code[1..], d, t, Step(code[0], st1), Step(code[0], st2));
    } else {
      assert st1.regs == st2.regs;
    }
  }

  lemma LocalQuad(op: Opcode, d: Reg, t: Temps, imm: Word, bit: int)
    requires 3 <= bit < 64
    ensures AllLocal(MatchQuad(op, d, d, t, imm, bit), d, t)
  {
    LocalStep(op, d, t, t.t0, imm[bit]);
    LocalStep(op, d, t, t.t1, imm[bit - 1]);
    LocalStep(op, d, t, t.t2, imm[bit - 2]);
    LocalStep(op, d, t, t.t3, imm[bit - 3]);
    hide MatchStep;
  }

  lemma LocalStep(op: Opcode, d: Reg, t: Temps, x: Reg, bit: bool)
    requires x in Scratches(t)
    ensures AllLocal(MatchStep(op, d, x, bit), d, t)
  {
  }

  lemma LocalOne(op: Opcode, d: Reg, t: Temps, imm: Word, bit: int)
    requires 0 <= bit < 64
    ensures AllLocal(MatchOne(op, d, d, t, imm, bit), d, t)
  {
    LocalStep(op, d, t, t.t0, imm[bit]);
    hide MatchStep;
  }

  lemma {:induction false} LocalMatch(op: Opcode, d: Reg, t: Temps, imm: Word, bit: int)
    requires -1 <= bit < 64
    ensures AllLocal(MatchCode(op, d, d, t, imm, bit), d, t)
    decreases bit + 1
  {
    hide MatchQuad, MatchOne, Local;
    if bit >= 3 {
      LocalQuad(op, d, t, imm, bit);
      LocalMatch(op, d, t, imm, bit - 4);
    } else if bit >= 0 {
      LocalOne(op, d, t, imm, bit);
      LocalMatch(op, d, t, imm, bit - 1);
    }
  }

  lemma LocalOrderStep(op: Opcode, d: Reg, t: Temps, x: Reg, bit: bool)
    requires x in Scratches(t)
    ensures AllLocal(OrderStep(op, d, t, x, bit), d, t)
  {
  }

  lemma LocalPair(op: Opcode, d: Reg, t: Temps, imm: Word, bit: int)
    requires 1 <= bit < 64
    ensures AllLocal(OrderPair(op, d, d, t, imm, bit), d, t)
  {
    LocalOrderStep(op, d, t, t.t2, imm[bit]);
    LocalOrderStep(op, d, t, t.t3, imm[bit - 1]);
    hide OrderStep;
  }

  lemma LocalLast(op: Opcode, d: Reg, t: Temps, imm: Word)
    ensures AllLocal(OrderOne(op, d, d, t, imm), d, t)
  {
    LocalOrderStep(op, d, t, t.t2, imm[0]);
    hide OrderStep;
  }

  lemma {:induction false} LocalOrder(op: Opcode, d: Reg, t: Temps, imm: Word, bit: int)
    requires -1 <= bit < 64
    ensures AllLocal(OrderCode(op, d, d, t, imm, bit), d, t)
    decreases bit + 1
  {
    hide OrderPair, OrderOne, Local;
    if bit >= 1 {
      LocalPair(op, d, t, imm, bit);
      LocalOrder(op, d, t, imm, bit - 2);
    } else if bit == 0 {
      LocalLast(op, d, t, imm);
    }
  }

  lemma LocalCompare(op: MicroOp, d: Reg, t: Temps)
    requires IsCompare(op.op)
    ensures AllLocal(CompareCode(op, d, d, t), d, t) && CompareCode(op, d, d, t) != []
    ensures CompareCode(op, d, d, t)[0].MovImm? && CompareCode(op, d, d, t)[0].dst == d && Flat(CompareCode(op, d, d, t)[0].imm)
  {
    OnesFlat();
    var n := CompareBits(op.op, op.src2);
    LocalMatch(op.op, d, t, op.imm, n - 1);
    LocalOrder(op.op, d, t, op.imm, n - 1);
    hide MatchCode, OrderCode, Flat, CompareBits;
  }

  // ----- two memories that differ only at the tile

  /** Every lane of the tile at TILE holds w; all other words are ones. */
  function TileMemoryAt(w: Word, a: nat): Word {
    if TILE <= a < TILE + 512 && a % 8 == 0 && !w[(a - TILE) / 8] then ZEROS else ONES
  }

  function TileMemory(w: Word): Memory { a => TileMemoryAt(w, a) }

  lemma FarFromTile(w: Word, a: nat)
    requires a < TILE || a >= TILE + 512
    ensures TileMemory(w)(a) == ONES
  {
  }

  lemma AddressNearZero(z: Word, offset: nat)
    requires Flat(z) && offset <= 504
    ensures Address(z, offset) < TILE || Address(z, offset) >= TILE + 512
  {
    hide *;
    FlatValue(z);
    NearZero(Value(z), offset);
    AddressIs(z, offset);
  }

  lemma AddressIs(z: Word, offset: nat)
    ensures Address(z, offset) == Wrap(Value(z) + offset)
  {
    hide Wrap, Value;
  }

  lemma MemoryNearZero(w: Word)
    ensures OnesNearZero(TileMemory(w))
  {
    hide TileMemory, Address, Flat;
    forall z: Word, offset: nat | Flat(z) && offset <= 504 ensures TileMemory(w)(Address(z, offset)) == ONES {
      AddressNearZero(z, offset);
      FarFromTile(w, Address(z, offset));
    }
  }

  lemma FlatValue(z: Word)
    requires Flat(z)
    ensures Value(z) == 0 || Value(z) == TWO_64 - 1
  {
    ZeroWord(ZEROS);
    LowMaskValue(64, 64);
    assert seq(64, k => k < 64) == ONES;
    Pow2Of64();
    hide Value, Pow2;
  }

  lemma NearZero(v: nat, offset: nat)
    requires (v == 0 || v == TWO_64 - 1) && offset <= 504
    ensures Wrap(v + offset) < TILE || Wrap(v + offset) >= TILE + 512
  {
  }

  lemma TilePlane(w: Word, k: nat)
    requires k < 64
    ensures PlanesAt(TileMemory(w), WordOf(TILE))[k] == if w[k] then ONES else ZEROS
  {
    WordValue(TILE);
    hide Value, WordOf;
    assert Address(WordOf(TILE), 8 * k) == TILE + 8 * k;
    assert (TILE + 8 * k - TILE) / 8 == k;
  }

  lemma TileLane(w: Word, r: nat)
    requires r < 64
    ensures Transposed(PlanesAt(TileMemory(w), WordOf(TILE)))[r] == w
  {
    var planes := PlanesAt(TileMemory(w), WordOf(TILE));
    forall k | 0 <= k < 64 ensures Transposed(planes)[r][k] == w[k] {
      TilePlane(w, k);
    }
    hide Transposed, PlanesAt;
  }

  // ----- exactly when the code is right

  /** Two lane values that a comparison tells apart. */
  lemma SeesLanes(op: MicroOp) returns (yes: Word, no: Word)
    requires IsCompare(op.op) && !Blind(op)
    ensures var n := CompareBits(op.op, op.src2); LaneTest(op.op, yes, op.imm, n) && !LaneTest(op.op, no, op.imm, n)
  {
    var n := CompareBits(op.op, op.src2);
    if op.op == CMP_KIM {
      yes, no := ONES, ZEROS;
    } else if op.op == CMP_GT {
      yes, no := ONES, ZEROS;
      var b :| 0 <= b < n && !op.imm[b];
      StrictlyDominated(op.imm[..n], ONES[..n], b);
      Dominated(ZEROS[..n], op.imm[..n]);
    } else if op.op == CMP_LT {
      yes, no := ZEROS, ONES;
      var b :| 0 <= b < n && op.imm[b];
      StrictlyDominated(ZEROS[..n], op.imm[..n], b);
      Dominated(op.imm[..n], ONES[..n]);
    } else {
      yes, no := op.imm, op.imm[0 := !op.imm[0]];
      assert no[..n][0] != op.imm[..n][0];
    }
  }

  lemma {:induction false} StrictlyDominated(x: seq<bool>, y: seq<bool>, k: nat)
    requires |x| == |y| && k < |x| && (forall b :: 0 <= b < |x| && x[b] ==> y[b]) && !x[k] && y[k]
    ensures Value(x) < Value(y)
  {
    if k == 0 { Dominated(x[1..], y[1..]); } else { StrictlyDominated(x[1..], y[1..], k - 1); }
  }

  lemma VerdictsDiffer(op: MicroOp, yes: Word, no: Word)
    requires IsCompare(op.op)
    requires LaneTest(op.op, yes, op.imm, CompareBits(op.op, op.src2)) && !LaneTest(op.op, no, op.imm, CompareBits(op.op, op.src2))
    ensures ComparedAt(op, TileMemory(yes), WordOf(TILE)) != ComparedAt(op, TileMemory(no), WordOf(TILE))
  {
    TileLane(yes, 0);
    TileLane(no, 0);
    hide LaneTest, Transposed, PlanesAt, CompareBits;
    assert ComparedAt(op, TileMemory(yes), WordOf(TILE))[0];
    assert !ComparedAt(op, TileMemory(no), WordOf(TILE))[0];
  }

  /** Registers of a state about to run a comparison at TILE. */
  ghost predicate AtTile(st1: State, st2: State, d: Reg, t: Temps, yes: Word, no: Word) {
    && st1.regs == st2.regs && st1.mem == TileMemory(yes) && st2.mem == TileMemory(no)
    && st1.regs[d] == WordOf(TILE) && forall r :: r in Scratches(t) ==> st1.regs[r] == ZEROS
  }

  lemma LevelFromTile(i: Instr, d: Reg, t: Temps, st1: State, st2: State, yes: Word, no: Word)
    requires AtTile(st1, st2, d, t, yes, no) && i.MovImm? && i.dst == d && Flat(i.imm)
    ensures Level(Step(i, st1), Step(i, st2), d, t)
  {
    OnesFlat();
    hide Flat, OnesNearZero, TileMemory;
    MemoryNearZero(yes);
    MemoryNearZero(no);
  }

  /** The code cannot tell the two memories apart: it reads neither tile. */
  lemma SameOutcome(op: MicroOp, d: Reg, t: Temps, st1: State, st2: State, yes: Word, no: Word)
    requires IsCompare(op.op) && AtTile(st1, st2, d, t, yes, no)
    ensures Run(CompareCode(op, d, d, t), st1).regs == Run(CompareCode(op, d, d, t), st2).regs
  {
    var code := CompareCode(op, d, d, t);
    LocalCompare(op, d, t);
    RunSplit(code, st1);
    RunSplit(code, st2);
    assert AllLocal(code[1..], d, t);
    hide *;
    LevelFromTile(code[0], d, t, st1, st2, yes, no);
    LevelRun(code[1..], d, t, Step(code[0], st1), Step(code[0], st2));
  }

  /** Compiled over its own tile's address, a comparison is right in every state. */
  ghost predicate OwnTileWorks(op: MicroOp, d: Reg, t: Temps)
    requires IsCompare(op.op)
  {
    forall st: State :: Run(CompareCode(op, d, d, t), st).regs[d] == ComparedAt(op, st.mem, st.regs[d])
  }

  function TileReg(d: Reg, r: nat): Word { if r == d then WordOf(TILE) else ZEROS }

  function TileRegs(d: Reg): Regs { seq(31, r requires 0 <= r < 31 => TileReg(d, r)) }

  function TileState(d: Reg, w: Word): State { State(TileRegs(d), TileMemory(w), ZEROS, PlanesAt(TileMemory(w), ZEROS), TileRegs(d)) }

  lemma TileStates(d: Reg, t: Temps, yes: Word, no: Word)
    requires d !in Scratches(t)
    ensures AtTile(TileState(d, yes), TileState(d, no), d, t, yes, no)
    ensures TileState(d, yes).mem == TileMemory(yes) && TileState(d, yes).regs[d] == WordOf(TILE)
    ensures TileState(d, no).mem == TileMemory(no) && TileState(d, no).regs[d] == WordOf(TILE)
  {
    hide TileMemory, WordOf;
  }

  /** A comparison may overwrite its tile's address if and only if it looks at no lane. */
  lemma OwnTileExact(op: MicroOp, d: Reg, t: Temps)
    requires IsCompare(op.op) && Apart(d, d, t)
    ensures OwnTileWorks(op, d, t) <==> Blind(op)
  {
    if Blind(op) {
      forall st: State ensures Run(CompareCode(op, d, d, t), st).regs[d] == ComparedAt(op, st.mem, st.regs[d]) {
        hide CompareCode, Blind, ComparedAt, Run;
        RunBlindCompare(op, d, d, t, st);
      }
    } else {
      var st := OwnTileFails(op, d, t);
    }
  }

  lemma OwnTileFails(op: MicroOp, d: Reg, t: Temps) returns (st: State)
    requires IsCompare(op.op) && Apart(d, d, t) && !Blind(op)
    ensures Run(CompareCode(op, d, d, t), st).regs[d] != ComparedAt(op, st.mem, st.regs[d])
    ensures st.regs == TileRegs(d)
  {
    var yes, no := SeesLanes(op);
    hide CompareCode, Blind, ComparedAt, Run, TileMemory, WordOf, LaneTest, AtTile;
    TileStates(d, t, yes, no);
    SameOutcome(op, d, t, TileState(d, yes), TileState(d, no), yes, no);
    VerdictsDiffer(op, yes, no);
    st := TileState(d, yes);
    if Run(CompareCode(op, d, d, t), st).regs[d] == ComparedAt(op, st.mem, st.regs[d]) { st := TileState(d, no); }
  }
}
