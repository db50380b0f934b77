/** The unrolled comparison code computes, lane by lane, equality, signature
    inclusion, or unsigned order of the low bits. */
module Comparators {
  import opened Words
  import opened SimdTransposer
  import opened Machine
  import opened MicroOps
  import opened MicroOpCompiler

  /** Everything but the listed registers is as before. */
  ghost predicate Keeps(st: State, st': State, touched: set<Reg>) {
    && st'.mem == st.mem && st'.mask == st.mask && st'.dest == st.dest && st'.junk == st.junk
    && forall r: Reg :: r !in touched ==> st'.regs[r] == st.regs[r]
  }

  /** Scratch registers are apart from each other and from the operands. */
  predicate Apart(acc: Reg, tile: Reg, t: Temps) {
    && t.t0 !in {acc, tile} && t.t1 !in {acc, tile, t.t0}
    && t.t2 !in {acc, tile, t.t0, t.t1} && t.t3 !in {acc, tile, t.t0, t.t1, t.t2}
  }

  predicate Distinct(acc: Reg, tile: Reg, t: Temps) { acc != tile && Apart(acc, tile, t) }

  function Touched(acc: Reg, t: Temps): set<Reg> { {acc, t.t0, t.t1, t.t2, t.t3} }

  // ----- equality and signature tests, one bit after the other

  function MatchWord(op: Opcode, acc: Word, plane: Word, bit: bool): Word {
    if bit then And(acc, plane) else if op == CMP_KIM then acc else Bic(acc, plane)
  }

  function MatchFold(op: Opcode, acc: Word, planes: Matrix, imm: Word, bit: int): Word
    requires bit < 64
    decreases bit + 1
  {
    if bit < 0 then acc else MatchFold(op, MatchWord(op, acc, planes[bit], imm[bit]), planes, imm, bit - 1)
  }

  predicate BitOk(op: Opcode, lane: bool, bit: bool) {
    if bit then lane else op == CMP_KIM || !lane
  }

  lemma {:induction false} MatchFoldLanes(op: Opcode, acc: Word, planes: Matrix, imm: Word, bit: int, r: nat)
    requires bit < 64 && r < 64
    ensures MatchFold(op, acc, planes, imm, bit)[r] <==>
            acc[r] && forall b :: 0 <= b <= bit ==> BitOk(op, planes[b][r], imm[b])
    decreases bit + 1
  {
    if bit >= 0 {
      MatchFoldLanes(op, MatchWord(op, acc, planes[bit], imm[bit]), planes, imm, bit - 1, r);
    }
  }

  lemma RunMatchStep(op: Opcode, acc: Reg, t: Reg, bit: bool, st: State)
    ensures Run(MatchStep(op, acc, t, bit), st) == Set(st, acc, MatchWord(op, st.regs[acc], st.regs[t], bit))
  {
    if bit {
      RunOne(AndR(acc, acc, t), st);
    } else if op == CMP_KIM {
      assert st.regs[acc := st.regs[acc]] == st.regs;
    } else {
      RunOne(BicR(acc, acc, t), st);
    }
  }

  /** Two steps in a row; the plane registers are not the accumulator. */
  lemma RunTwo(a: seq<Instr>, b: seq<Instr>, st: State, mid: State, end: State)
    requires Run(a, st) == mid && Run(b, mid) == end
    ensures Run(a + b, st) == end
  {
    RunAppend(a, b, st);
  }

  function Plane(st: State, tile: Reg, bit: nat): Word
    requires bit < 64
  {
    PlanesAt(st.mem, st.regs[tile])[bit]
  }

  lemma RunLoad(t: Reg, tile: Reg, bit: nat, st: State)
    requires bit < 64
    ensures Run([Ldr(t, tile, bit * 8)], st) == Set(st, t, Plane(st, tile, bit))
  {
    RunOne(Ldr(t, tile, bit * 8), st);
    assert bit * 8 == 8 * bit;
  }

  /** Loading keeps later planes readable. */
  function LoadedFour(st: State, tile: Reg, t: Temps, bit: nat): State
    requires 3 <= bit < 64
  {
    Set(Set(Set(Set(st, t.t0, Plane(st, tile, bit)), t.t1, Plane(st, tile, bit - 1)),
            t.t2, Plane(st, tile, bit - 2)), t.t3, Plane(st, tile, bit - 3))
  }

  lemma RunFourLoads(acc: Reg, tile: Reg, t: Temps, bit: nat, st: State)
    requires 3 <= bit < 64 && Distinct(acc, tile, t)
    ensures Run([Ldr(t.t0, tile, bit * 8), Ldr(t.t1, tile, (bit - 1) * 8), Ldr(t.t2, tile, (bit - 2) * 8), Ldr(t.t3, tile, (bit - 3) * 8)], st)
            == LoadedFour(st, tile, t, bit)
  {
    var i0, i1, i2, i3 := Ldr(t.t0, tile, bit * 8), Ldr(t.t1, tile, (bit - 1) * 8), Ldr(t.t2, tile, (bit - 2) * 8), Ldr(t.t3, tile, (bit - 3) * 8);
    var s1 := Set(st, t.t0, Plane(st, tile, bit));
    var s2 := Set(s1, t.t1, Plane(st, tile, bit - 1));
    var s3 := Set(s2, t.t2, Plane(st, tile, bit - 2));
    RunLoad(t.t0, tile, bit, st);
    RunLoad(t.t1, tile, bit - 1, s1);
    RunLoad(t.t2, tile, bit - 2, s2);
    RunLoad(t.t3, tile, bit - 3, s3);
    hide *;
    RunTwo([i0], [i1], st, s1, s2);
    RunTwo([i0] + [i1], [i2], st, s2, s3);
    RunTwo([i0] + [i1] + [i2], [i3], st, s3, Run([i3], s3));
    assert [i0, i1, i2, i3] == [i0] + [i1] + [i2] + [i3];
  }

  /** The next step sees the accumulator the last one left. */
  lemma RunNextStep(op: Opcode, acc: Reg, t: Reg, bit: bool, st: State, w: Word)
    requires t != acc
    ensures Run(MatchStep(op, acc, t, bit), Set(st, acc, w)) == Set(st, acc, MatchWord(op, w, st.regs[t], bit))
  {
    RunMatchStep(op, acc, t, bit, Set(st, acc, w));
    var x := MatchWord(op, w, st.regs[t], bit);
    assert st.regs[acc := w][acc := x] == st.regs[acc := x];
  }

  function FoldFour(op: Opcode, acc: Word, planes: Matrix, imm: Word, bit: nat): Word
    requires 3 <= bit < 64
  {
    MatchWord(op, MatchWord(op, MatchWord(op, MatchWord(op, acc, planes[bit], imm[bit]),
      planes[bit - 1], imm[bit - 1]), planes[bit - 2], imm[bit - 2]), planes[bit - 3], imm[bit - 3])
  }

  lemma FoldFourSteps(op: Opcode, acc: Word, planes: Matrix, imm: Word, bit: nat)
    requires 3 <= bit < 64
    ensures MatchFold(op, acc, planes, imm, bit) == MatchFold(op, FoldFour(op, acc, planes, imm, bit), planes, imm, bit - 4)
  {
    hide MatchWord;
    var w1 := MatchWord(op, acc, planes[bit], imm[bit]);
    var w2 := MatchWord(op, w1, planes[bit - 1], imm[bit - 1]);
    var w3 := MatchWord(op, w2, planes[bit - 2], imm[bit - 2]);
    assert MatchFold(op, acc, planes, imm, bit) == MatchFold(op, w1, planes, imm, bit - 1);
    assert MatchFold(op, w1, planes, imm, bit - 1) == MatchFold(op, w2, planes, imm, bit - 2);
    assert MatchFold(op, w2, planes, imm, bit - 2) == MatchFold(op, w3, planes, imm, bit - 3);
  }

  lemma RunFourSteps(op: Opcode, acc: Reg, t: Temps, imm: Word, bit: nat, st: State, planes: Matrix)
    requires 3 <= bit < 64 && acc !in {t.t0, t.t1, t.t2, t.t3}
    requires st.regs[t.t0] == planes[bit] && st.regs[t.t1] == planes[bit - 1]
    requires st.regs[t.t2] == planes[bit - 2] && st.regs[t.t3] == planes[bit - 3]
    ensures Run(MatchStep(op, acc, t.t0, imm[bit]) + MatchStep(op, acc, t.t1, imm[bit - 1])
                + MatchStep(op, acc, t.t2, imm[bit - 2]) + MatchStep(op, acc, t.t3, imm[bit - 3]), st)
            == Set(st, acc, FoldFour(op, st.regs[acc], planes, imm, bit))
  {
    var c0, c1 := MatchStep(op, acc, t.t0, imm[bit]), MatchStep(op, acc, t.t1, imm[bit - 1]);
    var c2, c3 := MatchStep(op, acc, t.t2, imm[bit - 2]), MatchStep(op, acc, t.t3, imm[bit - 3]);
    var w1 := MatchWord(op, st.regs[acc], planes[bit], imm[bit]);
    var w2 := MatchWord(op, w1, planes[bit - 1], imm[bit - 1]);
    var w3 := MatchWord(op, w2, planes[bit - 2], imm[bit - 2]);
    var w4 := MatchWord(op, w3, planes[bit - 3], imm[bit - 3]);
    assert w4 == FoldFour(op, st.regs[acc], planes, imm, bit);
    hide *;
    RunMatchStep(op, acc, t.t0, imm[bit], st);
    RunNextStep(op, acc, t.t1, imm[bit - 1], st, w1);
    RunNextStep(op, acc, t.t2, imm[bit - 2], st, w2);
    RunNextStep(op, acc, t.t3, imm[bit - 3], st, w3);
    RunTwo(c0, c1, st, Set(st, acc, w1), Set(st, acc, w2));
    RunTwo(c0 + c1, c2, st, Set(st, acc, w2), Set(st, acc, w3));
    RunTwo(c0 + c1 + c2, c3, st, Set(st, acc, w3), Set(st, acc, w4));
  }

  /** Four unrolled bits: the accumulator is narrowed four times, only the
      scratch registers change besides. */
  lemma RunQuad(op: Opcode, acc: Reg, tile: Reg, t: Temps, imm: Word, bit: nat, st: State)
    requires 3 <= bit < 64 && Distinct(acc, tile, t)
    ensures var st' := Run(MatchQuad(op, acc, tile, t, imm, bit), st);
            && Keeps(st, st', Touched(acc, t))
            && st'.regs[acc] == FoldFour(op, st.regs[acc], PlanesAt(st.mem, st.regs[tile]), imm, bit)
  {
    var loads := [Ldr(t.t0, tile, bit * 8), Ldr(t.t1, tile, (bit - 1) * 8), Ldr(t.t2, tile, (bit - 2) * 8), Ldr(t.t3, tile, (bit - 3) * 8)];
    var steps := MatchStep(op, acc, t.t0, imm[bit]) + MatchStep(op, acc, t.t1, imm[bit - 1])
                 + MatchStep(op, acc, t.t2, imm[bit - 2]) + MatchStep(op, acc, t.t3, imm[bit - 3]);
    assert MatchQuad(op, acc, tile, t, imm, bit) == loads + steps;
    var planes := PlanesAt(st.mem, st.regs[tile]);
    hide MatchStep, MatchWord, FoldFour, Run, PlanesAt;
    RunFourLoads(acc, tile, t, bit, st);
    var loaded := LoadedFour(st, tile, t, bit);
    RunFourSteps(op, acc, t, imm, bit, loaded, planes);
    RunTwo(loads, steps, st, loaded, Set(loaded, acc, FoldFour(op, st.regs[acc], planes, imm, bit)));
    KeepsLoaded(st, acc, tile, t, bit, FoldFour(op, st.regs[acc], planes, imm, bit));
    hide *;
  }

  lemma KeepsLoaded(st: State, acc: Reg, tile: Reg, t: Temps, bit: nat, w: Word)
    requires 3 <= bit < 64
    ensures var st' := Set(LoadedFour(st, tile, t, bit), acc, w); Keeps(st, st', Touched(acc, t)) && st'.regs[acc] == w
  {
    hide Plane;
  }

  lemma RunSingle(op: Opcode, acc: Reg, tile: Reg, t: Temps, imm: Word, bit: nat, st: State)
    requires bit < 64 && Distinct(acc, tile, t)
    ensures var st' := Run(MatchOne(op, acc, tile, t, imm, bit), st);
            && Keeps(st, st', Touched(acc, t))
            && st'.regs[acc] == MatchWord(op, st.regs[acc], PlanesAt(st.mem, st.regs[tile])[bit], imm[bit])
  {
    var load, step := [Ldr(t.t0, tile, bit * 8)], MatchStep(op, acc, t.t0, imm[bit]);
    hide MatchStep, MatchWord, Run, PlanesAt;
    var loaded := Set(st, t.t0, Plane(st, tile, bit));
    RunLoad(t.t0, tile, bit, st);
    RunMatchStep(op, acc, t.t0, imm[bit], loaded);
    RunTwo(load, step, st, loaded, Run(step, loaded));
  }

  lemma KeepsTrans(a: State, b: State, c: State, touched: set<Reg>)
    requires Keeps(a, b, touched) && Keeps(b, c, touched)
    ensures Keeps(a, c, touched)
  {
  }

  lemma {:induction false} RunMatchCode(op: Opcode, acc: Reg, tile: Reg, t: Temps, imm: Word, bit: int, st: State)
    requires bit < 64 && Distinct(acc, tile, t)
    ensures var st' := Run(MatchCode(op, acc, tile, t, imm, bit), st);
            && Keeps(st, st', Touched(acc, t))
            && st'.regs[acc] == MatchFold(op, st.regs[acc], PlanesAt(st.mem, st.regs[tile]), imm, bit)
    decreases bit + 1
  {
    hide MatchQuad, MatchOne, MatchWord, FoldFour, PlanesAt, Step;
    var planes := PlanesAt(st.mem, st.regs[tile]);
    if bit >= 0 {
      var (first, left) := if bit >= 3 then (MatchQuad(op, acc, tile, t, imm, bit), bit - 4)
                           else (MatchOne(op, acc, tile, t, imm, bit), bit - 1);
      if bit >= 3 {
        RunQuad(op, acc, tile, t, imm, bit, st);
        FoldFourSteps(op, st.regs[acc], planes, imm, bit);
      } else {
        RunSingle(op, acc, tile, t, imm, bit, st);
      }
      var mid := Run(first, st);
      RunMatchCode(op, acc, tile, t, imm, left, mid);
      RunAppend(first, MatchCode(op, acc, tile, t, imm, left), st);
      KeepsTrans(st, mid, Run(MatchCode(op, acc, tile, t, imm, left), mid), Touched(acc, t));
    }
  }

  // ----- order tests: the result so far, and the lanes equal so far

  function OrderWord(op: Opcode, acc: Word, eq: Word, plane: Word, bit: bool): (Word, Word) {
    if op == CMP_GT then
      if bit then (acc, And(eq, plane)) else (Or(acc, And(eq, plane)), Bic(eq, plane))
    else
      if bit then (Or(acc, Bic(eq, plane)), And(eq, plane)) else (acc, Bic(eq, plane))
  }

  function OrderFold(op: Opcode, acc: Word, eq: Word, planes: Matrix, imm: Word, bit: int): (Word, Word)
    requires bit < 64
    decreases bit + 1
  {
    if bit < 0 then (acc, eq)
    else
      OrderFold(op, OrderWord(op, acc, eq, planes[bit], imm[bit]).0, OrderWord(op, acc, eq, planes[bit], imm[bit]).1,
                planes, imm, bit - 1)
  }

  function LaneBits(planes: Matrix, r: nat, n: nat): seq<bool>
    requires r < 64 && n <= 64
  {
    Transposed(planes)[r][..n]
  }

  predicate Ordered(op: Opcode, x: nat, y: nat) { if op == CMP_GT then x > y else x < y }

  lemma OrderWordLane(op: Opcode, acc: Word, eq: Word, plane: Word, bit: bool, r: nat)
    requires r < 64
    ensures OrderWord(op, acc, eq, plane, bit).1[r] == (eq[r] && plane[r] == bit)
    ensures OrderWord(op, acc, eq, plane, bit).0[r] ==
            (acc[r] || (eq[r] && plane[r] != bit && plane[r] == (op == CMP_GT)))
  {
  }

  /** Bit-serial comparison from the top bit down decides unsigned order. */
  lemma {:induction false} OrderFoldLanes(op: Opcode, acc: Word, eq: Word, planes: Matrix, imm: Word, bit: int, r: nat)
    requires -1 <= bit < 64 && r < 64
    ensures OrderFold(op, acc, eq, planes, imm, bit).0[r] <==>
            acc[r] || (eq[r] && Ordered(op, Value(LaneBits(planes, r, bit + 1)), Value(imm[..bit + 1])))
    decreases bit + 1
  {
    var lane := Transposed(planes)[r];
    if bit < 0 {
      assert LaneBits(planes, r, 0) == [] && imm[..0] == [];
    } else {
      var next := OrderWord(op, acc, eq, planes[bit], imm[bit]);
      OrderWordLane(op, acc, eq, planes[bit], imm[bit], r);
      OrderFoldLanes(op, next.0, next.1, planes, imm, bit - 1, r);
      assert lane[bit] == planes[bit][r];
      hide OrderWord, Transposed, Pow2, Value;
      ValueLow(lane, bit);
      ValueLow(imm, bit);
    }
  }

  lemma RunOrderStep(op: Opcode, acc: Reg, t: Temps, plane: Reg, bit: bool, st: State)
    requires acc !in {t.t0, t.t1, plane} && t.t0 != t.t1 && plane !in {t.t0, t.t1}
    ensures var st' := Run(OrderStep(op, acc, t, plane, bit), st);
            var (a, e) := OrderWord(op, st.regs[acc], st.regs[t.t0], st.regs[plane], bit);
            && Keeps(st, st', {acc, t.t0, t.t1})
            && st'.regs[acc] == a && st'.regs[t.t0] == e
  {
    var code := OrderStep(op, acc, t, plane, bit);
    if |code| == 1 {
      RunOne(code[0], st);
    } else {
      RunThree(code[0], code[1], code[2], st);
      assert code == [code[0], code[1], code[2]];
    }
  }

  lemma RunThree(a: Instr, b: Instr, c: Instr, st: State)
    ensures Run([a, b, c], st) == Step(c, Step(b, Step(a, st)))
  {
    hide Step;
    assert [a, b, c][1..] == [b, c] && [b, c][1..] == [c];
    assert Run([a, b, c], st) == Run([b, c], Step(a, st));
    assert Run([b, c], Step(a, st)) == Run([c], Step(b, Step(a, st)));
    RunOne(c, Step(b, Step(a, st)));
  }

  lemma RunTwoLoads(acc: Reg, tile: Reg, t: Temps, bit: nat, st: State)
    requires 1 <= bit < 64 && Distinct(acc, tile, t)
    ensures Run([Ldr(t.t2, tile, bit * 8), Ldr(t.t3, tile, (bit - 1) * 8)], st)
            == Set(Set(st, t.t2, Plane(st, tile, bit)), t.t3, Plane(st, tile, bit - 1))
  {
    var i0, i1 := Ldr(t.t2, tile, bit * 8), Ldr(t.t3, tile, (bit - 1) * 8);
    var s1 := Set(st, t.t2, Plane(st, tile, bit));
    RunLoad(t.t2, tile, bit, st);
    RunLoad(t.t3, tile, bit - 1, s1);
    hide *;
    RunTwo([i0], [i1], st, s1, Run([i1], s1));
    assert [i0, i1] == [i0] + [i1];
  }

  lemma RunPair(op: Opcode, acc: Reg, tile: Reg, t: Temps, imm: Word, bit: nat, st: State)
    requires 1 <= bit < 64 && Distinct(acc, tile, t)
    ensures var st', planes := Run(OrderPair(op, acc, tile, t, imm, bit), st), PlanesAt(st.mem, st.regs[tile]);
            var (a, e) := OrderWord(op, st.regs[acc], st.regs[t.t0], planes[bit], imm[bit]);
            && Keeps(st, st', Touched(acc, t))
            && (st'.regs[acc], st'.regs[t.t0]) == OrderWord(op, a, e, planes[bit - 1], imm[bit - 1])
  {
    var loads := [Ldr(t.t2, tile, bit * 8), Ldr(t.t3, tile, (bit - 1) * 8)];
    var s0, s1 := OrderStep(op, acc, t, t.t2, imm[bit]), OrderStep(op, acc, t, t.t3, imm[bit - 1]);
    hide OrderStep, OrderWord, Run, PlanesAt;
    var loaded := Set(Set(st, t.t2, Plane(st, tile, bit)), t.t3, Plane(st, tile, bit - 1));
    RunTwoLoads(acc, tile, t, bit, st);
    RunOrderStep(op, acc, t, t.t2, imm[bit], loaded);
    var mid := Run(s0, loaded);
    RunOrderStep(op, acc, t, t.t3, imm[bit - 1], mid);
    RunTwo(loads, s0, st, loaded, mid);
    RunTwo(loads + s0, s1, st, mid, Run(s1, mid));
  }

  lemma RunLast(op: Opcode, acc: Reg, tile: Reg, t: Temps, imm: Word, st: State)
    requires Distinct(acc, tile, t)
    ensures var st', planes := Run(OrderOne(op, acc, tile, t, imm), st), PlanesAt(st.mem, st.regs[tile]);
            && Keeps(st, st', Touched(acc, t))
            && (st'.regs[acc], st'.regs[t.t0]) == OrderWord(op, st.regs[acc], st.regs[t.t0], planes[0], imm[0])
  {
    var load, step := [Ldr(t.t2, tile, 0)], OrderStep(op, acc, t, t.t2, imm[0]);
    hide OrderStep, OrderWord, Run, PlanesAt;
    var loaded := Set(st, t.t2, Plane(st, tile, 0));
    RunLoad(t.t2, tile, 0, st);
    RunOrderStep(op, acc, t, t.t2, imm[0], loaded);
    RunTwo(load, step, st, loaded, Run(step, loaded));
  }

  lemma {:induction false} RunOrderCode(op: Opcode, acc: Reg, tile: Reg, t: Temps, imm: Word, bit: int, st: State)
    requires -1 <= bit < 64 && Distinct(acc, tile, t)
    ensures var st' := Run(OrderCode(op, acc, tile, t, imm, bit), st);
            && Keeps(st, st', Touched(acc, t))
            && (st'.regs[acc], st'.regs[t.t0])
               == OrderFold(op, st.regs[acc], st.regs[t.t0], PlanesAt(st.mem, st.regs[tile]), imm, bit)
    decreases bit + 1
  {
    hide OrderPair, OrderOne, OrderWord, PlanesAt, Step;
    if bit >= 1 {
      var first, rest := OrderPair(op, acc, tile, t, imm, bit), OrderCode(op, acc, tile, t, imm, bit - 2);
      RunPair(op, acc, tile, t, imm, bit, st);
      var mid := Run(first, st);
      RunOrderCode(op, acc, tile, t, imm, bit - 2, mid);
      RunAppend(first, rest, st);
      KeepsTrans(st, mid, Run(rest, mid), Touched(acc, t));
    } else if bit == 0 {
      RunLast(op, acc, tile, t, imm, st);
    }
  }

  // ----- the compiled comparison

  lemma EqualBits(lane: Word, imm: Word, n: nat)
    requires n <= 64
    ensures lane[..n] == imm[..n] <==> forall b :: 0 <= b <= n - 1 ==> lane[b] == imm[b]
  {
    if forall b :: 0 <= b <= n - 1 ==> lane[b] == imm[b] {
      assert lane[..n] == imm[..n];
    } else {
      var b :| 0 <= b <= n - 1 && lane[b] != imm[b];
      assert lane[..n][b] != imm[..n][b];
    }
  }

  /** The folds compute the meaning of the opcode in every lane. */
  lemma FoldIsCompared(op: Opcode, planes: Matrix, imm: Word, n: nat)
    requires IsCompare(op) && 1 <= n <= 64
    ensures op in {CMP_GT, CMP_LT} ==> OrderFold(op, ZEROS, ONES, planes, imm, n - 1).0 == Compared(op, planes, imm, n)
    ensures op !in {CMP_GT, CMP_LT} ==> MatchFold(op, ONES, planes, imm, n - 1) == Compared(op, planes, imm, n)
  {
    forall r | 0 <= r < 64
      ensures op in {CMP_GT, CMP_LT} ==> OrderFold(op, ZEROS, ONES, planes, imm, n - 1).0[r] == Compared(op, planes, imm, n)[r]
      ensures op !in {CMP_GT, CMP_LT} ==> MatchFold(op, ONES, planes, imm, n - 1)[r] == Compared(op, planes, imm, n)[r]
    {
      var lane := Transposed(planes)[r];
      assert forall b :: 0 <= b < 64 ==> lane[b] == planes[b][r];
      OrderFoldLanes(op, ZEROS, ONES, planes, imm, n - 1, r);
      MatchFoldLanes(op, ONES, planes, imm, n - 1, r);
      EqualBits(lane, imm, n);
      hide OrderFold, MatchFold, Transposed, Value;
      assert Compared(op, planes, imm, n)[r] == LaneTest(op, lane, imm, n);
    }
  }

  lemma RunMatchCompare(op: MicroOp, acc: Reg, tile: Reg, t: Temps, st: State, n: nat)
    requires 1 <= n <= 64 && Distinct(acc, tile, t)
    ensures var st' := Run([MovImm(acc, ONES)] + MatchCode(op.op, acc, tile, t, op.imm, n - 1), st);
            && Keeps(st, st', Touched(acc, t))
            && st'.regs[acc] == MatchFold(op.op, ONES, PlanesAt(st.mem, st.regs[tile]), op.imm, n - 1)
  {
    var i0, rest := MovImm(acc, ONES), MatchCode(op.op, acc, tile, t, op.imm, n - 1);
    var mid := Set(st, acc, ONES);
    RunOne(i0, st);
    hide MatchCode, MatchFold, PlanesAt, Run;
    RunMatchCode(op.op, acc, tile, t, op.imm, n - 1, mid);
    RunTwo([i0], rest, st, mid, Run(rest, mid));
  }

  lemma RunOrderCompare(op: MicroOp, acc: Reg, tile: Reg, t: Temps, st: State, n: nat)
    requires 1 <= n <= 64 && Distinct(acc, tile, t)
    ensures var st' := Run([MovImm(acc, ZEROS), MovImm(t.t0, ONES)] + OrderCode(op.op, acc, tile, t, op.imm, n - 1), st);
            && Keeps(st, st', Touched(acc, t))
            && st'.regs[acc] == OrderFold(op.op, ZEROS, ONES, PlanesAt(st.mem, st.regs[tile]), op.imm, n - 1).0
  {
    var i0, i1, rest := MovImm(acc, ZEROS), MovImm(t.t0, ONES), OrderCode(op.op, acc, tile, t, op.imm, n - 1);
    var mid := Set(Set(st, acc, ZEROS), t.t0, ONES);
    RunOne(i0, st);
    RunOne(i1, Set(st, acc, ZEROS));
    hide OrderCode, OrderFold, PlanesAt, Run;
    RunTwo([i0], [i1], st, Set(st, acc, ZEROS), mid);
    assert [i0] + [i1] == [i0, i1];
    RunOrderCode(op.op, acc, tile, t, op.imm, n - 1, mid);
    RunTwo([i0, i1], rest, st, mid, Run(rest, mid));
  }

  /** Compiled comparisons, including the remainder bits, set lane r exactly when
      the opcode's test holds of lane r, and touch nothing but their own registers. */
  lemma RunCompareCode(op: MicroOp, acc: Reg, tile: Reg, t: Temps, st: State)
    requires IsCompare(op.op) && Distinct(acc, tile, t)
    ensures var st' := Run(CompareCode(op, acc, tile, t), st);
            && Keeps(st, st', Touched(acc, t))
            && st'.regs[acc] == Compared(op.op, PlanesAt(st.mem, st.regs[tile]), op.imm, CompareBits(op.op, op.src2))
  {
    var n := CompareBits(op.op, op.src2);
    hide OrderCode, MatchCode, OrderFold, MatchFold, Compared, PlanesAt, Run, CompareBits, Keeps;
    FoldIsCompared(op.op, PlanesAt(st.mem, st.regs[tile]), op.imm, n);
    if op.op in {CMP_GT, CMP_LT} {
      RunOrderCompare(op, acc, tile, t, st, n);
    } else {
      RunMatchCompare(op, acc, tile, t, st, n);
    }
  }
}
