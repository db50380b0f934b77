/** Lowering micro-ops to machine code: first-come register allocation from a
    pool of fourteen, scratch registers picked among those not in use, and
    unrolled bit-serial comparisons. */
module MicroOpCompiler {
  import opened Words
  import opened Storage
  import opened Machine
  import opened MicroOps

  const POOL: seq<Reg> := [22, 23, 24, 25, 26, 27, 28, 9, 10, 11, 12, 13, 14, 15]

  predicate InPool(r: Reg) { 22 <= r <= 28 || 9 <= r <= 15 }

  lemma PoolDistinct(i: nat, j: nat)
    requires i < |POOL| && j < |POOL|
    ensures POOL[i] == POOL[j] ==> i == j
    ensures InPool(POOL[i])
  {
  }

  const OUT_OF_REGISTERS := "Out of physical GPR registers in JIT compiler"
  const OUT_OF_SCRATCH := "Out of scratch registers in JIT compiler"

  /** Which register each virtual register has, and how much of the pool is used. */
  datatype Alloc = Alloc(map_: map<int, Reg>, next: nat)

  const FRESH := Alloc(map[], 0)

  function GetReg(a: Alloc, v: int): Option<(Reg, Alloc)> {
    if v in a.map_ then Some((a.map_[v], a))
    else if a.next >= |POOL| then None
    else Some((POOL[a.next], Alloc(a.map_[v := POOL[a.next]], a.next + 1)))
  }

  /** First pool register that is neither mapped nor excluded. */
  function FirstFree(a: Alloc, exclude: set<Reg>, k: nat): Option<Reg>
    requires k <= |POOL|
    decreases |POOL| - k
  {
    if k == |POOL| then None
    else if POOL[k] !in a.map_.Values && POOL[k] !in exclude then Some(POOL[k])
    else FirstFree(a, exclude, k + 1)
  }

  function GetScratch(a: Alloc, exclude: set<Reg>): Option<Reg> { FirstFree(a, exclude, 0) }

  datatype Temps = Temps(t0: Reg, t1: Reg, t2: Reg, t3: Reg)

  function GetTemps(a: Alloc, acc: Reg, tile: Reg): Option<Temps> {
    match GetScratch(a, {acc, tile})
    case None => None
    case Some(t0) =>
      match GetScratch(a, {acc, tile, t0})
      case None => None
      case Some(t1) =>
        match GetScratch(a, {acc, tile, t0, t1})
        case None => None
        case Some(t2) =>
          match GetScratch(a, {acc, tile, t0, t1, t2})
          case None => None
          case Some(t3) => Some(Temps(t0, t1, t2, t3))
  }

  // ----- equality and signature tests: four planes at a time

  /** Narrow the mask by one plane, according to the immediate's bit. */
  function MatchStep(op: Opcode, acc: Reg, t: Reg, bit: bool): seq<Instr> {
    if bit then [AndR(acc, acc, t)]
    else if op == CMP_KIM then []
    else [BicR(acc, acc, t)]
  }

  function MatchQuad(op: Opcode, acc: Reg, tile: Reg, t: Temps, imm: Word, bit: int): seq<Instr>
    requires 3 <= bit < 64
  {
    [Ldr(t.t0, tile, bit * 8), Ldr(t.t1, tile, (bit - 1) * 8), Ldr(t.t2, tile, (bit - 2) * 8), Ldr(t.t3, tile, (bit - 3) * 8)]
    + MatchStep(op, acc, t.t0, imm[bit]) + MatchStep(op, acc, t.t1, imm[bit - 1])
    + MatchStep(op, acc, t.t2, imm[bit - 2]) + MatchStep(op, acc, t.t3, imm[bit - 3])
  }

  function MatchOne(op: Opcode, acc: Reg, tile: Reg, t: Temps, imm: Word, bit: int): seq<Instr>
    requires 0 <= bit < 64
  {
    [Ldr(t.t0, tile, bit * 8)] + MatchStep(op, acc, t.t0, imm[bit])
  }

  /** Planes bit down to 0, unrolled by four, then the remaining bits. */
  function MatchCode(op: Opcode, acc: Reg, tile: Reg, t: Temps, imm: Word, bit: int): seq<Instr>
    requires bit < 64
    decreases bit + 1
  {
    if bit >= 3 then MatchQuad(op, acc, tile, t, imm, bit) + MatchCode(op, acc, tile, t, imm, bit - 4)
    else if bit >= 0 then MatchOne(op, acc, tile, t, imm, bit) + MatchCode(op, acc, tile, t, imm, bit - 1)
    else []
  }

  // ----- order tests: two planes at a time, t0 holds the equal-so-far mask

  function OrderStep(op: Opcode, acc: Reg, t: Temps, plane: Reg, bit: bool): seq<Instr> {
    if op == CMP_GT then
      if bit then [AndR(t.t0, t.t0, plane)]
      else [AndR(t.t1, t.t0, plane), Orr(acc, acc, t.t1), BicR(t.t0, t.t0, plane)]
    else
      if bit then [BicR(t.t1, t.t0, plane), Orr(acc, acc, t.t1), AndR(t.t0, t.t0, plane)]
      else [BicR(t.t0, t.t0, plane)]
  }

  function OrderPair(op: Opcode, acc: Reg, tile: Reg, t: Temps, imm: Word, bit: int): seq<Instr>
    requires 1 <= bit < 64
  {
    [Ldr(t.t2, tile, bit * 8), Ldr(t.t3, tile, (bit - 1) * 8)]
    + OrderStep(op, acc, t, t.t2, imm[bit]) + OrderStep(op, acc, t, t.t3, imm[bit - 1])
  }

  function OrderOne(op: Opcode, acc: Reg, tile: Reg, t: Temps, imm: Word): seq<Instr> {
    [Ldr(t.t2, tile, 0)] + OrderStep(op, acc, t, t.t2, imm[0])
  }

  function OrderCode(op: Opcode, acc: Reg, tile: Reg, t: Temps, imm: Word, bit: int): seq<Instr>
    requires bit < 64
    decreases bit + 1
  {
    if bit >= 1 then OrderPair(op, acc, tile, t, imm, bit) + OrderCode(op, acc, tile, t, imm, bit - 2)
    else if bit == 0 then OrderOne(op, acc, tile, t, imm)
    else []
  }

  function CompareCode(op: MicroOp, acc: Reg, tile: Reg, t: Temps): seq<Instr>
    requires IsCompare(op.op)
  {
    if op.op == CMP_GT || op.op == CMP_LT then
      [MovImm(acc, ZEROS), MovImm(t.t0, ONES)] + OrderCode(op.op, acc, tile, t, op.imm, CompareBits(op.op, op.src2) - 1)
    else
      [MovImm(acc, ONES)] + MatchCode(op.op, acc, tile, t, op.imm, CompareBits(op.op, op.src2) - 1)
  }

  // ----- one op, a list of ops, and the whole function

  function TileOffset(index: Word): nat { Wrap(Value(index) * TILE_BYTES) }

  function LoadTileCode(r: Reg, index: Word): seq<Instr> {
    if TileOffset(index) == 0 then [Mov(r, 19)]
    else [MovImm(8, WordOf(TileOffset(index))), Add(r, 19, 8)]
  }

  function BitwiseCode(op: Opcode, d: Reg, a: Reg, b: Reg): seq<Instr>
    requires IsBitwise(op)
  {
    match op
    case BIT_AND => [AndR(d, a, b)]
    case BIT_OR => [Orr(d, a, b)]
    case BIT_XOR => [Eor(d, a, b)]
    case _ => [BicR(d, a, b)]
  }

  const MATERIALIZE_TAIL: seq<Instr> := [Mov(1, 21), CallTranspose]

  lemma Kinds(op: Opcode)
    ensures op == LOAD_TILE || op == MATERIALIZE_SCALAR || IsBitwise(op) || IsCompare(op)
  {
    match op {
      case LOAD_TILE => case BIT_AND => case BIT_OR => case BIT_XOR => case BIT_BIC => case CMP_SKELETON =>
      case CMP_KIM => case CMP_GT => case CMP_LT => case CMP_EQ => case MATERIALIZE_SCALAR =>
    }
  }

  function CompileOp(op: MicroOp, a: Alloc): Result<(seq<Instr>, Alloc)> {
    Kinds(op.op);
    if op.op == MATERIALIZE_SCALAR then
      match GetReg(a, op.src1)
      case None => Err(OUT_OF_REGISTERS)
      case Some((tile, a1)) => Ok(([Mov(0, tile)] + MATERIALIZE_TAIL, a1))
    else
      match GetReg(a, op.dest)
      case None => Err(OUT_OF_REGISTERS)
      case Some((d, a1)) =>
        if op.op == LOAD_TILE then Ok((LoadTileCode(d, op.imm), a1))
        else
          match GetReg(a1, op.src1)
          case None => Err(OUT_OF_REGISTERS)
          case Some((s1, a2)) =>
            if IsBitwise(op.op) then
              match GetReg(a2, op.src2)
              case None => Err(OUT_OF_REGISTERS)
              case Some((s2, a3)) => Ok((BitwiseCode(op.op, d, s1, s2), a3))
            else
              match GetTemps(a2, d, s1)
              case None => Err(OUT_OF_SCRATCH)
              case Some(t) => Ok((CompareCode(op, d, s1, t), a2))
  }

  function CompileOps(ops: seq<MicroOp>, a: Alloc): Result<(seq<Instr>, Alloc)> {
    if ops == [] then Ok(([], a))
    else
      match CompileOp(ops[0], a)
      case Err(e) => Err(e)
      case Ok((code, a1)) =>
        match CompileOps(ops[1..], a1)
        case Err(e) => Err(e)
        case Ok((rest, a2)) => Ok((code + rest, a2))
  }

  const PROLOGUE: seq<Instr> := [PushMask(3), Mov(19, 0), Mov(20, 1), Mov(21, 2)]

  function Epilogue(result: Reg): seq<Instr> { [LoadMask(8), AndR(0, result, 8)] }

  function CompiledFunction(ops: seq<MicroOp>): Result<seq<Instr>> {
    match CompileOps(ops, FRESH)
    case Err(e) => Err(e)
    case Ok((body, a)) =>
      if ops == [] then Ok(PROLOGUE + body + [MovImm(0, ZEROS)])
      else
        match GetReg(a, ops[|ops| - 1].dest)
        case None => Err(OUT_OF_REGISTERS)
        case Some((r, _)) => Ok(PROLOGUE + body + Epilogue(r))
  }

  // ----- the compiler as it runs: the register map grows in place

  class RegisterMap {
    var regMap: map<int, Reg>
    var nextGp: nat

    function State(): Alloc
      reads this
    {
      Alloc(regMap, nextGp)
    }

    constructor ()
      ensures State() == FRESH
    {
      regMap, nextGp := map[], 0;
    }

    method Get(v: int) returns (r: Option<Reg>)
      modifies this
      ensures match GetReg(old(State()), v)
              case None => r == None && State() == old(State())
              case Some((reg, a)) => r == Some(reg) && State() == a
    {
      if v !in regMap {
        if nextGp >= |POOL| { return None; }
        regMap := regMap[v := POOL[nextGp]];
        nextGp := nextGp + 1;
      }
      return Some(regMap[v]);
    }

    method Scratch(exclude: set<Reg>) returns (r: Option<Reg>)
      ensures r == GetScratch(State(), exclude)
    {
      for k := 0 to |POOL|
        invariant GetScratch(State(), exclude) == FirstFree(State(), exclude, k)
      {
        var inUse := POOL[k] in regMap.Values || POOL[k] in exclude;
        if !inUse { return Some(POOL[k]); }
      }
      return None;
    }
  }

  method ScratchRegisters(regs: RegisterMap, acc: Reg, tile: Reg) returns (t: Option<Temps>)
    ensures t == GetTemps(regs.State(), acc, tile)
  {
    hide GetScratch;
    var t0 := regs.Scratch({acc, tile});
    if t0.None? { return None; }
    var t1 := regs.Scratch({acc, tile, t0.value});
    if t1.None? { return None; }
    var t2 := regs.Scratch({acc, tile, t0.value, t1.value});
    if t2.None? { return None; }
    var t3 := regs.Scratch({acc, tile, t0.value, t1.value, t2.value});
    if t3.None? { return None; }
    return Some(Temps(t0.value, t1.value, t2.value, t3.value));
  }

  lemma Regroup(a: seq<Instr>, b: seq<Instr>, c: seq<Instr>)
    ensures (a + b) + c == a + (b + c)
  {
  }

  method EmitMatch(op: Opcode, acc: Reg, tile: Reg, t: Temps, imm: Word, bits: nat) returns (code: seq<Instr>)
    requires 1 <= bits <= 64
    ensures code == MatchCode(op, acc, tile, t, imm, bits - 1)
  {
    hide MatchQuad, MatchOne;
    code := [];
    var bit := bits - 1;
    while bit >= 3
      invariant -1 <= bit < 64
      invariant code + MatchCode(op, acc, tile, t, imm, bit) == MatchCode(op, acc, tile, t, imm, bits - 1)
    {
      Regroup(code, MatchQuad(op, acc, tile, t, imm, bit), MatchCode(op, acc, tile, t, imm, bit - 4));
      code := code + MatchQuad(op, acc, tile, t, imm, bit);
      bit := bit - 4;
    }
    while bit >= 0
      invariant -1 <= bit < 3
      invariant code + MatchCode(op, acc, tile, t, imm, bit) == MatchCode(op, acc, tile, t, imm, bits - 1)
    {
      Regroup(code, MatchOne(op, acc, tile, t, imm, bit), MatchCode(op, acc, tile, t, imm, bit - 1));
      code := code + MatchOne(op, acc, tile, t, imm, bit);
      bit := bit - 1;
    }
  }

  method EmitOrder(op: Opcode, acc: Reg, tile: Reg, t: Temps, imm: Word, bits: nat) returns (code: seq<Instr>)
    requires 1 <= bits <= 64
    ensures code == OrderCode(op, acc, tile, t, imm, bits - 1)
  {
    hide OrderPair, OrderOne;
    code := [];
    var bit := bits - 1;
    while bit >= 1
      invariant -1 <= bit < 64
      invariant code + OrderCode(op, acc, tile, t, imm, bit) == OrderCode(op, acc, tile, t, imm, bits - 1)
    {
      Regroup(code, OrderPair(op, acc, tile, t, imm, bit), OrderCode(op, acc, tile, t, imm, bit - 2));
      code := code + OrderPair(op, acc, tile, t, imm, bit);
      bit := bit - 2;
    }
    if bit == 0 {
      code := code + OrderOne(op, acc, tile, t, imm);
    }
  }

  method EmitOp(op: MicroOp, regs: RegisterMap) returns (r: Result<seq<Instr>>)
    modifies regs
    ensures match CompileOp(op, old(regs.State()))
            case Err(e) => r == Err(e)
            case Ok((code, a)) => r == Ok(code) && regs.State() == a
  {
    hide GetReg, GetTemps, CompareCode, BitwiseCode, LoadTileCode;
    if op.op == MATERIALIZE_SCALAR {
      var tile := regs.Get(op.src1);
      if tile.None? { return Err(OUT_OF_REGISTERS); }
      return Ok([Mov(0, tile.value)] + MATERIALIZE_TAIL);
    }
    var d := regs.Get(op.dest);
    if d.None? { return Err(OUT_OF_REGISTERS); }
    if op.op == LOAD_TILE { return Ok(LoadTileCode(d.value, op.imm)); }
    var s1 := regs.Get(op.src1);
    if s1.None? { return Err(OUT_OF_REGISTERS); }
    if IsBitwise(op.op) {
      var s2 := regs.Get(op.src2);
      if s2.None? { return Err(OUT_OF_REGISTERS); }
      return Ok(BitwiseCode(op.op, d.value, s1.value, s2.value));
    }
    var t := ScratchRegisters(regs, d.value, s1.value);
    if t.None? { return Err(OUT_OF_SCRATCH); }
    Kinds(op.op);
    var code := EmitCompare(op, d.value, s1.value, t.value);
    return Ok(code);
  }

  method EmitCompare(op: MicroOp, acc: Reg, tile: Reg, t: Temps) returns (code: seq<Instr>)
    requires IsCompare(op.op)
    ensures code == CompareCode(op, acc, tile, t)
  {
    hide OrderCode, MatchCode;
    var bits := CompareBits(op.op, op.src2);
    if op.op == CMP_GT || op.op == CMP_LT {
      var body := EmitOrder(op.op, acc, tile, t, op.imm, bits);
      code := [MovImm(acc, ZEROS), MovImm(t.t0, ONES)] + body;
    } else {
      var body := EmitMatch(op.op, acc, tile, t, op.imm, bits);
      code := [MovImm(acc, ONES)] + body;
    }
  }

  /** Compiling one more op after a list. */
  function ThenCompile(r: Result<(seq<Instr>, Alloc)>, op: MicroOp): Result<(seq<Instr>, Alloc)> {
    match r
    case Err(e) => Err(e)
    case Ok((code, a)) =>
      match CompileOp(op, a)
      case Err(e) => Err(e)
      case Ok((more, a1)) => Ok((code + more, a1))
  }

  lemma {:induction false} CompileOpsAppend(done: seq<MicroOp>, op: MicroOp, a: Alloc)
    ensures CompileOps(done + [op], a) == ThenCompile(CompileOps(done, a), op)
  {
    hide CompileOp;
    if done == [] {
      assert done + [op] == [op];
      assert CompileOps([op][1..], a) == Ok(([], a));
      match CompileOp(op, a) {
        case Err(_) =>
        case Ok((more, a1)) => assert more + [] == more && [] + more == more;
      }
    } else {
      assert (done + [op])[1..] == done[1..] + [op];
      match CompileOp(done[0], a) {
        case Err(_) =>
        case Ok((code, a1)) =>
          CompileOpsAppend(done[1..], op, a1);
          match CompileOps(done[1..], a1) {
            case Err(_) =>
            case Ok((rest, a2)) =>
              match CompileOp(op, a2) {
                case Err(_) =>
                case Ok((more, _)) => Regroup(code, rest, more);
              }
          }
      }
    }
  }

  lemma {:induction false} CompileOpsFails(done: seq<MicroOp>, rest: seq<MicroOp>, a: Alloc)
    requires CompileOps(done, a).Err?
    ensures CompileOps(done + rest, a) == CompileOps(done, a)
  {
    hide CompileOp;
    if done != [] {
      assert (done + rest)[1..] == done[1..] + rest;
      match CompileOp(done[0], a) {
        case Err(_) =>
        case Ok((code, a1)) => CompileOpsFails(done[1..], rest, a1);
      }
    }
  }

  lemma SplitOps(ops: seq<MicroOp>, k: nat)
    requires k < |ops|
    ensures ops[..k] + [ops[k]] == ops[..k + 1]
    ensures ops[..k + 1] + ops[k + 1..] == ops
  {
  }

  method Compile(ops: seq<MicroOp>) returns (r: Result<seq<Instr>>)
    ensures r == CompiledFunction(ops)
  {
    hide CompileOp;
    var regs := new RegisterMap();
    var body: seq<Instr> := [];
    for k := 0 to |ops|
      invariant fresh(regs)
      invariant CompileOps(ops[..k], FRESH) == Ok((body, regs.State()))
    {
      SplitOps(ops, k);
      CompileOpsAppend(ops[..k], ops[k], FRESH);
      var code := EmitOp(ops[k], regs);
      if code.Err? {
        CompileOpsFails(ops[..k + 1], ops[k + 1..], FRESH);
        return Err(code.reason);
      }
      body := body + code.value;
    }
    assert ops[..|ops|] == ops;
    if ops == [] {
      return Ok(PROLOGUE + body + [MovImm(0, ZEROS)]);
    }
    var res := regs.Get(ops[|ops| - 1].dest);
    if res.None? { return Err(OUT_OF_REGISTERS); }
    return Ok(PROLOGUE + body + Epilogue(res.value));
  }
}
