/** Micro-ops: straight-line code over virtual registers, and what each opcode
    means. */
module MicroOps {
  import opened Words
  import opened SimdTransposer
  import opened Machine

  datatype Opcode =
    | LOAD_TILE | BIT_AND | BIT_OR | BIT_XOR | BIT_BIC
    | CMP_SKELETON | CMP_KIM | CMP_GT | CMP_LT | CMP_EQ
    | MATERIALIZE_SCALAR

  /** `src2` doubles as the number of bits a comparison looks at. */
  datatype MicroOp = MicroOp(op: Opcode, dest: int, src1: int, src2: int, imm: Word)

  predicate IsCompare(op: Opcode) { op in {CMP_SKELETON, CMP_KIM, CMP_GT, CMP_LT, CMP_EQ} }

  predicate IsBitwise(op: Opcode) { op in {BIT_AND, BIT_OR, BIT_XOR, BIT_BIC} }

  const TILE_BYTES: nat := 576

  /** Out-of-range widths mean the full width. */
  function CompareBits(op: Opcode, bits: int): (n: nat)
    ensures 1 <= n <= 64 && (op == CMP_SKELETON ==> n <= 32)
  {
    if op == CMP_SKELETON then (if 0 < bits <= 32 then bits else 32)
    else if 0 < bits <= 64 then bits else 64
  }

  /** A width from 1 up to the opcode's limit is taken as it is, any other means the limit. */
  lemma WidthsAre(op: Opcode, bits: int)
    ensures var limit := if op == CMP_SKELETON then 32 else 64;
            CompareBits(op, bits) == if 1 <= bits <= limit then bits else limit
  {
  }

  /** The comparison of one lane: unsigned order on the low n bits, equality of
      the low n bits, or inclusion of the signature bits. */
  predicate LaneTest(op: Opcode, lane: Word, imm: Word, n: nat)
    requires IsCompare(op) && n <= 64
  {
    match op
    case CMP_KIM => forall b :: 0 <= b < n && imm[b] ==> lane[b]
    case CMP_GT => Value(lane[..n]) > Value(imm[..n])
    case CMP_LT => Value(lane[..n]) < Value(imm[..n])
    case _ => lane[..n] == imm[..n]
  }

  function Compared(op: Opcode, planes: Matrix, imm: Word, n: nat): Word
    requires IsCompare(op) && n <= 64
  {
    seq(64, r requires 0 <= r < 64 => LaneTest(op, Transposed(planes)[r], imm, n))
  }

  function Bitwise(op: Opcode, x: Word, y: Word): Word
    requires IsBitwise(op)
  {
    match op
    case BIT_AND => And(x, y)
    case BIT_OR => Or(x, y)
    case BIT_XOR => Xor(x, y)
    case _ => Bic(x, y)
  }

  function TileAddress(base: Word, index: Word): Word {
    WordOf(Wrap(Value(base) + Wrap(Value(index) * TILE_BYTES)))
  }

  // ----- execution over virtual registers

  datatype Env = Env(vregs: map<int, Word>, dest: Matrix)

  predicate Defines(op: MicroOp) { op.op != MATERIALIZE_SCALAR }

  /** Sources are defined. */
  predicate Usable(op: MicroOp, defined: set<int>) {
    if op.op == LOAD_TILE then true
    else if op.op == MATERIALIZE_SCALAR then op.src1 in defined
    else if IsBitwise(op.op) then op.src1 in defined && op.src2 in defined
    else op.src1 in defined
  }

  /** The same verdict on all lanes: no signature bit, above all ones, or below zero. */
  predicate BlindBits(op: Opcode, imm: Word, n: nat)
    requires n <= 64
  {
    match op
    case CMP_KIM => forall b :: 0 <= b < n ==> !imm[b]
    case CMP_GT => forall b :: 0 <= b < n ==> imm[b]
    case CMP_LT => forall b :: 0 <= b < n ==> !imm[b]
    case _ => false
  }

  predicate Blind(op: MicroOp) { BlindBits(op.op, op.imm, CompareBits(op.op, op.src2)) }

  /** The op does not overwrite the address of a tile that it still reads. */
  predicate TileKept(op: MicroOp) { IsCompare(op.op) && op.dest == op.src1 ==> Blind(op) }

  predicate TilesKept(ops: seq<MicroOp>) { forall i :: 0 <= i < |ops| ==> TileKept(ops[i]) }

  function DefinedAfter(op: MicroOp, defined: set<int>): set<int> {
    if Defines(op) then defined + {op.dest} else defined
  }

  predicate DefinedBeforeUse(ops: seq<MicroOp>, defined: set<int>) {
    ops == [] || (Usable(ops[0], defined) && DefinedBeforeUse(ops[1..], DefinedAfter(ops[0], defined)))
  }

  function Exec(op: MicroOp, env: Env, base: Word, mem: Memory): Env
    requires Usable(op, env.vregs.Keys)
  {
    if op.op == LOAD_TILE then env.(vregs := env.vregs[op.dest := TileAddress(base, op.imm)])
    else if op.op == MATERIALIZE_SCALAR then env.(dest := Transposed(PlanesAt(mem, env.vregs[op.src1])))
    else if IsBitwise(op.op) then
      env.(vregs := env.vregs[op.dest := Bitwise(op.op, env.vregs[op.src1], env.vregs[op.src2])])
    else
      env.(vregs := env.vregs[op.dest :=
        Compared(op.op, PlanesAt(mem, env.vregs[op.src1]), op.imm, CompareBits(op.op, op.src2))])
  }

  function ExecAll(ops: seq<MicroOp>, env: Env, base: Word, mem: Memory): Env
    requires DefinedBeforeUse(ops, env.vregs.Keys)
    decreases |ops|
  {
    if ops == [] then env
    else
      assert Exec(ops[0], env, base, mem).vregs.Keys == DefinedAfter(ops[0], env.vregs.Keys);
      ExecAll(ops[1..], Exec(ops[0], env, base, mem), base, mem)
  }

  /** The ops of one scan: sources defined first, a result at the end. */
  predicate ScanOps(ops: seq<MicroOp>) {
    ops != [] && DefinedBeforeUse(ops, {}) && Defines(ops[|ops| - 1])
  }

  const NOTHING: map<int, Word> := map[]

  function ExecScan(ops: seq<MicroOp>, dest: Matrix, base: Word, mem: Memory): Env
    requires ScanOps(ops)
  {
    assert NOTHING.Keys == {};
    ExecAll(ops, Env(NOTHING, dest), base, mem)
  }

  lemma {:induction false} LastDefined(ops: seq<MicroOp>, env: Env, base: Word, mem: Memory)
    requires ops != [] && DefinedBeforeUse(ops, env.vregs.Keys) && Defines(ops[|ops| - 1])
    ensures ops[|ops| - 1].dest in ExecAll(ops, env, base, mem).vregs
    decreases |ops|
  {
    var next := Exec(ops[0], env, base, mem);
    assert next.vregs.Keys == DefinedAfter(ops[0], env.vregs.Keys);
    hide Exec;
    if |ops| > 1 {
      LastDefined(ops[1..], next, base, mem);
    }
  }

  /** The mask the ops compute: the value of the last one. */
  function ScanResult(ops: seq<MicroOp>, dest: Matrix, base: Word, mem: Memory): Word
    requires ScanOps(ops)
  {
    assert NOTHING.Keys == {};
    LastDefined(ops, Env(NOTHING, dest), base, mem);
    ExecScan(ops, dest, base, mem).vregs[ops[|ops| - 1].dest]
  }
}
