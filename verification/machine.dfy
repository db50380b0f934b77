/** The part of AArch64 the scan compiler uses: 31 registers, word loads, and
    bitwise instructions. The stack slot of the delete mask and the buffer the
    transpose helper fills are separate components of the state. */
module Machine {
  import opened Words
  import opened SimdTransposer

  type Reg = r: nat | r < 31

  type Regs = r: seq<Word> | |r| == 31 witness seq(31, _ => ZEROS)

  type Memory = nat -> Word

  datatype Instr =
    | Mov(dst: Reg, src: Reg)
    | MovImm(dst: Reg, imm: Word)
    | Add(dst: Reg, a: Reg, b: Reg)
    | AndR(dst: Reg, a: Reg, b: Reg)
    | Orr(dst: Reg, a: Reg, b: Reg)
    | Eor(dst: Reg, a: Reg, b: Reg)
    | BicR(dst: Reg, a: Reg, b: Reg)
    | Ldr(dst: Reg, base: Reg, offset: nat)
    | PushMask(src: Reg)
    | LoadMask(dst: Reg)
    | CallTranspose

  /** `junk` is what a call leaves in the registers it need not preserve. */
  datatype State = State(regs: Regs, mem: Memory, mask: Word, dest: Matrix, junk: Regs)

  function Address(base: Word, offset: nat): nat { Wrap(Value(base) + offset) }

  /** The 64 planes stored at an address. */
  function PlanesAt(mem: Memory, base: Word): Matrix {
    seq(64, k requires 0 <= k < 64 => PlaneWordAt(mem, base, k))
  }

  function PlaneWordAt(mem: Memory, base: Word, k: nat): Word { mem(Address(base, 8 * k)) }

  /** x9..x15 are saved around the call, x19..x28 are kept by the callee. */
  predicate SurvivesCall(r: Reg) { 9 <= r <= 15 || 19 <= r <= 28 }

  function AfterCall(regs: Regs, junk: Regs): Regs {
    seq(31, r requires 0 <= r < 31 => if SurvivesCall(r) then regs[r] else junk[r])
  }

  function Set(st: State, r: Reg, w: Word): State { st.(regs := st.regs[r := w]) }

  function Step(i: Instr, st: State): State {
    match i
    case Mov(dst, src) => Set(st, dst, st.regs[src])
    case MovImm(dst, imm) => Set(st, dst, imm)
    case Add(dst, a, b) => Set(st, dst, WordOf(Wrap(Value(st.regs[a]) + Value(st.regs[b]))))
    case AndR(dst, a, b) => Set(st, dst, And(st.regs[a], st.regs[b]))
    case Orr(dst, a, b) => Set(st, dst, Or(st.regs[a], st.regs[b]))
    case Eor(dst, a, b) => Set(st, dst, Xor(st.regs[a], st.regs[b]))
    case BicR(dst, a, b) => Set(st, dst, Bic(st.regs[a], st.regs[b]))
    case Ldr(dst, base, offset) => Set(st, dst, st.mem(Address(st.regs[base], offset)))
    case PushMask(src) => st.(mask := st.regs[src])
    case LoadMask(dst) => Set(st, dst, st.mask)
    case CallTranspose => st.(regs := AfterCall(st.regs, st.junk), dest := Transposed(PlanesAt(st.mem, st.regs[0])))
  }

  function Run(code: seq<Instr>, st: State): State {
    if code == [] then st else Run(code[1..], Step(code[0], st))
  }

  lemma {:induction false} RunAppend(a: seq<Instr>, b: seq<Instr>, st: State)
    ensures Run(a + b, st) == Run(b, Run(a, st))
  {
    hide Step;
    if a == [] {
      assert a + b == b;
    } else {
      RunAppend(a[1..], b, Step(a[0], st));
      assert (a + b)[1..] == a[1..] + b;
    }
  }

  lemma RunOne(i: Instr, st: State)
    ensures Run([i], st) == Step(i, st)
  {
    assert [i][1..] == [];
  }
}
