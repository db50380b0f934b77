/** From a list of predicates to micro-ops: which tiles to load, which
    comparisons to make, on how many bits, and how the masks are combined. */
module QueryPlanner {
  import opened Words
  import opened SimdTransposer
  import opened Storage
  import opened MemTables
  import opened AdaptiveIngester
  import opened Machine
  import opened MicroOps
  import opened MicroOpCompiler

  datatype Runner = Runner(
    code: seq<Instr>,
    preds: seq<Predicate>,
    stringPreds: seq<Predicate>,
    stringCols: seq<nat>,
    patterns: seq<Str>,
    aggIndex: Option<nat>,
    maxAggBit: nat,
    aggName: Str)

  const NO_COLUMN := "Physical column not found"
  const NO_STRING_COLUMN := "Column not found"
  const NO_PREDICATES := "No predicates specified in QueryPlanner"

  /** Every block has one tile per physical column. */
  predicate WellShaped(rg: RowGroup) {
    forall b :: 0 <= b < |rg.blocks| ==> |rg.blocks[b].columns| == |rg.columnNames|
  }

  // ----- columns

  /** A column is a string column when its signature column follows it. */
  predicate FollowedByKim(names: seq<Str>, i: nat)
    requires i < |names|
  {
    i + 1 < |names| && names[i + 1] == names[i] + KIM_SUFFIX
  }

  /** Number of string columns before the named one, scanning from index i. */
  function StringColumn(names: seq<Str>, name: Str, i: nat, count: nat): Option<nat>
    decreases |names| - i
  {
    if i >= |names| then None
    else if names[i] == name then Some(count)
    else if FollowedByKim(names, i) then StringColumn(names, name, i + 2, count + 1)
    else StringColumn(names, name, i + 1, count)
  }

  // ----- comparison widths

  ghost predicate PlaneActive(blocks: seq<Block>, p: nat, bit: nat)
    requires bit < 64 && forall b :: 0 <= b < |blocks| ==> p < |blocks[b].columns|
  {
    exists b :: 0 <= b < |blocks| && blocks[b].columns[p].planes[bit] != ZEROS
  }

  /** Highest plane below k that is not all zero, or 0. */
  ghost function HighestPlane(blocks: seq<Block>, p: nat, k: nat): nat
    requires k <= 64 && forall b :: 0 <= b < |blocks| ==> p < |blocks[b].columns|
  {
    if k == 0 then 0 else if PlaneActive(blocks, p, k - 1) then k - 1 else HighestPlane(blocks, p, k - 1)
  }

  lemma {:induction false} AboveHighest(blocks: seq<Block>, p: nat, k: nat)
    requires k <= 64 && forall b :: 0 <= b < |blocks| ==> p < |blocks[b].columns|
    ensures HighestPlane(blocks, p, k) < 64
    ensures forall bit, b :: HighestPlane(blocks, p, k) < bit < k && 0 <= b < |blocks| ==> blocks[b].columns[p].planes[bit] == ZEROS
  {
    if k > 0 && !PlaneActive(blocks, p, k - 1) {
      AboveHighest(blocks, p, k - 1);
    }
  }

  /** The highest plane is active, or no plane is and it is 0. */
  lemma {:induction false} HighestActive(blocks: seq<Block>, p: nat, k: nat)
    requires k <= 64 && forall b :: 0 <= b < |blocks| ==> p < |blocks[b].columns|
    ensures HighestPlane(blocks, p, k) == 0 || (HighestPlane(blocks, p, k) < k && PlaneActive(blocks, p, HighestPlane(blocks, p, k)))
  {
    if k > 0 && !PlaneActive(blocks, p, k - 1) { HighestActive(blocks, p, k - 1); }
  }

  method MaxBit(blocks: seq<Block>, p: nat) returns (maxBit: nat)
    requires forall b :: 0 <= b < |blocks| ==> p < |blocks[b].columns|
    ensures maxBit == HighestPlane(blocks, p, 64)
  {
    var bit := 64;
    while bit > 0
      invariant bit <= 64
      invariant HighestPlane(blocks, p, 64) == HighestPlane(blocks, p, bit)
    {
      bit := bit - 1;
      for b := 0 to |blocks|
        invariant forall i :: 0 <= i < b ==> blocks[i].columns[p].planes[bit] == ZEROS
      {
        if blocks[b].columns[p].planes[bit] != ZEROS { return bit; }
      }
    }
    return 0;
  }

  /** Index of the most significant set bit below k, or 0. */
  function TopBit(w: Word, k: nat): nat
    requires k <= 64
  {
    if k == 0 then 0 else if w[k - 1] then k - 1 else TopBit(w, k - 1)
  }

  function Max(a: int, b: int): int { if a > b then a else b }

  function NumCompareBits(maxBit: nat, target: u64): nat {
    Max(1, Max(maxBit, TopBit(WordOf(target), 64)) + 1)
  }

  // ----- what a predicate tests

  /** One comparison of one tile. */
  datatype TileTest = TileTest(op: Opcode, tile: nat, bits: nat, imm: Word)

  function SkeletonConstant(value: Str): Word { WordOf(SkeletonOf(DropLastPercent(value))) }

  function NumericOp(op: PredicateOp): Opcode {
    if op == GT then CMP_GT else if op == LT then CMP_LT else CMP_EQ
  }

  ghost function StringTests(pred: Predicate, skel: nat, kim: nat): seq<TileTest> {
    var pattern := CleanPattern(pred.op, pred.value);
    match pred.op
    case EQ => [TileTest(CMP_SKELETON, skel, Min(32, (|pattern| + 1) * 8), SkeletonConstant(pred.value)),
                TileTest(CMP_KIM, kim, 64, Signature(pred.value))]
    case LIKE_PREFIX => [TileTest(CMP_SKELETON, skel, Min(32, |pattern| * 8), SkeletonConstant(pred.value))]
    case LIKE_CONTAINS => [TileTest(CMP_KIM, kim, 64, Signature(pattern))]
    case GT => []
    case LT => []
  }

  ghost function NumericTest(blocks: seq<Block>, pred: Predicate, p: nat): TileTest
    requires forall b :: 0 <= b < |blocks| ==> p < |blocks[b].columns|
  {
    TileTest(NumericOp(pred.op), p, NumCompareBits(HighestPlane(blocks, p, 64), pred.number), WordOf(pred.number))
  }

  // ----- emitted ops

  function Load(v: int, p: nat): MicroOp { MicroOp(LOAD_TILE, v, -1, -1, WordOf(p)) }

  function Compare(v: int, src: int, t: TileTest): MicroOp { MicroOp(t.op, v, src, t.bits, t.imm) }

  function AndOp(v: int, a: int, b: int): MicroOp { MicroOp(BIT_AND, v, a, b, ZEROS) }

  /** Ops so far, the mask registers so far, and the next free virtual register. */
  datatype Emitted = Emitted(ops: seq<MicroOp>, masks: seq<int>, next: nat)

  ghost function EmitString(e: Emitted, pred: Predicate, skel: nat, kim: nat): Emitted {
    var tests, v := StringTests(pred, skel, kim), e.next;
    if pred.op == EQ then
      Emitted(e.ops + [Load(v, skel), Load(v + 1, kim), Compare(v + 2, v, tests[0]), Compare(v + 3, v + 1, tests[1]),
                       AndOp(v + 4, v + 2, v + 3)], e.masks + [v + 4], v + 5)
    else if pred.op == LIKE_PREFIX then
      Emitted(e.ops + [Load(v, skel), Compare(v + 1, v, tests[0])], e.masks + [v + 1], v + 2)
    else if pred.op == LIKE_CONTAINS then
      Emitted(e.ops + [Load(v, skel), Load(v + 1, kim), Compare(v + 2, v + 1, tests[0])], e.masks + [v + 2], v + 3)
    else
      Emitted(e.ops + [Load(v, skel)], e.masks, v + 1)
  }

  ghost function EmitNumeric(e: Emitted, t: TileTest): Emitted {
    Emitted(e.ops + [Load(e.next, t.tile), Compare(e.next + 1, e.next, t)], e.masks + [e.next + 1], e.next + 2)
  }

  ghost function EmitPredicate(rg: RowGroup, e: Emitted, pred: Predicate): Result<Emitted>
    requires WellShaped(rg)
  {
    var p := FirstIndex(rg.columnNames, pred.column);
    if p.None? then Err(NO_COLUMN)
    else if pred.isString then
      var kim := FirstIndex(rg.columnNames, pred.column + KIM_SUFFIX);
      if kim.None? then Err(NO_COLUMN)
      else if StringColumn(rg.columnNames, pred.column, 0, 0).None? then Err(NO_STRING_COLUMN)
      else Ok(EmitString(e, pred, p.value, kim.value))
    else Ok(EmitNumeric(e, NumericTest(rg.blocks, pred, p.value)))
  }

  const NOTHING_EMITTED := Emitted([], [], 0)

  ghost function EmitPredicates(rg: RowGroup, preds: seq<Predicate>, k: nat): Result<Emitted>
    requires WellShaped(rg) && k <= |preds|
  {
    if k == 0 then Ok(NOTHING_EMITTED)
    else match EmitPredicates(rg, preds, k - 1)
         case Err(reason) => Err(reason)
         case Ok(e) => EmitPredicate(rg, e, preds[k - 1])
  }

  /** Combining masks 1..i into one, left to right; (ops, register of the result, next). */
  function CombineMasks(e: Emitted, i: nat): (seq<MicroOp>, int, nat)
    requires 1 <= i <= |e.masks|
  {
    if i == 1 then (e.ops, e.masks[0], e.next)
    else
      var (ops, mask, next) := CombineMasks(e, i - 1);
      (ops + [AndOp(next, mask, e.masks[i - 1])], next, next + 1)
  }

  ghost function PlannedOps(rg: RowGroup, preds: seq<Predicate>): Result<seq<MicroOp>>
    requires WellShaped(rg)
  {
    match EmitPredicates(rg, preds, |preds|)
    case Err(reason) => Err(reason)
    case Ok(e) => if e.masks == [] then Err(NO_PREDICATES) else Ok(CombineMasks(e, |e.masks|).0)
  }

  function StringPredicates(preds: seq<Predicate>, k: nat): seq<Predicate>
    requires k <= |preds|
  {
    if k == 0 then [] else StringPredicates(preds, k - 1) + if preds[k - 1].isString then [preds[k - 1]] else []
  }

  function StringColumns(names: seq<Str>, sp: seq<Predicate>): seq<nat>
  {
    if sp == [] then []
    else StringColumns(names, sp[..|sp| - 1]) +
         (match StringColumn(names, sp[|sp| - 1].column, 0, 0) case Some(i) => [i] case None => [])
  }

  function Patterns(sp: seq<Predicate>): seq<Str> {
    if sp == [] then [] else Patterns(sp[..|sp| - 1]) + [CleanPattern(sp[|sp| - 1].op, sp[|sp| - 1].value)]
  }

  ghost function Planned(rg: RowGroup, preds: seq<Predicate>, agg: Str): Result<Runner>
    requires WellShaped(rg)
  {
    match PlannedOps(rg, preds)
    case Err(reason) => Err(reason)
    case Ok(ops) =>
      var p := FirstIndex(rg.columnNames, agg);
      if agg != [] && p.None? then Err(NO_COLUMN)
      else match CompiledFunction(ops)
           case Err(reason) => Err(reason)
           case Ok(code) =>
             var sp := StringPredicates(preds, |preds|);
             Ok(Runner(code, preds, sp, StringColumns(rg.columnNames, sp), Patterns(sp),
                       if agg == [] then None else p,
                       if agg == [] then 0 else HighestPlane(rg.blocks, p.value, 64), agg))
  }

  // ----- the planner as it runs

  method PlanString(e: Emitted, pred: Predicate, skel: nat, kim: nat) returns (e': Emitted)
    ensures e' == EmitString(e, pred, skel, kim)
  {
    hide Signature, SkeletonConstant;
    var pattern := CleanPattern(pred.op, pred.value);
    var v := e.next;
    if pred.op == EQ {
      var sig := GenerateKimSignature(pred.value);
      var t0 := TileTest(CMP_SKELETON, skel, Min(32, (|pattern| + 1) * 8), SkeletonConstant(pred.value));
      var t1 := TileTest(CMP_KIM, kim, 64, sig);
      e' := Emitted(e.ops + [Load(v, skel), Load(v + 1, kim), Compare(v + 2, v, t0), Compare(v + 3, v + 1, t1),
                             AndOp(v + 4, v + 2, v + 3)], e.masks + [v + 4], v + 5);
    } else if pred.op == LIKE_PREFIX {
      var t0 := TileTest(CMP_SKELETON, skel, Min(32, |pattern| * 8), SkeletonConstant(pred.value));
      e' := Emitted(e.ops + [Load(v, skel), Compare(v + 1, v, t0)], e.masks + [v + 1], v + 2);
    } else if pred.op == LIKE_CONTAINS {
      var sig := GenerateKimSignature(pattern);
      e' := Emitted(e.ops + [Load(v, skel), Load(v + 1, kim), Compare(v + 2, v + 1, TileTest(CMP_KIM, kim, 64, sig))],
                    e.masks + [v + 2], v + 3);
    } else {
      e' := Emitted(e.ops + [Load(v, skel)], e.masks, v + 1);
    }
  }

  method PlanNumeric(blocks: seq<Block>, e: Emitted, pred: Predicate, p: nat) returns (e': Emitted)
    requires forall b :: 0 <= b < |blocks| ==> p < |blocks[b].columns|
    ensures e' == EmitNumeric(e, NumericTest(blocks, pred, p))
  {
    var maxBit := MaxBit(blocks, p);
    var t := TileTest(NumericOp(pred.op), p, NumCompareBits(maxBit, pred.number), WordOf(pred.number));
    e' := Emitted(e.ops + [Load(e.next, p), Compare(e.next + 1, e.next, t)], e.masks + [e.next + 1], e.next + 2);
  }

  method PlanPredicate(rg: RowGroup, e: Emitted, pred: Predicate) returns (r: Result<Emitted>)
    requires WellShaped(rg)
    ensures r == EmitPredicate(rg, e, pred)
  {
    hide EmitString, EmitNumeric, NumericTest;
    var p := FirstIndex(rg.columnNames, pred.column);
    if p.None? { return Err(NO_COLUMN); }
    if pred.isString {
      var kim := FirstIndex(rg.columnNames, pred.column + KIM_SUFFIX);
      if kim.None? { return Err(NO_COLUMN); }
      if StringColumn(rg.columnNames, pred.column, 0, 0).None? { return Err(NO_STRING_COLUMN); }
      var e' := PlanString(e, pred, p.value, kim.value);
      return Ok(e');
    }
    var e' := PlanNumeric(rg.blocks, e, pred, p.value);
    return Ok(e');
  }

  lemma {:induction false} EmitFails(rg: RowGroup, preds: seq<Predicate>, k: nat, n: nat)
    requires WellShaped(rg) && k <= n <= |preds| && EmitPredicates(rg, preds, k).Err?
    ensures EmitPredicates(rg, preds, n) == EmitPredicates(rg, preds, k)
  {
    if k < n { EmitFails(rg, preds, k, n - 1); }
  }

  method PlanOps(rg: RowGroup, preds: seq<Predicate>) returns (r: Result<seq<MicroOp>>)
    requires WellShaped(rg)
    ensures r == PlannedOps(rg, preds)
  {
    hide EmitPredicate;
    var e := NOTHING_EMITTED;
    for k := 0 to |preds|
      invariant EmitPredicates(rg, preds, k) == Ok(e)
    {
      var next := PlanPredicate(rg, e, preds[k]);
      if next.Err? {
        EmitFails(rg, preds, k + 1, |preds|);
        return Err(next.reason);
      }
      e := next.value;
    }
    if e.masks == [] { return Err(NO_PREDICATES); }
    var ops, mask, next := e.ops, e.masks[0], e.next;
    for i := 1 to |e.masks|
      invariant CombineMasks(e, i) == (ops, mask, next)
    {
      ops := ops + [AndOp(next, mask, e.masks[i])];
      mask, next := next, next + 1;
    }
    return Ok(ops);
  }

  /** Bookkeeping for deferred string verification. */
  method CollectStrings(names: seq<Str>, preds: seq<Predicate>) returns (sp: seq<Predicate>, cols: seq<nat>, patterns: seq<Str>)
    requires forall k :: 0 <= k < |preds| && preds[k].isString ==> StringColumn(names, preds[k].column, 0, 0).Some?
    ensures sp == StringPredicates(preds, |preds|)
    ensures cols == StringColumns(names, sp) && patterns == Patterns(sp)
  {
    hide CleanPattern, StringColumn;
    sp, cols, patterns := [], [], [];
    for k := 0 to |preds|
      invariant sp == StringPredicates(preds, k)
      invariant cols == StringColumns(names, sp) && patterns == Patterns(sp)
    {
      if preds[k].isString {
        ghost var was := sp;
        sp := sp + [preds[k]];
        assert sp[..|sp| - 1] == was;
        cols := cols + [StringColumn(names, preds[k].column, 0, 0).value];
        patterns := patterns + [CleanPattern(preds[k].op, preds[k].value)];
      }
    }
  }

  lemma {:induction false} EmittedStringColumns(rg: RowGroup, preds: seq<Predicate>, n: nat)
    requires WellShaped(rg) && n <= |preds| && EmitPredicates(rg, preds, n).Ok?
    ensures forall k :: 0 <= k < n ==> FirstIndex(rg.columnNames, preds[k].column).Some?
    ensures forall k :: 0 <= k < n && preds[k].isString ==>
      && FirstIndex(rg.columnNames, preds[k].column + KIM_SUFFIX).Some?
      && StringColumn(rg.columnNames, preds[k].column, 0, 0).Some?
  {
    hide EmitString, EmitNumeric, NumericTest, StringColumn, FirstIndex;
    if n > 0 { EmittedStringColumns(rg, preds, n - 1); }
  }

  method Plan(preds: seq<Predicate>, rg: RowGroup, agg: Str) returns (r: Result<Runner>)
    requires WellShaped(rg)
    ensures r == Planned(rg, preds, agg)
  {
    hide EmitPredicates, CombineMasks, CompiledFunction, StringColumns, Patterns, StringPredicates, StringColumn;
    var ops := PlanOps(rg, preds);
    if ops.Err? { return Err(ops.reason); }
    var aggIndex, maxAggBit := None, 0;
    if agg != [] {
      var p := FirstIndex(rg.columnNames, agg);
      if p.None? { return Err(NO_COLUMN); }
      maxAggBit := MaxBit(rg.blocks, p.value);
      aggIndex := p;
    }
    var code := Compile(ops.value);
    if code.Err? { return Err(code.reason); }
    EmittedStringColumns(rg, preds, |preds|);
    var sp, cols, patterns := CollectStrings(rg.columnNames, preds);
    return Ok(Runner(code.value, preds, sp, cols, patterns, aggIndex, maxAggBit, agg));
  }
}
