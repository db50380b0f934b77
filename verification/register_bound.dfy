/** Exactly which planned queries fit the register pool. */
module RegisterBound {
  import opened Words
  import opened Storage
  import opened MemTables
  import opened AdaptiveIngester
  import opened Machine
  import opened MicroOps
  import opened MicroOpCompiler
  import opened QueryPlanner
  import opened PlanMeaning

  // ----- the allocator on ops that define registers in order

  /** Virtual registers 0..v-1 hold the first v registers of the pool. */
  function InOrderAlloc(v: nat): Alloc
    requires v <= |POOL|
  {
    Alloc(map i: int | 0 <= i < v :: POOL[i], v)
  }

  /** Op number i defines register i from earlier ones. */
  predicate DefinesInOrder(op: MicroOp, i: nat) {
    && op.dest == i && op.op != MATERIALIZE_SCALAR
    && (op.op != LOAD_TILE ==> 0 <= op.src1 < i)
    && (IsBitwise(op.op) ==> 0 <= op.src2 < i)
  }

  predicate InOrder(ops: seq<MicroOp>) { forall i :: 0 <= i < |ops| ==> DefinesInOrder(ops[i], i) }

  lemma InUse(v: nat, k: nat)
    requires v <= |POOL| && k < |POOL|
    ensures POOL[k] in InOrderAlloc(v).map_.Values <==> k < v
  {
    var m := InOrderAlloc(v).map_;
    if k < v {
      assert m[k] == POOL[k];
    } else if POOL[k] in m.Values {
      var i :| i in m && m[i] == POOL[k];
      PoolDistinct(i, k);
    }
  }

  lemma GetNew(v: nat)
    requires v <= |POOL|
    ensures v < |POOL| ==> GetReg(InOrderAlloc(v), v) == Some((POOL[v], InOrderAlloc(v + 1)))
    ensures v == |POOL| ==> GetReg(InOrderAlloc(v), v) == None
  {
    if v < |POOL| {
      assert InOrderAlloc(v).map_[v as int := POOL[v]] == InOrderAlloc(v + 1).map_;
    }
  }

  lemma GetOld(v: nat, i: int)
    requires 0 <= i < v <= |POOL|
    ensures GetReg(InOrderAlloc(v), i) == Some((POOL[i], InOrderAlloc(v)))
  {
  }

  /** Registers v..j-1 excluded: the first free one is number j. */
  lemma {:induction false} FreeAt(v: nat, exclude: set<Reg>, j: nat, k: nat)
    requires v <= j <= |POOL| && k <= j
    requires forall i :: v <= i < j ==> POOL[i] in exclude
    requires forall i :: j <= i < |POOL| ==> POOL[i] !in exclude
    ensures FirstFree(InOrderAlloc(v), exclude, k) == if j < |POOL| then Some(POOL[j]) else None
    decreases j - k
  {
    if k < |POOL| { InUse(v, k); }
    hide InOrderAlloc;
    if k < j { FreeAt(v, exclude, j, k + 1); }
  }

  /** The exclusion list while picking scratch register number j - v. */
  function Excluded(v: nat, acc: nat, tile: nat, j: nat): set<Reg>
    requires acc < v && tile < v <= j <= |POOL|
  {
    set i | (i == acc || i == tile || v <= i < j) && 0 <= i < |POOL| :: POOL[i]
  }

  lemma ScratchAt(v: nat, acc: nat, tile: nat, j: nat)
    requires acc < v && tile < v <= j <= |POOL|
    ensures GetScratch(InOrderAlloc(v), Excluded(v, acc, tile, j)) == if j < |POOL| then Some(POOL[j]) else None
  {
    var e := Excluded(v, acc, tile, j);
    forall i | j <= i < |POOL| ensures POOL[i] !in e {
      if POOL[i] in e {
        var k :| (k == acc || k == tile || v <= k < j) && 0 <= k < |POOL| && POOL[i] == POOL[k];
        PoolDistinct(k, i);
      }
    }
    FreeAt(v, e, j, 0);
  }

  lemma ExcludeTwo(v: nat, acc: nat, tile: nat)
    requires acc < v && tile < v <= |POOL|
    ensures Excluded(v, acc, tile, v) == {POOL[acc], POOL[tile]}
  {
  }

  lemma ExcludeMore(v: nat, acc: nat, tile: nat, j: nat)
    requires acc < v && tile < v <= j < |POOL|
    ensures Excluded(v, acc, tile, j + 1) == Excluded(v, acc, tile, j) + {POOL[j]}
  {
  }

  lemma Joined(x: Reg, y: Reg, a: Reg, b: Reg, c: Reg)
    ensures {x, y} + {a} == {x, y, a}
    ensures {x, y, a} + {b} == {x, y, a, b}
    ensures {x, y, a, b} + {c} == {x, y, a, b, c}
  {
  }

  /** The first, second, third and fourth exclusion lists. */
  lemma ExclusionLists(v: nat, acc: nat, tile: nat)
    requires acc < v && tile < v <= |POOL|
    ensures Excluded(v, acc, tile, v) == {POOL[acc], POOL[tile]}
    ensures v < |POOL| ==> Excluded(v, acc, tile, v + 1) == {POOL[acc], POOL[tile], POOL[v]}
    ensures v + 1 < |POOL| ==> Excluded(v, acc, tile, v + 2) == {POOL[acc], POOL[tile], POOL[v], POOL[v + 1]}
    ensures v + 2 < |POOL| ==> Excluded(v, acc, tile, v + 3) == {POOL[acc], POOL[tile], POOL[v], POOL[v + 1], POOL[v + 2]}
  {
    hide Excluded;
    var x, y := POOL[acc], POOL[tile];
    ExcludeTwo(v, acc, tile);
    if v < |POOL| {
      ExcludeMore(v, acc, tile, v);
      Joined(x, y, POOL[v], POOL[v], POOL[v]);
      if v + 1 < |POOL| {
        ExcludeMore(v, acc, tile, v + 1);
        Joined(x, y, POOL[v], POOL[v + 1], POOL[v]);
        if v + 2 < |POOL| {
          ExcludeMore(v, acc, tile, v + 2);
          Joined(x, y, POOL[v], POOL[v + 1], POOL[v + 2]);
        }
      }
    }
  }

  /** Four scratch registers exist exactly when at most ten registers are mapped. */
  lemma TempsAt(v: nat, acc: nat, tile: nat)
    requires acc < v && tile < v <= |POOL|
    ensures GetTemps(InOrderAlloc(v), POOL[acc], POOL[tile]).Some? <==> v + 4 <= |POOL|
  {
    hide GetScratch, InOrderAlloc, Excluded;
    ExclusionLists(v, acc, tile);
    ScratchAt(v, acc, tile, v);
    if v < |POOL| { ScratchAt(v, acc, tile, v + 1); }
    if v + 1 < |POOL| { ScratchAt(v, acc, tile, v + 2); }
    if v + 2 < |POOL| { ScratchAt(v, acc, tile, v + 3); }
  }

  /** Op number i fits: a register is left, and a comparison finds four more. */
  predicate FitsPool(op: MicroOp, i: nat) { i < |POOL| && (IsCompare(op.op) ==> i + 1 <= 10) }

  lemma CompileInOrder(op: MicroOp, i: nat)
    requires i <= |POOL| && DefinesInOrder(op, i)
    ensures CompileOp(op, InOrderAlloc(i)).Ok? <==> FitsPool(op, i)
    ensures CompileOp(op, InOrderAlloc(i)).Ok? ==> CompileOp(op, InOrderAlloc(i)).value.1 == InOrderAlloc(i + 1)
  {
    Kinds(op.op);
    hide GetReg, GetTemps, InOrderAlloc, CompareCode, BitwiseCode, LoadTileCode;
    GetNew(i);
    if i < |POOL| && op.op != LOAD_TILE {
      GetOld(i + 1, op.src1);
      if IsBitwise(op.op) { GetOld(i + 1, op.src2); } else { TempsAt(i + 1, i, op.src1); }
    }
  }

  predicate AllFit(ops: seq<MicroOp>, k: nat)
    requires k <= |ops|
  {
    forall i :: 0 <= i < k ==> FitsPool(ops[i], i)
  }

  lemma AllFitNext(ops: seq<MicroOp>, k: nat)
    requires 0 < k <= |ops|
    ensures AllFit(ops, k) <==> AllFit(ops, k - 1) && FitsPool(ops[k - 1], k - 1)
    ensures FitsPool(ops[k - 1], k - 1) ==> k <= |POOL|
  {
  }

  lemma {:induction false} CompilePrefix(ops: seq<MicroOp>, k: nat)
    requires InOrder(ops) && k <= |ops|
    ensures CompileOps(ops[..k], FRESH).Ok? <==> AllFit(ops, k)
    ensures AllFit(ops, k) ==> k <= |POOL| && CompileOps(ops[..k], FRESH).value.1 == InOrderAlloc(k)
  {
    hide *;
    if k == 0 {
      NothingCompiled(ops);
    } else {
      DefinedAt(ops, k - 1);
      AllFitNext(ops, k);
      CompilePrefix(ops, k - 1);
      SplitOps(ops, k - 1);
      CompileOpsAppend(ops[..k - 1], ops[k - 1], FRESH);
      ThenCompiles(CompileOps(ops[..k - 1], FRESH), ops[k - 1]);
      if AllFit(ops, k - 1) { CompileInOrder(ops[k - 1], k - 1); }
    }
  }

  lemma NothingCompiled(ops: seq<MicroOp>)
    ensures CompileOps(ops[..0], FRESH) == Ok(([], InOrderAlloc(0))) && AllFit(ops, 0)
  {
    assert FRESH == InOrderAlloc(0);
  }

  lemma DefinedAt(ops: seq<MicroOp>, i: nat)
    requires InOrder(ops) && i < |ops|
    ensures DefinesInOrder(ops[i], i)
  {
  }

  lemma ThenCompiles(r: Result<(seq<Instr>, Alloc)>, op: MicroOp)
    ensures r.Err? ==> ThenCompile(r, op).Err?
    ensures r.Ok? ==> (ThenCompile(r, op).Ok? <==> CompileOp(op, r.value.1).Ok?)
    ensures r.Ok? && CompileOp(op, r.value.1).Ok? ==> ThenCompile(r, op).value.1 == CompileOp(op, r.value.1).value.1
  {
    hide CompileOp;
  }

  /** Compilation succeeds exactly when there are at most fourteen ops and no
      comparison comes after the tenth. */
  lemma CompilesExactly(ops: seq<MicroOp>)
    requires InOrder(ops)
    ensures CompiledFunction(ops).Ok? <==> AllFit(ops, |ops|)
  {
    CompilePrefix(ops, |ops|);
    assert ops[..|ops|] == ops;
    if ops != [] && AllFit(ops, |ops|) {
      assert DefinesInOrder(ops[|ops| - 1], |ops| - 1);
      GetOld(|ops|, |ops| - 1);
    }
    hide CompileOps, GetReg, InOrderAlloc;
  }

  // ----- planned queries

  /** Registers a predicate takes. */
  function Cost(pred: Predicate): nat {
    if pred.isString && pred.op == EQ then 5 else if pred.isString && pred.op == LIKE_CONTAINS then 3 else 2
  }

  function TotalCost(preds: seq<Predicate>, k: nat): nat
    requires k <= |preds|
  {
    if k == 0 then 0 else TotalCost(preds, k - 1) + Cost(preds[k - 1])
  }

  /** Registers mapped when the last comparison of the first k predicates is compiled;
      a string equality ends with an AND after its comparisons. */
  function MappedAtLast(preds: seq<Predicate>, k: nat): nat
    requires k <= |preds|
  {
    if k == 0 then 0 else TotalCost(preds, k) - (if preds[k - 1].isString && preds[k - 1].op == EQ then 1 else 0)
  }

  /** Comparisons come before position `last`, the last one right before it. */
  predicate ComparesUntil(ops: seq<MicroOp>, last: nat) {
    && (forall i :: 0 <= i < |ops| && IsCompare(ops[i].op) ==> i < last)
    && (last > 0 ==> last <= |ops| && IsCompare(ops[last - 1].op))
  }

  /** Ops in order, registers counted, masks already defined. */
  predicate Tidy(e: Emitted, last: nat) {
    && InOrder(e.ops) && e.next == |e.ops|
    && (forall j :: 0 <= j < |e.masks| ==> 0 <= e.masks[j] < e.next)
    && ComparesUntil(e.ops, last)
  }

  lemma AppendOps(ops: seq<MicroOp>, more: seq<MicroOp>, last: nat, own: nat)
    requires InOrder(ops) && ComparesUntil(ops, last)
    requires forall i :: 0 <= i < |more| ==> DefinesInOrder(more[i], |ops| + i)
    requires own < |more| && IsCompare(more[own].op) && forall i :: own < i < |more| ==> !IsCompare(more[i].op)
    ensures InOrder(ops + more) && ComparesUntil(ops + more, |ops| + own + 1)
  {
    hide DefinesInOrder;
  }

  lemma TestOps(pred: Predicate, skel: nat, kim: nat)
    requires pred.isString && WellKinded(pred)
    ensures var tests := StringTests(pred, skel, kim);
            && |tests| == (if pred.op == EQ then 2 else 1)
            && (forall i :: 0 <= i < |tests| ==> IsCompare(tests[i].op))
  {
    hide Signature, SkeletonConstant, CleanPattern;
  }

  lemma EqualTidy(e: Emitted, last: nat, t0: TileTest, t1: TileTest)
    requires Tidy(e, last) && IsCompare(t0.op) && IsCompare(t1.op)
    ensures var v := e.next;
            var ops := e.ops + [Load(v, t0.tile), Load(v + 1, t1.tile), Compare(v + 2, v, t0), Compare(v + 3, v + 1, t1), AndOp(v + 4, v + 2, v + 3)];
            Tidy(Emitted(ops, e.masks + [v + 4], v + 5), v + 4)
  {
    var v := e.next;
    var more := [Load(v, t0.tile), Load(v + 1, t1.tile), Compare(v + 2, v, t0), Compare(v + 3, v + 1, t1), AndOp(v + 4, v + 2, v + 3)];
    hide ComparesUntil, InOrder, WordOf;
    AppendOps(e.ops, more, last, 3);
  }

  lemma ContainsTidy(e: Emitted, last: nat, skel: nat, t: TileTest)
    requires Tidy(e, last) && IsCompare(t.op)
    ensures var v := e.next;
            Tidy(Emitted(e.ops + [Load(v, skel), Load(v + 1, t.tile), Compare(v + 2, v + 1, t)], e.masks + [v + 2], v + 3), v + 3)
  {
    var v := e.next;
    hide ComparesUntil, InOrder, WordOf;
    AppendOps(e.ops, [Load(v, skel), Load(v + 1, t.tile), Compare(v + 2, v + 1, t)], last, 2);
  }

  lemma StringTidy(e: Emitted, last: nat, pred: Predicate, skel: nat, kim: nat)
    requires Tidy(e, last) && pred.isString && WellKinded(pred)
    ensures var e' := EmitString(e, pred, skel, kim);
            && |e'.masks| == |e.masks| + 1 && e'.next == e.next + Cost(pred)
            && Tidy(e', e'.next - (if pred.op == EQ then 1 else 0))
  {
    var e', tests := EmitString(e, pred, skel, kim), StringTests(pred, skel, kim);
    TestOps(pred, skel, kim);
    assert tests[0].tile == (if pred.op == LIKE_CONTAINS then kim else skel) && (pred.op == EQ ==> tests[1].tile == kim);
    hide StringTests, Tidy, WordOf, Load, Compare, AndOp;
    if pred.op == EQ {
      EqualTidy(e, last, tests[0], tests[1]);
    } else if pred.op == LIKE_PREFIX {
      NumericTidy(e, last, tests[0]);
    } else {
      ContainsTidy(e, last, skel, tests[0]);
    }
  }

  lemma NumericTidy(e: Emitted, last: nat, t: TileTest)
    requires Tidy(e, last) && IsCompare(t.op)
    ensures var e' := EmitNumeric(e, t); |e'.masks| == |e.masks| + 1 && e'.next == e.next + 2 && Tidy(e', e'.next)
  {
    hide ComparesUntil, InOrder, WordOf;
    AppendOps(e.ops, [Load(e.next, t.tile), Compare(e.next + 1, e.next, t)], last, 1);
  }

  lemma PredicateTidy(rg: RowGroup, e: Emitted, last: nat, pred: Predicate, e': Emitted)
    requires WellShaped(rg) && WellKinded(pred) && Tidy(e, last) && EmitPredicate(rg, e, pred) == Ok(e')
    ensures |e'.masks| == |e.masks| + 1 && e'.next == e.next + Cost(pred)
    ensures Tidy(e', e'.next - (if pred.isString && pred.op == EQ then 1 else 0))
  {
    LocatedWhenEmitted(rg, e, pred, e');
    hide Tidy, EmitPredicate, EmitString, EmitNumeric, HighestPlane, NumCompareBits, WordOf;
    if pred.isString {
      StringTidy(e, last, pred, FirstIndex(rg.columnNames, pred.column).value, FirstIndex(rg.columnNames, pred.column + KIM_SUFFIX).value);
    } else {
      NumericTidy(e, last, NumericTest(rg.blocks, pred, FirstIndex(rg.columnNames, pred.column).value));
    }
  }

  lemma NothingTidy(rg: RowGroup, preds: seq<Predicate>)
    requires WellShaped(rg)
    ensures EmitPredicates(rg, preds, 0) == Ok(NOTHING_EMITTED)
    ensures |NOTHING_EMITTED.masks| == 0 && NOTHING_EMITTED.next == 0 && Tidy(NOTHING_EMITTED, 0)
  {
  }

  lemma CostStep(preds: seq<Predicate>, k: nat)
    requires k <= |preds|
    ensures k == 0 ==> TotalCost(preds, k) == 0 && MappedAtLast(preds, k) == 0
    ensures k > 0 ==> TotalCost(preds, k) == TotalCost(preds, k - 1) + Cost(preds[k - 1])
    ensures k > 0 ==> MappedAtLast(preds, k) == TotalCost(preds, k) - (if preds[k - 1].isString && preds[k - 1].op == EQ then 1 else 0)
  {
  }

  lemma {:induction false} PredicatesTidy(rg: RowGroup, preds: seq<Predicate>, k: nat, e: Emitted)
    requires WellShaped(rg) && AllWellKinded(preds) && k <= |preds| && EmitPredicates(rg, preds, k) == Ok(e)
    ensures |e.masks| == k && e.next == TotalCost(preds, k) && Tidy(e, MappedAtLast(preds, k))
  {
    hide *;
    CostStep(preds, k);
    if k == 0 {
      NothingTidy(rg, preds);
    } else {
      var before := EmitStep(rg, preds, k, e);
      PredicatesTidy(rg, preds, k - 1, before);
      PredicateTidy(rg, before, MappedAtLast(preds, k - 1), preds[k - 1], e);
    }
  }

  lemma {:induction false} CombinedTidy(e: Emitted, last: nat, i: nat)
    requires Tidy(e, last) && 1 <= i <= |e.masks|
    ensures var (ops, mask, next) := CombineMasks(e, i);
            && InOrder(ops) && ComparesUntil(ops, last) && next == |ops| == e.next + (i - 1) && 0 <= mask < next
  {
    if i > 1 {
      CombinedTidy(e, last, i - 1);
      var (ops, mask, next) := CombineMasks(e, i - 1);
      AppendAnd(ops, AndOp(next, mask, e.masks[i - 1]), last);
      hide InOrder, ComparesUntil;
    }
  }

  lemma AppendAnd(ops: seq<MicroOp>, op: MicroOp, last: nat)
    requires InOrder(ops) && ComparesUntil(ops, last) && op.op == BIT_AND && DefinesInOrder(op, |ops|)
    ensures InOrder(ops + [op]) && ComparesUntil(ops + [op], last)
  {
    hide DefinesInOrder;
  }

  lemma FitsWhen(ops: seq<MicroOp>, last: nat)
    requires ComparesUntil(ops, last) && last > 0
    ensures AllFit(ops, |ops|) <==> |ops| <= |POOL| && last <= 10
  {
    if AllFit(ops, |ops|) {
      assert FitsPool(ops[last - 1], last - 1);
      assert FitsPool(ops[|ops| - 1], |ops| - 1);
    }
  }

  /** A planned conjunction compiles exactly when its registers, one more for each
      extra predicate, fit the pool of fourteen, and the last comparison still
      finds four scratch registers. */
  lemma {:induction false} CompilesIff(rg: RowGroup, preds: seq<Predicate>, ops: seq<MicroOp>)
    requires WellShaped(rg) && AllWellKinded(preds) && PlannedOps(rg, preds) == Ok(ops)
    ensures |preds| > 0
    ensures CompiledFunction(ops).Ok? <==>
            TotalCost(preds, |preds|) + (|preds| - 1) <= 14 && MappedAtLast(preds, |preds|) <= 10
  {
    var e := EmittedBefore(rg, preds, ops);
    var n := |preds|;
    hide CompiledFunction, AllFit, InOrder, ComparesUntil, CombineMasks, Tidy, PlannedOps, EmitPredicates;
    PredicatesTidy(rg, preds, n, e);
    CombinedTidy(e, MappedAtLast(preds, n), n);
    CompilesExactly(ops);
    FitsWhen(ops, MappedAtLast(preds, n));
  }

  lemma {:induction false} NumericCost(preds: seq<Predicate>, k: nat)
    requires k <= |preds| && forall i :: 0 <= i < |preds| ==> !preds[i].isString
    ensures TotalCost(preds, k) == 2 * k
  {
    if k > 0 { NumericCost(preds, k - 1); }
  }

  /** Numeric predicates alone: at most five. */
  lemma NumericConjunctions(rg: RowGroup, preds: seq<Predicate>, ops: seq<MicroOp>)
    requires WellShaped(rg) && AllWellKinded(preds) && PlannedOps(rg, preds) == Ok(ops)
    requires forall i :: 0 <= i < |preds| ==> !preds[i].isString
    ensures CompiledFunction(ops).Ok? <==> |preds| <= 5
  {
    hide CompiledFunction, PlannedOps, AllWellKinded;
    CompilesIff(rg, preds, ops);
    NumericCost(preds, |preds|);
  }
}
