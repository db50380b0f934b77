/** From a batch and a conjunction to a count and a sum: which queries on an
    ingested batch get a plan, and what running it returns. */
module EndToEnd {
  import opened Words
  import opened Storage
  import opened MemTables
  import opened AdaptiveIngester
  import opened BlockReader
  import opened MicroOps
  import opened MicroOpCompiler
  import opened QueryPlanner
  import opened PlanMeaning
  import opened ColumnLookup
  import opened RegisterBound
  import opened QueryRunner
  import opened StoredRows
  import opened QueryRefinement

  /** Registers suffice for the conjunction. */
  predicate FitsRegisters(preds: seq<Predicate>) {
    TotalCost(preds, |preds|) + (|preds| - 1) <= 14 && MappedAtLast(preds, |preds|) <= 10
  }

  lemma EmitSome(rg: RowGroup, e: Emitted, pred: Predicate)
    requires WellShaped(rg) && Located(rg, pred)
    requires pred.isString ==> StringColumn(rg.columnNames, pred.column, 0, 0).Some?
    ensures EmitPredicate(rg, e, pred).Ok?
  {
    hide EmitString, EmitNumeric, NumericTest, FirstIndex, StringColumn;
  }

  lemma EmitNext(rg: RowGroup, preds: seq<Predicate>, k: nat, e: Emitted)
    requires WellShaped(rg) && k < |preds| && EmitPredicates(rg, preds, k) == Ok(e)
    ensures EmitPredicates(rg, preds, k + 1) == EmitPredicate(rg, e, preds[k])
  {
    hide EmitPredicate;
  }

  lemma {:induction false} AllEmitted(s: Setting, k: nat)
    requires InDomain(s) && WellShaped(s.plan) && k <= |s.preds|
    ensures EmitPredicates(s.plan, s.preds, k).Ok?
  {
    hide *;
    if k == 0 {
      NothingTidy(s.plan, s.preds);
    } else {
      AllEmitted(s, k - 1);
      OneOfAt(s.preds, k - 1);
      DomainOf(s, s.preds[k - 1]);
      LookupInPlan(s, s.preds[k - 1]);
      var e := EmitPredicates(s.plan, s.preds, k - 1).value;
      EmitSome(s.plan, e, s.preds[k - 1]);
      EmitNext(s.plan, s.preds, k - 1, e);
    }
  }

  lemma OpsWhen(rg: RowGroup, preds: seq<Predicate>, e: Emitted)
    requires WellShaped(rg) && EmitPredicates(rg, preds, |preds|) == Ok(e)
    ensures PlannedOps(rg, preds).Ok? <==> e.masks != []
  {
    hide EmitPredicates, CombineMasks;
  }

  /** On its domain every non-empty conjunction gets micro-ops. */
  lemma OpsPlanned(s: Setting) returns (ops: seq<MicroOp>)
    requires InDomain(s) && s.preds != []
    ensures WellShaped(s.plan) && AllWellKinded(s.preds) && PlannedOps(s.plan, s.preds) == Ok(ops)
  {
    hide *;
    DomainAll(s);
    AllEmitted(s, |s.preds|);
    var e := EmitPredicates(s.plan, s.preds, |s.preds|).value;
    PredicatesTidy(s.plan, s.preds, |s.preds|, e);
    OpsWhen(s.plan, s.preds, e);
    ops := PlannedOps(s.plan, s.preds).value;
  }

  lemma PlannedWhen(rg: RowGroup, preds: seq<Predicate>, agg: Str, ops: seq<MicroOp>)
    requires WellShaped(rg) && PlannedOps(rg, preds) == Ok(ops)
    requires agg == [] || FirstIndex(rg.columnNames, agg).Some?
    ensures Planned(rg, preds, agg).Ok? <==> CompiledFunction(ops).Ok?
  {
    hide PlannedOps, CompiledFunction, StringColumns, Patterns, StringPredicates, FirstIndex, HighestPlane;
  }

  lemma AggregateFound(batch: Batch, preds: seq<Predicate>, agg: Str)
    requires QueryOn(batch, preds, agg)
    ensures batch.Valid() && (agg == [] || FirstIndex(Ingested(batch).columnNames, agg).Some?)
  {
    if agg != [] {
      var f := FindColumn(batch.names, agg).value;
      assert Ingested(batch).columnNames == PhysicalNames(batch, |batch.names|);
      hide Ingested, PhysicalNames, PhysicalIndex, Unshadowed, FirstIndex;
      LookupData(batch, f);
    }
  }

  /** A query on an ingested batch gets a plan exactly when its registers fit. */
  lemma PlansExactly(batch: Batch, preds: seq<Predicate>, agg: Str)
    requires QueryOn(batch, preds, agg) && Fits(batch) && preds != []
    ensures batch.Valid() && WellShaped(Ingested(batch))
    ensures Planned(Ingested(batch), preds, agg).Ok? <==> FitsRegisters(preds)
  {
    hide *;
    QueryOnValid(batch, preds, agg);
    var rg := Ingested(batch);
    var s := Setting(rg, rg, batch, preds, agg);
    FreshInDomain(batch, preds, agg);
    AggregateFound(batch, preds, agg);
    var ops := OpsPlanned(s);
    PlannedWhen(rg, preds, agg, ops);
    CompilesIff(rg, preds, ops);
    FitsRegistersIs(preds);
  }

  lemma FitsRegistersIs(preds: seq<Predicate>)
    ensures FitsRegisters(preds) <==> TotalCost(preds, |preds|) + (|preds| - 1) <= 14 && MappedAtLast(preds, |preds|) <= 10
  {
  }

  // ----- what is never planned

  lemma {:induction false} EmittedLocated(rg: RowGroup, preds: seq<Predicate>, k: nat, i: nat)
    requires WellShaped(rg) && i < k <= |preds| && EmitPredicates(rg, preds, k).Ok?
    ensures Located(rg, preds[i]) && (preds[i].isString ==> StringColumn(rg.columnNames, preds[i].column, 0, 0).Some?)
  {
    hide EmitString, EmitNumeric, NumericTest, FirstIndex, StringColumn;
    if i < k - 1 { EmittedLocated(rg, preds, k - 1, i); }
  }

  lemma PlannedOnly(rg: RowGroup, preds: seq<Predicate>, agg: Str)
    requires WellShaped(rg)
    ensures Planned(rg, preds, agg).Ok? ==> EmitPredicates(rg, preds, |preds|).Ok? && (agg == [] || FirstIndex(rg.columnNames, agg).Some?)
    ensures preds == [] ==> Planned(rg, preds, agg) == Err("No predicates specified in QueryPlanner")
  {
    hide EmitPredicate, CombineMasks, CompiledFunction, StringPredicates, StringColumns, Patterns, FirstIndex, HighestPlane;
  }

  /** Without predicates there is no plan, nor when a column is missing that a predicate
      or the aggregate names, or the signature column of a string predicate. */
  lemma PlanNeedsColumns(rg: RowGroup, preds: seq<Predicate>, agg: Str)
    requires WellShaped(rg)
    ensures preds == [] ==> Planned(rg, preds, agg) == Err("No predicates specified in QueryPlanner")
    ensures Planned(rg, preds, agg).Ok? ==>
      && (agg == [] || agg in rg.columnNames)
      && forall i :: 0 <= i < |preds| ==>
           preds[i].column in rg.columnNames
           && (preds[i].isString ==> preds[i].column + ['_' as int, 'k' as int, 'i' as int, 'm' as int] in rg.columnNames)
  {
    hide *;
    PlannedOnly(rg, preds, agg);
    if Planned(rg, preds, agg).Ok? {
      NamedThere(rg.columnNames, agg);
      forall i | 0 <= i < |preds|
        ensures preds[i].column in rg.columnNames
        ensures preds[i].isString ==> preds[i].column + ['_' as int, 'k' as int, 'i' as int, 'm' as int] in rg.columnNames
      {
        EmittedLocated(rg, preds, |preds|, i);
        LocatedIs(rg, preds[i]);
        NamedThere(rg.columnNames, preds[i].column);
        NamedThere(rg.columnNames, preds[i].column + KIM_SUFFIX);
        Suffix();
      }
    }
  }

  lemma Suffix()
    ensures KIM_SUFFIX == ['_' as int, 'k' as int, 'i' as int, 'm' as int]
  {
  }

  lemma NamedThere(names: seq<Str>, name: Str)
    ensures FirstIndex(names, name).Some? ==> name in names
  {
    hide FirstIndex;
  }

  lemma LocatedIs(rg: RowGroup, pred: Predicate)
    requires Located(rg, pred)
    ensures FirstIndex(rg.columnNames, pred.column).Some?
    ensures pred.isString ==> FirstIndex(rg.columnNames, pred.column + KIM_SUFFIX).Some?
  {
    hide FirstIndex;
  }

  /** Everything at once: a safe query that fits the registers is planned, compiled
      and executed, and returns the count and the sum of row-by-row execution. */
  lemma QueryTotal(batch: Batch, preds: seq<Predicate>, agg: Str, ctxs: seq<Context>) returns (run: Runner)
    requires QueryOn(batch, preds, agg) && Fits(batch) && SafeBatch(batch, preds) && preds != [] && FitsRegisters(preds)
    requires Roomy(Ingested(batch), ctxs)
    ensures var rg := Ingested(batch);
            && WellShaped(rg) && Planned(rg, preds, agg) == Ok(run) && Executable(run, rg, ctxs)
            && CountBlocks(run, rg, ctxs, |rg.blocks|) == CountTo(batch, preds, batch.numRows)
            && Wrap(SumBlocks(run, rg, ctxs, |rg.blocks|)) == Wrap(SumTo(batch, preds, agg, batch.numRows))
  {
    hide *;
    QueryOnValid(batch, preds, agg);
    PlansExactly(batch, preds, agg);
    run := Planned(Ingested(batch), preds, agg).value;
    IngestedQuery(batch, preds, agg, run, ctxs);
  }

  /** The domain is inhabited: one column, one row, one comparison. */
  lemma SomeQuery() returns (batch: Batch, preds: seq<Predicate>)
    ensures |batch.names| == 1 && batch.Valid() && batch.numRows == 1
    ensures QueryOn(batch, preds, batch.names[0]) && SafeBatch(batch, preds) && FitsRegisters(preds) && preds != []
    ensures CountTo(batch, preds, 1) == 1 && SumTo(batch, preds, batch.names[0], 1) == 7
  {
    var name: Str := [97];
    batch := Batch([name], [Ints([Some(7)])], 1);
    preds := [Predicate(name, GT, [], 5, false)];
    assert FindColumn(batch.names, name) == Some(0);
    assert RowAt(batch, 0) == [IntCell(Some(7))];
    assert TotalCost(preds, 1) == TotalCost(preds, 0) + Cost(preds[0]);
    assert Satisfies(batch.names, RowAt(batch, 0), preds[0]);
    assert CountTo(batch, preds, 0) == 0 && SumTo(batch, preds, name, 0) == 0;
  }
}
