/** Compaction changes no answer: the compacted table is in the domain of the query
    theorem when the table is and the plan fits its in-memory rows, and queries
    return what they returned before. */
module CompactionAnswers {
  import opened Words
  import opened Storage
  import opened MemTables
  import opened AdaptiveIngester
  import opened BlockReader
  import opened Rows
  import opened TableStates
  import opened MetadataRegistry
  import opened PromotionDaemon
  import opened LsmRuns
  import opened QueryPlanner
  import opened PlanMeaning
  import opened Prefilter
  import opened ColumnLookup
  import opened QueryRunner
  import opened StoredRows
  import opened QueryRefinement
  import opened TableQueries

  // ----- what a plan asks of the schema, and of a row

  /** The plan is for columns named and typed as in the batch. */
  ghost predicate SchemaPlanned(plan: RowGroup, batch: Batch, preds: seq<Predicate>, agg: Str, run: Runner) {
    && batch.Valid() && WellShaped(plan) && plan.columnNames == PhysicalNames(batch, |batch.names|)
    && Planned(plan, preds, agg) == Ok(run) && AllWellKinded(preds)
    && (forall i :: 0 <= i < |preds| ==> PredicatePlaced(batch, preds[i]))
    && (agg != [] ==> AggregatePlaced(plan, batch, agg))
  }

  predicate PredicatePlaced(batch: Batch, pred: Predicate)
    requires batch.Valid()
  {
    Placed(batch, pred) && Reachable(batch, ColumnOf(batch, pred)) && (pred.isString ==> GoodPattern(pred.op, pred.value))
  }

  ghost predicate AggregatePlaced(plan: RowGroup, batch: Batch, agg: Str)
    requires batch.Valid()
  {
    var f := FindColumn(batch.names, agg);
    f.Some? && batch.columns[f.value].Ints? && Reachable(batch, f.value) && FirstIndex(plan.columnNames, agg).Some?
  }

  /** The compiled verdict on the row's cell is right, on the planned width. */
  ghost predicate CellJudged(plan: RowGroup, names: seq<Str>, row: Row, pred: Predicate)
    requires WellShaped(plan) && |row| == |names|
  {
    var f, p := FindColumn(names, pred.column), FirstIndex(plan.columnNames, pred.column);
    && f.Some? && Safe(row[f.value], pred)
    && (!pred.isString && p.Some? ==> StoredNumber(row[f.value].n) < Pow2(PlannedWidth(plan, pred, p.value)))
  }

  ghost predicate AggregateJudged(plan: RowGroup, names: seq<Str>, row: Row, agg: Str)
    requires WellShaped(plan) && |row| == |names|
  {
    var f, p := FindColumn(names, agg), FirstIndex(plan.columnNames, agg);
    f.Some? && p.Some? && row[f.value].IntCell? && StoredNumber(row[f.value].n) < Pow2(HighestPlane(plan.blocks, p.value, 64) + 1)
  }

  ghost predicate RowJudged(plan: RowGroup, names: seq<Str>, row: Row, preds: seq<Predicate>, agg: Str)
    requires WellShaped(plan)
  {
    && |row| == |names|
    && (forall i :: 0 <= i < |preds| ==> CellJudged(plan, names, row, preds[i]))
    && (agg != [] ==> AggregateJudged(plan, names, row, agg))
  }

  ghost predicate RowsJudged(plan: RowGroup, names: seq<Str>, rows: seq<Row>, preds: seq<Predicate>, agg: Str)
    requires WellShaped(plan)
  {
    forall r :: 0 <= r < |rows| ==> RowJudged(plan, names, rows[r], preds, agg)
  }

  lemma JudgedAppend(plan: RowGroup, names: seq<Str>, x: seq<Row>, y: seq<Row>, preds: seq<Predicate>, agg: Str)
    requires WellShaped(plan) && RowsJudged(plan, names, x, preds, agg) && RowsJudged(plan, names, y, preds, agg)
    ensures RowsJudged(plan, names, x + y, preds, agg)
  {
    hide RowJudged, WellShaped;
  }

  // ----- the domain of a group gives its rows

  lemma CellIsJudged(s: Setting, run: Runner, pred: Predicate, n: nat)
    requires WellShaped(s.plan) && s.batch.Valid() && n < s.batch.numRows
    requires Placed(s.batch, pred) && WidthCovers(s.plan, s.batch, pred) && Safe(CellOf(s.batch, pred, n), pred)
    ensures CellJudged(s.plan, s.batch.names, RowAt(s.batch, n), pred)
  {
    assert RowAt(s.batch, n)[ColumnOf(s.batch, pred)] == CellOf(s.batch, pred, n);
    hide Safe, FindColumn, FirstIndex, PlannedWidth, Pow2, StoredNumber;
  }

  lemma AggregateIsJudged(s: Setting, n: nat)
    requires WellShaped(s.plan) && s.batch.Valid() && n < s.batch.numRows && AggregateInDomain(s) && s.agg != []
    ensures AggregateJudged(s.plan, s.batch.names, RowAt(s.batch, n), s.agg)
  {
    assert RowAt(s.batch, n)[FindColumn(s.batch.names, s.agg).value] == IntCell(s.batch.columns[FindColumn(s.batch.names, s.agg).value].ints[n]);
    hide FindColumn, FirstIndex, HighestPlane, Pow2, StoredNumber;
  }

  lemma DomainPredicates(s: Setting, run: Runner, i: nat, n: nat)
    requires QueryDomain(s, run) && i < |s.preds| && s.batch.Valid() && n < s.batch.numRows && n < |AliveBits(s.rg)| && AliveBits(s.rg)[n]
    ensures WellShaped(s.plan) && Placed(s.batch, s.preds[i]) && WidthCovers(s.plan, s.batch, s.preds[i])
    ensures Safe(CellOf(s.batch, s.preds[i], n), s.preds[i])
  {
    assert PredicateInDomain(s, s.preds[i]);
    hide Safe, Placed, WidthCovers, CellOf, AliveBits, Holds, Fits, Planned, AggregateInDomain;
  }

  lemma DomainShape(s: Setting, run: Runner)
    requires QueryDomain(s, run)
    ensures WellShaped(s.plan) && s.batch.Valid() && |s.rg.blocks| == NumBlocks(s.batch.numRows) && AggregateInDomain(s)
  {
    hide InDomain, WellShaped, AggregateInDomain, SafeRows, Planned;
  }

  lemma AliveRowJudged(s: Setting, run: Runner, n: nat)
    requires QueryDomain(s, run) && s.batch.Valid() && n < s.batch.numRows && n < |AliveBits(s.rg)| && AliveBits(s.rg)[n]
    ensures WellShaped(s.plan) && RowJudged(s.plan, s.batch.names, RowAt(s.batch, n), s.preds, s.agg)
  {
    assert |RowAt(s.batch, n)| == |s.batch.names|;
    hide *;
    DomainShape(s, run);
    forall i | 0 <= i < |s.preds| ensures CellJudged(s.plan, s.batch.names, RowAt(s.batch, n), s.preds[i]) {
      DomainPredicates(s, run, i, n);
      CellIsJudged(s, run, s.preds[i], n);
    }
    if s.agg != [] { AggregateIsJudged(s, n); }
    JudgedWhen(s.plan, s.batch.names, RowAt(s.batch, n), s.preds, s.agg);
  }

  lemma JudgedWhen(plan: RowGroup, names: seq<Str>, row: Row, preds: seq<Predicate>, agg: Str)
    requires WellShaped(plan) && |row| == |names| && (forall i :: 0 <= i < |preds| ==> CellJudged(plan, names, row, preds[i]))
    requires agg != [] ==> AggregateJudged(plan, names, row, agg)
    ensures RowJudged(plan, names, row, preds, agg)
  {
    hide WellShaped, CellJudged, AggregateJudged;
  }

  lemma {:induction false} KeptJudged(s: Setting, run: Runner, n: nat)
    requires QueryDomain(s, run) && s.batch.Valid() && n <= s.batch.numRows && n <= |AliveBits(s.rg)|
    ensures WellShaped(s.plan) && RowsJudged(s.plan, s.batch.names, Kept(s.batch, AliveBits(s.rg), n), s.preds, s.agg)
  {
    hide *;
    DomainShape(s, run);
    if n == 0 {
      NothingKeptJudged(s);
    } else {
      KeptJudged(s, run, n - 1);
      KeptNext(s.batch, AliveBits(s.rg), n - 1);
      assert Kept(s.batch, AliveBits(s.rg), n - 1) + [] == Kept(s.batch, AliveBits(s.rg), n - 1);
      if AliveBits(s.rg)[n - 1] {
        AliveRowJudged(s, run, n - 1);
        OneJudged(s.plan, s.batch.names, RowAt(s.batch, n - 1), s.preds, s.agg);
        JudgedAppend(s.plan, s.batch.names, Kept(s.batch, AliveBits(s.rg), n - 1), [RowAt(s.batch, n - 1)], s.preds, s.agg);
      }
    }
  }

  lemma OneJudged(plan: RowGroup, names: seq<Str>, row: Row, preds: seq<Predicate>, agg: Str)
    requires WellShaped(plan) && RowJudged(plan, names, row, preds, agg)
    ensures RowsJudged(plan, names, [row], preds, agg)
  {
    hide RowJudged;
  }

  lemma NothingKeptJudged(s: Setting)
    requires WellShaped(s.plan) && s.batch.Valid()
    ensures RowsJudged(s.plan, s.batch.names, Kept(s.batch, AliveBits(s.rg), 0), s.preds, s.agg)
    ensures forall names :: RowsJudged(s.plan, names, [], s.preds, s.agg)
  {
  }

  lemma GroupJudged(t: TableState, g: nat, plan: RowGroup, preds: seq<Predicate>, agg: Str, run: Runner)
    requires g < |t.groups| && GroupInDomain(t, g, plan, preds, agg, run)
    ensures WellShaped(plan) && Sized(t.groups[g])
    ensures RowsJudged(plan, t.names, GroupAlive(t.groups[g], t.types, |t.groups[g].blocks|), preds, agg)
  {
    var rg := t.groups[g];
    var batch :| StoresBatch(rg, t.names, t.types, batch) && QueryDomain(Setting(plan, rg, batch, preds, agg), run);
    var s := Setting(plan, rg, batch, preds, agg);
    assert batch.names == t.names && s.batch == batch && s.plan == plan && s.preds == preds && s.agg == agg && s.rg == rg;
    hide *;
    DomainShape(s, run);
    StoredParts(rg, t.names, t.types, batch);
    GroupRowsAre(rg, t.names, t.types, batch);
    EnoughBits(rg);
    KeptJudged(s, run, batch.numRows);
    AliveRowsAre(rg, batch);
  }

  lemma AliveRowsAre(rg: RowGroup, batch: Batch)
    requires batch.Valid() && |rg.blocks| == NumBlocks(batch.numRows)
    ensures batch.numRows <= |AliveBits(rg)| && AliveRows(rg, batch) == Kept(batch, AliveBits(rg), batch.numRows)
  {
    hide Kept;
  }

  lemma {:induction false} PersistedJudged(t: TableState, plan: RowGroup, preds: seq<Predicate>, agg: Str, run: Runner, n: nat)
    requires WellShaped(plan) && GroupsInDomain(t, plan, preds, agg, run) && AllSized(t.groups) && n <= |t.groups|
    ensures RowsJudged(plan, t.names, PersistedRows(t.groups, t.types, n), preds, agg)
  {
    hide *;
    if n == 0 {
      NoPersistedRows(t);
      EmptyJudged(plan, t.names, preds, agg);
    } else {
      PersistedJudged(t, plan, preds, agg, run, n - 1);
      InDomainAt(t, plan, preds, agg, run, n - 1);
      GroupJudged(t, n - 1, plan, preds, agg, run);
      PersistedNext(t.groups, t.types, n - 1);
      JudgedAppend(plan, t.names, PersistedRows(t.groups, t.types, n - 1),
                   GroupAlive(t.groups[n - 1], t.types, |t.groups[n - 1].blocks|), preds, agg);
    }
  }

  lemma InDomainAt(t: TableState, plan: RowGroup, preds: seq<Predicate>, agg: Str, run: Runner, g: nat)
    requires GroupsInDomain(t, plan, preds, agg, run) && g < |t.groups|
    ensures GroupInDomain(t, g, plan, preds, agg, run)
  {
    hide GroupInDomain;
  }

  lemma NoPersistedRows(t: TableState)
    requires AllSized(t.groups)
    ensures PersistedRows(t.groups, t.types, 0) == []
  {
  }

  lemma EmptyJudged(plan: RowGroup, names: seq<Str>, preds: seq<Predicate>, agg: Str)
    requires WellShaped(plan)
    ensures RowsJudged(plan, names, [], preds, agg)
  {
  }

  // ----- judged rows make a domain

  lemma WidthFromRows(plan: RowGroup, batch: Batch, pred: Predicate, preds: seq<Predicate>, i: nat, agg: Str)
    requires WellShaped(plan) && batch.Valid() && Placed(batch, pred) && i < |preds| && preds[i] == pred
    requires forall n :: 0 <= n < batch.numRows ==> RowJudged(plan, batch.names, RowAt(batch, n), preds, agg)
    ensures WidthCovers(plan, batch, pred)
    ensures forall n :: 0 <= n < batch.numRows ==> Safe(CellOf(batch, pred, n), pred)
  {
    hide Safe, FirstIndex, PlannedWidth, Pow2, StoredNumber, FindColumn;
    var p := FirstIndex(plan.columnNames, pred.column);
    forall n | 0 <= n < batch.numRows
      ensures Safe(CellOf(batch, pred, n), pred)
      ensures !pred.isString && p.Some? ==> StoredNumber(batch.columns[ColumnOf(batch, pred)].ints[n]) < Pow2(PlannedWidth(plan, pred, p.value))
    {
      assert RowJudged(plan, batch.names, RowAt(batch, n), preds, agg);
      assert CellJudged(plan, batch.names, RowAt(batch, n), preds[i]);
      assert RowAt(batch, n)[ColumnOf(batch, pred)] == CellOf(batch, pred, n);
    }
  }

  lemma AggregateFromRows(s: Setting)
    requires WellShaped(s.plan) && s.batch.Valid() && (s.agg != [] ==> AggregatePlaced(s.plan, s.batch, s.agg))
    requires forall n :: 0 <= n < s.batch.numRows ==> RowJudged(s.plan, s.batch.names, RowAt(s.batch, n), s.preds, s.agg)
    ensures AggregateInDomain(s)
  {
    if s.agg != [] {
      hide Pow2, StoredNumber, FindColumn, FirstIndex, HighestPlane, CellJudged, Reachable;
      var f := FindColumn(s.batch.names, s.agg).value;
      forall n | 0 <= n < s.batch.numRows ensures AggregateJudged(s.plan, s.batch.names, RowAt(s.batch, n), s.agg)
        && RowAt(s.batch, n)[f] == IntCell(s.batch.columns[f].ints[n])
      {
        assert RowJudged(s.plan, s.batch.names, RowAt(s.batch, n), s.preds, s.agg);
      }
    }
  }

  lemma SchemaParts(plan: RowGroup, batch: Batch, preds: seq<Predicate>, agg: Str, run: Runner)
    requires SchemaPlanned(plan, batch, preds, agg, run)
    ensures batch.Valid() && WellShaped(plan) && plan.columnNames == PhysicalNames(batch, |batch.names|)
    ensures Planned(plan, preds, agg) == Ok(run) && AllWellKinded(preds)
    ensures agg != [] ==> AggregatePlaced(plan, batch, agg)
    ensures forall i :: 0 <= i < |preds| ==> PredicatePlaced(batch, preds[i])
  {
    hide WellShaped, Planned, AllWellKinded, PredicatePlaced, AggregatePlaced, PhysicalNames, Batch.Valid;
  }

  lemma PredicateFromRows(s: Setting, i: nat)
    requires WellShaped(s.plan) && s.batch.Valid() && i < |s.preds| && PredicatePlaced(s.batch, s.preds[i])
    requires forall n :: 0 <= n < s.batch.numRows ==> RowJudged(s.plan, s.batch.names, RowAt(s.batch, n), s.preds, s.agg)
    ensures PredicateInDomain(s, s.preds[i])
    ensures Placed(s.batch, s.preds[i]) && forall n :: 0 <= n < s.batch.numRows ==> Safe(CellOf(s.batch, s.preds[i], n), s.preds[i])
  {
    assert Placed(s.batch, s.preds[i]);
    hide RowJudged, WidthCovers, Safe, Placed, CellOf, Reachable, GoodPattern, WellShaped, Batch.Valid;
    WidthFromRows(s.plan, s.batch, s.preds[i], s.preds, i, s.agg);
  }

  lemma InDomainWhen(s: Setting)
    requires WellShaped(s.plan) && Holds(s.rg, s.batch) && s.batch.Valid() && Fits(s.batch) && s.plan.columnNames == s.rg.columnNames
    requires AllWellKinded(s.preds) && forall i :: 0 <= i < |s.preds| ==> PredicateInDomain(s, s.preds[i])
    ensures InDomain(s)
  {
    hide WellShaped, Holds, Fits, AllWellKinded, PredicateInDomain;
  }

  lemma SafeWhen(s: Setting)
    requires s.batch.Valid() && |s.rg.blocks| == NumBlocks(s.batch.numRows)
    requires forall i :: 0 <= i < |s.preds| ==>
      Placed(s.batch, s.preds[i]) && forall n :: 0 <= n < s.batch.numRows ==> Safe(CellOf(s.batch, s.preds[i], n), s.preds[i])
    ensures SafeRows(s)
  {
    hide Safe, CellOf, Placed, AliveBits;
  }

  lemma HoldsShape(rg: RowGroup, batch: Batch)
    requires Holds(rg, batch)
    ensures batch.Valid() && |rg.blocks| == NumBlocks(batch.numRows) && rg.columnNames == PhysicalNames(batch, |batch.names|)
  {
    hide HoldsBlock, PhysicalNames, PhysicalTypes;
  }

  /** A fresh group of judged rows is in the domain. */
  lemma JudgedDomain(plan: RowGroup, batch: Batch, preds: seq<Predicate>, agg: Str, run: Runner)
    requires SchemaPlanned(plan, batch, preds, agg, run) && batch.Valid() && Fits(batch)
    requires WellShaped(plan) && forall n :: 0 <= n < batch.numRows ==> RowJudged(plan, batch.names, RowAt(batch, n), preds, agg)
    ensures QueryDomain(Setting(plan, Ingested(batch), batch, preds, agg), run)
  {
    hide *;
    var s := Setting(plan, Ingested(batch), batch, preds, agg);
    SchemaParts(plan, batch, preds, agg, run);
    IngestedShape(batch);
    HoldsShape(Ingested(batch), batch);
    forall i | 0 <= i < |preds|
      ensures PredicateInDomain(s, preds[i]) && Placed(batch, preds[i])
      ensures forall n :: 0 <= n < batch.numRows ==> Safe(CellOf(batch, preds[i], n), preds[i])
    {
      PredicateFromRows(s, i);
    }
    InDomainWhen(s);
    SafeWhen(s);
    AggregateFromRows(s);
    QueryDomainWhen(s, run);
  }

  // ----- the compacted table

  lemma RowsAreRows(names: seq<Str>, types: seq<nat>, rows: seq<Row>)
    requires |names| == |types| && RowsFit(types, rows)
    ensures forall n :: 0 <= n < |rows| ==> RowAt(BatchOf(names, types, rows), n) == rows[n]
  {
    var batch := BatchOf(names, types, rows);
    hide RowFits, ColumnOfRows, RowAt;
    forall n | 0 <= n < |rows| ensures RowAt(batch, n) == rows[n] {
      RowsOfBatch(names, types, rows, n + 1);
      RowsOfBatch(names, types, rows, n);
      LastOf(batch, n, rows);
    }
  }

  lemma LastOf(batch: Batch, n: nat, rows: seq<Row>)
    requires batch.Valid() && n < batch.numRows && n < |rows| && RowsTo(batch, n + 1) == rows[..n + 1] && RowsTo(batch, n) == rows[..n]
    ensures RowAt(batch, n) == rows[n]
  {
    hide RowAt;
    assert (RowsTo(batch, n) + [RowAt(batch, n)])[n] == RowAt(batch, n);
  }

  lemma CompactedIs(t: TableState)
    requires Valid(t) && t.frozen.None? && !NothingToCompact(t)
    requires |t.names| == |t.types| && RowsFit(t.types, Content(t))
    ensures Compacted(t).frozen.None? && Compacted(t).names == t.names && Compacted(t).types == t.types
    ensures Compacted(t).groups == if Content(t) == [] then [] else [Ingested(BatchOf(t.names, t.types, Content(t)))]
  {
    FrozenCollects(t);
    CollectedFits(Frozen(t));
    hide Valid, Content, Collected, Ingested, BatchOf, NothingToCompact, RowsFit;
  }

  lemma CompactedGroup(t: TableState, plan: RowGroup, preds: seq<Predicate>, agg: Str, run: Runner, batch: Batch)
    requires batch.Valid() && t.groups == [Ingested(batch)] && Fits(batch) && batch.names == t.names && SameKinds(batch.columns, t.types)
    requires QueryDomain(Setting(plan, Ingested(batch), batch, preds, agg), run)
    ensures GroupsInDomain(t, plan, preds, agg, run)
  {
    IngestedHolds(batch);
    hide Ingested, Holds, Fits, SameKinds, QueryDomain;
    assert StoresBatch(t.groups[0], t.names, t.types, batch);
    forall g | 0 <= g < |t.groups| ensures GroupInDomain(t, g, plan, preds, agg, run) { assert g == 0; }
  }

  lemma NoGroupsInDomain(t: TableState, plan: RowGroup, preds: seq<Predicate>, agg: Str, run: Runner)
    requires t.groups == []
    ensures GroupsInDomain(t, plan, preds, agg, run)
  {
  }

  lemma ContentJudged(t: TableState, plan: RowGroup, preds: seq<Predicate>, agg: Str, run: Runner)
    requires Valid(t) && t.frozen.None? && WellShaped(plan) && GroupsInDomain(t, plan, preds, agg, run)
    requires AllConform(t.active, t.names, t.types) && RowsJudged(plan, t.names, BatchRows(t.active, t.names, t.types), preds, agg)
    ensures RowsJudged(plan, t.names, Content(t), preds, agg)
  {
    assert FrozenRows(t) == [];
    hide *;
    ContentIs(t);
    var persisted := PersistedRows(t.groups, t.types, |t.groups|);
    PersistedJudged(t, plan, preds, agg, run, |t.groups|);
    assert persisted + [] == persisted;
    JudgedAppend(plan, t.names, persisted, BatchRows(t.active, t.names, t.types), preds, agg);
  }

  lemma JudgedRows(plan: RowGroup, names: seq<Str>, types: seq<nat>, rows: seq<Row>, preds: seq<Predicate>, agg: Str)
    requires WellShaped(plan) && |names| == |types| && RowsFit(types, rows) && RowsJudged(plan, names, rows, preds, agg)
    ensures var batch := BatchOf(names, types, rows);
            forall n :: 0 <= n < batch.numRows ==> RowJudged(plan, batch.names, RowAt(batch, n), preds, agg)
  {
    RowsAreRows(names, types, rows);
    hide RowJudged, RowFits, ColumnsOfRows, RowAt, WellShaped;
  }

  // ----- what depends on names and kinds only

  predicate SameSchema(x: Batch, y: Batch) {
    x.Valid() && y.Valid() && x.names == y.names && forall f :: 0 <= f < |x.columns| ==> x.columns[f].Strs? == y.columns[f].Strs?
  }

  lemma {:induction false} SamePhysical(x: Batch, y: Batch, n: nat)
    requires SameSchema(x, y) && n <= |x.names|
    ensures PhysicalNames(x, n) == PhysicalNames(y, n) && StringIndex(x.columns, n) == StringIndex(y.columns, n)
  {
    if n > 0 { SamePhysical(x, y, n - 1); }
  }

  lemma SameReach(x: Batch, y: Batch, f: nat)
    requires SameSchema(x, y) && f < |x.columns| && Reachable(x, f)
    ensures Reachable(y, f)
  {
    SamePhysical(x, y, f);
    SamePhysical(x, y, |x.names|);
    hide PhysicalNames, StringIndex, StringColumn;
  }

  lemma SamePlaced(x: Batch, y: Batch, pred: Predicate)
    requires SameSchema(x, y) && PredicatePlaced(x, pred)
    ensures PredicatePlaced(y, pred)
  {
    hide Reachable, GoodPattern, FindColumn;
    SameReach(x, y, ColumnOf(x, pred));
  }

  lemma SameSchemaPlanned(plan: RowGroup, x: Batch, y: Batch, preds: seq<Predicate>, agg: Str, run: Runner)
    requires SameSchema(x, y) && SchemaPlanned(plan, x, preds, agg, run)
    ensures SchemaPlanned(plan, y, preds, agg, run)
  {
    SamePhysical(x, y, |x.names|);
    forall i | 0 <= i < |preds| ensures PredicatePlaced(y, preds[i]) { SamePlaced(x, y, preds[i]); }
    if agg != [] { SameReach(x, y, FindColumn(x.names, agg).value); }
    hide PredicatePlaced, Reachable, FindColumn, FirstIndex, PhysicalNames, WellShaped, Planned, AllWellKinded;
  }

  lemma DomainPlanned(s: Setting, run: Runner)
    requires QueryDomain(s, run)
    ensures SchemaPlanned(s.plan, s.batch, s.preds, s.agg, run)
  {
    forall i | 0 <= i < |s.preds| ensures PredicatePlaced(s.batch, s.preds[i]) {
      assert PredicateInDomain(s, s.preds[i]);
      hide Holds, Placed, Reachable, GoodPattern, WidthCovers;
    }
    hide PredicatePlaced, Placed, Reachable, GoodPattern, WidthCovers, FindColumn, FirstIndex, PhysicalNames;
    hide WellShaped, Planned, AllWellKinded, Pow2, StoredNumber, HoldsBlock;
  }

  lemma KindsAgree(x: Batch, y: Batch, types: seq<nat>)
    requires x.Valid() && y.Valid() && x.names == y.names && SameKinds(x.columns, types) && SameKinds(y.columns, types)
    ensures SameSchema(x, y)
  {
  }

  /** A group in the domain shows that the plan is for the table's schema. */
  lemma GroupPlanned(t: TableState, plan: RowGroup, preds: seq<Predicate>, agg: Str, run: Runner, batch: Batch)
    requires t.groups != [] && GroupInDomain(t, 0, plan, preds, agg, run)
    requires batch.Valid() && batch.names == t.names && SameKinds(batch.columns, t.types)
    ensures SchemaPlanned(plan, batch, preds, agg, run)
  {
    var rg := t.groups[0];
    var held :| StoresBatch(rg, t.names, t.types, held) && QueryDomain(Setting(plan, rg, held, preds, agg), run);
    assert held.names == t.names;
    var s := Setting(plan, rg, held, preds, agg);
    assert s.batch == held && s.plan == plan && s.preds == preds && s.agg == agg;
    hide *;
    StoredParts(rg, t.names, t.types, held);
    DomainPlanned(s, run);
    KindsAgree(held, batch, t.types);
    SameSchemaPlanned(plan, held, batch, preds, agg, run);
  }

  /** The plan judges the in-memory rows rightly; without row groups, it must also be
      one for the table's columns. */
  ghost predicate PlanFits(t: TableState, plan: RowGroup, preds: seq<Predicate>, agg: Str, run: Runner)
    requires Valid(t) && |t.names| == |t.types| && RowsFit(t.types, Content(t))
  {
    && WellShaped(plan) && RowsJudged(plan, t.names, BatchRows(t.active, t.names, t.types), preds, agg)
    && (t.groups == [] ==> SchemaPlanned(plan, BatchOf(t.names, t.types, Content(t)), preds, agg, run))
  }

  lemma PlanFitsIs(t: TableState, plan: RowGroup, preds: seq<Predicate>, agg: Str, run: Runner)
    requires Valid(t) && |t.names| == |t.types| && RowsFit(t.types, Content(t)) && PlanFits(t, plan, preds, agg, run)
    ensures WellShaped(plan) && (t.groups == [] ==> SchemaPlanned(plan, BatchOf(t.names, t.types, Content(t)), preds, agg, run))
    ensures AllConform(t.active, t.names, t.types) && RowsJudged(plan, t.names, BatchRows(t.active, t.names, t.types), preds, agg)
  {
    hide RowsJudged, Content, BatchOf, WellShaped, SchemaPlanned, BatchRows, Sized, Stores;
  }

  lemma PlanFitsParts(t: TableState, plan: RowGroup, preds: seq<Predicate>, agg: Str, run: Runner)
    requires Valid(t) && |t.names| == |t.types| && RowsFit(t.types, Content(t)) && PlanFits(t, plan, preds, agg, run)
    requires GroupsInDomain(t, plan, preds, agg, run)
    ensures WellShaped(plan) && SchemaPlanned(plan, BatchOf(t.names, t.types, Content(t)), preds, agg, run)
    ensures AllConform(t.active, t.names, t.types) && RowsJudged(plan, t.names, BatchRows(t.active, t.names, t.types), preds, agg)
  {
    hide *;
    PlanFitsIs(t, plan, preds, agg, run);
    if t.groups != [] {
      InDomainAt(t, plan, preds, agg, run, 0);
      BatchOfKinds(t.names, t.types, Content(t));
      GroupPlanned(t, plan, preds, agg, run, BatchOf(t.names, t.types, Content(t)));
    }
  }

  lemma BatchOfKinds(names: seq<Str>, types: seq<nat>, rows: seq<Row>)
    requires |names| == |types| && RowsFit(types, rows)
    ensures SameKinds(BatchOf(names, types, rows).columns, types) && BatchOf(names, types, rows).Valid()
    ensures BatchOf(names, types, rows).names == names && BatchOf(names, types, rows).numRows == |rows|
  {
    hide ColumnOfRows, RowFits;
  }

  lemma TableDomainWhen(t: TableState, plan: RowGroup, preds: seq<Predicate>, agg: Str, run: Runner, ctxs: seq<seq<Context>>)
    requires Valid(t) && GroupsInDomain(t, plan, preds, agg, run) && AllRoomy(t.groups, ctxs) && OnTable(t.names, preds, agg)
    requires run.preds == preds && run.aggName == agg
    ensures TableDomain(t, plan, preds, agg, run, ctxs)
  {
    hide Valid, GroupsInDomain, AllRoomy, OnTable;
  }

  /** In the domain before a compaction, in the domain after it. */
  lemma CompactionKeepsDomain(t: TableState, plan: RowGroup, preds: seq<Predicate>, agg: Str, run: Runner,
                              ctxs: seq<seq<Context>>, ctxs': seq<seq<Context>>)
    requires Valid(t) && t.frozen.None? && !NothingToCompact(t)
    requires |t.names| == |t.types| && RowsFit(t.types, Content(t)) && Fits(BatchOf(t.names, t.types, Content(t)))
    requires TableDomain(t, plan, preds, agg, run, ctxs) && PlanFits(t, plan, preds, agg, run)
    requires AllRoomy(Compacted(t).groups, ctxs')
    ensures TableDomain(Compacted(t), plan, preds, agg, run, ctxs')
  {
    hide *;
    CompactedIs(t);
    CompactionKeepsContent(t);
    TableDomainParts(t, plan, preds, agg, run, ctxs);
    PlanFitsParts(t, plan, preds, agg, run);
    ContentJudged(t, plan, preds, agg, run);
    var batch := BatchOf(t.names, t.types, Content(t));
    BatchOfKinds(t.names, t.types, Content(t));
    JudgedRows(plan, t.names, t.types, Content(t), preds, agg);
    JudgedDomain(plan, batch, preds, agg, run);
    if Content(t) == [] {
      NoGroupsInDomain(Compacted(t), plan, preds, agg, run);
    } else {
      CompactedGroup(Compacted(t), plan, preds, agg, run, batch);
    }
    TableDomainWhen(Compacted(t), plan, preds, agg, run, ctxs');
  }

  /** Compaction changes no answer: a query in the domain before it returns the same
      count and the same sum after it. */
  lemma CompactionPreservesAnswers(t: TableState, plan: RowGroup, preds: seq<Predicate>, agg: Str, run: Runner,
                                   ctxs: seq<seq<Context>>, ctxs': seq<seq<Context>>)
    requires Valid(t) && t.frozen.None? && !NothingToCompact(t)
    requires |t.names| == |t.types| && RowsFit(t.types, Content(t)) && Fits(BatchOf(t.names, t.types, Content(t)))
    requires TableDomain(t, plan, preds, agg, run, ctxs) && PlanFits(t, plan, preds, agg, run)
    requires AllRoomy(Compacted(t).groups, ctxs')
    ensures ExecutableAll(run, t.groups, ctxs) && AllValid(t.active)
    ensures ExecutableAll(run, Compacted(t).groups, ctxs') && AllValid(Compacted(t).active)
    ensures t.frozen.None? && Compacted(t).frozen.None?
    ensures TableCount(Compacted(t), run, ctxs') == TableCount(t, run, ctxs)
    ensures Wrap(TableSum(Compacted(t), run, ctxs')) == Wrap(TableSum(t, run, ctxs))
  {
    hide *;
    CompactedIs(t);
    CompactionKeepsContent(t);
    CompactionKeepsDomain(t, plan, preds, agg, run, ctxs, ctxs');
    TableAnswer(t, plan, preds, agg, run, ctxs);
    TableAnswer(Compacted(t), plan, preds, agg, run, ctxs');
  }
}
