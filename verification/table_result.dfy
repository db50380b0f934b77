/** The full result of a query on a whole table, against the reference on the table's
    rows: when null aggregates make them differ, and only then. */
module TableResults {
  import opened Words
  import opened Storage
  import opened MemTables
  import opened AdaptiveIngester
  import opened BlockReader
  import opened Rows
  import opened TableStates
  import opened MetadataRegistry
  import opened PlanMeaning
  import opened QueryPlanner
  import opened QueryRunner
  import opened StoredRows
  import opened QueryRefinement
  import opened QueryResults
  import opened TableQueries

  // ----- values of concatenated rows

  lemma NoRows(names: seq<Str>, preds: seq<Predicate>, agg: Str)
    ensures MatchedNumbers(names, [], preds, agg) == [] == MatchedStored(names, [], preds, agg)
  {
  }

  lemma {:induction false} NumbersAppend(names: seq<Str>, x: seq<Row>, y: seq<Row>, preds: seq<Predicate>, agg: Str)
    ensures MatchedNumbers(names, x + y, preds, agg) == MatchedNumbers(names, x, preds, agg) + MatchedNumbers(names, y, preds, agg)
    ensures MatchedStored(names, x + y, preds, agg) == MatchedStored(names, x, preds, agg) + MatchedStored(names, y, preds, agg)
    decreases |y|
  {
    hide *;
    if y == [] {
      assert x + y == x;
      NoRows(names, preds, agg);
    } else {
      var rest, last := y[..|y| - 1], y[|y| - 1];
      assert y == rest + [last] && x + y == (x + rest) + [last];
      NumbersAppend(names, x, rest, preds, agg);
      NumbersSnoc(names, rest, last, preds, agg);
      NumbersSnoc(names, x + rest, last, preds, agg);
      StoredSnoc(names, rest, last, preds, agg);
      StoredSnoc(names, x + rest, last, preds, agg);
    }
  }

  // ----- stored values against numbers

  /** The same values, but for zeros that stand for nulls. */
  ghost predicate SameButZeros(stored: seq<int64>, numbers: seq<int64>) {
    && |numbers| <= |stored| && Total(stored) == Total(numbers) && (|numbers| == |stored| ==> stored == numbers)
    && forall v :: v in stored <==> v in numbers || (v == 0 && |numbers| < |stored|)
  }

  lemma AddBoth(stored: seq<int64>, numbers: seq<int64>, v: int64)
    requires SameButZeros(stored, numbers)
    ensures SameButZeros(stored + [v], numbers + [v]) && SameButZeros(stored + [0], numbers)
  {
    TotalAppend(stored, [v]);
    TotalAppend(numbers, [v]);
    TotalAppend(stored, [0]);
    assert forall w :: w in stored + [v] <==> w in stored || w == v;
    assert forall w :: w in numbers + [v] <==> w in numbers || w == v;
    assert forall w :: w in stored + [0] <==> w in stored || w == 0;
    assert Total([v]) == v && Total([0]) == 0;
    hide Total;
  }

  lemma OneOfBoth(names: seq<Str>, row: Row, preds: seq<Predicate>, agg: Str)
    ensures var s, n := OneStored(names, row, preds, agg), OneNumber(names, row, preds, agg);
            (s == [] && n == []) || (|s| == 1 && s == n) || (s == [0] && n == [])
    ensures |OneStored(names, row, preds, agg)| <= if Matches(names, row, preds) then 1 else 0
  {
    hide Matches, FindColumn;
  }

  lemma {:induction false} StoredAreNumbers(names: seq<Str>, rows: seq<Row>, preds: seq<Predicate>, agg: Str)
    ensures SameButZeros(MatchedStored(names, rows, preds, agg), MatchedNumbers(names, rows, preds, agg))
    ensures |MatchedStored(names, rows, preds, agg)| <= MatchCount(names, rows, preds)
  {
    if rows != [] {
      var rest, last := rows[..|rows| - 1], rows[|rows| - 1];
      assert rows == rest + [last];
      hide *;
      StoredAreNumbers(names, rest, preds, agg);
      StoredSnoc(names, rest, last, preds, agg);
      NumbersSnoc(names, rest, last, preds, agg);
      MatchSnoc(names, rest, last, preds, agg);
      OneOfBoth(names, last, preds, agg);
      var stored, numbers, one := MatchedStored(names, rest, preds, agg), MatchedNumbers(names, rest, preds, agg), OneStored(names, last, preds, agg);
      assert stored + [] == stored && numbers + [] == numbers;
      if one != [] {
        assert one == [one[0]];
        AddBoth(stored, numbers, one[0]);
      }
    }
  }

  lemma SameRange(x: seq<int64>, y: seq<int64>)
    requires x != [] && y != [] && forall v :: v in x <==> v in y
    ensures Minimum(x) == Minimum(y) && Maximum(x) == Maximum(y) && Distinct(x) == Distinct(y)
  {
  }

  /** A report over values with some zeros more is the reference exactly if zero is a
      value anyway; without such zeros, if no part with only nulls moves an extreme. */
  lemma ZerosHarmless(all: seq<int64>, values: seq<int64>, count: nat, zeros: bool, nulls: bool)
    requires Total(all) == Total(values) && forall v :: v in all <==> v in values || (v == 0 && zeros)
    ensures Reported(all, count, nulls) == PartResult(Part(values, count))
            <==> if zeros then 0 in values else values == [] || !nulls || Minimum(values) <= 0 <= Maximum(values)
  {
    ReportedExact(values, count, nulls);
    if zeros {
      assert 0 in all && all != [];
      if 0 in values {
        SameRange(all, values);
        hide Total, Minimum, Maximum, Sum64, Distinct;
      } else {
        assert 0 in Distinct(all) && 0 !in Distinct(values);
        ReportedParts(all, count, nulls);
        PartDistinct(values, count);
        hide Total, Minimum, Maximum, Sum64, Distinct, Reported, PartResult;
      }
    } else {
      if values == [] {
        if all != [] { assert all[0] in all; }
      } else {
        assert values[0] in all;
        SameRange(all, values);
      }
      hide Total, Minimum, Maximum, Sum64, Distinct;
    }
  }

  lemma PartDistinct(values: seq<int64>, count: nat)
    ensures PartResult(Part(values, count)).distinct == Distinct(values)
  {
    hide Total, Minimum, Maximum, Sum64;
  }

  // ----- in-memory batches

  lemma ProjectedNumber(batch: Batch, names: seq<Str>, types: seq<nat>, preds: seq<Predicate>, agg: Str, r: nat)
    requires Conforms(batch, names, types) && r < batch.numRows && OnTable(names, preds, agg)
    ensures OneNumber(names, RowAt(Project(batch, names, types), r), preds, agg) == OneNumber(batch.names, RowAt(batch, r), preds, agg)
  {
    ProjectedRow(batch, names, types, preds, agg, r);
    if agg != [] { ProjectedCell(batch, names, types, agg, r); }
    hide Matches, FindColumn, RowAt, Project, Conforms;
  }

  lemma RowsToNext(batch: Batch, n: nat)
    requires batch.Valid() && n < batch.numRows
    ensures RowsTo(batch, n + 1) == RowsTo(batch, n) + [RowAt(batch, n)]
    ensures RowsTo(batch, 0) == []
  {
    hide RowAt;
  }

  lemma ProjectedValid(batch: Batch, names: seq<Str>, types: seq<nat>)
    requires Conforms(batch, names, types)
    ensures batch.Valid() && Project(batch, names, types).Valid() && Project(batch, names, types).numRows == batch.numRows
    ensures RowsTo(batch, 0) == [] == RowsTo(Project(batch, names, types), 0)
  {
  }

  lemma {:induction false} ProjectedNumbers(batch: Batch, names: seq<Str>, types: seq<nat>, preds: seq<Predicate>, agg: Str, n: nat)
    requires Conforms(batch, names, types) && n <= batch.numRows && OnTable(names, preds, agg)
    ensures MatchedNumbers(names, RowsTo(Project(batch, names, types), n), preds, agg) == MatchedNumbers(batch.names, RowsTo(batch, n), preds, agg)
  {
    hide *;
    ProjectedValid(batch, names, types);
    var p := Project(batch, names, types);
    if n == 0 {
      NoRows(names, preds, agg);
      NoRows(batch.names, preds, agg);
    } else {
      ProjectedNumbers(batch, names, types, preds, agg, n - 1);
      RowsToNext(batch, n - 1);
      RowsToNext(p, n - 1);
      NumbersSnoc(names, RowsTo(p, n - 1), RowAt(p, n - 1), preds, agg);
      NumbersSnoc(batch.names, RowsTo(batch, n - 1), RowAt(batch, n - 1), preds, agg);
      ProjectedNumber(batch, names, types, preds, agg, n - 1);
    }
  }

  lemma OneBatchNumbers(batch: Batch, names: seq<Str>, types: seq<nat>, preds: seq<Predicate>, agg: Str)
    requires Conforms(batch, names, types) && OnTable(names, preds, agg)
    ensures batch.Valid()
    ensures MatchedNumbers(batch.names, RowsTo(batch, batch.numRows), preds, agg) == MatchedNumbers(names, RowsOf(Project(batch, names, types)), preds, agg)
  {
    ProjectedNumbers(batch, names, types, preds, agg, batch.numRows);
    hide MatchedNumbers;
  }

  lemma NoBatchesNumbers(batches: seq<Batch>, names: seq<Str>, types: seq<nat>, preds: seq<Predicate>, agg: Str)
    requires AllValid(batches)
    ensures AllConform(batches[..0], names, types)
    ensures BatchesNumbers(batches, preds, agg, 0) == [] == MatchedNumbers(names, BatchRows(batches[..0], names, types), preds, agg)
  {
  }

  lemma {:induction false} BatchesNumbersAre(batches: seq<Batch>, names: seq<Str>, types: seq<nat>, preds: seq<Predicate>, agg: Str, k: nat)
    requires AllConform(batches, names, types) && OnTable(names, preds, agg) && k <= |batches| && AllValid(batches)
    ensures AllConform(batches[..k], names, types)
    ensures BatchesNumbers(batches, preds, agg, k) == MatchedNumbers(names, BatchRows(batches[..k], names, types), preds, agg)
  {
    hide *;
    if k == 0 {
      NoBatchesNumbers(batches, names, types, preds, agg);
    } else {
      BatchesNumbersAre(batches, names, types, preds, agg, k - 1);
      PrefixNext(batches, names, types, preds, agg, k - 1);
      BatchesNext(batches, preds, agg, k - 1);
      OneBatchNumbers(batches[k - 1], names, types, preds, agg);
      NumbersAppend(names, BatchRows(batches[..k - 1], names, types), RowsOf(Project(batches[k - 1], names, types)), preds, agg);
    }
  }

  /** What in-memory rows report. */
  function RowsPart(names: seq<Str>, rows: seq<Row>, preds: seq<Predicate>, agg: Str): Part {
    Part(MatchedNumbers(names, rows, preds, agg), MatchCount(names, rows, preds))
  }

  lemma MemPartRows(batches: seq<Batch>, names: seq<Str>, types: seq<nat>, preds: seq<Predicate>, agg: Str)
    requires AllConform(batches, names, types) && OnTable(names, preds, agg) && AllValid(batches)
    ensures MemPart(batches, preds, agg) == RowsPart(names, BatchRows(batches, names, types), preds, agg)
  {
    assert batches[..|batches|] == batches;
    BatchesNumbersAre(batches, names, types, preds, agg, |batches|);
    AllBatches(batches, names, types, preds, agg);
    hide CountAll, BatchesNumbers, MatchCount, MatchedNumbers, BatchRows, AllConform, OnTable, AllValid;
  }

  // ----- persisted groups

  lemma GroupReports(t: TableState, g: nat, plan: RowGroup, preds: seq<Predicate>, agg: Str, run: Runner, ctxs: seq<Context>)
    requires g < |t.groups| && GroupInDomain(t, g, plan, preds, agg, run) && Roomy(t.groups[g], ctxs)
    ensures Executable(run, t.groups[g], ctxs) && Sized(t.groups[g])
    ensures var alive := GroupAlive(t.groups[g], t.types, |t.groups[g].blocks|);
            GroupPart(run, t.groups[g], ctxs) == Part(MatchedStored(t.names, alive, preds, agg), MatchCount(t.names, alive, preds))
  {
    var rg := t.groups[g];
    var batch :| StoresBatch(rg, t.names, t.types, batch) && QueryDomain(Setting(plan, rg, batch, preds, agg), run);
    assert batch.names == t.names;
    hide *;
    StoredParts(rg, t.names, t.types, batch);
    ExecuteRefines(Setting(plan, rg, batch, preds, agg), run, ctxs);
    ResultRefines(Setting(plan, rg, batch, preds, agg), run, ctxs);
    GroupRowsAre(rg, t.names, t.types, batch);
  }

  lemma NoGroupsReport(t: TableState, run: Runner, preds: seq<Predicate>, agg: Str, ctxs: seq<seq<Context>>)
    requires ExecutableAll(run, t.groups, ctxs) && AllSized(t.groups)
    ensures Values(GroupParts(run, t.groups, ctxs, 0)) == [] && Counts(GroupParts(run, t.groups, ctxs, 0)) == 0
    ensures PersistedRows(t.groups, t.types, 0) == [] && MatchCount(t.names, [], preds) == 0 && MatchedStored(t.names, [], preds, agg) == []
  {
    hide Executable, Sized;
  }

  lemma PartsSnoc(parts: seq<Part>, p: Part)
    ensures Values(parts + [p]) == Values(parts) + p.values && Counts(parts + [p]) == Counts(parts) + p.count
    ensures SomeNull(parts + [p]) <==> SomeNull(parts) || AllNull(p)
  {
    assert (parts + [p])[..|parts|] == parts;
    assert (parts + [p])[..|parts| + 1] == parts + [p];
    PartsNext(parts + [p], |parts|);
    hide Values, Counts, SomeNull, AllNull;
  }

  lemma {:induction false} GroupsReport(t: TableState, plan: RowGroup, preds: seq<Predicate>, agg: Str, run: Runner, ctxs: seq<seq<Context>>, n: nat)
    requires GroupsInDomain(t, plan, preds, agg, run) && AllRoomy(t.groups, ctxs)
    requires ExecutableAll(run, t.groups, ctxs) && AllSized(t.groups) && n <= |t.groups|
    ensures Values(GroupParts(run, t.groups, ctxs, n)) == MatchedStored(t.names, PersistedRows(t.groups, t.types, n), preds, agg)
    ensures Counts(GroupParts(run, t.groups, ctxs, n)) == MatchCount(t.names, PersistedRows(t.groups, t.types, n), preds)
  {
    hide *;
    if n == 0 {
      NoGroupsReport(t, run, preds, agg, ctxs);
    } else {
      var g := n - 1;
      GroupsReport(t, plan, preds, agg, run, ctxs, g);
      DomainAt(t, plan, preds, agg, run, ctxs, g);
      GroupReports(t, g, plan, preds, agg, run, ctxs[g]);
      GroupPartsNext(run, t.groups, ctxs, g);
      PartsSnoc(GroupParts(run, t.groups, ctxs, g), GroupPart(run, t.groups[g], ctxs[g]));
      PersistedNext(t.groups, t.types, g);
      var before, own := PersistedRows(t.groups, t.types, g), GroupAlive(t.groups[g], t.types, |t.groups[g].blocks|);
      MatchAppend(t.names, before, own, preds, agg);
      NumbersAppend(t.names, before, own, preds, agg);
    }
  }

  lemma {:induction false} GroupsNeverNull(run: Runner, groups: seq<RowGroup>, ctxs: seq<seq<Context>>, n: nat)
    requires ExecutableAll(run, groups, ctxs) && run.aggIndex.Some? && n <= |groups|
    ensures !SomeNull(GroupParts(run, groups, ctxs, n))
  {
    hide *;
    if n == 0 {
      NoGroupParts(run, groups, ctxs);
      NothingNull();
    } else {
      GroupsNeverNull(run, groups, ctxs, n - 1);
      GroupPartsNext(run, groups, ctxs, n - 1);
      GroupPartProper(run, groups[n - 1], ctxs[n - 1]);
      PartsSnoc(GroupParts(run, groups, ctxs, n - 1), GroupPart(run, groups[n - 1], ctxs[n - 1]));
    }
  }

  lemma NothingNull()
    ensures !SomeNull([])
  {
  }

  /** A plan with an aggregate reads an aggregate column. */
  lemma AggregateFound(t: TableState, g: nat, plan: RowGroup, preds: seq<Predicate>, agg: Str, run: Runner)
    requires g < |t.groups| && GroupInDomain(t, g, plan, preds, agg, run) && agg != []
    ensures run.aggIndex.Some?
  {
    var batch :| StoresBatch(t.groups[g], t.names, t.types, batch) && QueryDomain(Setting(plan, t.groups[g], batch, preds, agg), run);
    var s := Setting(plan, t.groups[g], batch, preds, agg);
    assert s.agg != [];
    hide *;
    DomainRefinable(s, run);
    RefinableParts(s, run);
    var ops := ReadyParts(s, run);
  }

  lemma GroupsHaveValues(t: TableState, plan: RowGroup, preds: seq<Predicate>, agg: Str, run: Runner, ctxs: seq<seq<Context>>)
    requires GroupsInDomain(t, plan, preds, agg, run) && AllRoomy(t.groups, ctxs) && ExecutableAll(run, t.groups, ctxs) && agg != []
    ensures !SomeNull(GroupParts(run, t.groups, ctxs, |t.groups|))
  {
    hide *;
    if |t.groups| == 0 {
      NoGroupParts(run, t.groups, ctxs);
      NothingNull();
    } else {
      DomainAt(t, plan, preds, agg, run, ctxs, 0);
      AggregateFound(t, 0, plan, preds, agg, run);
      GroupsNeverNull(run, t.groups, ctxs, |t.groups|);
    }
  }

  // ----- the table

  function FrozenBatches(t: TableState): seq<Batch> { if t.frozen.Some? then t.frozen.value else [] }

  /** Rows matched, and none of them had a value to aggregate. */
  predicate OnlyNulls(names: seq<Str>, rows: seq<Row>, preds: seq<Predicate>, agg: Str) {
    AllNull(RowsPart(names, rows, preds, agg))
  }

  lemma FrozenPart(t: TableState, preds: seq<Predicate>, agg: Str)
    requires OnTable(t.names, preds, agg)
    requires t.frozen.Some? ==> AllConform(t.frozen.value, t.names, t.types) && AllValid(t.frozen.value)
    ensures AllValid(FrozenBatches(t))
    ensures MemPart(FrozenBatches(t), preds, agg) == RowsPart(t.names, FrozenRows(t), preds, agg)
  {
    if t.frozen.Some? {
      MemPartRows(t.frozen.value, t.names, t.types, preds, agg);
    } else {
      NoBatchNumbers([], preds, agg);
    }
    hide BatchRows, AllConform, OnTable, BatchesNumbers, CountAll;
  }

  /** Values and number of matches of a table's parts. */
  lemma TablePartsReport(t: TableState, plan: RowGroup, preds: seq<Predicate>, agg: Str, run: Runner, ctxs: seq<seq<Context>>)
    requires TableDomain(t, plan, preds, agg, run, ctxs)
    ensures Valid(t) && ExecutableAll(run, t.groups, ctxs) && AllValid(t.active) && AllValid(FrozenBatches(t))
    ensures var parts := TableParts(run, t.groups, ctxs, t.active, FrozenBatches(t));
            && Values(parts) == MatchedStored(t.names, PersistedRows(t.groups, t.types, |t.groups|), preds, agg)
                                + MatchedNumbers(t.names, BatchRows(t.active, t.names, t.types), preds, agg)
                                + MatchedNumbers(t.names, FrozenRows(t), preds, agg)
            && Counts(parts) == MatchCount(t.names, PersistedRows(t.groups, t.types, |t.groups|), preds)
                                + MatchCount(t.names, BatchRows(t.active, t.names, t.types), preds)
                                + MatchCount(t.names, FrozenRows(t), preds)
            && (agg != [] ==> (SomeNull(parts) <==> OnlyNulls(t.names, BatchRows(t.active, t.names, t.types), preds, agg)
                                                    || OnlyNulls(t.names, FrozenRows(t), preds, agg)))
  {
    hide *;
    TableDomainParts(t, plan, preds, agg, run, ctxs);
    ContentIs(t);
    FrozenPart(t, preds, agg);
    MemPartRows(t.active, t.names, t.types, preds, agg);
    GroupsReport(t, plan, preds, agg, run, ctxs, |t.groups|);
    if agg != [] { GroupsHaveValues(t, plan, preds, agg, run, ctxs); }
    TablePartsAre(run, t.groups, ctxs, t.active, FrozenBatches(t));
    var groups, active, frozen := GroupParts(run, t.groups, ctxs, |t.groups|), MemPart(t.active, preds, agg), MemPart(FrozenBatches(t), preds, agg);
    PartsSnoc(groups, active);
    PartsSnoc(groups + [active], frozen);
    RowsPartIs(t.names, BatchRows(t.active, t.names, t.types), preds, agg);
    RowsPartIs(t.names, FrozenRows(t), preds, agg);
  }

  lemma RowsPartIs(names: seq<Str>, rows: seq<Row>, preds: seq<Predicate>, agg: Str)
    ensures RowsPart(names, rows, preds, agg).values == MatchedNumbers(names, rows, preds, agg)
    ensures RowsPart(names, rows, preds, agg).count == MatchCount(names, rows, preds)
    ensures OnlyNulls(names, rows, preds, agg) <==> AllNull(RowsPart(names, rows, preds, agg))
  {
    hide MatchedNumbers, MatchCount;
  }

  /** The row's aggregate is null. */
  predicate NullAt(names: seq<Str>, row: Row, agg: Str) {
    var f := FindColumn(names, agg);
    agg != [] && f.Some? && f.value < |row| && row[f.value] == IntCell(None)
  }

  /** A matching row's aggregate is null. */
  ghost predicate NullMatch(names: seq<Str>, rows: seq<Row>, preds: seq<Predicate>, agg: Str) {
    exists r :: 0 <= r < |rows| && Matches(names, rows[r], preds) && NullAt(names, rows[r], agg)
  }

  lemma NullHere(names: seq<Str>, row: Row, preds: seq<Predicate>, agg: Str)
    ensures |OneNumber(names, row, preds, agg)| < |OneStored(names, row, preds, agg)|
            <==> Matches(names, row, preds) && NullAt(names, row, agg)
    ensures |OneNumber(names, row, preds, agg)| <= |OneStored(names, row, preds, agg)|
  {
    hide Satisfies, FindColumn;
  }

  lemma NullSnoc(names: seq<Str>, rows: seq<Row>, row: Row, preds: seq<Predicate>, agg: Str)
    ensures NullMatch(names, rows + [row], preds, agg)
            <==> NullMatch(names, rows, preds, agg) || (Matches(names, row, preds) && NullAt(names, row, agg))
  {
    hide Matches, NullAt;
    var more := rows + [row];
    if NullMatch(names, rows, preds, agg) {
      var r :| 0 <= r < |rows| && Matches(names, rows[r], preds) && NullAt(names, rows[r], agg);
      assert more[r] == rows[r];
    }
    assert more[|rows|] == row;
    if NullMatch(names, more, preds, agg) {
      var r :| 0 <= r < |more| && Matches(names, more[r], preds) && NullAt(names, more[r], agg);
      assert r < |rows| ==> more[r] == rows[r];
    }
  }

  /** Fewer values than the tiles hold exactly when some match has a null. */
  lemma {:induction false} NullsMissing(names: seq<Str>, rows: seq<Row>, preds: seq<Predicate>, agg: Str)
    ensures |MatchedNumbers(names, rows, preds, agg)| < |MatchedStored(names, rows, preds, agg)| <==> NullMatch(names, rows, preds, agg)
  {
    if rows != [] {
      var rest, last := rows[..|rows| - 1], rows[|rows| - 1];
      assert rows == rest + [last];
      hide *;
      NullsMissing(names, rest, preds, agg);
      StoredSnoc(names, rest, last, preds, agg);
      NumbersSnoc(names, rest, last, preds, agg);
      StoredLonger(names, rest, preds, agg);
      NullHere(names, last, preds, agg);
      NullSnoc(names, rest, last, preds, agg);
    }
  }

  lemma StoredLonger(names: seq<Str>, rows: seq<Row>, preds: seq<Predicate>, agg: Str)
    ensures |MatchedNumbers(names, rows, preds, agg)| <= |MatchedStored(names, rows, preds, agg)|
  {
    StoredAreNumbers(names, rows, preds, agg);
    hide MatchedNumbers, MatchedStored, MatchCount;
  }

  /** An in-memory part has matches, and nothing but nulls to aggregate. */
  ghost predicate MemoryNulls(t: TableState, preds: seq<Predicate>, agg: Str)
    requires Valid(t)
  {
    OnlyNulls(t.names, BatchRows(t.active, t.names, t.types), preds, agg) || OnlyNulls(t.names, FrozenRows(t), preds, agg)
  }

  /** The zeros that stand for nulls do no harm: a matching null of a row group counts
      as a zero, which must be a value anyway; an in-memory part with nothing but nulls
      offers a zero for minimum and maximum, which must lie between them. */
  ghost predicate ZeroHarmless(t: TableState, preds: seq<Predicate>, agg: Str)
    requires Valid(t)
  {
    var values := MatchedNumbers(t.names, Content(t), preds, agg);
    if NullMatch(t.names, PersistedRows(t.groups, t.types, |t.groups|), preds, agg) then 0 in values
    else values == [] || !MemoryNulls(t, preds, agg) || Minimum(values) <= 0 <= Maximum(values)
  }

  lemma ZeroHarmlessIs(t: TableState, preds: seq<Predicate>, agg: Str, persisted: seq<Row>)
    requires Valid(t) && AllSized(t.groups) && persisted == PersistedRows(t.groups, t.types, |t.groups|)
    ensures var values := MatchedNumbers(t.names, Content(t), preds, agg);
            ZeroHarmless(t, preds, agg) <==>
              if NullMatch(t.names, persisted, preds, agg) then 0 in values
              else values == [] || !MemoryNulls(t, preds, agg) || Minimum(values) <= 0 <= Maximum(values)
  {
    hide NullMatch, Minimum, Maximum, Content, MemoryNulls, MatchedNumbers, PersistedRows;
  }

  lemma MemoryNullsIs(t: TableState, preds: seq<Predicate>, agg: Str)
    requires Valid(t)
    ensures |t.names| == |t.types| && AllConform(t.active, t.names, t.types)
    ensures t.frozen.Some? ==> AllConform(t.frozen.value, t.names, t.types)
    ensures MemoryNulls(t, preds, agg) <==>
            OnlyNulls(t.names, BatchRows(t.active, t.names, t.types), preds, agg) || OnlyNulls(t.names, FrozenRows(t), preds, agg)
  {
    hide OnlyNulls, BatchRows, FrozenRows, Stores, Sized;
  }

  /** Total and members of three lists, two of them swapped and the first with zeros. */
  lemma SwapWithZeros(stored: seq<int64>, numbers: seq<int64>, x: seq<int64>, y: seq<int64>)
    requires SameButZeros(stored, numbers)
    ensures Total(stored + y + x) == Total(numbers + x + y)
    ensures forall v :: v in stored + y + x <==> v in numbers + x + y || (v == 0 && |numbers| < |stored|)
  {
    TotalAppend(stored, y);
    TotalAppend(stored + y, x);
    TotalAppend(numbers, x);
    TotalAppend(numbers + x, y);
    hide Total;
  }

  lemma ReferenceIs(names: seq<Str>, rows: seq<Row>, preds: seq<Predicate>, agg: Str)
    ensures Reference(names, rows, preds, agg) == PartResult(Part(MatchedNumbers(names, rows, preds, agg), MatchCount(names, rows, preds)))
  {
    hide PartResult, MatchedNumbers, MatchCount;
  }

  lemma ReportedNothing(count: nat, nulls: bool)
    ensures Reported([], count, nulls) == PartResult(Part([], count))
  {
  }

  lemma NeverNull(names: seq<Str>, rows: seq<Row>, preds: seq<Predicate>)
    ensures !NullMatch(names, rows, preds, [])
  {
    hide Matches, FindColumn;
  }

  /** Without an aggregate only the count is reported. */
  lemma CountOnly(t: TableState, plan: RowGroup, preds: seq<Predicate>, run: Runner, ctxs: seq<seq<Context>>)
    requires TableDomain(t, plan, preds, [], run, ctxs)
    ensures Valid(t) && ExecutableAll(run, t.groups, ctxs) && AllValid(t.active) && AllValid(FrozenBatches(t))
    ensures TableReport(run, t.groups, ctxs, t.active, FrozenBatches(t)) == Reference(t.names, Content(t), preds, [])
    ensures ZeroHarmless(t, preds, [])
  {
    hide *;
    TablePartsReport(t, plan, preds, [], run, ctxs);
    ReportIs(run, t.groups, ctxs, t.active, FrozenBatches(t));
    ContentIs(t);
    var names, persisted, frozen, active := t.names, PersistedRows(t.groups, t.types, |t.groups|), FrozenRows(t), BatchRows(t.active, t.names, t.types);
    NothingStored(names, persisted, preds);
    NothingStored(names, frozen, preds);
    NothingStored(names, active, preds);
    NothingStored(names, Content(t), preds);
    MatchAppend(names, persisted, frozen, preds, []);
    MatchAppend(names, persisted + frozen, active, preds, []);
    NeverNull(names, persisted, preds);
    ZeroHarmlessIs(t, preds, [], persisted);
    ReferenceIs(names, Content(t), preds, []);
    var parts := TableParts(run, t.groups, ctxs, t.active, FrozenBatches(t));
    ReportedNothing(Counts(parts), SomeNull(parts));
  }

  /** The result of a table (count, sum, minimum, maximum, distinct values) is the
      reference's on the table's rows if and only if the zeros that stand for nulls do
      no harm. */
  lemma TableResultExact(t: TableState, plan: RowGroup, preds: seq<Predicate>, agg: Str, run: Runner, ctxs: seq<seq<Context>>)
    requires TableDomain(t, plan, preds, agg, run, ctxs)
    ensures Valid(t) && ExecutableAll(run, t.groups, ctxs) && AllValid(t.active) && AllValid(FrozenBatches(t))
    ensures TableReport(run, t.groups, ctxs, t.active, FrozenBatches(t)) == Reference(t.names, Content(t), preds, agg)
            <==> ZeroHarmless(t, preds, agg)
  {
    hide *;
    if agg == [] { CountOnly(t, plan, preds, run, ctxs); } else { AggregateExact(t, plan, preds, agg, run, ctxs); }
  }

  lemma AggregateExact(t: TableState, plan: RowGroup, preds: seq<Predicate>, agg: Str, run: Runner, ctxs: seq<seq<Context>>)
    requires TableDomain(t, plan, preds, agg, run, ctxs) && agg != []
    ensures Valid(t) && ExecutableAll(run, t.groups, ctxs) && AllValid(t.active) && AllValid(FrozenBatches(t))
    ensures TableReport(run, t.groups, ctxs, t.active, FrozenBatches(t)) == Reference(t.names, Content(t), preds, agg)
            <==> ZeroHarmless(t, preds, agg)
  {
    hide *;
    TablePartsReport(t, plan, preds, agg, run, ctxs);
    ReportIs(run, t.groups, ctxs, t.active, FrozenBatches(t));
    ContentIs(t);
    var names, persisted, frozen, active := t.names, PersistedRows(t.groups, t.types, |t.groups|), FrozenRows(t), BatchRows(t.active, t.names, t.types);
    var stored, numbers := MatchedStored(names, persisted, preds, agg), MatchedNumbers(names, persisted, preds, agg);
    var x, y := MatchedNumbers(names, frozen, preds, agg), MatchedNumbers(names, active, preds, agg);
    NumbersAppend(names, persisted, frozen, preds, agg);
    NumbersAppend(names, persisted + frozen, active, preds, agg);
    MatchAppend(names, persisted, frozen, preds, agg);
    MatchAppend(names, persisted + frozen, active, preds, agg);
    StoredAreNumbers(names, persisted, preds, agg);
    NullsMissing(names, persisted, preds, agg);
    SwapWithZeros(stored, numbers, x, y);
    ReferenceIs(names, Content(t), preds, agg);
    MemoryNullsIs(t, preds, agg);
    ZeroHarmlessIs(t, preds, agg, persisted);
    ZerosHarmless(stored + y + x, numbers + x + y, MatchCount(names, Content(t), preds), NullMatch(names, persisted, preds, agg), MemoryNulls(t, preds, agg));
  }

  /** Without null aggregates on matching rows the result of a table is that of one
      pass over the values of its matching rows. */
  lemma TableResultRefines(t: TableState, plan: RowGroup, preds: seq<Predicate>, agg: Str, run: Runner, ctxs: seq<seq<Context>>)
    requires TableDomain(t, plan, preds, agg, run, ctxs)
    requires |MatchedNumbers(t.names, Content(t), preds, agg)| == MatchCount(t.names, Content(t), preds)
    ensures Valid(t) && ExecutableAll(run, t.groups, ctxs) && AllValid(t.active) && AllValid(FrozenBatches(t))
    ensures TableReport(run, t.groups, ctxs, t.active, FrozenBatches(t)) == Summary(MatchedNumbers(t.names, Content(t), preds, agg))
  {
    hide *;
    TableResultExact(t, plan, preds, agg, run, ctxs);
    AllPresent(t, preds, agg);
    ReferenceIs(t.names, Content(t), preds, agg);
    OwnCount(MatchedNumbers(t.names, Content(t), preds, agg));
  }

  lemma OwnCount(values: seq<int64>)
    ensures PartResult(Part(values, |values|)) == Summary(values)
  {
    hide Sum64, Total, Minimum, Maximum, Distinct;
  }

  lemma CountedPart(names: seq<Str>, rows: seq<Row>, preds: seq<Predicate>, agg: Str)
    ensures |MatchedNumbers(names, rows, preds, agg)| <= MatchCount(names, rows, preds)
    ensures |MatchedNumbers(names, rows, preds, agg)| == MatchCount(names, rows, preds) ==>
            !NullMatch(names, rows, preds, agg) && !OnlyNulls(names, rows, preds, agg)
  {
    StoredAreNumbers(names, rows, preds, agg);
    NullsMissing(names, rows, preds, agg);
    hide MatchedNumbers, MatchedStored, MatchCount, NullMatch;
  }

  lemma AllPresent(t: TableState, preds: seq<Predicate>, agg: Str)
    requires Valid(t) && |MatchedNumbers(t.names, Content(t), preds, agg)| == MatchCount(t.names, Content(t), preds)
    ensures ZeroHarmless(t, preds, agg)
  {
    hide *;
    ContentIs(t);
    var names, persisted, frozen, active := t.names, PersistedRows(t.groups, t.types, |t.groups|), FrozenRows(t), BatchRows(t.active, t.names, t.types);
    NumbersAppend(names, persisted, frozen, preds, agg);
    NumbersAppend(names, persisted + frozen, active, preds, agg);
    MatchAppend(names, persisted, frozen, preds, agg);
    MatchAppend(names, persisted + frozen, active, preds, agg);
    CountedPart(names, persisted, preds, agg);
    CountedPart(names, frozen, preds, agg);
    CountedPart(names, active, preds, agg);
    MemoryNullsIs(t, preds, agg);
    ZeroHarmlessIs(t, preds, agg, persisted);
  }
}
