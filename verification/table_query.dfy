/** A query on a whole table: compiled execution over the persisted groups plus
    row-by-row execution over the in-memory batches answers the query on the
    table's rows. */
module TableQueries {
  import opened Words
  import opened Storage
  import opened MemTables
  import opened AdaptiveIngester
  import opened BlockReader
  import opened Rows
  import opened TableStates
  import opened MetadataRegistry
  import opened PromotionDaemon
  import opened LsmRuns
  import opened MicroOps
  import opened QueryPlanner
  import opened PlanMeaning
  import opened QueryRunner
  import opened StoredRows
  import opened QueryRefinement

  // ----- in-memory batches

  /** Predicates and aggregate are about columns of the table. */
  predicate OnTable(names: seq<Str>, preds: seq<Predicate>, agg: Str) {
    && (forall i :: 0 <= i < |preds| ==> FindColumn(names, preds[i].column).Some?)
    && (agg == [] || FindColumn(names, agg).Some?)
  }

  lemma ProjectedCell(batch: Batch, names: seq<Str>, types: seq<nat>, column: Str, r: nat)
    requires Conforms(batch, names, types) && r < batch.numRows && FindColumn(names, column).Some?
    ensures FindColumn(batch.names, column).Some?
    ensures RowAt(Project(batch, names, types), r)[FindColumn(names, column).value]
            == RowAt(batch, r)[FindColumn(batch.names, column).value]
  {
    hide FindColumn;
    var f := FindColumn(names, column).value;
    assert names[f] == column;
    assert Picked(batch, names, types, f) == batch.columns[FindColumn(batch.names, column).value];
  }

  lemma ProjectedRow(batch: Batch, names: seq<Str>, types: seq<nat>, preds: seq<Predicate>, agg: Str, r: nat)
    requires Conforms(batch, names, types) && r < batch.numRows && OnTable(names, preds, agg)
    ensures Matches(names, RowAt(Project(batch, names, types), r), preds) == Matches(batch.names, RowAt(batch, r), preds)
    ensures Contribution(names, RowAt(Project(batch, names, types), r), agg) == Contribution(batch.names, RowAt(batch, r), agg)
  {
    var x, y := RowAt(Project(batch, names, types), r), RowAt(batch, r);
    hide FindColumn, CellMatches, RowAt, Project;
    forall i | 0 <= i < |preds| ensures Satisfies(names, x, preds[i]) == Satisfies(batch.names, y, preds[i]) {
      ProjectedCell(batch, names, types, preds[i].column, r);
    }
    if agg != [] { ProjectedCell(batch, names, types, agg, r); }
    hide Satisfies;
  }

  lemma {:induction false} ProjectedRows(batch: Batch, names: seq<Str>, types: seq<nat>, preds: seq<Predicate>, agg: Str, n: nat)
    requires Conforms(batch, names, types) && n <= batch.numRows && OnTable(names, preds, agg)
    ensures MatchCount(names, RowsTo(Project(batch, names, types), n), preds) == MatchCount(batch.names, RowsTo(batch, n), preds)
    ensures MatchSum(names, RowsTo(Project(batch, names, types), n), preds, agg) == MatchSum(batch.names, RowsTo(batch, n), preds, agg)
  {
    var p := Project(batch, names, types);
    if n > 0 {
      hide Conforms, Project, Matches, MatchCount, MatchSum, Contribution, RowAt, OnTable;
      ProjectedRows(batch, names, types, preds, agg, n - 1);
      MatchSnoc(names, RowsTo(p, n - 1), RowAt(p, n - 1), preds, agg);
      MatchSnoc(batch.names, RowsTo(batch, n - 1), RowAt(batch, n - 1), preds, agg);
      ProjectedRow(batch, names, types, preds, agg, n - 1);
    }
  }

  lemma OneBatch(batch: Batch, names: seq<Str>, types: seq<nat>, preds: seq<Predicate>, agg: Str)
    requires Conforms(batch, names, types) && OnTable(names, preds, agg)
    ensures batch.Valid()
    ensures CountTo(batch, preds, batch.numRows) == MatchCount(names, RowsOf(Project(batch, names, types)), preds)
    ensures SumTo(batch, preds, agg, batch.numRows) == MatchSum(names, RowsOf(Project(batch, names, types)), preds, agg)
  {
    BatchAnswer(batch, preds, agg, batch.numRows);
    ProjectedRows(batch, names, types, preds, agg, batch.numRows);
    hide MatchCount, MatchSum, CountTo, SumTo;
  }

  lemma PrefixNext(batches: seq<Batch>, names: seq<Str>, types: seq<nat>, preds: seq<Predicate>, agg: Str, k: nat)
    requires AllConform(batches, names, types) && k < |batches| && AllValid(batches)
    ensures Conforms(batches[k], names, types) && batches[k].Valid()
    ensures AllConform(batches[..k], names, types) && AllConform(batches[..k + 1], names, types)
    ensures BatchRows(batches[..k + 1], names, types) == BatchRows(batches[..k], names, types) + RowsOf(Project(batches[k], names, types))
    ensures CountAll(batches, preds, k + 1) == CountAll(batches, preds, k) + CountTo(batches[k], preds, batches[k].numRows)
    ensures SumAll(batches, preds, agg, k + 1) == SumAll(batches, preds, agg, k) + SumTo(batches[k], preds, agg, batches[k].numRows)
  {
    hide Conforms, Project, CountTo, SumTo, RowsOf, Batch.Valid;
    assert batches[..k + 1] == batches[..k] + [batches[k]];
    BatchRowsNext(batches[..k], batches[k], names, types);
  }

  lemma NoBatches(batches: seq<Batch>, names: seq<Str>, types: seq<nat>, preds: seq<Predicate>, agg: Str)
    requires AllValid(batches)
    ensures AllConform(batches[..0], names, types)
    ensures CountAll(batches, preds, 0) == 0 == MatchCount(names, BatchRows(batches[..0], names, types), preds)
    ensures SumAll(batches, preds, agg, 0) == 0 == MatchSum(names, BatchRows(batches[..0], names, types), preds, agg)
  {
  }

  lemma {:induction false} BatchesAnswer(batches: seq<Batch>, names: seq<Str>, types: seq<nat>, preds: seq<Predicate>, agg: Str, k: nat)
    requires AllConform(batches, names, types) && OnTable(names, preds, agg) && k <= |batches| && AllValid(batches)
    ensures AllConform(batches[..k], names, types)
    ensures CountAll(batches, preds, k) == MatchCount(names, BatchRows(batches[..k], names, types), preds)
    ensures SumAll(batches, preds, agg, k) == MatchSum(names, BatchRows(batches[..k], names, types), preds, agg)
  {
    hide *;
    if k == 0 {
      NoBatches(batches, names, types, preds, agg);
    } else {
      BatchesAnswer(batches, names, types, preds, agg, k - 1);
      PrefixNext(batches, names, types, preds, agg, k - 1);
      OneBatch(batches[k - 1], names, types, preds, agg);
      MatchAppend(names, BatchRows(batches[..k - 1], names, types), RowsOf(Project(batches[k - 1], names, types)), preds, agg);
    }
  }

  // ----- persisted groups

  /** The query is in the domain of the end-to-end theorem for this group. */
  ghost predicate GroupInDomain(t: TableState, g: nat, plan: RowGroup, preds: seq<Predicate>, agg: Str, run: Runner)
    requires g < |t.groups|
  {
    exists batch :: StoresBatch(t.groups[g], t.names, t.types, batch) && QueryDomain(Setting(plan, t.groups[g], batch, preds, agg), run)
  }

  lemma GroupAnswer(t: TableState, g: nat, plan: RowGroup, preds: seq<Predicate>, agg: Str, run: Runner, ctxs: seq<Context>)
    requires g < |t.groups| && GroupInDomain(t, g, plan, preds, agg, run) && Roomy(t.groups[g], ctxs)
    ensures Executable(run, t.groups[g], ctxs) && Sized(t.groups[g])
    ensures var rg := t.groups[g];
            && CountBlocks(run, rg, ctxs, |rg.blocks|) == MatchCount(t.names, GroupAlive(rg, t.types, |rg.blocks|), preds)
            && Wrap(SumBlocks(run, rg, ctxs, |rg.blocks|)) == Wrap(MatchSum(t.names, GroupAlive(rg, t.types, |rg.blocks|), preds, agg))
  {
    var rg := t.groups[g];
    var batch :| StoresBatch(rg, t.names, t.types, batch) && QueryDomain(Setting(plan, rg, batch, preds, agg), run);
    assert batch.names == t.names;
    hide *;
    ExecuteRefines(Setting(plan, rg, batch, preds, agg), run, ctxs);
    GroupRowsAre(rg, t.names, t.types, batch);
  }

  predicate AllRoomy(groups: seq<RowGroup>, ctxs: seq<seq<Context>>) {
    |groups| == |ctxs| && forall g :: 0 <= g < |groups| ==> Roomy(groups[g], ctxs[g])
  }

  ghost predicate GroupsInDomain(t: TableState, plan: RowGroup, preds: seq<Predicate>, agg: Str, run: Runner) {
    forall g :: 0 <= g < |t.groups| ==> GroupInDomain(t, g, plan, preds, agg, run)
  }

  lemma GroupsExecutable(t: TableState, plan: RowGroup, preds: seq<Predicate>, agg: Str, run: Runner, ctxs: seq<seq<Context>>)
    requires GroupsInDomain(t, plan, preds, agg, run) && AllRoomy(t.groups, ctxs)
    ensures ExecutableAll(run, t.groups, ctxs) && AllSized(t.groups)
  {
    hide GroupInDomain, Roomy, Executable, Sized;
    forall g | 0 <= g < |t.groups| ensures Executable(run, t.groups[g], ctxs[g]) && Sized(t.groups[g]) {
      GroupAnswer(t, g, plan, preds, agg, run, ctxs[g]);
    }
  }

  lemma CountGroupsNext(run: Runner, groups: seq<RowGroup>, ctxs: seq<seq<Context>>, n: nat)
    requires ExecutableAll(run, groups, ctxs) && n < |groups|
    ensures |groups| == |ctxs| && Executable(run, groups[n], ctxs[n])
    ensures CountGroups(run, groups, ctxs, n + 1) == CountGroups(run, groups, ctxs, n) + CountBlocks(run, groups[n], ctxs[n], |groups[n].blocks|)
    ensures SumGroups(run, groups, ctxs, n + 1) == SumGroups(run, groups, ctxs, n) + SumBlocks(run, groups[n], ctxs[n], |groups[n].blocks|)
  {
    hide Executable, CountBlocks, SumBlocks;
  }

  lemma DomainAt(t: TableState, plan: RowGroup, preds: seq<Predicate>, agg: Str, run: Runner, ctxs: seq<seq<Context>>, g: nat)
    requires GroupsInDomain(t, plan, preds, agg, run) && AllRoomy(t.groups, ctxs) && g < |t.groups|
    ensures |t.groups| == |ctxs| && GroupInDomain(t, g, plan, preds, agg, run) && Roomy(t.groups[g], ctxs[g])
  {
    hide GroupInDomain, Roomy;
  }

  lemma NoGroups(t: TableState, run: Runner, preds: seq<Predicate>, agg: Str, ctxs: seq<seq<Context>>)
    requires ExecutableAll(run, t.groups, ctxs) && AllSized(t.groups)
    ensures CountGroups(run, t.groups, ctxs, 0) == 0 && SumGroups(run, t.groups, ctxs, 0) == 0
    ensures PersistedRows(t.groups, t.types, 0) == [] && MatchCount(t.names, [], preds) == 0 && MatchSum(t.names, [], preds, agg) == 0
  {
    hide Executable, Sized;
  }

  lemma {:induction false} GroupsAnswer(t: TableState, plan: RowGroup, preds: seq<Predicate>, agg: Str, run: Runner, ctxs: seq<seq<Context>>, n: nat)
    requires GroupsInDomain(t, plan, preds, agg, run) && AllRoomy(t.groups, ctxs)
    requires ExecutableAll(run, t.groups, ctxs) && AllSized(t.groups) && n <= |t.groups|
    ensures CountGroups(run, t.groups, ctxs, n) == MatchCount(t.names, PersistedRows(t.groups, t.types, n), preds)
    ensures Wrap(SumGroups(run, t.groups, ctxs, n)) == Wrap(MatchSum(t.names, PersistedRows(t.groups, t.types, n), preds, agg))
  {
    hide *;
    if n == 0 {
      NoGroups(t, run, preds, agg, ctxs);
    } else {
      var g := n - 1;
      GroupsAnswer(t, plan, preds, agg, run, ctxs, g);
      CountGroupsNext(run, t.groups, ctxs, g);
      DomainAt(t, plan, preds, agg, run, ctxs, g);
      GroupAnswer(t, g, plan, preds, agg, run, ctxs[g]);
      PersistedNext(t.groups, t.types, g);
      var before, own := PersistedRows(t.groups, t.types, g), GroupAlive(t.groups[g], t.types, |t.groups[g].blocks|);
      MatchAppend(t.names, before, own, preds, agg);
      AddWrapped(SumGroups(run, t.groups, ctxs, g), MatchSum(t.names, before, preds, agg),
                 SumBlocks(run, t.groups[g], ctxs[g], |t.groups[g].blocks|), MatchSum(t.names, own, preds, agg));
    }
  }

  lemma AddWrapped(a: int, b: int, x: int, y: int)
    requires Wrap(a) == Wrap(b) && Wrap(x) == Wrap(y)
    ensures Wrap(a + x) == Wrap(b + y)
  {
    WrapPlus(x, a, b);
    WrapPlus(b, x, y);
    hide Wrap;
  }

  // ----- the table

  /** What ExecuteTable returns for a table. */
  ghost function TableCount(t: TableState, run: Runner, ctxs: seq<seq<Context>>): nat
    requires ExecutableAll(run, t.groups, ctxs) && AllValid(t.active) && (t.frozen.Some? ==> AllValid(t.frozen.value))
  {
    CountGroups(run, t.groups, ctxs, |t.groups|) + CountAll(t.active, run.preds, |t.active|)
    + if t.frozen.Some? then CountAll(t.frozen.value, run.preds, |t.frozen.value|) else 0
  }

  ghost function TableSum(t: TableState, run: Runner, ctxs: seq<seq<Context>>): int
    requires ExecutableAll(run, t.groups, ctxs) && AllValid(t.active) && (t.frozen.Some? ==> AllValid(t.frozen.value))
  {
    SumGroups(run, t.groups, ctxs, |t.groups|) + SumAll(t.active, run.preds, run.aggName, |t.active|)
    + if t.frozen.Some? then SumAll(t.frozen.value, run.preds, run.aggName, |t.frozen.value|) else 0
  }

  lemma ConformValid(batches: seq<Batch>, names: seq<Str>, types: seq<nat>)
    requires AllConform(batches, names, types)
    ensures AllValid(batches)
  {
  }

  ghost predicate TableDomain(t: TableState, plan: RowGroup, preds: seq<Predicate>, agg: Str, run: Runner, ctxs: seq<seq<Context>>) {
    && Valid(t) && GroupsInDomain(t, plan, preds, agg, run) && AllRoomy(t.groups, ctxs) && OnTable(t.names, preds, agg)
    && run.preds == preds && run.aggName == agg
  }

  lemma TableDomainParts(t: TableState, plan: RowGroup, preds: seq<Predicate>, agg: Str, run: Runner, ctxs: seq<seq<Context>>)
    requires TableDomain(t, plan, preds, agg, run, ctxs)
    ensures Valid(t) && GroupsInDomain(t, plan, preds, agg, run) && AllRoomy(t.groups, ctxs) && OnTable(t.names, preds, agg)
    ensures run.preds == preds && run.aggName == agg
    ensures ExecutableAll(run, t.groups, ctxs) && AllSized(t.groups) && AllValid(t.active) && (t.frozen.Some? ==> AllValid(t.frozen.value))
    ensures AllConform(t.active, t.names, t.types) && (t.frozen.Some? ==> AllConform(t.frozen.value, t.names, t.types))
  {
    hide Valid, GroupsInDomain, AllRoomy, OnTable, ExecutableAll, AllSized, AllValid, AllConform, Content;
    GroupsExecutable(t, plan, preds, agg, run, ctxs);
    ContentIs(t);
    ConformValid(t.active, t.names, t.types);
    if t.frozen.Some? { ConformValid(t.frozen.value, t.names, t.types); }
  }

  lemma AllBatches(batches: seq<Batch>, names: seq<Str>, types: seq<nat>, preds: seq<Predicate>, agg: Str)
    requires AllConform(batches, names, types) && OnTable(names, preds, agg) && AllValid(batches)
    ensures CountAll(batches, preds, |batches|) == MatchCount(names, BatchRows(batches, names, types), preds)
    ensures SumAll(batches, preds, agg, |batches|) == MatchSum(names, BatchRows(batches, names, types), preds, agg)
  {
    assert batches[..|batches|] == batches;
    BatchesAnswer(batches, names, types, preds, agg, |batches|);
    hide CountAll, SumAll, MatchCount, MatchSum, BatchRows, AllConform, OnTable;
  }

  lemma FrozenAnswer(t: TableState, preds: seq<Predicate>, agg: Str)
    requires OnTable(t.names, preds, agg)
    requires t.frozen.Some? ==> AllConform(t.frozen.value, t.names, t.types) && AllValid(t.frozen.value)
    ensures MatchCount(t.names, FrozenRows(t), preds)
            == if t.frozen.Some? then CountAll(t.frozen.value, preds, |t.frozen.value|) else 0
    ensures MatchSum(t.names, FrozenRows(t), preds, agg)
            == if t.frozen.Some? then SumAll(t.frozen.value, preds, agg, |t.frozen.value|) else 0
  {
    if t.frozen.Some? { AllBatches(t.frozen.value, t.names, t.types, preds, agg); }
    hide CountAll, SumAll, BatchRows, AllConform, OnTable, AllValid;
  }

  lemma TableTotals(t: TableState, run: Runner, ctxs: seq<seq<Context>>)
    requires ExecutableAll(run, t.groups, ctxs) && AllValid(t.active) && (t.frozen.Some? ==> AllValid(t.frozen.value))
    ensures TableCount(t, run, ctxs) == CountGroups(run, t.groups, ctxs, |t.groups|) + CountAll(t.active, run.preds, |t.active|)
            + if t.frozen.Some? then CountAll(t.frozen.value, run.preds, |t.frozen.value|) else 0
    ensures TableSum(t, run, ctxs) == SumGroups(run, t.groups, ctxs, |t.groups|) + SumAll(t.active, run.preds, run.aggName, |t.active|)
            + if t.frozen.Some? then SumAll(t.frozen.value, run.preds, run.aggName, |t.frozen.value|) else 0
  {
    hide CountGroups, SumGroups, CountAll, SumAll, ExecutableAll, AllValid;
  }

  /** A query on the table answers the query on the table's rows, at any moment,
      also while a compaction is under way. */
  lemma TableAnswer(t: TableState, plan: RowGroup, preds: seq<Predicate>, agg: Str, run: Runner, ctxs: seq<seq<Context>>)
    requires TableDomain(t, plan, preds, agg, run, ctxs)
    ensures Valid(t) && ExecutableAll(run, t.groups, ctxs) && AllValid(t.active) && (t.frozen.Some? ==> AllValid(t.frozen.value))
    ensures TableCount(t, run, ctxs) == MatchCount(t.names, Content(t), preds)
    ensures Wrap(TableSum(t, run, ctxs)) == Wrap(MatchSum(t.names, Content(t), preds, agg))
  {
    hide *;
    TableDomainParts(t, plan, preds, agg, run, ctxs);
    ContentIs(t);
    TableTotals(t, run, ctxs);
    var persisted, frozen, active := PersistedRows(t.groups, t.types, |t.groups|), FrozenRows(t), BatchRows(t.active, t.names, t.types);
    GroupsAnswer(t, plan, preds, agg, run, ctxs, |t.groups|);
    AllBatches(t.active, t.names, t.types, preds, agg);
    FrozenAnswer(t, preds, agg);
    MatchAppend(t.names, persisted, frozen, preds, agg);
    MatchAppend(t.names, persisted + frozen, active, preds, agg);
    WrapPlus(MatchSum(t.names, frozen, preds, agg) + MatchSum(t.names, active, preds, agg),
             SumGroups(run, t.groups, ctxs, |t.groups|), MatchSum(t.names, persisted, preds, agg));
  }
}
