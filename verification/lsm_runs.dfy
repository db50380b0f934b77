/** Runs of a table: inserts, deletes and the single steps of a compaction in any
    order. What the table holds is what was inserted and not deleted, exactly as
    long as no alive row is deleted from a block that a running compaction has
    already read. */
module LsmRuns {
  import opened Words
  import opened Storage
  import opened MemTables
  import opened AdaptiveIngester
  import opened BlockReader
  import opened Rows
  import opened TableStates
  import opened MetadataRegistry
  import opened PromotionDaemon
  import opened QueryRefinement

  // ----- publishing

  lemma KindsOfBatch(names: seq<Str>, types: seq<nat>, rows: seq<Row>)
    requires |names| == |types| && RowsFit(types, rows)
    ensures SameKinds(BatchOf(names, types, rows).columns, types)
  {
    hide ColumnOfRows, RowFits;
  }

  lemma IngestedStores(names: seq<Str>, types: seq<nat>, rows: seq<Row>)
    requires |names| == |types| && RowsFit(types, rows) && Fits(BatchOf(names, types, rows))
    ensures var rg := Ingested(BatchOf(names, types, rows));
            && Sized(rg) && Stores(rg, names, types) && GroupAlive(rg, types, |rg.blocks|) == rows
  {
    var batch := BatchOf(names, types, rows);
    var rg := Ingested(batch);
    hide *;
    KindsOfBatch(names, types, rows);
    IngestedHolds(batch);
    StoresWhen(rg, names, types, batch);
    GroupRowsAre(rg, names, types, batch);
    FreshAlive(batch);
    RowsOfBatch(names, types, rows, |rows|);
    RowsOfIs(batch);
    assert rows[..|rows|] == rows;
  }

  lemma StoresWhen(rg: RowGroup, names: seq<Str>, types: seq<nat>, batch: Batch)
    requires Holds(rg, batch) && Fits(batch) && batch.names == names && SameKinds(batch.columns, types)
    ensures StoresBatch(rg, names, types, batch) && Stores(rg, names, types)
  {
    hide Holds, Fits, SameKinds;
  }

  lemma ValidWhen(t: TableState)
    requires |t.names| == |t.types| && AllConform(t.active, t.names, t.types) && t.frozen.None?
    requires t.groups == [] || (|t.groups| == 1 && Sized(t.groups[0]) && Stores(t.groups[0], t.names, t.types))
    ensures Valid(t)
  {
    hide Stores, Sized, AllConform;
  }

  lemma OneGroup(groups: seq<RowGroup>, types: seq<nat>)
    requires AllSized(groups) && |groups| <= 1
    ensures groups == [] ==> PersistedRows(groups, types, |groups|) == []
    ensures |groups| == 1 ==> Sized(groups[0]) && PersistedRows(groups, types, |groups|) == GroupAlive(groups[0], types, |groups[0].blocks|)
  {
    hide GroupAlive, Sized;
    assert PersistedRows(groups, types, 0) == [];
  }

  lemma PublishedIs(t: TableState, rows: seq<Row>)
    requires |t.names| == |t.types| && RowsFit(t.types, rows)
    ensures var t' := Published(t, rows);
            && t'.names == t.names && t'.types == t.types && t'.active == t.active && t'.frozen.None? && t'.version == t.version + 1
            && t'.groups == if rows == [] then [] else [Ingested(BatchOf(t.names, t.types, rows))]
  {
    hide Ingested, BatchOf, RowsFit;
  }

  lemma NoFrozen(t: TableState)
    requires t.frozen.None?
    ensures FrozenRows(t) == []
  {
  }

  /** After a publish the table holds the collected rows, then the active ones. */
  lemma PublishedContent(t: TableState, rows: seq<Row>)
    requires |t.names| == |t.types| && RowsFit(t.types, rows) && Fits(BatchOf(t.names, t.types, rows))
    requires AllConform(t.active, t.names, t.types)
    ensures Valid(Published(t, rows))
    ensures Content(Published(t, rows)) == rows + BatchRows(t.active, t.names, t.types)
  {
    hide *;
    var t' := Published(t, rows);
    PublishedIs(t, rows);
    IngestedStores(t.names, t.types, rows);
    ValidWhen(t');
    ContentIs(t');
    OneGroup(t'.groups, t'.types);
    NoFrozen(t');
    Reassociate(rows, [], BatchRows(t.active, t.names, t.types));
  }

  /** Compaction keeps the rows, their order, nulls and values. */
  lemma CompactionKeepsContent(t: TableState)
    requires Valid(t) && t.frozen.None? && !NothingToCompact(t)
    requires |t.names| == |t.types| && RowsFit(t.types, Content(t)) && Fits(BatchOf(t.names, t.types, Content(t)))
    ensures Valid(Compacted(t)) && Content(Compacted(t)) == Content(t)
    ensures Compacted(t).version == t.version + 2
    ensures forall g, b :: 0 <= g < |Compacted(t).groups| && 0 <= b < |Compacted(t).groups[g].blocks| ==>
      Compacted(t).groups[g].blocks[b].deleteMask == ONES
  {
    var f, rows := Frozen(t), Content(t);
    FrozenCollects(t);
    IngestedHolds(BatchOf(t.names, t.types, rows));
    assert Compacted(t) == Published(f, rows);
    hide Valid, Content, Collected, Ingested, BatchOf, Compacted, NothingToCompact, Fits;
    ContentIs(f);
    PublishedContent(f, rows);
  }

  // ----- the state machine

  /** A running compaction has read the groups before `group` and the first
      `block` blocks of that group, and kept the rows that were alive then. */
  datatype Compaction = Idle | Running(group: nat, block: nat, kept: seq<Row>)

  /** `late` are the alive rows deleted from blocks already read. */
  datatype Lsm = Lsm(table: TableState, compaction: Compaction, late: seq<Row>)

  datatype Step = Insert(batch: Batch) | Delete(idx: nat) | Freeze | ReadBlock | NextGroup | Replace

  /** Currently alive rows of the blocks already read. */
  function Scanned(groups: seq<RowGroup>, types: seq<nat>, g: nat, b: nat): seq<Row>
    requires AllSized(groups) && g <= |groups| && (g < |groups| ==> b <= |groups[g].blocks|)
  {
    PersistedRows(groups, types, g) + if g < |groups| then GroupAlive(groups[g], types, b) else []
  }

  predicate Position(t: TableState, g: nat, b: nat) {
    AllSized(t.groups) && g <= |t.groups| && (if g < |t.groups| then b <= |t.groups[g].blocks| else b == 0)
  }

  ghost predicate Inv(s: Lsm) {
    && Valid(s.table)
    && match s.compaction
       case Idle => s.table.frozen.None? && s.late == []
       case Running(g, b, kept) =>
         && s.table.frozen.Some? && Position(s.table, g, b) && RowsFit(s.table.types, kept)
         && multiset(kept) == multiset(Scanned(s.table.groups, s.table.types, g, b)) + multiset(s.late)
         && (s.late == [] ==> kept == Scanned(s.table.groups, s.table.types, g, b))
  }

  /** Rows a running compaction is about to publish. */
  function ToPublish(s: Lsm): seq<Row>
    requires s.compaction.Running? && (s.table.frozen.Some? ==> AllConform(s.table.frozen.value, s.table.names, s.table.types))
  {
    s.compaction.kept + FrozenRows(s.table)
  }

  ghost predicate Enabled(s: Lsm, step: Step)
    requires Inv(s)
  {
    match step
    case Insert(batch) => Conforms(batch, s.table.names, s.table.types)
    case Delete(idx) => true
    case Freeze => s.compaction.Idle? && !NothingToCompact(s.table)
    case ReadBlock => s.compaction.Running? && s.compaction.group < |s.table.groups|
                      && s.compaction.block < |s.table.groups[s.compaction.group].blocks|
    case NextGroup => s.compaction.Running? && s.compaction.group < |s.table.groups|
                      && s.compaction.block == |s.table.groups[s.compaction.group].blocks|
    case Replace => s.compaction.Running? && s.compaction.group == |s.table.groups|
                    && RowsFit(s.table.types, ToPublish(s)) && |s.table.names| == |s.table.types|
                    && Fits(BatchOf(s.table.names, s.table.types, ToPublish(s)))
  }

  /** Does the delete hit an alive row of a block already read? */
  predicate Late(s: Lsm, idx: nat)
    requires AllSized(s.table.groups)
  {
    && s.compaction.Running?
    && match Locate(s.table.groups, 0, idx)
       case None => false
       case Some((g, local)) =>
         && IsAlive(s.table.groups[g], local)
         && (g < s.compaction.group || (g == s.compaction.group && local / 64 < s.compaction.block))
  }

  /** The row a late delete hits. */
  function LateRow(s: Lsm, idx: nat): seq<Row>
    requires AllSized(s.table.groups)
  {
    if Late(s, idx) then
      var (g, local) := Locate(s.table.groups, 0, idx).value;
      [AddressedRow(s.table.groups, s.table.types, g, local)]
    else []
  }

  function OneBlockMore(t: TableState, g: nat, b: nat, kept: seq<Row>): Compaction
    requires g < |t.groups| && Sized(t.groups[g]) && b < |t.groups[g].blocks|
  {
    Running(g, b + 1, kept + AliveOf(t.groups[g], t.types, b))
  }

  ghost function Apply(s: Lsm, step: Step): Lsm
    requires Inv(s) && Enabled(s, step)
  {
    match step
    case Insert(batch) => s.(table := WithBatch(s.table, batch))
    case Delete(idx) => s.(table := WithoutRow(s.table, idx), late := s.late + LateRow(s, idx))
    case Freeze => Lsm(Frozen(s.table), Running(0, 0, []), [])
    case ReadBlock => s.(compaction := OneBlockMore(s.table, s.compaction.group, s.compaction.block, s.compaction.kept))
    case NextGroup => s.(compaction := Running(s.compaction.group + 1, 0, s.compaction.kept))
    case Replace => Lsm(Published(s.table, ToPublish(s)), Idle, [])
  }

  /** What the rows should be after a step: inserted rows come last, and a delete
      takes out the row at the rank of its address. */
  function Expected(s: Lsm, step: Step, rows: seq<Row>): seq<Row>
    requires AllSized(s.table.groups) && (step.Insert? ==> Conforms(step.batch, s.table.names, s.table.types))
  {
    if step.Insert? then rows + RowsOf(Project(step.batch, s.table.names, s.table.types))
    else if step.Delete? then
      match Locate(s.table.groups, 0, step.idx)
      case None => rows
      case Some((g, local)) =>
        var k := Rank(s.table.groups, s.table.types, g, local);
        RemoveIf(rows, k, IsAlive(s.table.groups[g], local) && k < |rows|)
    else rows
  }

  /** The step publishes after a late delete. */
  predicate LosesDelete(s: Lsm, step: Step) { step.Replace? && s.late != [] }

  /** What one step does: the invariant, the content, the version. */
  ghost predicate StepIsRight(s: Lsm, step: Step)
    requires Inv(s) && Enabled(s, step)
  {
    var s' := Apply(s, step);
    && Inv(s')
    && (!LosesDelete(s, step) ==> Content(s'.table) == Expected(s, step, Content(s.table)))
    && (LosesDelete(s, step) ==> multiset(Content(s'.table)) == multiset(Content(s.table)) + multiset(s.late))
    && s'.table.version == s.table.version + (if step.Freeze? || step.Replace? then 1 else 0)
  }

  // ----- blocks already read, after a delete

  predicate Read(g: nat, local: nat, pg: nat, pb: nat) { g < pg || (g == pg && local / 64 < pb) }

  ghost predicate ScannedAfter(groups: seq<RowGroup>, types: seq<nat>, g: nat, local: nat, pg: nat, pb: nat)
    requires InGroups(groups, g, local) && pg <= |groups| && (pg < |groups| ==> pb <= |groups[pg].blocks|)
    requires pg < |groups| ==> pb <= |Cleared(groups, g, local)[pg].blocks|
  {
    var before, after := Scanned(groups, types, pg, pb), Scanned(Cleared(groups, g, local), types, pg, pb);
    var k, alive := Rank(groups, types, g, local), IsAlive(groups[g], local);
    if Read(g, local, pg, pb) then (alive ==> k < |before|) && after == RemoveIf(before, k, alive) else after == before
  }

  lemma ClearedShape(groups: seq<RowGroup>, g: nat, local: nat)
    requires InGroups(groups, g, local)
    ensures AllSized(Cleared(groups, g, local)) && |Cleared(groups, g, local)| == |groups|
    ensures forall i :: 0 <= i < |groups| ==> |Cleared(groups, g, local)[i].blocks| == |groups[i].blocks|
    ensures forall i :: 0 <= i < |groups| && i != g ==> Cleared(groups, g, local)[i] == groups[i]
    ensures Cleared(groups, g, local)[g] == ClearRow(groups[g], local)
  {
    LastBlock(groups[g], local);
  }

  lemma ScannedParts(groups: seq<RowGroup>, types: seq<nat>, g: nat, local: nat, n: nat)
    requires InGroups(groups, g, local) && n <= |groups|
    ensures AllSized(Cleared(groups, g, local)) && |Cleared(groups, g, local)| == |groups|
    ensures var before, after := PersistedRows(groups, types, n), PersistedRows(Cleared(groups, g, local), types, n);
            var k, alive := Rank(groups, types, g, local), IsAlive(groups[g], local);
            && (n <= g ==> after == before)
            && (n > g ==> (alive ==> k < |before|) && after == RemoveIf(before, k, alive))
  {
    ClearInGroups(groups, types, g, local, n);
    hide PersistedRows, Rank, IsAlive, RemoveIf;
  }

  lemma PartialGroup(rg: RowGroup, types: seq<nat>, local: nat, b: nat)
    requires Sized(rg) && local < rg.numRows && b <= |rg.blocks|
    ensures var before, k, alive := GroupAlive(rg, types, b), AliveBefore(rg, types, local), IsAlive(rg, local);
            && b <= |ClearRow(rg, local).blocks|
            && (b <= local / 64 ==> GroupAlive(ClearRow(rg, local), types, b) == before)
            && (b > local / 64 ==> (alive ==> k < |before|) && GroupAlive(ClearRow(rg, local), types, b) == RemoveIf(before, k, alive))
  {
    LastBlock(rg, local);
    ClearInGroup(rg, types, local, b);
    hide GroupAlive, AliveBefore, IsAlive, RemoveIf, ClearRow;
  }

  lemma ScannedIs(groups: seq<RowGroup>, types: seq<nat>, pg: nat, pb: nat)
    requires AllSized(groups) && pg <= |groups| && (pg < |groups| ==> pb <= |groups[pg].blocks|)
    ensures Scanned(groups, types, pg, pb) == PersistedRows(groups, types, pg) + if pg < |groups| then GroupAlive(groups[pg], types, pb) else []
  {
  }

  lemma ScannedAfterWhen(groups: seq<RowGroup>, types: seq<nat>, g: nat, local: nat, pg: nat, pb: nat, before: seq<Row>, after: seq<Row>)
    requires InGroups(groups, g, local) && pg <= |groups| && (pg < |groups| ==> pb <= |groups[pg].blocks|)
    requires pg < |groups| ==> pb <= |Cleared(groups, g, local)[pg].blocks|
    requires before == Scanned(groups, types, pg, pb) && after == Scanned(Cleared(groups, g, local), types, pg, pb)
    requires if Read(g, local, pg, pb)
             then (IsAlive(groups[g], local) ==> Rank(groups, types, g, local) < |before|)
                  && after == RemoveIf(before, Rank(groups, types, g, local), IsAlive(groups[g], local))
             else after == before
    ensures ScannedAfter(groups, types, g, local, pg, pb)
  {
    hide Scanned, Rank, IsAlive, RemoveIf, Cleared;
  }

  lemma ReadIs(g: nat, local: nat, pg: nat, pb: nat)
    ensures Read(g, local, pg, pb) <==> g < pg || (g == pg && local / 64 < pb)
  {
  }

  lemma ScannedCleared(groups: seq<RowGroup>, types: seq<nat>, g: nat, local: nat, pg: nat, pb: nat)
    requires InGroups(groups, g, local) && pg <= |groups| && (pg < |groups| ==> pb <= |groups[pg].blocks|)
    requires pg < |groups| ==> pb <= |Cleared(groups, g, local)[pg].blocks|
    ensures ScannedAfter(groups, types, g, local, pg, pb)
  {
    hide *;
    ClearedShape(groups, g, local);
    RankIs(groups, types, g, local);
    ScannedParts(groups, types, g, local, pg);
    var groups' := Cleared(groups, g, local);
    ScannedIs(groups, types, pg, pb);
    ScannedIs(groups', types, pg, pb);
    ReadIs(g, local, pg, pb);
    var k, alive := Rank(groups, types, g, local), IsAlive(groups[g], local);
    var before, own := PersistedRows(groups, types, pg), if pg < |groups| then GroupAlive(groups[pg], types, pb) else [];
    if pg == g {
      PartialGroup(groups[g], types, local, pb);
      if Read(g, local, pg, pb) { RemoveIfRight(before, own, AliveBefore(groups[g], types, local), alive); }
    } else if g < pg {
      RemoveIfLeft(before, own, k, alive);
    }
    ScannedAfterWhen(groups, types, g, local, pg, pb, Scanned(groups, types, pg, pb), Scanned(groups', types, pg, pb));
  }

  // ----- each step is right

  lemma IdleOrRunning(s: Lsm)
    requires Inv(s)
    ensures Valid(s.table) && AllSized(s.table.groups)
    ensures s.compaction.Idle? ==> s.table.frozen.None? && s.late == []
    ensures s.compaction.Running? ==>
      var g, b, kept := s.compaction.group, s.compaction.block, s.compaction.kept;
      && s.table.frozen.Some? && Position(s.table, g, b) && RowsFit(s.table.types, kept)
      && multiset(kept) == multiset(Scanned(s.table.groups, s.table.types, g, b)) + multiset(s.late)
      && (s.late == [] ==> kept == Scanned(s.table.groups, s.table.types, g, b))
  {
    ContentIs(s.table);
    hide Valid, Scanned, RowsFit, AllSized;
  }

  lemma RunningInv(t: TableState, g: nat, b: nat, kept: seq<Row>, late: seq<Row>)
    requires Valid(t) && t.frozen.Some? && Position(t, g, b) && RowsFit(t.types, kept)
    requires AllSized(t.groups) && g <= |t.groups| && (g < |t.groups| ==> b <= |t.groups[g].blocks|)
    requires multiset(kept) == multiset(Scanned(t.groups, t.types, g, b)) + multiset(late)
    requires late == [] ==> kept == Scanned(t.groups, t.types, g, b)
    ensures Inv(Lsm(t, Running(g, b, kept), late))
  {
    hide Valid, Position, RowsFit, Scanned;
  }

  lemma IdleInv(t: TableState)
    requires Valid(t) && t.frozen.None?
    ensures Inv(Lsm(t, Idle, []))
  {
    hide Valid;
  }

  /** Putting a step together: it cannot lose a delete, keeps the version, and has the expected content. */
  lemma StepWhen(s: Lsm, step: Step, s': Lsm)
    requires Inv(s) && Enabled(s, step) && s' == Apply(s, step) && Inv(s') && !step.Replace? && Valid(s.table) && Valid(s'.table)
    requires AllSized(s.table.groups) && (step.Insert? ==> Conforms(step.batch, s.table.names, s.table.types))
    requires Content(s'.table) == Expected(s, step, Content(s.table))
    requires s'.table.version == s.table.version + if step.Freeze? then 1 else 0
    ensures StepIsRight(s, step)
  {
    hide Inv, Enabled, Apply, Content, Expected, Valid;
  }

  lemma PositionIs(t: TableState, g: nat, b: nat)
    ensures Position(t, g, b) <==> AllSized(t.groups) && g <= |t.groups| && (if g < |t.groups| then b <= |t.groups[g].blocks| else b == 0)
  {
  }

  lemma InsertTable(t: TableState, batch: Batch)
    ensures var t' := WithBatch(t, batch);
            t'.groups == t.groups && t'.types == t.types && t'.names == t.names && t'.frozen == t.frozen && t'.version == t.version
  {
  }

  lemma ApplyInsert(s: Lsm, batch: Batch)
    requires Inv(s) && Enabled(s, Insert(batch))
    ensures Conforms(batch, s.table.names, s.table.types)
    ensures Apply(s, Insert(batch)) == Lsm(WithBatch(s.table, batch), s.compaction, s.late)
    ensures forall rows: seq<Row> :: AllSized(s.table.groups) ==>
      Expected(s, Insert(batch), rows) == rows + RowsOf(Project(batch, s.table.names, s.table.types))
  {
    hide Inv, Conforms, WithBatch;
  }

  lemma InsertStep(s: Lsm, batch: Batch)
    requires Inv(s) && Enabled(s, Insert(batch))
    ensures StepIsRight(s, Insert(batch))
  {
    hide *;
    var t := s.table;
    IdleOrRunning(s);
    ApplyInsert(s, batch);
    InsertContent(t, batch);
    InsertTable(t, batch);
    if s.compaction.Running? {
      var g, b := s.compaction.group, s.compaction.block;
      PositionIs(t, g, b);
      PositionIs(WithBatch(t, batch), g, b);
      RunningInv(WithBatch(t, batch), g, b, s.compaction.kept, s.late);
    } else {
      IdleInv(WithBatch(t, batch));
    }
    StepWhen(s, Insert(batch), Lsm(WithBatch(t, batch), s.compaction, s.late));
  }

  lemma ApplyFreeze(s: Lsm)
    requires Inv(s) && Enabled(s, Freeze)
    ensures s.compaction.Idle?
    ensures Apply(s, Freeze) == Lsm(Frozen(s.table), Running(0, 0, []), [])
    ensures forall rows: seq<Row> :: AllSized(s.table.groups) ==> Expected(s, Freeze, rows) == rows
  {
    hide Inv, NothingToCompact, Frozen;
  }

  lemma FrozenTable(t: TableState)
    ensures Frozen(t).frozen.Some? && Frozen(t).groups == t.groups && Frozen(t).types == t.types && Frozen(t).version == t.version + 1
    ensures AllSized(t.groups) ==> Scanned(t.groups, t.types, 0, 0) == []
    ensures RowsFit(t.types, [])
  {
  }

  lemma FreezeStep(s: Lsm)
    requires Inv(s) && Enabled(s, Freeze)
    ensures StepIsRight(s, Freeze)
  {
    hide *;
    IdleOrRunning(s);
    ApplyFreeze(s);
    FrozenCollects(s.table);
    FrozenTable(s.table);
    PositionIs(Frozen(s.table), 0, 0);
    RunningInv(Frozen(s.table), 0, 0, [], []);
    StepWhen(s, Freeze, Lsm(Frozen(s.table), Running(0, 0, []), []));
  }

  lemma ApplyRead(s: Lsm)
    requires Inv(s) && Enabled(s, ReadBlock) && AllSized(s.table.groups)
    ensures s.compaction.Running? && s.compaction.group < |s.table.groups| && s.compaction.block < |s.table.groups[s.compaction.group].blocks|
    ensures var g, b, t := s.compaction.group, s.compaction.block, s.table;
            Sized(t.groups[g]) && Apply(s, ReadBlock) == Lsm(t, Running(g, b + 1, s.compaction.kept + AliveOf(t.groups[g], t.types, b)), s.late)
    ensures forall rows: seq<Row> :: AllSized(s.table.groups) ==> Expected(s, ReadBlock, rows) == rows
  {
    hide Inv, AliveOf;
  }

  lemma ReadStep(s: Lsm)
    requires Inv(s) && Enabled(s, ReadBlock)
    ensures StepIsRight(s, ReadBlock)
  {
    hide *;
    IdleOrRunning(s);
    ApplyRead(s);
    var t, g, b, kept := s.table, s.compaction.group, s.compaction.block, s.compaction.kept;
    var own := AliveOf(t.groups[g], t.types, b);
    GroupNext(t.groups[g], t.types, b);
    AliveOfFits(t.groups[g], t.types, b);
    FitsAppend(t.types, kept, own);
    PositionIs(t, g, b);
    PositionIs(t, g, b + 1);
    ScannedIs(t.groups, t.types, g, b);
    ScannedIs(t.groups, t.types, g, b + 1);
    Reassociate(PersistedRows(t.groups, t.types, g), GroupAlive(t.groups[g], t.types, b), own);
    RunningInv(t, g, b + 1, kept + own, s.late);
    StepWhen(s, ReadBlock, Lsm(t, Running(g, b + 1, kept + own), s.late));
  }

  lemma AliveOfFits(rg: RowGroup, types: seq<nat>, b: nat)
    requires Sized(rg) && b < |rg.blocks|
    ensures RowsFit(types, AliveOf(rg, types, b))
  {
    hide RowsFit, BlockAlive;
    BlockAliveFits(rg.blocks[b], types, RowsIn(rg.numRows, b), RowsIn(rg.numRows, b));
  }

  lemma ApplyNext(s: Lsm)
    requires Inv(s) && Enabled(s, NextGroup) && AllSized(s.table.groups)
    ensures s.compaction.Running? && s.compaction.group < |s.table.groups| && s.compaction.block == |s.table.groups[s.compaction.group].blocks|
    ensures Apply(s, NextGroup) == Lsm(s.table, Running(s.compaction.group + 1, 0, s.compaction.kept), s.late)
    ensures forall rows: seq<Row> :: AllSized(s.table.groups) ==> Expected(s, NextGroup, rows) == rows
  {
    hide Inv;
  }

  lemma NextStep(s: Lsm)
    requires Inv(s) && Enabled(s, NextGroup)
    ensures StepIsRight(s, NextGroup)
  {
    hide *;
    IdleOrRunning(s);
    ApplyNext(s);
    var t, g, b, kept := s.table, s.compaction.group, s.compaction.block, s.compaction.kept;
    PersistedNext(t.groups, t.types, g);
    GroupStart(t.groups, t.types, g + 1);
    PositionIs(t, g, b);
    PositionIs(t, g + 1, 0);
    ScannedIs(t.groups, t.types, g, b);
    ScannedIs(t.groups, t.types, g + 1, 0);
    Reassociate(PersistedRows(t.groups, t.types, g + 1), [], []);
    RunningInv(t, g + 1, 0, kept, s.late);
    StepWhen(s, NextGroup, Lsm(t, Running(g + 1, 0, kept), s.late));
  }

  lemma GroupStart(groups: seq<RowGroup>, types: seq<nat>, g: nat)
    requires AllSized(groups)
    ensures g < |groups| ==> Sized(groups[g]) && GroupAlive(groups[g], types, 0) == []
  {
  }

  // ----- deletes

  lemma ApplyDelete(s: Lsm, idx: nat)
    requires Inv(s) && Enabled(s, Delete(idx)) && AllSized(s.table.groups)
    ensures Apply(s, Delete(idx)) == Lsm(WithoutRow(s.table, idx), s.compaction, s.late + LateRow(s, idx))
  {
    hide Inv, LateRow, WithoutRow;
  }

  lemma DeleteMisses(s: Lsm, idx: nat)
    requires AllSized(s.table.groups) && Locate(s.table.groups, 0, idx).None?
    ensures WithoutRow(s.table, idx) == s.table && LateRow(s, idx) == []
    ensures forall rows: seq<Row> :: Expected(s, Delete(idx), rows) == rows
  {
  }

  lemma DeleteHits(s: Lsm, idx: nat, g: nat, local: nat)
    requires AllSized(s.table.groups) && Locate(s.table.groups, 0, idx) == Some((g, local))
    ensures InGroups(s.table.groups, g, local)
    ensures WithoutRow(s.table, idx) == s.table.(groups := Cleared(s.table.groups, g, local))
    ensures s.compaction.Running? ==>
      LateRow(s, idx) == if IsAlive(s.table.groups[g], local) && Read(g, local, s.compaction.group, s.compaction.block)
                         then [AddressedRow(s.table.groups, s.table.types, g, local)] else []
    ensures s.compaction.Idle? ==> LateRow(s, idx) == []
    ensures forall rows: seq<Row> ::
      var k := Rank(s.table.groups, s.table.types, g, local);
      Expected(s, Delete(idx), rows) == RemoveIf(rows, k, IsAlive(s.table.groups[g], local) && k < |rows|)
  {
    hide Rank, IsAlive, ClearRow, RemoveIf, AddressedRow;
  }

  /** A delete that misses a running compaction's past leaves what it has read; a late one takes its row out. */
  lemma ScannedRows(t: TableState, g: nat, local: nat, pg: nat, pb: nat)
    requires InGroups(t.groups, g, local) && Position(t, pg, pb)
    ensures var groups' := Cleared(t.groups, g, local);
            && Position(t.(groups := groups'), pg, pb) && AllSized(t.groups) && pg <= |t.groups| && (pg < |t.groups| ==> pb <= |t.groups[pg].blocks|)
            && |groups'| == |t.groups| && AllSized(groups') && (pg < |groups'| ==> pb <= |groups'[pg].blocks|)
            && var before, after := Scanned(t.groups, t.types, pg, pb), Scanned(groups', t.types, pg, pb);
               if IsAlive(t.groups[g], local) && Read(g, local, pg, pb)
               then multiset(before) == multiset(after) + multiset([AddressedRow(t.groups, t.types, g, local)])
               else after == before
  {
    ClearedShape(t.groups, g, local);
    ScannedCleared(t.groups, t.types, g, local, pg, pb);
    hide Scanned, Rank, IsAlive, AllSized, Cleared, AddressedRow, RemoveAt;
    if IsAlive(t.groups[g], local) && Read(g, local, pg, pb) {
      ScannedHolds(t.groups, t.types, g, local, pg, pb);
      RemovedOne(Scanned(t.groups, t.types, pg, pb), Rank(t.groups, t.types, g, local));
    }
  }

  lemma RemovedOne(rows: seq<Row>, k: nat)
    requires k < |rows|
    ensures multiset(rows) == multiset(RemoveAt(rows, k)) + multiset([rows[k]])
  {
    assert rows == rows[..k] + [rows[k]] + rows[k + 1..];
  }

  /** An alive row of a block already read stands at its rank among the rows read. */
  lemma ScannedHolds(groups: seq<RowGroup>, types: seq<nat>, g: nat, local: nat, pg: nat, pb: nat)
    requires InGroups(groups, g, local) && pg <= |groups| && (pg < |groups| ==> pb <= |groups[pg].blocks|)
    requires Read(g, local, pg, pb) && IsAlive(groups[g], local) && (pg == |groups| ==> g < pg)
    ensures var k := Rank(groups, types, g, local);
            k < |Scanned(groups, types, pg, pb)| && Scanned(groups, types, pg, pb)[k] == AddressedRow(groups, types, g, local)
  {
    hide *;
    ReadIs(g, local, pg, pb);
    RankIs(groups, types, g, local);
    ScannedIs(groups, types, pg, pb);
    if g < pg {
      AliveInGroups(groups, types, g, local, pg);
    } else {
      AliveInGroup(groups, types, g, local, pb);
    }
  }

  lemma DeleteInv(s: Lsm, idx: nat, g: nat, local: nat, t': TableState)
    requires Inv(s) && AllSized(s.table.groups) && Locate(s.table.groups, 0, idx) == Some((g, local))
    requires InGroups(s.table.groups, g, local) && t' == s.table.(groups := Cleared(s.table.groups, g, local)) && Valid(t')
    ensures Inv(Lsm(t', s.compaction, s.late + LateRow(s, idx)))
  {
    hide *;
    IdleOrRunning(s);
    DeleteHits(s, idx, g, local);
    if s.compaction.Running? {
      var pg, pb, kept := s.compaction.group, s.compaction.block, s.compaction.kept;
      ScannedRows(s.table, g, local, pg, pb);
      AddLate(kept, s.late, LateRow(s, idx));
      RunningInv(t', pg, pb, kept, s.late + LateRow(s, idx));
    } else {
      AddLate([], s.late, []);
      IdleInv(t');
    }
  }

  lemma AddLate(kept: seq<Row>, late: seq<Row>, more: seq<Row>)
    ensures multiset(late + more) == multiset(late) + multiset(more)
    ensures more == [] ==> late + more == late
  {
  }

  lemma DeleteStep(s: Lsm, idx: nat)
    requires Inv(s) && Enabled(s, Delete(idx))
    ensures StepIsRight(s, Delete(idx))
  {
    hide *;
    IdleOrRunning(s);
    ApplyDelete(s, idx);
    DeleteContent(s.table, idx);
    var at := Locate(s.table.groups, 0, idx);
    var s' := Lsm(WithoutRow(s.table, idx), s.compaction, s.late + LateRow(s, idx));
    if at.None? {
      DeleteMisses(s, idx);
      AddLate([], s.late, []);
    } else {
      DeleteHits(s, idx, at.value.0, at.value.1);
      DeleteInv(s, idx, at.value.0, at.value.1, s'.table);
    }
    StepWhen(s, Delete(idx), s');
  }

  // ----- publishing

  lemma ApplyReplace(s: Lsm)
    requires Inv(s) && Enabled(s, Replace) && Valid(s.table)
    ensures s.compaction.Running? && s.compaction.group == |s.table.groups| && (s.table.frozen.Some? ==> AllConform(s.table.frozen.value, s.table.names, s.table.types))
    ensures RowsFit(s.table.types, ToPublish(s)) && |s.table.names| == |s.table.types| && Fits(BatchOf(s.table.names, s.table.types, ToPublish(s)))
    ensures Apply(s, Replace) == Lsm(Published(s.table, ToPublish(s)), Idle, [])
    ensures ToPublish(s) == s.compaction.kept + FrozenRows(s.table)
    ensures forall rows: seq<Row> :: AllSized(s.table.groups) ==> Expected(s, Replace, rows) == rows
  {
    ContentIs(s.table);
    hide Valid, Inv, RowsFit, Fits, BatchOf, Published, FrozenRows, Content, AllConform;
  }

  lemma ReplaceWhen(s: Lsm, s': Lsm)
    requires Inv(s) && Enabled(s, Replace) && s' == Apply(s, Replace) && Inv(s') && Valid(s.table) && Valid(s'.table) && AllSized(s.table.groups)
    requires s.late == [] ==> Content(s'.table) == Expected(s, Replace, Content(s.table))
    requires multiset(Content(s'.table)) == multiset(Content(s.table)) + multiset(s.late)
    requires s'.table.version == s.table.version + 1
    ensures StepIsRight(s, Replace)
  {
    hide Inv, Enabled, Apply, Content, Expected, Valid;
  }

  lemma ReplaceStep(s: Lsm)
    requires Inv(s) && Enabled(s, Replace)
    ensures StepIsRight(s, Replace)
  {
    hide *;
    var t := s.table;
    IdleOrRunning(s);
    ApplyReplace(s);
    ContentIs(t);
    PublishedIs(t, ToPublish(s));
    PublishedContent(t, ToPublish(s));
    IdleInv(Published(t, ToPublish(s)));
    PositionIs(t, s.compaction.group, s.compaction.block);
    ScannedIs(t.groups, t.types, |t.groups|, 0);
    Reassociate(PersistedRows(t.groups, t.types, |t.groups|), [], []);
    ReplaceWhen(s, Lsm(Published(t, ToPublish(s)), Idle, []));
  }

  lemma EveryStep(s: Lsm, step: Step)
    requires Inv(s) && Enabled(s, step)
    ensures StepIsRight(s, step)
  {
    hide Inv, Enabled, StepIsRight;
    match step {
      case Insert(batch) => InsertStep(s, batch);
      case Delete(idx) => DeleteStep(s, idx);
      case Freeze => FreezeStep(s);
      case ReadBlock => ReadStep(s);
      case NextGroup => NextStep(s);
      case Replace => ReplaceStep(s);
    }
  }

  /** A publish that nothing disturbed is the sequential one. */
  lemma UndisturbedReplace(s: Lsm)
    requires Inv(s) && Enabled(s, Replace) && s.late == []
    ensures Valid(s.table) && Apply(s, Replace) == Lsm(Republished(s.table), Idle, [])
  {
    IdleOrRunning(s);
    ApplyReplace(s);
    ContentIs(s.table);
    CollectedIs(s.table);
    RepublishedIs(s.table);
    PositionIs(s.table, s.compaction.group, s.compaction.block);
    ScannedIs(s.table.groups, s.table.types, |s.table.groups|, 0);
    Reassociate(PersistedRows(s.table.groups, s.table.types, |s.table.groups|), [], []);
    hide *;
  }

  lemma CollectedIs(t: TableState)
    requires Valid(t) && AllSized(t.groups) && (t.frozen.Some? ==> AllConform(t.frozen.value, t.names, t.types))
    ensures Collected(t) == PersistedRows(t.groups, t.types, |t.groups|) + FrozenRows(t)
  {
    hide Valid, PersistedRows, FrozenRows, AllSized, AllConform;
  }

  lemma RepublishedIs(t: TableState)
    requires Valid(t)
    ensures RowsFit(t.types, Collected(t)) && |t.names| == |t.types| && Republished(t) == Published(t, Collected(t))
  {
    CollectedFits(t);
    hide Valid, Collected, Published;
  }

  // ----- runs

  /** Every step of the run is possible where it happens. */
  ghost predicate Possible(s: Lsm, steps: seq<Step>)
    decreases |steps|
  {
    Inv(s) && (steps == [] || (Enabled(s, steps[0]) && Possible(Apply(s, steps[0]), steps[1..])))
  }

  ghost function After(s: Lsm, steps: seq<Step>): Lsm
    requires Possible(s, steps)
    decreases |steps|
  {
    if steps == [] then s else After(Apply(s, steps[0]), steps[1..])
  }

  /** No publish of the run comes after a late delete. */
  ghost predicate NothingLost(s: Lsm, steps: seq<Step>)
    requires Possible(s, steps)
    decreases |steps|
  {
    steps == [] || (!LosesDelete(s, steps[0]) && NothingLost(Apply(s, steps[0]), steps[1..]))
  }

  /** The rows, the inserted ones and the deleted ones, as the steps say. */
  datatype Ledger = Ledger(rows: seq<Row>, inserted: seq<Row>, deleted: seq<Row>)

  lemma StepParts(s: Lsm, step: Step)
    requires Inv(s) && Enabled(s, step)
    ensures Valid(s.table) && AllSized(s.table.groups) && (step.Insert? ==> Conforms(step.batch, s.table.names, s.table.types))
  {
    IdleOrRunning(s);
    hide Inv, Valid, Conforms, AllSized;
  }

  /** Strike row k off the ledger. */
  function Struck(l: Ledger, k: nat): Ledger
    requires k < |l.rows|
  {
    Ledger(RemoveAt(l.rows, k), l.inserted, l.deleted + [l.rows[k]])
  }

  ghost function Record(s: Lsm, step: Step, l: Ledger): Ledger
    requires Inv(s) && Enabled(s, step)
  {
    StepParts(s, step);
    if step.Insert? then
      var more := RowsOf(Project(step.batch, s.table.names, s.table.types));
      Ledger(l.rows + more, l.inserted + more, l.deleted)
    else if step.Delete? then
      match Locate(s.table.groups, 0, step.idx)
      case None => l
      case Some((g, local)) =>
        var k := Rank(s.table.groups, s.table.types, g, local);
        if IsAlive(s.table.groups[g], local) && k < |l.rows| then Struck(l, k) else l
    else l
  }

  ghost function Recorded(s: Lsm, steps: seq<Step>, l: Ledger): Ledger
    requires Possible(s, steps)
    decreases |steps|
  {
    if steps == [] then l else Recorded(Apply(s, steps[0]), steps[1..], Record(s, steps[0], l))
  }

  /** Inserted rows are the present ones and the deleted ones. */
  ghost predicate Balanced(l: Ledger) { multiset(l.rows) + multiset(l.deleted) == multiset(l.inserted) }

  lemma StruckBalanced(l: Ledger, k: nat)
    requires k < |l.rows| && Balanced(l)
    ensures Balanced(Struck(l, k))
  {
    assert l.rows == l.rows[..k] + [l.rows[k]] + l.rows[k + 1..];
  }

  lemma DeleteRecord(s: Lsm, idx: nat, l: Ledger)
    requires Inv(s) && Enabled(s, Delete(idx)) && Balanced(l)
    ensures Balanced(Record(s, Delete(idx), l))
  {
    StepParts(s, Delete(idx));
    hide Inv, Enabled, Valid, AllSized, Rank, IsAlive, Struck, Balanced, Locate;
    var at := Locate(s.table.groups, 0, idx);
    if at.Some? {
      var k := Rank(s.table.groups, s.table.types, at.value.0, at.value.1);
      if k < |l.rows| { StruckBalanced(l, k); }
    }
  }

  lemma StepBalanced(s: Lsm, step: Step, l: Ledger)
    requires Inv(s) && Enabled(s, step) && Balanced(l)
    ensures Balanced(Record(s, step, l))
  {
    if step.Delete? {
      DeleteRecord(s, step.idx, l);
    } else {
      StepParts(s, step);
      hide Inv, Valid, AllSized, RowsOf, Project, Conforms;
    }
  }

  lemma StepFacts(s: Lsm, step: Step)
    requires Inv(s) && Enabled(s, step)
    ensures Valid(s.table) && Valid(Apply(s, step).table) && AllSized(s.table.groups)
    ensures step.Insert? ==> Conforms(step.batch, s.table.names, s.table.types)
    ensures !LosesDelete(s, step) ==> Content(Apply(s, step).table) == Expected(s, step, Content(s.table))
    ensures LosesDelete(s, step) ==> multiset(Content(Apply(s, step).table)) == multiset(Content(s.table)) + multiset(s.late)
    ensures Apply(s, step).table.version == s.table.version + (if step.Freeze? || step.Replace? then 1 else 0)
    ensures Inv(Apply(s, step))
  {
    hide Enabled, Apply, Content, Expected, Valid, Inv;
    StepParts(s, step);
    EveryStep(s, step);
    IdleOrRunning(Apply(s, step));
  }

  lemma RecordRows(s: Lsm, step: Step, l: Ledger)
    requires Inv(s) && Enabled(s, step)
    ensures AllSized(s.table.groups) && (step.Insert? ==> Conforms(step.batch, s.table.names, s.table.types))
    ensures Record(s, step, l).rows == Expected(s, step, l.rows)
  {
    StepParts(s, step);
    hide Inv, Enabled, Valid, AllSized, Conforms, Rank, IsAlive, Locate, RowsOf, Project;
  }

  /** Run safety: after any run in which no publish follows a late delete, the
      table holds exactly the expected rows, in order; inserted rows are those plus
      the deleted ones. Every prefix of a run is a run, so this holds all along,
      also while a compaction is under way. */
  lemma {:induction false} RunSafety(s: Lsm, steps: seq<Step>, l: Ledger)
    requires Possible(s, steps) && NothingLost(s, steps) && Valid(s.table) && Content(s.table) == l.rows && Balanced(l)
    ensures var s' := After(s, steps);
            && Inv(s') && Valid(s'.table)
            && Content(s'.table) == Recorded(s, steps, l).rows && Balanced(Recorded(s, steps, l))
    decreases |steps|
  {
    hide Inv, Enabled, Apply, Valid, Content, Expected, Record, Balanced, LosesDelete;
    if steps != [] {
      var step := steps[0];
      StepFacts(s, step);
      RecordRows(s, step, l);
      StepBalanced(s, step, l);
      RunSafety(Apply(s, step), steps[1..], Record(s, step, l));
    }
  }

  /** A publish keeps the rows if and only if no delete came too late, and brings back
      exactly the rows that were deleted too late. */
  lemma LateDeletesReturn(s: Lsm)
    requires Inv(s) && Enabled(s, Replace)
    ensures Valid(s.table) && Valid(Apply(s, Replace).table)
    ensures Content(Apply(s, Replace).table) == Content(s.table) <==> s.late == []
    ensures multiset(Content(Apply(s, Replace).table)) == multiset(Content(s.table)) + multiset(s.late)
  {
    StepFacts(s, Replace);
    hide Inv, Enabled, Apply, Valid, Content;
    if s.late == [] {
      NoChange(s, Content(s.table));
    } else {
      assert |multiset(s.late)| == |s.late|;
    }
  }

  lemma NoChange(s: Lsm, rows: seq<Row>)
    requires AllSized(s.table.groups)
    ensures Expected(s, Replace, rows) == rows
  {
  }

  function Publications(steps: seq<Step>): nat {
    if steps == [] then 0
    else (if steps[0].Freeze? || steps[0].Replace? then 1 else 0) + Publications(steps[1..])
  }

  /** The version counts the freezes and publishes of the run. */
  lemma {:induction false} VersionRises(s: Lsm, steps: seq<Step>)
    requires Possible(s, steps)
    ensures After(s, steps).table.version == s.table.version + Publications(steps)
    decreases |steps|
  {
    hide Inv, Enabled, Apply, Content, Expected, LosesDelete;
    if steps != [] {
      StepFacts(s, steps[0]);
      VersionRises(Apply(s, steps[0]), steps[1..]);
    }
  }

  /** A registered table starts empty and idle. */
  lemma FreshTable(names: seq<Str>, types: seq<nat>)
    requires |names| == |types|
    ensures var s := Lsm(NewTable(names, types), Idle, []); Inv(s) && Valid(s.table) && Content(s.table) == [] && s.table.version == 1
  {
    var t := NewTable(names, types);
    assert BatchRows([], names, types) == [] && PersistedRows(t.groups, types, 0) == [];
  }
}
