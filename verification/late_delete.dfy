/** A run in which a deleted row comes back: the row is deleted after the compaction
    has read its block, and the publish restores it. */
module LateDelete {
  import opened Words
  import opened Storage
  import opened TailPayload
  import opened MemTables
  import opened AdaptiveIngester
  import opened BlockReader
  import opened Rows
  import opened TableStates
  import opened MetadataRegistry
  import opened PromotionDaemon
  import opened LsmRuns

  const NAMES: seq<Str> := [[97]]
  const TYPES: seq<nat> := [TYPE_INT64]

  /** One numeric column, one row. */
  const SEVEN := Batch(NAMES, [Ints([Some(7)])], 1)
  const SEVEN_ROW: Row := [IntCell(Some(7))]

  const START := Lsm(NewTable(NAMES, TYPES), Idle, [])

  /** Insert, compact; start a second compaction, and delete the row behind it. */
  const LATE_RUN: seq<Step> := [Insert(SEVEN), Freeze, Replace, Freeze, ReadBlock, Delete(0), NextGroup]

  // ----- tables of one numeric column

  predicate Numeric(t: TableState) { t.names == NAMES && t.types == TYPES }

  lemma SevenConforms()
    ensures Conforms(SEVEN, NAMES, TYPES) && RowsOf(Project(SEVEN, NAMES, TYPES)) == [SEVEN_ROW]
    ensures RowsFit(TYPES, [SEVEN_ROW]) && |NAMES| == |TYPES|
  {
    FoundExactly(NAMES, NAMES[0]);
    assert OnlyAt(NAMES, NAMES[0], 0);
    assert SEVEN.Valid() && Conforms(SEVEN, NAMES, TYPES);
    var p := Project(SEVEN, NAMES, TYPES);
    hide FindColumn;
    assert RowAt(p, 0) == SEVEN_ROW;
    assert RowsTo(p, 0) == [];
    assert RowsTo(p, 1) == [RowAt(p, 0)];
  }

  /** Without strings every tail is small. */
  lemma NumericFits(rows: seq<Row>)
    requires RowsFit(TYPES, rows) && |NAMES| == |TYPES|
    ensures Fits(BatchOf(NAMES, TYPES, rows))
  {
    var batch := BatchOf(NAMES, TYPES, rows);
    assert batch.columns[0].Ints?;
    hide ColumnOfRows, RowFits;
    forall b | 0 <= b && b * 64 < batch.numRows ensures TailSize(StringsOf(batch, b)) < TWO_64 {
      var columns, base, n := batch.columns, b * 64, RowsIn(batch.numRows, b);
      assert BlockStrings(columns, 0, base, n) == [];
      assert BlockStrings(columns, 1, base, n) == [];
    }
  }

  lemma StillNumeric(s: Lsm, step: Step)
    requires Inv(s) && Enabled(s, step) && Numeric(s.table)
    ensures Numeric(Apply(s, step).table)
  {
    hide Inv, Enabled, AliveOf, Ingested, BatchOf, Locate, LateRow, ClearRow, ToPublish;
    IdleOrRunning(s);
    match step {
      case Insert(batch) => ApplyInsert(s, batch);
      case Delete(idx) => ApplyDelete(s, idx);
      case Freeze => ApplyFreeze(s);
      case ReadBlock => ApplyRead(s);
      case NextGroup => ApplyNext(s);
      case Replace => ApplyReplace(s); PublishedIs(s.table, ToPublish(s));
    }
  }

  /** At the end of the groups such a table can publish. */
  lemma CanReplace(s: Lsm)
    requires Inv(s) && Numeric(s.table) && s.compaction.Running? && s.compaction.group == |s.table.groups|
    ensures Enabled(s, Replace)
  {
    var t := s.table;
    assert t.names == NAMES && t.types == TYPES && |NAMES| == |TYPES|;
    hide *;
    IdleOrRunning(s);
    ContentIs(t);
    BatchRowsFit(t.frozen.value, t.names, t.types);
    FrozenRowsIs(t);
    FitsAppend(t.types, s.compaction.kept, FrozenRows(t));
    ToPublishIs(s);
    NumericFits(ToPublish(s));
    ReplaceEnabled(s);
  }

  lemma FrozenRowsIs(t: TableState)
    requires t.frozen.Some? && AllConform(t.frozen.value, t.names, t.types)
    ensures FrozenRows(t) == BatchRows(t.frozen.value, t.names, t.types)
  {
    hide BatchRows;
  }

  lemma ToPublishIs(s: Lsm)
    requires s.compaction.Running? && (s.table.frozen.Some? ==> AllConform(s.table.frozen.value, s.table.names, s.table.types))
    ensures ToPublish(s) == s.compaction.kept + FrozenRows(s.table)
  {
    hide FrozenRows;
  }

  lemma ReplaceEnabled(s: Lsm)
    requires Inv(s) && s.compaction.Running? && s.compaction.group == |s.table.groups|
    requires s.table.frozen.Some? ==> AllConform(s.table.frozen.value, s.table.names, s.table.types)
    requires RowsFit(s.table.types, ToPublish(s)) && |s.table.names| == |s.table.types|
    requires Fits(BatchOf(s.table.names, s.table.types, ToPublish(s)))
    ensures Enabled(s, Replace)
  {
    hide Inv, RowsFit, Fits, BatchOf, ToPublish;
  }

  // ----- the run, step by step

  lemma RunNext(s: Lsm, step: Step, rest: seq<Step>)
    requires Inv(s) && Enabled(s, step) && Possible(Apply(s, step), rest)
    ensures Possible(s, [step] + rest) && After(s, [step] + rest) == After(Apply(s, step), rest)
  {
    assert ([step] + rest)[0] == step && ([step] + rest)[1..] == rest;
    hide Inv, Enabled, Apply;
  }

  lemma RunEnds(s: Lsm)
    requires Inv(s)
    ensures Possible(s, []) && After(s, []) == s
  {
    hide Inv;
  }

  lemma InsertsSeven() returns (s: Lsm)
    ensures Inv(START) && Enabled(START, Insert(SEVEN)) && s == Apply(START, Insert(SEVEN))
    ensures Inv(s) && Enabled(s, Freeze) && Numeric(s.table) && s.table.groups == [] && s.late == []
    ensures Valid(s.table) && Content(s.table) == [SEVEN_ROW]
  {
    SevenConforms();
    FreshTable(NAMES, TYPES);
    assert NewTable(NAMES, TYPES).groups == [];
    assert TotalRows([SEVEN]) == 1 by { assert TotalRows([SEVEN][1..]) == 0; }
    s := Apply(START, Insert(SEVEN));
    assert s == Lsm(WithBatch(NewTable(NAMES, TYPES), SEVEN), Idle, []);
    assert [] + [SEVEN] == [SEVEN];
    hide Inv, Content, Valid, Conforms, Project, RowsOf, RowsFit;
    StepFacts(START, Insert(SEVEN));
    assert Expected(START, Insert(SEVEN), []) == [] + RowsOf(Project(SEVEN, NAMES, TYPES));
  }

  /** Freeze and publish: one row group holds the row. */
  lemma CompactsSeven(s: Lsm) returns (s2: Lsm, s3: Lsm)
    requires Inv(s) && Enabled(s, Freeze) && Numeric(s.table) && s.table.groups == [] && Valid(s.table) && Content(s.table) == [SEVEN_ROW]
    ensures s2 == Apply(s, Freeze) && Inv(s2) && Enabled(s2, Replace) && s3 == Apply(s2, Replace)
    ensures Inv(s3) && Numeric(s3.table) && s3.compaction.Idle? && Valid(s3.table) && Content(s3.table) == [SEVEN_ROW]
    ensures s3.table.groups == [Ingested(BatchOf(NAMES, TYPES, [SEVEN_ROW]))]
  {
    assert s.table.names == NAMES && s.table.types == TYPES;
    hide *;
    SevenConforms();
    s2 := Apply(s, Freeze);
    StepFacts(s, Freeze);
    StillNumeric(s, Freeze);
    IdleOrRunning(s);
    ApplyFreeze(s);
    FrozenTable(s.table);
    CanReplace(s2);
    s3 := Apply(s2, Replace);
    StepFacts(s2, Replace);
    StillNumeric(s2, Replace);
    ApplyReplace(s2);
    NoLateStep(s2);
    PublishedIs(s2.table, ToPublish(s2));
    ContentIs(s.table);
    ContentIs(s2.table);
    PublishesSeven(s, s2);
  }

  lemma NoLateStep(s: Lsm)
    requires s.late == []
    ensures !LosesDelete(s, Replace)
  {
  }

  lemma PublishesSeven(s: Lsm, s2: Lsm)
    requires Valid(s2.table) && s2.compaction == Running(0, 0, []) && s2.table.groups == [] && s2.table == Frozen(s.table)
    requires Content(s2.table) == [SEVEN_ROW]
    requires s2.table.frozen.Some? ==> AllConform(s2.table.frozen.value, s2.table.names, s2.table.types)
    ensures ToPublish(s2) == [SEVEN_ROW]
  {
    ContentIs(s2.table);
    assert s2.table.active == [];
    assert BatchRows([], s2.table.names, s2.table.types) == [];
    assert PersistedRows([], s2.table.types, 0) == [];
    hide Valid, Content, FrozenRows;
  }

  lemma SevenGroup(rg: RowGroup)
    requires |NAMES| == |TYPES| && RowsFit(TYPES, [SEVEN_ROW]) && rg == Ingested(BatchOf(NAMES, TYPES, [SEVEN_ROW]))
    ensures rg.numRows == 1 && |rg.blocks| == 1 && Sized(rg) && rg.blocks[0].deleteMask == ONES
  {
    var batch := BatchOf(NAMES, TYPES, [SEVEN_ROW]);
    IngestedHolds(batch);
    assert NumBlocks(1) == 1;
    hide BatchOf, BlockOf, HoldsBlock, PhysicalNames, PhysicalTypes;
  }

  /** The table now has one row group with one block of one row, which is alive. */
  predicate OneAlive(t: TableState) {
    && Numeric(t) && |t.groups| == 1 && AllSized(t.groups) && t.groups[0].numRows == 1
    && |t.groups[0].blocks| == 1 && t.groups[0].blocks[0].deleteMask == ONES
  }

  lemma FreezesAgain(s3: Lsm) returns (s4: Lsm)
    requires Inv(s3) && Numeric(s3.table) && s3.compaction.Idle? && Valid(s3.table) && Content(s3.table) == [SEVEN_ROW]
    requires s3.table.groups == [Ingested(BatchOf(NAMES, TYPES, [SEVEN_ROW]))]
    ensures Enabled(s3, Freeze) && s4 == Apply(s3, Freeze) && Inv(s4) && Enabled(s4, ReadBlock)
    ensures s4.compaction == Running(0, 0, []) && s4.late == [] && OneAlive(s4.table) && Valid(s4.table) && Content(s4.table) == [SEVEN_ROW]
  {
    hide *;
    SevenConforms();
    SevenGroup(s3.table.groups[0]);
    CanFreeze(s3);
    s4 := Apply(s3, Freeze);
    IdleOrRunning(s3);
    StepFacts(s3, Freeze);
    ApplyFreeze(s3);
    FrozenTable(s3.table);
    NoChangeOnFreeze(s3);
    OneAliveWhen(s3.table, Frozen(s3.table));
    CanRead(s4);
  }

  lemma CanFreeze(s: Lsm)
    requires Inv(s) && s.compaction.Idle? && s.table.groups != []
    ensures Enabled(s, Freeze)
  {
    hide Inv;
  }

  lemma CanRead(s: Lsm)
    requires Inv(s) && s.compaction == Running(0, 0, []) && OneAlive(s.table)
    ensures Enabled(s, ReadBlock)
  {
    hide Inv, Numeric;
  }

  lemma OneAliveWhen(t: TableState, t': TableState)
    requires Numeric(t) && |t.groups| == 1 && t.groups[0].numRows == 1 && |t.groups[0].blocks| == 1 && Sized(t.groups[0])
    requires t.groups[0].blocks[0].deleteMask == ONES && t' == Frozen(t)
    ensures OneAlive(t')
  {
  }

  lemma NoChangeOnFreeze(s: Lsm)
    requires AllSized(s.table.groups)
    ensures forall rows: seq<Row> :: Expected(s, Freeze, rows) == rows
    ensures !LosesDelete(s, Freeze)
  {
  }

  lemma ReadsBlock(s4: Lsm) returns (s5: Lsm)
    requires Inv(s4) && Enabled(s4, ReadBlock) && s4.compaction == Running(0, 0, []) && s4.late == []
    requires OneAlive(s4.table) && Valid(s4.table) && Content(s4.table) == [SEVEN_ROW]
    ensures s5 == Apply(s4, ReadBlock) && Inv(s5) && s5.table == s4.table && s5.late == []
    ensures s5.compaction.Running? && s5.compaction.group == 0 && s5.compaction.block == 1
  {
    hide Inv, Content, Valid, RowsFit, Numeric;
    s5 := Apply(s4, ReadBlock);
    StepFacts(s4, ReadBlock);
    ApplyRead(s4);
  }

  lemma SevenLocated(s: Lsm)
    requires OneAlive(s.table) && s.compaction.Running? && s.compaction.group == 0 && s.compaction.block == 1
    ensures Locate(s.table.groups, 0, 0) == Some((0, 0)) && IsAlive(s.table.groups[0], 0) && Late(s, 0)
    ensures InGroups(s.table.groups, 0, 0)
    ensures LateRow(s, 0) == [AddressedRow(s.table.groups, s.table.types, 0, 0)]
    ensures var t' := WithoutRow(s.table, 0); |t'.groups| == 1 && |t'.groups[0].blocks| == 1 && Numeric(t')
  {
    var i: nat := 0;
    assert ONES[i];
    hide AddressedRow;
  }

  lemma OneRowLeft(rows: seq<Row>, k: nat)
    requires |rows| == 1 && k < 1
    ensures RemoveIf(rows, k, true) == []
  {
  }

  lemma DeletesLate(s5: Lsm) returns (s6: Lsm)
    requires Inv(s5) && OneAlive(s5.table) && Valid(s5.table) && Content(s5.table) == [SEVEN_ROW] && s5.late == []
    requires s5.compaction.Running? && s5.compaction.group == 0 && s5.compaction.block == 1
    ensures Enabled(s5, Delete(0)) && s6 == Apply(s5, Delete(0)) && Inv(s6) && Numeric(s6.table) && s6.compaction == s5.compaction
    ensures |s6.table.groups| == 1 && |s6.table.groups[0].blocks| == 1
    ensures s6.late == [SEVEN_ROW] && Valid(s6.table) && Content(s6.table) == []
  {
    assert Enabled(s5, Delete(0));
    hide Inv, Content, Valid, RowsFit, Numeric, Apply, Late, LateRow, WithoutRow, AddressedRow, IsAlive, Rank, Locate, RemoveIf;
    s6 := Apply(s5, Delete(0));
    SevenLocated(s5);
    ApplyDelete(s5, 0);
    StepFacts(s5, Delete(0));
    DeleteContent(s5.table, 0);
    OneRowLeft(Content(s5.table), Rank(s5.table.groups, s5.table.types, 0, 0));
    assert [] + LateRow(s5, 0) == LateRow(s5, 0);
  }

  lemma EndsGroup(s6: Lsm) returns (s7: Lsm)
    requires Inv(s6) && Numeric(s6.table) && s6.compaction.Running? && s6.compaction.group == 0 && s6.compaction.block == 1
    requires |s6.table.groups| == 1 && |s6.table.groups[0].blocks| == 1
    ensures Enabled(s6, NextGroup) && s7 == Apply(s6, NextGroup) && Inv(s7) && Enabled(s7, Replace)
    ensures s7.table == s6.table && s7.late == s6.late
  {
    assert Enabled(s6, NextGroup);
    hide Inv, Numeric, Apply;
    s7 := Apply(s6, NextGroup);
    StepFacts(s6, NextGroup);
    ApplyNext(s6);
    CanReplace(s7);
  }

  lemma OneBack(rows: seq<Row>, row: Row)
    requires multiset(rows) == multiset([]) + multiset([row])
    ensures rows == [row]
  {
    assert |multiset(rows)| == |rows|;
    assert multiset(rows) == multiset{row};
    assert |rows| == 1;
    assert rows[0] in multiset(rows);
  }

  lemma LateRunIs()
    ensures LATE_RUN == [Insert(SEVEN)] + ([Freeze] + ([Replace] + ([Freeze] + ([ReadBlock] + ([Delete(0)] + [NextGroup])))))
  {
  }

  lemma RunIs(s: Lsm, s2: Lsm, s3: Lsm, s4: Lsm, s5: Lsm, s6: Lsm, s7: Lsm)
    requires Inv(START) && Enabled(START, Insert(SEVEN)) && s == Apply(START, Insert(SEVEN))
    requires Inv(s) && Enabled(s, Freeze) && s2 == Apply(s, Freeze)
    requires Inv(s2) && Enabled(s2, Replace) && s3 == Apply(s2, Replace)
    requires Inv(s3) && Enabled(s3, Freeze) && s4 == Apply(s3, Freeze)
    requires Inv(s4) && Enabled(s4, ReadBlock) && s5 == Apply(s4, ReadBlock)
    requires Inv(s5) && Enabled(s5, Delete(0)) && s6 == Apply(s5, Delete(0))
    requires Inv(s6) && Enabled(s6, NextGroup) && s7 == Apply(s6, NextGroup) && Inv(s7)
    ensures Possible(START, LATE_RUN) && After(START, LATE_RUN) == s7
  {
    hide *;
    RunEnds(s7);
    RunNext(s6, NextGroup, []);
    assert [NextGroup] + [] == [NextGroup];
    RunNext(s5, Delete(0), [NextGroup]);
    RunNext(s4, ReadBlock, [Delete(0)] + [NextGroup]);
    RunNext(s3, Freeze, [ReadBlock] + ([Delete(0)] + [NextGroup]));
    RunNext(s2, Replace, [Freeze] + ([ReadBlock] + ([Delete(0)] + [NextGroup])));
    RunNext(s, Freeze, [Replace] + ([Freeze] + ([ReadBlock] + ([Delete(0)] + [NextGroup]))));
    RunNext(START, Insert(SEVEN), [Freeze] + ([Replace] + ([Freeze] + ([ReadBlock] + ([Delete(0)] + [NextGroup])))));
    LateRunIs();
  }

  /** A fresh table reaches a state with a late delete: the table is empty, and the
      publish that follows brings the deleted row back. */
  lemma DeletedRowReturns() returns (s: Lsm)
    ensures Possible(START, LATE_RUN) && s == After(START, LATE_RUN) && Inv(s) && Enabled(s, Replace)
    ensures Valid(s.table) && Content(s.table) == [] && s.late == [SEVEN_ROW]
    ensures Valid(Apply(s, Replace).table) && Content(Apply(s, Replace).table) == [SEVEN_ROW]
  {
    hide *;
    var s1 := InsertsSeven();
    var s2, s3 := CompactsSeven(s1);
    var s4 := FreezesAgain(s3);
    var s5 := ReadsBlock(s4);
    var s6 := DeletesLate(s5);
    s := EndsGroup(s6);
    RunIs(s1, s2, s3, s4, s5, s6, s);
    LateDeletesReturn(s);
    OneBack(Content(Apply(s, Replace).table), SEVEN_ROW);
  }
}
