/** The join on rows: what the distributed join should answer, said of the cells of
    the rows, and that the nested loop over row numbers answers it. */
module JoinRows {
  import opened Storage
  import opened MemTables
  import opened Rows
  import opened PlanMeaning
  import opened DistributedJoin
  import opened DistributedCoordinator

  // ----- the join of two lists of rows

  datatype Record = Record(names: seq<Str>, row: Row)

  type NamedRow = r: Record | |r.names| == |r.row| witness Record([], [])

  datatype JoinSpec = JoinSpec(leftCol: Str, rightCol: Str, leftPreds: seq<Predicate>, rightPreds: seq<Predicate>, agg: Str)

  /** The cell of the one column of that name. */
  function CellNamed(r: NamedRow, name: Str): Option<Cell> {
    var f := FindColumn(r.names, name);
    if f.Some? then Some(r.row[f.value]) else None
  }

  /** The row passes the filter of the join. */
  predicate TakesPart(r: NamedRow, preds: seq<Predicate>) {
    forall p :: 0 <= p < |preds| ==>
      var cell := CellNamed(r, preds[p].column); cell.Some? && Admits(cell.value, preds[p])
  }

  /** A text to join on; nulls and absent columns have none. */
  function KeyText(r: NamedRow, col: Str): Option<Str> {
    match CellNamed(r, col)
    case Some(StrCell(s)) => s
    case _ => None
  }

  /** What a pair of rows adds: nothing, a match, or the left row's aggregate. */
  function PairValue(q: JoinSpec, counting: bool, l: NamedRow, r: NamedRow): int {
    var key := KeyText(l, q.leftCol);
    if TakesPart(l, q.leftPreds) && TakesPart(r, q.rightPreds) && key.Some? && key == KeyText(r, q.rightCol)
    then if counting then 1 else Contribution(l.names, l.row, q.agg)
    else 0
  }

  function RowProbe(q: JoinSpec, counting: bool, ls: seq<NamedRow>, r: NamedRow): int {
    if ls == [] then 0 else RowProbe(q, counting, ls[..|ls| - 1], r) + PairValue(q, counting, ls[|ls| - 1], r)
  }

  /** Over all pairs of a left and a right row. */
  function RowJoin(q: JoinSpec, counting: bool, ls: seq<NamedRow>, rs: seq<NamedRow>): int {
    if rs == [] then 0 else RowJoin(q, counting, ls, rs[..|rs| - 1]) + RowProbe(q, counting, ls, rs[|rs| - 1])
  }

  /** On operators that fit, the filter is the reference's. */
  lemma TakesPartIsMatch(r: NamedRow, preds: seq<Predicate>)
    requires AllWellKinded(preds)
    ensures TakesPart(r, preds) <==> Matches(r.names, r.row, preds)
  {
    hide FindColumn, Admits, CellMatches, WellKinded;
    forall p | 0 <= p < |preds|
      ensures var cell := CellNamed(r, preds[p].column);
              (cell.Some? && Admits(cell.value, preds[p])) == Satisfies(r.names, r.row, preds[p])
    {
      assert WellKinded(preds[p]);
      var cell := CellNamed(r, preds[p].column);
      if cell.Some? { AdmitsIsMatch(cell.value, preds[p]); }
    }
    hide CellNamed, Satisfies;
  }

  /** What a row brings to a join: its key and its aggregate value. */
  datatype Payload = Payload(key: Str, number: int)

  // ----- a join of payloads

  function PayloadWorth(counting: bool, agg: Str, l: Payload): int {
    if counting then 1 else if agg == [] then 0 else l.number
  }

  function PayloadProbe(counting: bool, agg: Str, ls: seq<Payload>, key: Str): int {
    if ls == [] then 0
    else PayloadProbe(counting, agg, ls[..|ls| - 1], key) + if ls[|ls| - 1].key == key then PayloadWorth(counting, agg, ls[|ls| - 1]) else 0
  }

  /** Every pair of payloads with equal keys. */
  function PayloadJoin(counting: bool, agg: Str, ls: seq<Payload>, rs: seq<Payload>): int {
    if rs == [] then 0
    else PayloadJoin(counting, agg, ls, rs[..|rs| - 1]) + PayloadProbe(counting, agg, ls, rs[|rs| - 1].key)
  }

  lemma {:induction false} PayloadProbeAppend(counting: bool, agg: Str, x: seq<Payload>, y: seq<Payload>, key: Str)
    ensures PayloadProbe(counting, agg, x + y, key) == PayloadProbe(counting, agg, x, key) + PayloadProbe(counting, agg, y, key)
    decreases |y|
  {
    hide PayloadWorth;
    if y == [] {
      assert x + y == x;
    } else {
      PayloadProbeAppend(counting, agg, x, y[..|y| - 1], key);
      assert (x + y)[..|x + y| - 1] == x + y[..|y| - 1];
    }
  }

  lemma {:induction false} PayloadJoinAppend(counting: bool, agg: Str, ls: seq<Payload>, x: seq<Payload>, y: seq<Payload>)
    ensures PayloadJoin(counting, agg, ls, x + y) == PayloadJoin(counting, agg, ls, x) + PayloadJoin(counting, agg, ls, y)
    decreases |y|
  {
    hide PayloadProbe;
    if y == [] {
      assert x + y == x;
    } else {
      PayloadJoinAppend(counting, agg, ls, x, y[..|y| - 1]);
      assert (x + y)[..|x + y| - 1] == x + y[..|y| - 1];
    }
  }

  lemma {:induction false} PayloadProbeOrder(counting: bool, agg: Str, a: seq<Payload>, b: seq<Payload>, key: Str)
    requires multiset(a) == multiset(b)
    ensures PayloadProbe(counting, agg, a, key) == PayloadProbe(counting, agg, b, key)
    decreases |a|
  {
    if a == [] {
      assert |multiset(b)| == |b|;
    } else {
      var rest, last := a[..|a| - 1], a[|a| - 1];
      assert a == rest + [last];
      hide PayloadProbe;
      var x, y := PlaceOf(a, b);
      PayloadProbeOrder(counting, agg, rest, x + y, key);
      PayloadProbeAppend(counting, agg, rest, [last], key);
      PayloadProbeAppend(counting, agg, x + [last], y, key);
      PayloadProbeAppend(counting, agg, x, [last], key);
      PayloadProbeAppend(counting, agg, x, y, key);
    }
  }

  lemma {:induction false} PayloadLeftOrder(counting: bool, agg: Str, a: seq<Payload>, b: seq<Payload>, rs: seq<Payload>)
    requires multiset(a) == multiset(b)
    ensures PayloadJoin(counting, agg, a, rs) == PayloadJoin(counting, agg, b, rs)
    decreases |rs|
  {
    hide PayloadProbe;
    if rs != [] {
      PayloadLeftOrder(counting, agg, a, b, rs[..|rs| - 1]);
      PayloadProbeOrder(counting, agg, a, b, rs[|rs| - 1].key);
    }
  }

  lemma {:induction false} PayloadRightOrder(counting: bool, agg: Str, ls: seq<Payload>, a: seq<Payload>, b: seq<Payload>)
    requires multiset(a) == multiset(b)
    ensures PayloadJoin(counting, agg, ls, a) == PayloadJoin(counting, agg, ls, b)
    decreases |a|
  {
    if a == [] {
      assert |multiset(b)| == |b|;
    } else {
      var rest, last := a[..|a| - 1], a[|a| - 1];
      assert a == rest + [last];
      hide PayloadJoin;
      var x, y := PlaceOf(a, b);
      PayloadRightOrder(counting, agg, ls, rest, x + y);
      PayloadJoinAppend(counting, agg, ls, rest, [last]);
      PayloadJoinAppend(counting, agg, ls, x + [last], y);
      PayloadJoinAppend(counting, agg, ls, x, [last]);
      PayloadJoinAppend(counting, agg, ls, x, y);
    }
  }

  // ----- payloads of rows

  function OnePayload(batch: Batch, preds: seq<Predicate>, col: Str, agg: Str, r: nat): seq<Payload>
    requires batch.Valid() && r < batch.numRows
  {
    if Admitted(batch, preds, r) && KeyCell(batch, col, r).Some? then [Payload(KeyCell(batch, col, r).value, if agg == [] then 0 else NumberIn(batch, agg, r))] else []
  }

  /** Payloads of the admitted rows with a key, among the first n. */
  function BatchPayloads(batch: Batch, preds: seq<Predicate>, col: Str, agg: Str, n: nat): seq<Payload>
    requires batch.Valid() && n <= batch.numRows
  {
    if n == 0 then [] else BatchPayloads(batch, preds, col, agg, n - 1) + OnePayload(batch, preds, col, agg, n - 1)
  }

  function Payloads(batches: seq<Batch>, preds: seq<Predicate>, col: Str, agg: Str): seq<Payload>
    requires AllValid(batches)
  {
    if batches == [] then []
    else
      assert batches[|batches| - 1].Valid();
      Payloads(batches[..|batches| - 1], preds, col, agg)
      + BatchPayloads(batches[|batches| - 1], preds, col, agg, batches[|batches| - 1].numRows)
  }

  lemma PayloadsSnoc(batches: seq<Batch>, batch: Batch, preds: seq<Predicate>, col: Str, agg: Str)
    requires AllValid(batches) && batch.Valid()
    ensures AllValid(batches + [batch])
    ensures Payloads(batches + [batch], preds, col, agg) == Payloads(batches, preds, col, agg) + BatchPayloads(batch, preds, col, agg, batch.numRows)
  {
    assert (batches + [batch])[..|batches + [batch]| - 1] == batches;
    hide BatchPayloads, Batch.Valid;
  }

  function PayloadOf(tables: seq<seq<Batch>>, agg: Str, j: JoinRow): Payload {
    Payload(j.key, if agg == [] then 0 else RowNumber(tables, agg, j))
  }

  function PayloadsOf(tables: seq<seq<Batch>>, agg: Str, js: seq<JoinRow>): seq<Payload> {
    if js == [] then [] else PayloadsOf(tables, agg, js[..|js| - 1]) + [PayloadOf(tables, agg, js[|js| - 1])]
  }

  lemma {:induction false} PayloadsOfAppend(tables: seq<seq<Batch>>, agg: Str, x: seq<JoinRow>, y: seq<JoinRow>)
    ensures PayloadsOf(tables, agg, x + y) == PayloadsOf(tables, agg, x) + PayloadsOf(tables, agg, y)
    decreases |y|
  {
    hide PayloadOf;
    if y == [] {
      assert x + y == x;
    } else {
      PayloadsOfAppend(tables, agg, x, y[..|y| - 1]);
      assert (x + y)[..|x + y| - 1] == x + y[..|y| - 1];
    }
  }

  lemma PayloadsOfOne(tables: seq<seq<Batch>>, agg: Str, j: JoinRow)
    ensures PayloadsOf(tables, agg, [j]) == [PayloadOf(tables, agg, j)] && PayloadsOf(tables, agg, []) == []
  {
    hide PayloadOf;
    assert [j][..0] == [];
  }

  // ----- the nested loop is a join of payloads

  lemma {:induction false} InnerIsProbe(t: Tables, counting: bool, ls: seq<JoinRow>, r: JoinRow)
    ensures InnerLoop(t, counting, ls, r) == PayloadProbe(counting, t.agg, PayloadsOf(t.left, t.agg, ls), r.key)
  {
    hide RowNumber;
    if ls != [] { InnerIsProbe(t, counting, ls[..|ls| - 1], r); }
  }

  lemma {:induction false} NestedIsPayload(t: Tables, counting: bool, ls: seq<JoinRow>, rs: seq<JoinRow>)
    ensures NestedLoop(t, counting, ls, rs) == PayloadJoin(counting, t.agg, PayloadsOf(t.left, t.agg, ls), PayloadsOf(t.right, t.agg, rs))
    decreases |rs|
  {
    hide RowNumber, InnerLoop, PayloadProbe;
    if rs != [] {
      NestedIsPayload(t, counting, ls, rs[..|rs| - 1]);
      InnerIsProbe(t, counting, ls, rs[|rs| - 1]);
    }
  }

  lemma BatchPayloadsNext(batch: Batch, preds: seq<Predicate>, col: Str, agg: Str, n: nat)
    requires batch.Valid() && n < batch.numRows
    ensures BatchPayloads(batch, preds, col, agg, 0) == []
    ensures BatchPayloads(batch, preds, col, agg, n + 1) == BatchPayloads(batch, preds, col, agg, n) + OnePayload(batch, preds, col, agg, n)
  {
    hide OnePayload, Batch.Valid;
  }

  lemma RowPayload(tables: seq<seq<Batch>>, preds: seq<Predicate>, col: Str, agg: Str, n: nat, b: nat, r: nat)
    requires n < |tables| && b < |tables[n]| && tables[n][b].Valid() && r < tables[n][b].numRows
    ensures var batch := tables[n][b];
            OnePayload(batch, preds, col, agg, r)
            == if Admitted(batch, preds, r) && KeyCell(batch, col, r).Some?
               then [PayloadOf(tables, agg, JoinRow(n, b, r, KeyCell(batch, col, r).value))] else []
  {
    hide Admitted, KeyCell, NumberIn, Batch.Valid;
  }

  lemma NoJoinRowsYet(tables: seq<seq<Batch>>, preds: seq<Predicate>, col: Str, agg: Str, n: nat, b: nat)
    requires n < |tables| && b < |tables[n]| && tables[n][b].Valid()
    ensures PayloadsOf(tables, agg, BatchJoinRows(n, b, tables[n][b], preds, col, 0)) == [] == BatchPayloads(tables[n][b], preds, col, agg, 0)
  {
  }

  lemma {:induction false} BatchRowsPayloads(tables: seq<seq<Batch>>, preds: seq<Predicate>, col: Str, agg: Str, n: nat, b: nat, k: nat)
    requires n < |tables| && b < |tables[n]| && tables[n][b].Valid() && k <= tables[n][b].numRows
    ensures PayloadsOf(tables, agg, BatchJoinRows(n, b, tables[n][b], preds, col, k)) == BatchPayloads(tables[n][b], preds, col, agg, k)
  {
    hide *;
    var batch := tables[n][b];
    if k == 0 {
      NoJoinRowsYet(tables, preds, col, agg, n, b);
    } else {
      var before := BatchJoinRows(n, b, batch, preds, col, k - 1);
      BatchRowsPayloads(tables, preds, col, agg, n, b, k - 1);
      BatchRowsNext(n, b, batch, preds, col, k - 1);
      BatchPayloadsNext(batch, preds, col, agg, k - 1);
      RowPayload(tables, preds, col, agg, n, b, k - 1);
      if Admitted(batch, preds, k - 1) && KeyCell(batch, col, k - 1).Some? {
        var j := JoinRow(n, b, k - 1, KeyCell(batch, col, k - 1).value);
        PayloadsOfOne(tables, agg, j);
        PayloadsOfAppend(tables, agg, before, [j]);
      } else {
        assert before + [] == before;
        assert BatchPayloads(batch, preds, col, agg, k - 1) + [] == BatchPayloads(batch, preds, col, agg, k - 1);
      }
    }
  }

  lemma PrefixPayloads(batches: seq<Batch>, preds: seq<Predicate>, col: Str, agg: Str, k: nat)
    requires AllValid(batches) && k < |batches|
    ensures AllValid(batches[..k]) && AllValid(batches[..k + 1]) && batches[k].Valid()
    ensures Payloads(batches[..k + 1], preds, col, agg) == Payloads(batches[..k], preds, col, agg) + BatchPayloads(batches[k], preds, col, agg, batches[k].numRows)
  {
    assert batches[..k + 1] == batches[..k] + [batches[k]];
    assert batches[k].Valid();
    hide Batch.Valid;
    PayloadsSnoc(batches[..k], batches[k], preds, col, agg);
    hide Payloads, BatchPayloads;
  }

  lemma NodeNext(tables: seq<seq<Batch>>, preds: seq<Predicate>, col: Str, n: nat, k: nat)
    requires n < |tables| && AllValid(tables[n]) && k < |tables[n]|
    ensures tables[n][k].Valid() && NodeJoinRows(n, tables[n], preds, col, 0) == []
    ensures NodeJoinRows(n, tables[n], preds, col, k + 1)
            == NodeJoinRows(n, tables[n], preds, col, k) + BatchJoinRows(n, k, tables[n][k], preds, col, tables[n][k].numRows)
  {
    hide BatchJoinRows, Batch.Valid;
  }

  lemma NothingYet(tables: seq<seq<Batch>>, preds: seq<Predicate>, col: Str, agg: Str, n: nat)
    requires n < |tables| && AllValid(tables[n])
    ensures AllValid(tables[n][..0]) && Payloads(tables[n][..0], preds, col, agg) == []
    ensures PayloadsOf(tables, agg, NodeJoinRows(n, tables[n], preds, col, 0)) == []
  {
  }

  lemma {:induction false} NodePayloads(tables: seq<seq<Batch>>, preds: seq<Predicate>, col: Str, agg: Str, n: nat, k: nat)
    requires n < |tables| && AllValid(tables[n]) && k <= |tables[n]|
    ensures AllValid(tables[n][..k])
    ensures PayloadsOf(tables, agg, NodeJoinRows(n, tables[n], preds, col, k)) == Payloads(tables[n][..k], preds, col, agg)
  {
    hide *;
    if k == 0 {
      NothingYet(tables, preds, col, agg, n);
    } else {
      NodePayloads(tables, preds, col, agg, n, k - 1);
      NodeNext(tables, preds, col, n, k - 1);
      PrefixPayloads(tables[n], preds, col, agg, k - 1);
      BatchRowsPayloads(tables, preds, col, agg, n, k - 1, tables[n][k - 1].numRows);
      PayloadsOfAppend(tables, agg, NodeJoinRows(n, tables[n], preds, col, k - 1),
                       BatchJoinRows(n, k - 1, tables[n][k - 1], preds, col, tables[n][k - 1].numRows));
    }
  }

  // ----- payloads are said of cells

  function OneKeyed(r: NamedRow, preds: seq<Predicate>, col: Str, agg: Str): seq<Payload> {
    if TakesPart(r, preds) && KeyText(r, col).Some? then [Payload(KeyText(r, col).value, Contribution(r.names, r.row, agg))] else []
  }

  function Keyed(rows: seq<NamedRow>, preds: seq<Predicate>, col: Str, agg: Str): seq<Payload> {
    if rows == [] then [] else Keyed(rows[..|rows| - 1], preds, col, agg) + OneKeyed(rows[|rows| - 1], preds, col, agg)
  }

  lemma {:induction false} KeyedAppend(x: seq<NamedRow>, y: seq<NamedRow>, preds: seq<Predicate>, col: Str, agg: Str)
    ensures Keyed(x + y, preds, col, agg) == Keyed(x, preds, col, agg) + Keyed(y, preds, col, agg)
    decreases |y|
  {
    hide OneKeyed;
    if y == [] {
      assert x + y == x;
    } else {
      KeyedAppend(x, y[..|y| - 1], preds, col, agg);
      assert (x + y)[..|x + y| - 1] == x + y[..|y| - 1];
    }
  }

  lemma KeyedSnoc(x: seq<NamedRow>, r: NamedRow, preds: seq<Predicate>, col: Str, agg: Str)
    ensures Keyed(x + [r], preds, col, agg) == Keyed(x, preds, col, agg) + OneKeyed(r, preds, col, agg)
  {
    assert (x + [r])[..|x + [r]| - 1] == x;
    hide OneKeyed;
  }

  lemma PayloadPair(q: JoinSpec, counting: bool, l: NamedRow, r: NamedRow, k: Payload)
    requires OneKeyed(r, q.rightPreds, q.rightCol, q.agg) == [k]
    ensures PairValue(q, counting, l, r) == PayloadProbe(counting, q.agg, OneKeyed(l, q.leftPreds, q.leftCol, q.agg), k.key)
  {
    var own := OneKeyed(l, q.leftPreds, q.leftCol, q.agg);
    assert own != [] ==> own[..0] == [];
    hide TakesPart, KeyText, FindColumn;
  }

  lemma {:induction false} ProbeIsPayload(q: JoinSpec, counting: bool, ls: seq<NamedRow>, r: NamedRow, k: Payload)
    requires OneKeyed(r, q.rightPreds, q.rightCol, q.agg) == [k]
    ensures RowProbe(q, counting, ls, r) == PayloadProbe(counting, q.agg, Keyed(ls, q.leftPreds, q.leftCol, q.agg), k.key)
  {
    if ls != [] {
      var rest, l := ls[..|ls| - 1], ls[|ls| - 1];
      ProbeIsPayload(q, counting, rest, r, k);
      PayloadPair(q, counting, l, r, k);
      PayloadProbeAppend(counting, q.agg, Keyed(rest, q.leftPreds, q.leftCol, q.agg), OneKeyed(l, q.leftPreds, q.leftCol, q.agg), k.key);
      hide PayloadProbe, PairValue, OneKeyed;
    }
  }

  lemma {:induction false} NoProbe(q: JoinSpec, counting: bool, ls: seq<NamedRow>, r: NamedRow)
    requires OneKeyed(r, q.rightPreds, q.rightCol, q.agg) == []
    ensures RowProbe(q, counting, ls, r) == 0
  {
    hide TakesPart, KeyText;
    if ls != [] { NoProbe(q, counting, ls[..|ls| - 1], r); }
  }

  lemma PayloadJoinSnoc(counting: bool, agg: Str, ls: seq<Payload>, rs: seq<Payload>, k: Payload)
    ensures PayloadJoin(counting, agg, ls, rs + [k]) == PayloadJoin(counting, agg, ls, rs) + PayloadProbe(counting, agg, ls, k.key)
  {
    assert (rs + [k])[..|rs + [k]| - 1] == rs;
    hide PayloadProbe;
  }

  /** Joining the payloads of rows is joining the rows. */
  lemma {:induction false} RowJoinIsPayload(q: JoinSpec, counting: bool, ls: seq<NamedRow>, rs: seq<NamedRow>)
    ensures RowJoin(q, counting, ls, rs)
            == PayloadJoin(counting, q.agg, Keyed(ls, q.leftPreds, q.leftCol, q.agg), Keyed(rs, q.rightPreds, q.rightCol, q.agg))
    decreases |rs|
  {
    if rs != [] {
      var rest, r := rs[..|rs| - 1], rs[|rs| - 1];
      var keyed, own := Keyed(rest, q.rightPreds, q.rightCol, q.agg), OneKeyed(r, q.rightPreds, q.rightCol, q.agg);
      assert |own| <= 1;
      hide OneKeyed, RowProbe, PayloadJoin;
      RowJoinIsPayload(q, counting, ls, rest);
      if own == [] {
        NoProbe(q, counting, ls, r);
        assert keyed + own == keyed;
      } else {
        assert own == [own[0]];
        ProbeIsPayload(q, counting, ls, r, own[0]);
        PayloadJoinSnoc(counting, q.agg, Keyed(ls, q.leftPreds, q.leftCol, q.agg), keyed, own[0]);
      }
    } else {
      assert PayloadJoin(counting, q.agg, Keyed(ls, q.leftPreds, q.leftCol, q.agg), []) == 0;
    }
  }

  // ----- reading a batch by position is reading the row's cells

  function RecordAt(batch: Batch, r: nat): NamedRow
    requires batch.Valid() && r < batch.numRows
  {
    Record(batch.names, RowAt(batch, r))
  }

  /** The aggregate value of a joined row is what the row contributes to a sum. */
  lemma NumberIsContribution(batch: Batch, col: Str, r: nat)
    requires batch.Valid() && r < batch.numRows && col != []
    ensures NumberIn(batch, col, r) == Contribution(batch.names, RowAt(batch, r), col)
  {
    hide FindColumn;
  }

  lemma KeyIsText(batch: Batch, col: Str, r: nat)
    requires batch.Valid() && r < batch.numRows
    ensures KeyCell(batch, col, r) == KeyText(RecordAt(batch, r), col)
  {
    hide FindColumn;
  }

  lemma AdmittedTakesPart(batch: Batch, preds: seq<Predicate>, r: nat)
    requires batch.Valid() && r < batch.numRows
    ensures Admitted(batch, preds, r) <==> TakesPart(RecordAt(batch, r), preds)
  {
    hide FindColumn, Admits;
  }

  lemma OnePayloadKeyed(batch: Batch, preds: seq<Predicate>, col: Str, agg: Str, r: nat)
    requires batch.Valid() && r < batch.numRows
    ensures OnePayload(batch, preds, col, agg, r) == OneKeyed(RecordAt(batch, r), preds, col, agg)
  {
    AdmittedTakesPart(batch, preds, r);
    KeyIsText(batch, col, r);
    if agg != [] { NumberIsContribution(batch, agg, r); }
    assert RecordAt(batch, r).names == batch.names && RecordAt(batch, r).row == RowAt(batch, r);
    hide Admitted, TakesPart, KeyCell, KeyText, NumberIn, RowAt, FindColumn, RecordAt, Batch.Valid;
  }

  /** The first n rows of a batch, with its column names. */
  function BatchRecords(batch: Batch, n: nat): seq<NamedRow>
    requires batch.Valid() && n <= batch.numRows
  {
    if n == 0 then [] else BatchRecords(batch, n - 1) + [RecordAt(batch, n - 1)]
  }

  /** All rows of some batches. */
  function Records(batches: seq<Batch>): seq<NamedRow>
    requires AllValid(batches)
  {
    if batches == [] then []
    else
      assert batches[|batches| - 1].Valid();
      Records(batches[..|batches| - 1]) + BatchRecords(batches[|batches| - 1], batches[|batches| - 1].numRows)
  }

  /** All rows of the first n nodes. */
  function NodeRecords(tables: seq<seq<Batch>>, n: nat): seq<NamedRow>
    requires n <= |tables| && AllNodesValid(tables)
  {
    if n == 0 then [] else NodeRecords(tables, n - 1) + Records(tables[n - 1])
  }

  lemma NothingKeyed(preds: seq<Predicate>, col: Str, agg: Str)
    ensures Keyed([], preds, col, agg) == []
  {
  }

  lemma BatchRecordsNext(batch: Batch, n: nat)
    requires batch.Valid() && n < batch.numRows
    ensures BatchRecords(batch, n + 1) == BatchRecords(batch, n) + [RecordAt(batch, n)]
  {
    hide RecordAt;
  }

  lemma NoBatchRecords(batch: Batch, preds: seq<Predicate>, col: Str, agg: Str)
    requires batch.Valid()
    ensures BatchRecords(batch, 0) == [] && BatchPayloads(batch, preds, col, agg, 0) == []
  {
  }

  lemma {:induction false} BatchKeyed(batch: Batch, preds: seq<Predicate>, col: Str, agg: Str, n: nat)
    requires batch.Valid() && n <= batch.numRows
    ensures BatchPayloads(batch, preds, col, agg, n) == Keyed(BatchRecords(batch, n), preds, col, agg)
  {
    hide *;
    if n == 0 {
      NoBatchRecords(batch, preds, col, agg);
      NothingKeyed(preds, col, agg);
    } else {
      BatchKeyed(batch, preds, col, agg, n - 1);
      BatchPayloadsNext(batch, preds, col, agg, n - 1);
      BatchRecordsNext(batch, n - 1);
      KeyedSnoc(BatchRecords(batch, n - 1), RecordAt(batch, n - 1), preds, col, agg);
      OnePayloadKeyed(batch, preds, col, agg, n - 1);
    }
  }

  lemma {:induction false} PayloadsKeyed(batches: seq<Batch>, preds: seq<Predicate>, col: Str, agg: Str)
    requires AllValid(batches)
    ensures Payloads(batches, preds, col, agg) == Keyed(Records(batches), preds, col, agg)
  {
    if batches != [] {
      var rest, last := batches[..|batches| - 1], batches[|batches| - 1];
      assert last.Valid();
      PayloadsKeyed(rest, preds, col, agg);
      BatchKeyed(last, preds, col, agg, last.numRows);
      KeyedAppend(Records(rest), BatchRecords(last, last.numRows), preds, col, agg);
      hide Keyed, BatchPayloads, BatchRecords, Batch.Valid;
    }
  }

  // ----- the rows of all nodes

  lemma SideNext(tables: seq<seq<Batch>>, preds: seq<Predicate>, col: Str, k: nat)
    requires AllNodesValid(tables) && k < |tables|
    ensures AllValid(tables[k])
    ensures SideRows(tables, preds, col, 0) == []
    ensures SideRows(tables, preds, col, k + 1)
            == SideRows(tables, preds, col, k) + NodeJoinRows(k, tables[k], preds, col, |tables[k]|)
  {
    hide NodeJoinRows, AllValid;
  }

  lemma NoNodes(tables: seq<seq<Batch>>, preds: seq<Predicate>, col: Str, agg: Str)
    requires AllNodesValid(tables)
    ensures PayloadsOf(tables, agg, SideRows(tables, preds, col, 0)) == [] && NodeRecords(tables, 0) == []
  {
  }

  lemma NodeRecordsNext(tables: seq<seq<Batch>>, n: nat)
    requires n < |tables| && AllNodesValid(tables)
    ensures AllValid(tables[n]) && NodeRecords(tables, n + 1) == NodeRecords(tables, n) + Records(tables[n])
  {
    hide Records, AllValid;
  }

  lemma {:induction false} SideKeyed(tables: seq<seq<Batch>>, preds: seq<Predicate>, col: Str, agg: Str, n: nat)
    requires AllNodesValid(tables) && n <= |tables|
    ensures PayloadsOf(tables, agg, SideRows(tables, preds, col, n)) == Keyed(NodeRecords(tables, n), preds, col, agg)
  {
    hide *;
    if n == 0 {
      NoNodes(tables, preds, col, agg);
      NothingKeyed(preds, col, agg);
    } else {
      var m := n - 1;
      SideKeyed(tables, preds, col, agg, m);
      SideNext(tables, preds, col, m);
      NodeRecordsNext(tables, m);
      NodePayloads(tables, preds, col, agg, m, |tables[m]|);
      assert tables[m][..|tables[m]|] == tables[m];
      PayloadsKeyed(tables[m], preds, col, agg);
      PayloadsOfAppend(tables, agg, SideRows(tables, preds, col, m), NodeJoinRows(m, tables[m], preds, col, |tables[m]|));
      KeyedAppend(NodeRecords(tables, m), Records(tables[m]), preds, col, agg);
    }
  }

  /** The nested loop over the rows' positions is the join of the rows' cells. */
  lemma NestedIsRowJoin(t: Tables, counting: bool, leftPreds: seq<Predicate>, rightPreds: seq<Predicate>)
    requires AllNodesValid(t.left) && AllNodesValid(t.right)
    ensures NestedLoop(t, counting, SideRows(t.left, leftPreds, t.leftCol, |t.left|), SideRows(t.right, rightPreds, t.rightCol, |t.right|))
            == RowJoin(JoinSpec(t.leftCol, t.rightCol, leftPreds, rightPreds, t.agg), counting,
                       NodeRecords(t.left, |t.left|), NodeRecords(t.right, |t.right|))
  {
    hide *;
    var ls, rs := SideRows(t.left, leftPreds, t.leftCol, |t.left|), SideRows(t.right, rightPreds, t.rightCol, |t.right|);
    NestedIsPayload(t, counting, ls, rs);
    SideKeyed(t.left, leftPreds, t.leftCol, t.agg, |t.left|);
    SideKeyed(t.right, rightPreds, t.rightCol, t.agg, |t.right|);
    RowJoinIsPayload(JoinSpec(t.leftCol, t.rightCol, leftPreds, rightPreds, t.agg), counting,
                     NodeRecords(t.left, |t.left|), NodeRecords(t.right, |t.right|));
  }
}
