/** Spreading batches over the nodes and joining there is joining the batches: where
    a row was placed, and in which order, does not matter. */
module PlacedJoin {
  import opened Storage
  import opened MemTables
  import opened Rows
  import opened RowIds
  import opened DistributedJoin
  import opened DistributedCoordinator
  import opened JoinRows
  import opened JoinQuery
  import opened Distribution

  // ----- batches spread over the nodes

  /** What node n holds after the batches were distributed. */
  function SlicesAt(batches: seq<Batch>, nodes: nat, n: nat): seq<Batch>
    requires AllValid(batches) && n < nodes
  {
    if batches == [] then []
    else
      assert batches[|batches| - 1].Valid();
      Received(SlicesAt(batches[..|batches| - 1], nodes, n), SliceOf(batches[|batches| - 1], nodes, n))
  }

  /** Distributing one more batch. */
  lemma SlicesAtSnoc(batches: seq<Batch>, batch: Batch, nodes: nat, n: nat)
    requires AllValid(batches) && batch.Valid() && n < nodes
    ensures AllValid(batches + [batch])
    ensures SlicesAt(batches + [batch], nodes, n) == Received(SlicesAt(batches, nodes, n), SliceOf(batch, nodes, n))
  {
    assert (batches + [batch])[..|batches + [batch]| - 1] == batches;
    hide Batch.Valid, SliceOf, Received;
  }

  lemma {:induction false} SlicesValid(batches: seq<Batch>, nodes: nat, n: nat)
    requires AllValid(batches) && n < nodes
    ensures AllValid(SlicesAt(batches, nodes, n))
  {
    if batches != [] {
      assert batches[|batches| - 1].Valid();
      SlicesValid(batches[..|batches| - 1], nodes, n);
    }
  }

  /** The payloads on the first n nodes. */
  function SpreadPayloads(batches: seq<Batch>, nodes: nat, preds: seq<Predicate>, col: Str, agg: Str, n: nat): seq<Payload>
    requires AllValid(batches) && n <= nodes
  {
    if n == 0 then []
    else
      SlicesValid(batches, nodes, n - 1);
      SpreadPayloads(batches, nodes, preds, col, agg, n - 1) + Payloads(SlicesAt(batches, nodes, n - 1), preds, col, agg)
  }

  lemma SlicePayload(batch: Batch, preds: seq<Predicate>, col: Str, agg: Str, start: nat, length: nat, r: nat)
    requires batch.Valid() && start + length <= batch.numRows && r < length
    ensures OnePayload(Slice(batch, start, length), preds, col, agg, r) == OnePayload(batch, preds, col, agg, start + r)
  {
    var slice := Slice(batch, start, length);
    hide FindColumn, Admits;
    forall f | 0 <= f < |batch.columns| ensures CellAt(slice.columns[f], r) == CellAt(batch.columns[f], start + r) {
    }
    assert Admitted(slice, preds, r) == Admitted(batch, preds, start + r);
    assert KeyCell(slice, col, r) == KeyCell(batch, col, start + r);
    assert NumberIn(slice, agg, r) == NumberIn(batch, agg, start + r);
  }

  lemma {:induction false} SliceBatchPayloads(batch: Batch, preds: seq<Predicate>, col: Str, agg: Str, start: nat, length: nat, n: nat)
    requires batch.Valid() && start + length <= batch.numRows && n <= length
    ensures BatchPayloads(batch, preds, col, agg, start + n)
            == BatchPayloads(batch, preds, col, agg, start) + BatchPayloads(Slice(batch, start, length), preds, col, agg, n)
  {
    hide Slice, OnePayload, Batch.Valid;
    if n > 0 {
      SliceBatchPayloads(batch, preds, col, agg, start, length, n - 1);
      SlicePayload(batch, preds, col, agg, start, length, n - 1);
    }
  }

  /** The payloads of a batch's first n slices. */
  function SlicedPayloads(batch: Batch, nodes: nat, preds: seq<Predicate>, col: Str, agg: Str, n: nat): seq<Payload>
    requires batch.Valid() && n <= nodes
  {
    if n == 0 then []
    else SlicedPayloads(batch, nodes, preds, col, agg, n - 1)
         + BatchPayloads(SliceOf(batch, nodes, n - 1), preds, col, agg, SliceOf(batch, nodes, n - 1).numRows)
  }

  lemma SliceOfIs(batch: Batch, nodes: nat, n: nat)
    requires batch.Valid() && n < nodes
    ensures var start, length := SliceStart(batch.numRows, nodes, n), SliceLength(batch.numRows, nodes, n);
            && start + length <= batch.numRows && SliceOf(batch, nodes, n) == Slice(batch, start, length)
            && SliceOf(batch, nodes, n).Valid() && SliceOf(batch, nodes, n).numRows == length
            && (n < nodes - 1 ==> SliceStart(batch.numRows, nodes, n + 1) == start + length)
            && (n == nodes - 1 ==> start + length == batch.numRows)
  {
    StartBound(batch.numRows, nodes, n);
    hide SliceStart, Slice, Batch.Valid;
  }

  lemma NoSlicesYet(batch: Batch, nodes: nat, preds: seq<Predicate>, col: Str, agg: Str)
    requires batch.Valid() && nodes > 0
    ensures SliceStart(batch.numRows, nodes, 0) == 0
    ensures SlicedPayloads(batch, nodes, preds, col, agg, 0) == [] == BatchPayloads(batch, preds, col, agg, 0)
  {
  }

  lemma {:induction false} SlicedSoFar(batch: Batch, nodes: nat, preds: seq<Predicate>, col: Str, agg: Str, n: nat)
    requires batch.Valid() && n < nodes
    ensures SliceStart(batch.numRows, nodes, n) <= batch.numRows
    ensures SlicedPayloads(batch, nodes, preds, col, agg, n) == BatchPayloads(batch, preds, col, agg, SliceStart(batch.numRows, nodes, n))
  {
    hide *;
    SliceOfIs(batch, nodes, n);
    if n == 0 {
      NoSlicesYet(batch, nodes, preds, col, agg);
    } else {
      SlicedSoFar(batch, nodes, preds, col, agg, n - 1);
      SliceOfIs(batch, nodes, n - 1);
      SlicedNext(batch, nodes, preds, col, agg, n - 1);
      var start, length := SliceStart(batch.numRows, nodes, n - 1), SliceLength(batch.numRows, nodes, n - 1);
      SliceBatchPayloads(batch, preds, col, agg, start, length, length);
    }
  }

  lemma AllSliced(batch: Batch, nodes: nat, preds: seq<Predicate>, col: Str, agg: Str)
    requires batch.Valid() && nodes > 0
    ensures SlicedPayloads(batch, nodes, preds, col, agg, nodes) == BatchPayloads(batch, preds, col, agg, batch.numRows)
  {
    hide *;
    var n := nodes - 1;
    SlicedSoFar(batch, nodes, preds, col, agg, n);
    SliceOfIs(batch, nodes, n);
    SlicedNext(batch, nodes, preds, col, agg, n);
    var start, length := SliceStart(batch.numRows, nodes, n), SliceLength(batch.numRows, nodes, n);
    SliceBatchPayloads(batch, preds, col, agg, start, length, length);
  }

  lemma ReceivedPayloads(batches: seq<Batch>, slice: Batch, preds: seq<Predicate>, col: Str, agg: Str)
    requires AllValid(batches) && slice.Valid()
    ensures AllValid(Received(batches, slice))
    ensures Payloads(Received(batches, slice), preds, col, agg) == Payloads(batches, preds, col, agg) + BatchPayloads(slice, preds, col, agg, slice.numRows)
  {
    PayloadsSnoc(batches, slice, preds, col, agg);
    assert slice.numRows == 0 ==> BatchPayloads(slice, preds, col, agg, slice.numRows) == [];
    hide Payloads, BatchPayloads, Batch.Valid;
  }

  lemma SpreadNext(batches: seq<Batch>, nodes: nat, preds: seq<Predicate>, col: Str, agg: Str, n: nat)
    requires AllValid(batches) && n < nodes
    ensures AllValid(SlicesAt(batches, nodes, n)) && SpreadPayloads(batches, nodes, preds, col, agg, 0) == []
    ensures SpreadPayloads(batches, nodes, preds, col, agg, n + 1)
            == SpreadPayloads(batches, nodes, preds, col, agg, n) + Payloads(SlicesAt(batches, nodes, n), preds, col, agg)
  {
    SlicesValid(batches, nodes, n);
    hide SlicesAt, Payloads;
  }

  lemma SlicedNext(batch: Batch, nodes: nat, preds: seq<Predicate>, col: Str, agg: Str, n: nat)
    requires batch.Valid() && n < nodes
    ensures SliceOf(batch, nodes, n).Valid() && SlicedPayloads(batch, nodes, preds, col, agg, 0) == []
    ensures SlicedPayloads(batch, nodes, preds, col, agg, n + 1)
            == SlicedPayloads(batch, nodes, preds, col, agg, n)
               + BatchPayloads(SliceOf(batch, nodes, n), preds, col, agg, SliceOf(batch, nodes, n).numRows)
  {
    hide BatchPayloads, SliceStart, SliceLength, Slice;
  }

  lemma {:induction false} SpreadOneMore(batches: seq<Batch>, batch: Batch, nodes: nat, preds: seq<Predicate>, col: Str, agg: Str, n: nat)
    requires AllValid(batches) && batch.Valid() && AllValid(batches + [batch]) && n <= nodes && nodes > 0
    ensures multiset(SpreadPayloads(batches + [batch], nodes, preds, col, agg, n))
            == multiset(SpreadPayloads(batches, nodes, preds, col, agg, n)) + multiset(SlicedPayloads(batch, nodes, preds, col, agg, n))
  {
    hide *;
    SpreadNext(batches, nodes, preds, col, agg, if n > 0 then n - 1 else 0);
    SpreadNext(batches + [batch], nodes, preds, col, agg, if n > 0 then n - 1 else 0);
    SlicedNext(batch, nodes, preds, col, agg, if n > 0 then n - 1 else 0);
    if n > 0 {
      SpreadOneMore(batches, batch, nodes, preds, col, agg, n - 1);
      SlicesAtSnoc(batches, batch, nodes, n - 1);
      ReceivedPayloads(SlicesAt(batches, nodes, n - 1), SliceOf(batch, nodes, n - 1), preds, col, agg);
    }
  }

  lemma {:induction false} NothingSpread(nodes: nat, preds: seq<Predicate>, col: Str, agg: Str, n: nat)
    requires n <= nodes
    ensures SpreadPayloads([], nodes, preds, col, agg, n) == []
  {
    if n > 0 { NothingSpread(nodes, preds, col, agg, n - 1); }
  }

  /** The nodes together hold the payloads of the batches, each as often. */
  lemma {:induction false} SpreadConserves(batches: seq<Batch>, nodes: nat, preds: seq<Predicate>, col: Str, agg: Str)
    requires AllValid(batches) && nodes > 0
    ensures multiset(SpreadPayloads(batches, nodes, preds, col, agg, nodes)) == multiset(Payloads(batches, preds, col, agg))
  {
    if batches == [] {
      NothingSpread(nodes, preds, col, agg, nodes);
    } else {
      var rest, last := batches[..|batches| - 1], batches[|batches| - 1];
      assert batches == rest + [last] && last.Valid() && AllValid(rest);
      hide *;
      SpreadConserves(rest, nodes, preds, col, agg);
      PayloadsSnoc(rest, last, preds, col, agg);
      SpreadOneMore(rest, last, nodes, preds, col, agg, nodes);
      AllSliced(last, nodes, preds, col, agg);
    }
  }

  // ----- the distributed join of the batches

  /** Node n holds its slices of the batches. */
  ghost predicate Spread(tables: seq<seq<Batch>>, batches: seq<Batch>) {
    AllValid(batches) && forall n :: 0 <= n < |tables| ==> tables[n] == SlicesAt(batches, |tables|, n)
  }

  lemma SpreadAt(tables: seq<seq<Batch>>, batches: seq<Batch>, n: nat)
    requires Spread(tables, batches) && n < |tables|
    ensures AllValid(batches) && tables[n] == SlicesAt(batches, |tables|, n) && AllValid(tables[n])
  {
    SlicesValid(batches, |tables|, n);
    hide SlicesAt;
  }

  lemma SpreadValid(tables: seq<seq<Batch>>, batches: seq<Batch>)
    requires Spread(tables, batches)
    ensures AllNodesValid(tables)
  {
    forall n | 0 <= n < |tables| ensures AllValid(tables[n]) { SpreadAt(tables, batches, n); }
    hide Spread, AllValid;
  }

  lemma NoSideRows(tables: seq<seq<Batch>>, batches: seq<Batch>, preds: seq<Predicate>, col: Str, agg: Str)
    requires AllNodesValid(tables) && AllValid(batches)
    ensures PayloadsOf(tables, agg, SideRows(tables, preds, col, 0)) == [] == SpreadPayloads(batches, |tables|, preds, col, agg, 0)
  {
  }

  lemma {:induction false} SidePayloads(tables: seq<seq<Batch>>, batches: seq<Batch>, preds: seq<Predicate>, col: Str, agg: Str, n: nat)
    requires Spread(tables, batches) && AllValid(batches) && AllNodesValid(tables) && n <= |tables|
    ensures PayloadsOf(tables, agg, SideRows(tables, preds, col, n)) == SpreadPayloads(batches, |tables|, preds, col, agg, n)
  {
    hide *;
    if n == 0 {
      NoSideRows(tables, batches, preds, col, agg);
    } else {
      var m := n - 1;
      SidePayloads(tables, batches, preds, col, agg, m);
      SpreadAt(tables, batches, m);
      SideNext(tables, preds, col, m);
      SpreadNext(batches, |tables|, preds, col, agg, m);
      NodePayloads(tables, preds, col, agg, m, |tables[m]|);
      assert tables[m][..|tables[m]|] == tables[m];
      PayloadsOfAppend(tables, agg, SideRows(tables, preds, col, m), NodeJoinRows(m, tables[m], preds, col, |tables[m]|));
    }
  }

  /** The join of the rows that the nodes hold is the join of the batches that were
      distributed, whatever the number of nodes. */
  lemma JoinOfBatches(t: Tables, counting: bool, left: seq<Batch>, right: seq<Batch>, leftPreds: seq<Predicate>, rightPreds: seq<Predicate>)
    requires |t.left| > 0 && |t.right| > 0 && Spread(t.left, left) && Spread(t.right, right)
    ensures AllValid(left) && AllValid(right) && AllNodesValid(t.left) && AllNodesValid(t.right)
    ensures NestedLoop(t, counting, SideRows(t.left, leftPreds, t.leftCol, |t.left|), SideRows(t.right, rightPreds, t.rightCol, |t.right|))
            == RowJoin(JoinSpec(t.leftCol, t.rightCol, leftPreds, rightPreds, t.agg), counting, Records(left), Records(right))
  {
    hide *;
    SpreadValid(t.left, left);
    SpreadValid(t.right, right);
    SpreadAt(t.left, left, 0);
    SpreadAt(t.right, right, 0);
    var ls, rs := SideRows(t.left, leftPreds, t.leftCol, |t.left|), SideRows(t.right, rightPreds, t.rightCol, |t.right|);
    NestedIsPayload(t, counting, ls, rs);
    SidePayloads(t.left, left, leftPreds, t.leftCol, t.agg, |t.left|);
    SidePayloads(t.right, right, rightPreds, t.rightCol, t.agg, |t.right|);
    SpreadConserves(left, |t.left|, leftPreds, t.leftCol, t.agg);
    SpreadConserves(right, |t.right|, rightPreds, t.rightCol, t.agg);
    PayloadLeftOrder(counting, t.agg, PayloadsOf(t.left, t.agg, ls), Payloads(left, leftPreds, t.leftCol, t.agg), PayloadsOf(t.right, t.agg, rs));
    PayloadsKeyed(left, leftPreds, t.leftCol, t.agg);
    PayloadsKeyed(right, rightPreds, t.rightCol, t.agg);
    RowJoinIsPayload(JoinSpec(t.leftCol, t.rightCol, leftPreds, rightPreds, t.agg), counting, Records(left), Records(right));
    PayloadRightOrder(counting, t.agg, Payloads(left, leftPreds, t.leftCol, t.agg), PayloadsOf(t.right, t.agg, rs), Payloads(right, rightPreds, t.rightCol, t.agg));
  }
}
