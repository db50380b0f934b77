/** Spreading a batch over the nodes in contiguous slices. */
module Distribution {
  import opened Storage
  import opened MemTables
  import opened Rows
  import opened DistributedCoordinator
  import opened JoinQuery

  predicate SliceFits(c: Column, start: nat, length: nat) { start + length <= c.Size() }

  function SliceColumn(c: Column, start: nat, length: nat): (s: Column)
    requires SliceFits(c, start, length)
    ensures s.Size() == length
  {
    if c.Ints? then Ints(c.ints[start..start + length]) else Strs(c.strs[start..start + length])
  }

  function SlicedColumn(batch: Batch, f: nat, start: nat, length: nat): (s: Column)
    requires batch.Valid() && f < |batch.columns| && start + length <= batch.numRows
    ensures s.Size() == length
  {
    SliceColumn(batch.columns[f], start, length)
  }

  function Slice(batch: Batch, start: nat, length: nat): (s: Batch)
    requires batch.Valid() && start + length <= batch.numRows
    ensures s.Valid() && s.numRows == length && s.names == batch.names
  {
    Batch(batch.names, seq(|batch.columns|, f requires 0 <= f < |batch.columns| => SlicedColumn(batch, f, start, length)), length)
  }

  /** First row of node n's slice, out of `rows` rows over `nodes` nodes. */
  function SliceStart(rows: nat, nodes: nat, n: nat): nat
    requires nodes > 0
  {
    n * (rows / nodes)
  }

  lemma StartBound(rows: nat, nodes: nat, n: nat)
    requires nodes > 0 && n < nodes
    ensures SliceStart(rows, nodes, n) + rows / nodes <= rows
    ensures SliceStart(rows, nodes, n + 1) == SliceStart(rows, nodes, n) + rows / nodes
    ensures SliceStart(rows, nodes, 0) == 0
  {
    assert rows == nodes * (rows / nodes) + rows % nodes;
    Multiples(rows, nodes, n, rows / nodes, rows % nodes);
  }

  lemma Multiples(rows: nat, nodes: nat, n: nat, q: nat, rest: nat)
    requires n < nodes && rows == nodes * q + rest
    ensures n * q + q <= rows && (n + 1) * q == n * q + q && 0 * q == 0
  {
    var more := nodes - (n + 1);
    assert nodes * q == n * q + q + more * q by { assert nodes == n + 1 + more; }
    assert more * q >= 0;
  }

  /** The last node takes the remainder. */
  function SliceLength(rows: nat, nodes: nat, n: nat): (length: nat)
    requires nodes > 0 && n < nodes
    ensures SliceStart(rows, nodes, n) + length <= rows
  {
    StartBound(rows, nodes, n);
    if n == nodes - 1 then rows - SliceStart(rows, nodes, n) else rows / nodes
  }

  /** All slices have the same length but the last, which also takes what is left over. */
  lemma SliceSizes(rows: nat, nodes: nat, n: nat)
    requires n < nodes
    ensures SliceStart(rows, nodes, n) == n * (rows / nodes)
    ensures n < nodes - 1 ==> SliceLength(rows, nodes, n) == rows / nodes
    ensures n == nodes - 1 ==> SliceLength(rows, nodes, n) == rows / nodes + rows % nodes
  {
    StartBound(rows, nodes, n);
    var q, rest := rows / nodes, rows % nodes;
    assert rows == nodes * q + rest;
    if n == nodes - 1 { assert nodes * q == n * q + q; }
  }

  function SliceOf(batch: Batch, nodes: nat, n: nat): Batch
    requires batch.Valid() && nodes > 0 && n < nodes
  {
    Slice(batch, SliceStart(batch.numRows, nodes, n), SliceLength(batch.numRows, nodes, n))
  }

  /** The rows of the first n slices, one after the other. */
  function SliceRows(batch: Batch, nodes: nat, n: nat): seq<Row>
    requires batch.Valid() && n <= nodes
  {
    if n == 0 then [] else SliceRows(batch, nodes, n - 1) + RowsOf(SliceOf(batch, nodes, n - 1))
  }

  lemma SliceRow(batch: Batch, start: nat, length: nat, r: nat)
    requires batch.Valid() && start + length <= batch.numRows && r < length
    ensures RowAt(Slice(batch, start, length), r) == RowAt(batch, start + r)
  {
  }

  lemma {:induction false} SliceRowsTo(batch: Batch, start: nat, length: nat, n: nat)
    requires batch.Valid() && start + length <= batch.numRows && n <= length
    ensures RowsTo(batch, start + n) == RowsTo(batch, start) + RowsTo(Slice(batch, start, length), n)
  {
    hide Slice, RowAt, Batch.Valid;
    if n > 0 {
      SliceRowsTo(batch, start, length, n - 1);
      SliceRow(batch, start, length, n - 1);
    }
  }

  lemma {:induction false} SlicesSoFar(batch: Batch, nodes: nat, n: nat)
    requires batch.Valid() && 0 < nodes && n < nodes
    ensures SliceStart(batch.numRows, nodes, n) <= batch.numRows
    ensures SliceRows(batch, nodes, n) == RowsTo(batch, SliceStart(batch.numRows, nodes, n))
  {
    StartBound(batch.numRows, nodes, n);
    if n > 0 {
      StartBound(batch.numRows, nodes, n - 1);
      SlicesSoFar(batch, nodes, n - 1);
      var start, length := SliceStart(batch.numRows, nodes, n - 1), SliceLength(batch.numRows, nodes, n - 1);
      hide SliceStart, SliceLength, Slice, Batch.Valid, RowsTo;
      SliceRowsTo(batch, start, length, length);
    }
  }

  /** Every row goes to exactly one node, in order. */
  lemma SlicesConserveRows(batch: Batch, nodes: nat)
    requires batch.Valid() && nodes > 0
    ensures SliceRows(batch, nodes, nodes) == RowsOf(batch)
  {
    var n := nodes - 1;
    SlicesSoFar(batch, nodes, n);
    var start, length := SliceStart(batch.numRows, nodes, n), SliceLength(batch.numRows, nodes, n);
    SliceRowsTo(batch, start, length, length);
    hide SliceStart, Slice, Batch.Valid, RowsTo;
  }

  /** Empty slices are not ingested. */
  function Received(batches: seq<Batch>, slice: Batch): seq<Batch> { if slice.numRows > 0 then batches + [slice] else batches }

  method DistributeAndIngest(nodes: seq<ClusterNode>, isLeft: bool, batch: Batch)
    requires IsCluster(nodes) && batch.Valid()
    modifies nodes
    ensures forall n :: 0 <= n < |nodes| ==>
      && nodes[n].left == (if isLeft then Received(old(nodes[n].left), SliceOf(batch, |nodes|, n)) else old(nodes[n].left))
      && nodes[n].right == (if isLeft then old(nodes[n].right) else Received(old(nodes[n].right), SliceOf(batch, |nodes|, n)))
  {
    var perNode := batch.numRows / |nodes|;
    for n := 0 to |nodes|
      invariant forall i :: 0 <= i < n ==>
        && nodes[i].left == (if isLeft then Received(old(nodes[i].left), SliceOf(batch, |nodes|, i)) else old(nodes[i].left))
        && nodes[i].right == (if isLeft then old(nodes[i].right) else Received(old(nodes[i].right), SliceOf(batch, |nodes|, i)))
      invariant forall i :: n <= i < |nodes| ==> nodes[i].left == old(nodes[i].left) && nodes[i].right == old(nodes[i].right)
    {
      StartBound(batch.numRows, |nodes|, n);
      var start := n * perNode;
      assert start == SliceStart(batch.numRows, |nodes|, n);
      var length := if n == |nodes| - 1 then batch.numRows - start else perNode;
      assert length == SliceLength(batch.numRows, |nodes|, n);
      hide SliceStart, SliceLength, Slice, Batch.Valid;
      if length > 0 {
        var slice := Slice(batch, start, length);
        if isLeft { nodes[n].IngestLeft(slice); } else { nodes[n].IngestRight(slice); }
      }
    }
  }
}
