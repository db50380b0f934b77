/** A distributed join query from start to end, and the spreading of a batch over
    the nodes. */
module JoinQuery {
  import opened Words
  import opened Storage
  import opened MemTables
  import opened RowIds
  import opened DistributedJoin
  import opened DistributedCoordinator
  import opened JoinPairs
  import opened JoinRows

  // ----- hot signatures

  function Occurrences(es: seq<Entry>, sig: FatSignature): nat {
    if es == [] then 0 else Occurrences(es[..|es| - 1], sig) + if es[|es| - 1].sig == sig then 1 else 0
  }

  /** Positions of a signature. */
  function Positions(es: seq<Entry>, sig: FatSignature): set<nat> { set i: nat | i < |es| && es[i].sig == sig }

  /** Occurrences are the positions it stands at. */
  lemma {:induction false} OccurrencesCounted(es: seq<Entry>, sig: FatSignature)
    ensures Occurrences(es, sig) == |Positions(es, sig)|
  {
    if es == [] {
      assert Positions(es, sig) == {};
    } else {
      var rest, last := es[..|es| - 1], |es| - 1;
      OccurrencesCounted(rest, sig);
      assert Positions(es, sig) == Positions(rest, sig) + if es[last].sig == sig then {last} else {};
      assert last !in Positions(rest, sig);
    }
  }

  function CountOf(counts: map<FatSignature, nat>, sig: FatSignature): nat { if sig in counts then counts[sig] else 0 }

  ghost predicate Counts(counts: map<FatSignature, nat>, es: seq<Entry>) {
    forall sig :: CountOf(counts, sig) == Occurrences(es, sig)
  }

  lemma CountsNext(counts: map<FatSignature, nat>, es: seq<Entry>, e: Entry)
    requires Counts(counts, es)
    ensures Counts(counts[e.sig := CountOf(counts, e.sig) + 1], es + [e])
  {
    assert (es + [e])[..|es + [e]| - 1] == es;
    forall sig ensures Occurrences(es + [e], sig) == Occurrences(es, sig) + if e.sig == sig then 1 else 0 {
    }
    hide Occurrences;
  }

  method CountEntries(counts: map<FatSignature, nat>, es: seq<Entry>, ghost before: seq<Entry>) returns (more: map<FatSignature, nat>)
    requires Counts(counts, before)
    ensures Counts(more, before + es)
  {
    more := counts;
    assert before + es[..0] == before;
    hide Counts;
    for i := 0 to |es|
      invariant Counts(more, before + es[..i])
    {
      CountsNext(more, before + es[..i], es[i]);
      assert before + es[..i + 1] == before + es[..i] + [es[i]];
      more := more[es[i].sig := CountOf(more, es[i].sig) + 1];
    }
    assert es[..|es|] == es;
  }

  /** Signatures that occur more than sixteen times on the left. */
  method HotSignatures(locals: seq<seq<Entry>>) returns (hot: set<FatSignature>)
    ensures forall sig :: sig in hot <==> Occurrences(Flatten(locals), sig) > 16
  {
    var counts: map<FatSignature, nat> := map[];
    assert locals[..0] == [];
    assert Counts(counts, []);
    for n := 0 to |locals|
      invariant Counts(counts, Flatten(locals[..n]))
    {
      assert locals[..n + 1] == locals[..n] + [locals[n]];
      FlattenSnoc(locals[..n], locals[n]);
      hide Counts, Flatten;
      counts := CountEntries(counts, locals[n], Flatten(locals[..n]));
    }
    assert locals[..|locals|] == locals;
    hot := set sig | sig in counts && counts[sig] > 16;
    forall sig ensures sig in hot <==> Occurrences(Flatten(locals), sig) > 16 {
      assert CountOf(counts, sig) == Occurrences(Flatten(locals), sig);
    }
  }

  // ----- the network between a shuffle and the barrier

  /** Message of sender i to node n. */
  function MessagesTo(outbox: seq<seq<seq<Entry>>>, n: nat): seq<seq<Entry>>
    requires forall i :: 0 <= i < |outbox| ==> n < |outbox[i]|
  {
    seq(|outbox|, i requires 0 <= i < |outbox| => outbox[i][n])
  }

  /** A reliable barrier: every message sent to node n has arrived, in whatever
      order; empty ones are never sent. The contract promises no order. */
  method Deliver(outbox: seq<seq<seq<Entry>>>, n: nat) returns (messages: seq<seq<Entry>>)
    requires forall i :: 0 <= i < |outbox| ==> n < |outbox[i]|
    ensures multiset(Flatten(messages)) == multiset(Flatten(MessagesTo(outbox, n)))
  {
    messages := [];
    var column := MessagesTo(outbox, n);
    assert column[..0] == [];
    for i := 0 to |outbox|
      invariant Flatten(messages) == Flatten(column[..i])
    {
      assert column[..i + 1] == column[..i] + [outbox[i][n]];
      FlattenSnoc(column[..i], outbox[i][n]);
      if outbox[i][n] != [] {
        FlattenSnoc(messages, outbox[i][n]);
        messages := messages + [outbox[i][n]];
      }
    }
    assert column[..|column|] == column;
  }

  // ----- sending is done entry by entry

  lemma {:induction false} SentLeftAppend(x: seq<Entry>, y: seq<Entry>, hot: set<FatSignature>, nodes: nat, n: nat)
    requires nodes > 0
    ensures SentLeft(x + y, hot, nodes, n) == SentLeft(x, hot, nodes, n) + SentLeft(y, hot, nodes, n)
    decreases |y|
  {
    hide LeftGoesTo;
    if y == [] {
      assert x + y == x;
    } else {
      SentLeftAppend(x, y[..|y| - 1], hot, nodes, n);
      assert (x + y)[..|x + y| - 1] == x + y[..|y| - 1];
    }
  }

  lemma {:induction false} SentRightAppend(x: seq<Entry>, y: seq<Entry>, hot: set<FatSignature>, nodes: nat, n: nat)
    requires nodes > 0
    ensures SentRight(x + y, hot, nodes, n) == SentRight(x, hot, nodes, n) + SentRight(y, hot, nodes, n)
    decreases |y|
  {
    hide RightTarget;
    if y == [] {
      assert x + y == x;
    } else {
      SentRightAppend(x, y[..|y| - 1], hot, nodes, n);
      assert (x + y)[..|x + y| - 1] == x + y[..|y| - 1];
    }
  }

  lemma ColumnPrefix(outbox: seq<seq<seq<Entry>>>, n: nat, k: nat)
    requires k < |outbox| && forall i :: 0 <= i < |outbox| ==> n < |outbox[i]|
    ensures Flatten(MessagesTo(outbox[..k + 1], n)) == Flatten(MessagesTo(outbox[..k], n)) + outbox[k][n]
  {
    assert MessagesTo(outbox[..k + 1], n) == MessagesTo(outbox[..k], n) + [outbox[k][n]];
    FlattenSnoc(MessagesTo(outbox[..k], n), outbox[k][n]);
  }

  lemma LocalsPrefix(locals: seq<seq<Entry>>, k: nat)
    requires k < |locals|
    ensures Flatten(locals[..k + 1]) == Flatten(locals[..k]) + locals[k]
  {
    assert locals[..k + 1] == locals[..k] + [locals[k]];
    FlattenSnoc(locals[..k], locals[k]);
  }

  /** What arrives at a node is what everything sent at once would be. */
  lemma {:induction false} ArrivesLeft(outbox: seq<seq<seq<Entry>>>, locals: seq<seq<Entry>>, hot: set<FatSignature>, nodes: nat, n: nat, k: nat)
    requires nodes > 0 && n < nodes && |outbox| == |locals| && k <= |locals|
    requires forall i :: 0 <= i < |outbox| ==> n < |outbox[i]| && outbox[i][n] == SentLeft(locals[i], hot, nodes, n)
    ensures Flatten(MessagesTo(outbox[..k], n)) == SentLeft(Flatten(locals[..k]), hot, nodes, n)
  {
    if k > 0 {
      ArrivesLeft(outbox, locals, hot, nodes, n, k - 1);
      ColumnPrefix(outbox, n, k - 1);
      LocalsPrefix(locals, k - 1);
      SentLeftAppend(Flatten(locals[..k - 1]), locals[k - 1], hot, nodes, n);
      hide Flatten, SentLeft, MessagesTo;
    }
  }

  lemma {:induction false} ArrivesRight(outbox: seq<seq<seq<Entry>>>, locals: seq<seq<Entry>>, hot: set<FatSignature>, nodes: nat, n: nat, k: nat)
    requires nodes > 0 && n < nodes && |outbox| == |locals| && k <= |locals|
    requires forall i :: 0 <= i < |outbox| ==> n < |outbox[i]| && outbox[i][n] == SentRight(locals[i], hot, nodes, n)
    ensures Flatten(MessagesTo(outbox[..k], n)) == SentRight(Flatten(locals[..k]), hot, nodes, n)
  {
    if k > 0 {
      ArrivesRight(outbox, locals, hot, nodes, n, k - 1);
      ColumnPrefix(outbox, n, k - 1);
      LocalsPrefix(locals, k - 1);
      SentRightAppend(Flatten(locals[..k - 1]), locals[k - 1], hot, nodes, n);
      hide Flatten, SentRight, MessagesTo;
    }
  }

  // ----- the nodes of a cluster

  predicate IsCluster(nodes: seq<ClusterNode>) {
    |nodes| > 0 && forall i :: 0 <= i < |nodes| ==> nodes[i].id == i && nodes[i].nodes == |nodes|
  }

  function LeftTables(nodes: seq<ClusterNode>, k: nat): (t: seq<seq<Batch>>)
    requires k <= |nodes|
    reads nodes
    ensures |t| == k && forall i :: 0 <= i < k ==> t[i] == nodes[i].left
  {
    if k == 0 then [] else LeftTables(nodes, k - 1) + [nodes[k - 1].left]
  }

  function RightTables(nodes: seq<ClusterNode>, k: nat): (t: seq<seq<Batch>>)
    requires k <= |nodes|
    reads nodes
    ensures |t| == k && forall i :: 0 <= i < k ==> t[i] == nodes[i].right
  {
    if k == 0 then [] else RightTables(nodes, k - 1) + [nodes[k - 1].right]
  }

  predicate AllJoinable(tables: seq<seq<Batch>>, preds: seq<Predicate>, col: Str) {
    forall i :: 0 <= i < |tables| ==> Joinable(tables[i], preds, col) && AllValid(tables[i])
  }

  ghost predicate LocalsAre(locals: seq<seq<Entry>>, tables: seq<seq<Batch>>, preds: seq<Predicate>, col: Str) {
    && |locals| == |tables|
    && forall i :: 0 <= i < |tables| ==> AllValid(tables[i]) && locals[i] == EntriesOf(NodeJoinRows(i, tables[i], preds, col, |tables[i]|))
  }

  lemma LocalAt(locals: seq<seq<Entry>>, tables: seq<seq<Batch>>, preds: seq<Predicate>, col: Str, i: nat)
    requires LocalsAre(locals, tables, preds, col) && i < |tables|
    ensures |locals| == |tables| && AllValid(tables[i]) && locals[i] == EntriesOf(NodeJoinRows(i, tables[i], preds, col, |tables[i]|))
  {
    hide NodeJoinRows, AllValid, EntriesOf;
  }

  lemma NoLocals(locals: seq<seq<Entry>>, tables: seq<seq<Batch>>, preds: seq<Predicate>, col: Str)
    requires AllNodesValid(tables)
    ensures Flatten(locals[..0]) == [] == EntriesOf(SideRows(tables, preds, col, 0))
  {
  }

  lemma {:induction false} AllEntries(locals: seq<seq<Entry>>, tables: seq<seq<Batch>>, preds: seq<Predicate>, col: Str, k: nat)
    requires LocalsAre(locals, tables, preds, col) && |locals| == |tables| && k <= |tables| && AllNodesValid(tables)
    ensures Flatten(locals[..k]) == EntriesOf(SideRows(tables, preds, col, k))
  {
    hide *;
    if k == 0 {
      NoLocals(locals, tables, preds, col);
    } else {
      AllEntries(locals, tables, preds, col, k - 1);
      LocalsPrefix(locals, k - 1);
      LocalAt(locals, tables, preds, col, k - 1);
      SideNext(tables, preds, col, k - 1);
      EntriesAppend(SideRows(tables, preds, col, k - 1), NodeJoinRows(k - 1, tables[k - 1], preds, col, |tables[k - 1]|));
    }
  }

  // ----- rows are where their ids say

  predicate Addressable(tables: seq<seq<Batch>>) {
    && |tables| <= 256
    && (forall n :: 0 <= n < |tables| ==> |tables[n]| <= 4096)
    && (forall n, b :: 0 <= n < |tables| && 0 <= b < |tables[n]| ==> tables[n][b].numRows <= 4096)
  }

  lemma LocatedAppend(tables: seq<seq<Batch>>, col: Str, x: seq<JoinRow>, y: seq<JoinRow>)
    requires AllIdentified(tables, col, x) && AllIdentified(tables, col, y)
    ensures AllIdentified(tables, col, x + y)
  {
    hide Identified;
  }

  lemma {:induction false} BatchLocated(tables: seq<seq<Batch>>, preds: seq<Predicate>, col: Str, n: nat, b: nat, k: nat)
    requires Addressable(tables) && n < |tables| && b < |tables[n]| && tables[n][b].Valid() && k <= tables[n][b].numRows
    ensures AllIdentified(tables, col, BatchJoinRows(n, b, tables[n][b], preds, col, k))
  {
    if k > 0 {
      BatchLocated(tables, preds, col, n, b, k - 1);
      var cell := KeyCell(tables[n][b], col, k - 1);
      hide Admitted, KeyCell;
      if cell.Some? {
        assert Identified(tables, col, JoinRow(n, b, k - 1, cell.value));
        LocatedAppend(tables, col, BatchJoinRows(n, b, tables[n][b], preds, col, k - 1), [JoinRow(n, b, k - 1, cell.value)]);
      }
    }
  }

  lemma {:induction false} NodeLocated(tables: seq<seq<Batch>>, preds: seq<Predicate>, col: Str, n: nat, k: nat)
    requires Addressable(tables) && n < |tables| && AllValid(tables[n]) && k <= |tables[n]|
    ensures AllIdentified(tables, col, NodeJoinRows(n, tables[n], preds, col, k))
  {
    if k > 0 {
      assert tables[n][k - 1].Valid();
      hide Identified, AllIdentified, BatchJoinRows, Addressable, AllValid, Batch.Valid;
      NodeLocated(tables, preds, col, n, k - 1);
      BatchLocated(tables, preds, col, n, k - 1, tables[n][k - 1].numRows);
      LocatedAppend(tables, col, NodeJoinRows(n, tables[n], preds, col, k - 1),
                    BatchJoinRows(n, k - 1, tables[n][k - 1], preds, col, tables[n][k - 1].numRows));
    }
  }

  lemma {:induction false} SideLocated(tables: seq<seq<Batch>>, preds: seq<Predicate>, col: Str, n: nat)
    requires Addressable(tables) && AllNodesValid(tables) && n <= |tables|
    ensures AllIdentified(tables, col, SideRows(tables, preds, col, n))
  {
    if n > 0 {
      SideLocated(tables, preds, col, n - 1);
      NodeLocated(tables, preds, col, n - 1, |tables[n - 1]|);
      LocatedAppend(tables, col, SideRows(tables, preds, col, n - 1), NodeJoinRows(n - 1, tables[n - 1], preds, col, |tables[n - 1]|));
    }
  }

  // ----- the phases of a query

  predicate Holding(nodes: seq<ClusterNode>, left: seq<seq<Batch>>, right: seq<seq<Batch>>)
    reads nodes
  {
    |left| == |nodes| == |right| && forall i :: 0 <= i < |nodes| ==> nodes[i].left == left[i] && nodes[i].right == right[i]
  }

  predicate HaveLocals(nodes: seq<ClusterNode>, lefts: seq<seq<Entry>>, rights: seq<seq<Entry>>)
    reads nodes
  {
    |lefts| == |nodes| == |rights| && forall i :: 0 <= i < |nodes| ==> nodes[i].localLeft == lefts[i] && nodes[i].localRight == rights[i]
  }

  /** Every node has received its left entries, in some order. */
  predicate ArrivedLeft(nodes: seq<ClusterNode>, all: seq<Entry>, hot: set<FatSignature>)
    requires |nodes| > 0
    reads nodes
  {
    forall n :: 0 <= n < |nodes| ==> multiset(nodes[n].receivedLeft) == multiset(SentLeft(all, hot, |nodes|, n))
  }

  predicate ArrivedRight(nodes: seq<ClusterNode>, all: seq<Entry>, hot: set<FatSignature>)
    requires |nodes| > 0
    reads nodes
  {
    forall n :: 0 <= n < |nodes| ==> multiset(nodes[n].receivedRight) == multiset(SentRight(all, hot, |nodes|, n))
  }

  method PrepareAll(nodes: seq<ClusterNode>, leftPreds: seq<Predicate>, rightPreds: seq<Predicate>, leftCol: Str, rightCol: Str,
                    ghost left: seq<seq<Batch>>, ghost right: seq<seq<Batch>>)
      returns (lefts: seq<seq<Entry>>, ghost rights: seq<seq<Entry>>)
    requires IsCluster(nodes) && Holding(nodes, left, right)
    requires AllJoinable(left, leftPreds, leftCol) && AllJoinable(right, rightPreds, rightCol)
    modifies nodes
    ensures Holding(nodes, left, right) && HaveLocals(nodes, lefts, rights)
    ensures LocalsAre(lefts, left, leftPreds, leftCol) && LocalsAre(rights, right, rightPreds, rightCol)
  {
    hide NodeJoinRows, EntriesOf, Joinable, AllValid;
    lefts, rights := [], [];
    for n := 0 to |nodes|
      invariant Holding(nodes, left, right)
      invariant |lefts| == n == |rights|
      invariant forall i :: 0 <= i < n ==> nodes[i].localLeft == lefts[i] && nodes[i].localRight == rights[i]
      invariant forall i :: 0 <= i < n ==> AllValid(left[i]) && lefts[i] == EntriesOf(NodeJoinRows(i, left[i], leftPreds, leftCol, |left[i]|))
      invariant forall i :: 0 <= i < n ==> AllValid(right[i]) && rights[i] == EntriesOf(NodeJoinRows(i, right[i], rightPreds, rightCol, |right[i]|))
    {
      assert Joinable(left[n], leftPreds, leftCol) && AllValid(left[n]);
      assert Joinable(right[n], rightPreds, rightCol) && AllValid(right[n]);
      nodes[n].PrepareJoinSignatures(leftPreds, rightPreds, leftCol, rightCol);
      lefts, rights := lefts + [nodes[n].localLeft], rights + [nodes[n].localRight];
    }
  }

  lemma ColumnLeft(outbox: seq<seq<seq<Entry>>>, locals: seq<seq<Entry>>, hot: set<FatSignature>, nodes: nat, n: nat)
    requires nodes > 0 && n < nodes && |outbox| == |locals|
    requires forall i :: 0 <= i < |outbox| ==> n < |outbox[i]| && outbox[i][n] == SentLeft(locals[i], hot, nodes, n)
    ensures Flatten(MessagesTo(outbox, n)) == SentLeft(Flatten(locals), hot, nodes, n)
  {
    assert outbox[..|locals|] == outbox && locals[..|locals|] == locals;
    ArrivesLeft(outbox, locals, hot, nodes, n, |locals|);
  }

  lemma ColumnRight(outbox: seq<seq<seq<Entry>>>, locals: seq<seq<Entry>>, hot: set<FatSignature>, nodes: nat, n: nat)
    requires nodes > 0 && n < nodes && |outbox| == |locals|
    requires forall i :: 0 <= i < |outbox| ==> n < |outbox[i]| && outbox[i][n] == SentRight(locals[i], hot, nodes, n)
    ensures Flatten(MessagesTo(outbox, n)) == SentRight(Flatten(locals), hot, nodes, n)
  {
    assert outbox[..|locals|] == outbox && locals[..|locals|] == locals;
    ArrivesRight(outbox, locals, hot, nodes, n, |locals|);
  }

  /** outbox[i][n] is what sender i has for node n. */
  predicate OutboxLeft(outbox: seq<seq<seq<Entry>>>, locals: seq<seq<Entry>>, hot: set<FatSignature>, nodes: nat)
    requires nodes > 0
  {
    && |outbox| == |locals| && (forall i :: 0 <= i < |outbox| ==> |outbox[i]| == nodes)
    && forall i, n :: 0 <= i < |outbox| && 0 <= n < nodes ==> outbox[i][n] == SentLeft(locals[i], hot, nodes, n)
  }

  method SendLeftAll(nodes: seq<ClusterNode>, hot: set<FatSignature>, ghost left: seq<seq<Batch>>, ghost right: seq<seq<Batch>>,
                    ghost lefts: seq<seq<Entry>>, ghost rights: seq<seq<Entry>>)
      returns (outbox: seq<seq<seq<Entry>>>)
    requires IsCluster(nodes) && Holding(nodes, left, right) && HaveLocals(nodes, lefts, rights)
    modifies nodes
    ensures Holding(nodes, left, right) && HaveLocals(nodes, lefts, rights) && OutboxLeft(outbox, lefts, hot, |nodes|)
    ensures forall k :: 0 <= k < |nodes| ==> nodes[k].receivedLeft == [] && nodes[k].receivedRight == old(nodes[k].receivedRight)
  {
    hide SentLeft;
    outbox := [];
    for i := 0 to |nodes|
      invariant Holding(nodes, left, right) && HaveLocals(nodes, lefts, rights)
      invariant OutboxLeft(outbox, lefts[..i], hot, |nodes|)
      invariant forall k :: 0 <= k < i ==> nodes[k].receivedLeft == []
      invariant forall k :: 0 <= k < |nodes| ==> nodes[k].receivedRight == old(nodes[k].receivedRight)
    {
      var sends := nodes[i].ShuffleLeftSignatures(hot);
      outbox := outbox + [sends];
    }
    assert lefts[..|nodes|] == lefts;
  }

  method CollectLeftAll(nodes: seq<ClusterNode>, outbox: seq<seq<seq<Entry>>>, ghost hot: set<FatSignature>, ghost locals: seq<seq<Entry>>,
                       ghost left: seq<seq<Batch>>, ghost right: seq<seq<Batch>>, ghost lefts: seq<seq<Entry>>, ghost rights: seq<seq<Entry>>)
    requires IsCluster(nodes) && Holding(nodes, left, right) && HaveLocals(nodes, lefts, rights) && OutboxLeft(outbox, locals, hot, |nodes|)
    requires forall k :: 0 <= k < |nodes| ==> nodes[k].receivedLeft == []
    modifies nodes
    ensures Holding(nodes, left, right) && HaveLocals(nodes, lefts, rights) && ArrivedLeft(nodes, Flatten(locals), hot)
    ensures forall k :: 0 <= k < |nodes| ==> nodes[k].receivedRight == old(nodes[k].receivedRight)
  {
    hide SentLeft, Flatten, MessagesTo;
    for n := 0 to |nodes|
      invariant Holding(nodes, left, right) && HaveLocals(nodes, lefts, rights)
      invariant forall k :: 0 <= k < |nodes| ==> nodes[k].receivedRight == old(nodes[k].receivedRight)
      invariant forall k :: n <= k < |nodes| ==> nodes[k].receivedLeft == []
      invariant forall k :: 0 <= k < n ==> multiset(nodes[k].receivedLeft) == multiset(SentLeft(Flatten(locals), hot, |nodes|, k))
    {
      var messages := Deliver(outbox, n);
      ColumnLeft(outbox, locals, hot, |nodes|, n);
      nodes[n].CollectLeftSignatures(messages);
      assert nodes[n].receivedLeft == Flatten(messages);
    }
  }

  /** outbox[i][n] is what sender i has for node n. */
  predicate OutboxRight(outbox: seq<seq<seq<Entry>>>, locals: seq<seq<Entry>>, hot: set<FatSignature>, nodes: nat)
    requires nodes > 0
  {
    && |outbox| == |locals| && (forall i :: 0 <= i < |outbox| ==> |outbox[i]| == nodes)
    && forall i, n :: 0 <= i < |outbox| && 0 <= n < nodes ==> outbox[i][n] == SentRight(locals[i], hot, nodes, n)
  }

  method SendRightAll(nodes: seq<ClusterNode>, hot: set<FatSignature>, ghost left: seq<seq<Batch>>, ghost right: seq<seq<Batch>>,
                    ghost lefts: seq<seq<Entry>>, ghost rights: seq<seq<Entry>>)
      returns (outbox: seq<seq<seq<Entry>>>)
    requires IsCluster(nodes) && Holding(nodes, left, right) && HaveLocals(nodes, lefts, rights)
    modifies nodes
    ensures Holding(nodes, left, right) && HaveLocals(nodes, lefts, rights) && OutboxRight(outbox, rights, hot, |nodes|)
    ensures forall k :: 0 <= k < |nodes| ==> nodes[k].receivedRight == [] && nodes[k].receivedLeft == old(nodes[k].receivedLeft)
  {
    hide SentRight;
    outbox := [];
    for i := 0 to |nodes|
      invariant Holding(nodes, left, right) && HaveLocals(nodes, lefts, rights)
      invariant OutboxRight(outbox, rights[..i], hot, |nodes|)
      invariant forall k :: 0 <= k < i ==> nodes[k].receivedRight == []
      invariant forall k :: 0 <= k < |nodes| ==> nodes[k].receivedLeft == old(nodes[k].receivedLeft)
    {
      var sends := nodes[i].ShuffleRightSignatures(hot);
      outbox := outbox + [sends];
    }
    assert rights[..|nodes|] == rights;
  }

  method CollectRightAll(nodes: seq<ClusterNode>, outbox: seq<seq<seq<Entry>>>, ghost hot: set<FatSignature>, ghost locals: seq<seq<Entry>>,
                       ghost left: seq<seq<Batch>>, ghost right: seq<seq<Batch>>, ghost lefts: seq<seq<Entry>>, ghost rights: seq<seq<Entry>>)
    requires IsCluster(nodes) && Holding(nodes, left, right) && HaveLocals(nodes, lefts, rights) && OutboxRight(outbox, locals, hot, |nodes|)
    requires forall k :: 0 <= k < |nodes| ==> nodes[k].receivedRight == []
    modifies nodes
    ensures Holding(nodes, left, right) && HaveLocals(nodes, lefts, rights) && ArrivedRight(nodes, Flatten(locals), hot)
    ensures forall k :: 0 <= k < |nodes| ==> nodes[k].receivedLeft == old(nodes[k].receivedLeft)
  {
    hide SentRight, Flatten, MessagesTo;
    for n := 0 to |nodes|
      invariant Holding(nodes, left, right) && HaveLocals(nodes, lefts, rights)
      invariant forall k :: 0 <= k < |nodes| ==> nodes[k].receivedLeft == old(nodes[k].receivedLeft)
      invariant forall k :: n <= k < |nodes| ==> nodes[k].receivedRight == []
      invariant forall k :: 0 <= k < n ==> multiset(nodes[k].receivedRight) == multiset(SentRight(Flatten(locals), hot, |nodes|, k))
    {
      var messages := Deliver(outbox, n);
      ColumnRight(outbox, locals, hot, |nodes|, n);
      nodes[n].CollectRightSignatures(messages);
      assert nodes[n].receivedRight == Flatten(messages);
    }
  }

  /** Verify the payloads of the pairs a node found. */
  method VerifyMatches(t: Tables, matches: seq<(nat, nat)>, count: nat, sum: u64, ghost before: int) returns (count': nat, sum': u64)
    requires sum == Wrap(before)
    ensures count' == count + MatchesWorth(t, true, matches)
    ensures sum' == Wrap(before + MatchesWorth(t, false, matches))
  {
    hide KeyAt, NumberAt, Wrap;
    count', sum' := count, sum;
    assert matches[..0] == [];
    for i := 0 to |matches|
      invariant count' == count + MatchesWorth(t, true, matches[..i])
      invariant sum' == Wrap(before + MatchesWorth(t, false, matches[..i]))
    {
      var m := matches[i];
      assert matches[..i + 1] == matches[..i] + [m];
      WorthSnoc(t, true, matches[..i], m);
      WorthSnoc(t, false, matches[..i], m);
      var l := KeyAt(t.left, t.leftCol, m.0);
      var r := KeyAt(t.right, t.rightCol, m.1);
      if l == r {
        count' := count' + 1;
        if t.agg != [] {
          WrapAdd(before + MatchesWorth(t, false, matches[..i]), NumberAt(t.left, t.agg, m.0));
          sum' := Wrap(sum' + NumberAt(t.left, t.agg, m.0));
        }
      }
    }
    assert matches[..|matches|] == matches;
  }

  /** Each node's share is what its arrivals are worth, in whatever order they came. */
  lemma NodeShare(t: Tables, counting: bool, ls: seq<Entry>, rs: seq<Entry>, all: seq<Entry>, allRight: seq<Entry>, hot: set<FatSignature>, nodes: nat, n: nat)
    requires nodes > 0
    requires multiset(ls) == multiset(SentLeft(all, hot, nodes, n)) && multiset(rs) == multiset(SentRight(allRight, hot, nodes, n))
    ensures ClusterWorth(t, counting, all, allRight, hot, nodes, n + 1)
            == ClusterWorth(t, counting, all, allRight, hot, nodes, n) + MatchesWorth(t, counting, LocalMatches(ls, rs))
  {
    LocalWorth(t, counting, ls, rs);
    ArrivalOrder(t, counting, ls, SentLeft(all, hot, nodes, n), rs, SentRight(allRight, hot, nodes, n));
    ClusterNext(t, counting, all, allRight, hot, nodes, n);
  }

  /** The pairs of one more node. */
  lemma NodePairs(found: seq<(nat, nat)>, ls: seq<Entry>, rs: seq<Entry>, all: seq<Entry>, allRight: seq<Entry>, hot: set<FatSignature>, nodes: nat, n: nat)
    requires nodes > 0 && multiset(found) == multiset(ClusterMatches(all, allRight, hot, nodes, n))
    requires multiset(ls) == multiset(SentLeft(all, hot, nodes, n)) && multiset(rs) == multiset(SentRight(allRight, hot, nodes, n))
    ensures multiset(found + LocalMatches(ls, rs)) == multiset(ClusterMatches(all, allRight, hot, nodes, n + 1))
  {
    hide *;
    FoundInAnyOrder(ls, SentLeft(all, hot, nodes, n), rs, SentRight(allRight, hot, nodes, n));
    MatchesNext(all, allRight, hot, nodes, n);
  }

  method JoinAll(nodes: seq<ClusterNode>, t: Tables, ghost all: seq<Entry>, ghost allRight: seq<Entry>, ghost hot: set<FatSignature>)
      returns (count: nat, sum: u64, ghost found: seq<(nat, nat)>)
    requires IsCluster(nodes) && ArrivedLeft(nodes, all, hot) && ArrivedRight(nodes, allRight, hot)
    ensures count == ClusterWorth(t, true, all, allRight, hot, |nodes|, |nodes|)
    ensures sum == Wrap(ClusterWorth(t, false, all, allRight, hot, |nodes|, |nodes|))
    ensures multiset(found) == multiset(LocalMatches(all, allRight))
  {
    hide SentLeft, SentRight, LocalMatches, MatchesWorth, Wrap, ClusterWorth, ClusterMatches;
    count, sum, found := 0, 0, [];
    MatchesNext(all, allRight, hot, |nodes|, 0);
    ClusterNext(t, true, all, allRight, hot, |nodes|, 0);
    ClusterNext(t, false, all, allRight, hot, |nodes|, 0);
    assert sum == Wrap(0);
    for n := 0 to |nodes|
      invariant count == ClusterWorth(t, true, all, allRight, hot, |nodes|, n)
      invariant sum == Wrap(ClusterWorth(t, false, all, allRight, hot, |nodes|, n))
      invariant multiset(found) == multiset(ClusterMatches(all, allRight, hot, |nodes|, n))
    {
      var matches := nodes[n].PerformLocalJoin();
      NodePairs(found, nodes[n].receivedLeft, nodes[n].receivedRight, all, allRight, hot, |nodes|, n);
      found := found + matches;
      NodeShare(t, true, nodes[n].receivedLeft, nodes[n].receivedRight, all, allRight, hot, |nodes|, n);
      NodeShare(t, false, nodes[n].receivedLeft, nodes[n].receivedRight, all, allRight, hot, |nodes|, n);
      count, sum := VerifyMatches(t, matches, count, sum, ClusterWorth(t, false, all, allRight, hot, |nodes|, n));
    }
    EveryPairOnce(all, allRight, hot, |nodes|);
  }

  lemma SidesAre(lefts: seq<seq<Entry>>, tables: seq<seq<Batch>>, preds: seq<Predicate>, col: Str)
    requires LocalsAre(lefts, tables, preds, col)
    ensures AllNodesValid(tables) && Flatten(lefts) == EntriesOf(SideRows(tables, preds, col, |tables|))
  {
    assert AllNodesValid(tables);
    hide EntriesOf, SideRows, NodeJoinRows, AllValid;
    AllEntries(lefts, tables, preds, col, |tables|);
    assert lefts[..|tables|] == lefts;
  }

  /** The cluster's result, for any hot set, is the nested-loop join of the rows it holds. */
  lemma ClusterIsNested(t: Tables, counting: bool, leftPreds: seq<Predicate>, rightPreds: seq<Predicate>, hot: set<FatSignature>, nodes: nat,
                        lefts: seq<seq<Entry>>, rights: seq<seq<Entry>>)
    requires nodes > 0 && Addressable(t.left) && Addressable(t.right)
    requires LocalsAre(lefts, t.left, leftPreds, t.leftCol) && LocalsAre(rights, t.right, rightPreds, t.rightCol)
    ensures AllNodesValid(t.left) && AllNodesValid(t.right)
    ensures ClusterWorth(t, counting, Flatten(lefts), Flatten(rights), hot, nodes, nodes)
            == NestedLoop(t, counting, SideRows(t.left, leftPreds, t.leftCol, |t.left|), SideRows(t.right, rightPreds, t.rightCol, |t.right|))
  {
    hide *;
    SidesAre(lefts, t.left, leftPreds, t.leftCol);
    SidesAre(rights, t.right, rightPreds, t.rightCol);
    SideLocated(t.left, leftPreds, t.leftCol, |t.left|);
    SideLocated(t.right, rightPreds, t.rightCol, |t.right|);
    ShuffleLosesNothing(t, counting, Flatten(lefts), Flatten(rights), hot, nodes);
    JoinIsNested(t, counting, SideRows(t.left, leftPreds, t.leftCol, |t.left|), SideRows(t.right, rightPreds, t.rightCol, |t.right|));
  }

  /** Count and sum of the distributed join are those of the nested-loop join: of the
      join of the rows, said of their cells. The pairs the nodes find are those of one node with all entries, each as often. */
  method ExecuteJoinQuery(nodes: seq<ClusterNode>, leftCol: Str, rightCol: Str, leftPreds: seq<Predicate>, rightPreds: seq<Predicate>, agg: Str)
      returns (count: nat, sum: u64, ghost found: seq<(nat, nat)>)
    requires IsCluster(nodes)
    requires AllJoinable(LeftTables(nodes, |nodes|), leftPreds, leftCol) && AllJoinable(RightTables(nodes, |nodes|), rightPreds, rightCol)
    requires Addressable(LeftTables(nodes, |nodes|)) && Addressable(RightTables(nodes, |nodes|))
    modifies nodes
    ensures var t := Tables(old(LeftTables(nodes, |nodes|)), old(RightTables(nodes, |nodes|)), leftCol, rightCol, agg);
            && AllNodesValid(t.left) && AllNodesValid(t.right)
            && var ls, rs := SideRows(t.left, leftPreds, leftCol, |t.left|), SideRows(t.right, rightPreds, rightCol, |t.right|);
               && count == NestedLoop(t, true, ls, rs) && sum == Wrap(NestedLoop(t, false, ls, rs))
               && multiset(found) == multiset(LocalMatches(EntriesOf(ls), EntriesOf(rs)))
    ensures var q, left, right := JoinSpec(leftCol, rightCol, leftPreds, rightPreds, agg), old(LeftTables(nodes, |nodes|)), old(RightTables(nodes, |nodes|));
            && count == RowJoin(q, true, NodeRecords(left, |left|), NodeRecords(right, |right|))
            && sum == Wrap(RowJoin(q, false, NodeRecords(left, |left|), NodeRecords(right, |right|)))
  {
    var left, right := LeftTables(nodes, |nodes|), RightTables(nodes, |nodes|);
    var t := Tables(left, right, leftCol, rightCol, agg);
    hide LeftTables, RightTables, AllJoinable, Addressable, LocalsAre, Wrap, ClusterWorth, NestedLoop, SideRows, Flatten;
    hide ArrivedRight, AllNodesValid, SentLeft, OutboxLeft, OutboxRight, HaveLocals, LocalMatches, EntriesOf, RowJoin, NodeRecords;
    var lefts, rights := PrepareAll(nodes, leftPreds, rightPreds, leftCol, rightCol, left, right);
    var hot := HotSignatures(lefts);
    var sent := SendLeftAll(nodes, hot, left, right, lefts, rights);
    CollectLeftAll(nodes, sent, hot, lefts, left, right, lefts, rights);
    var probes := SendRightAll(nodes, hot, left, right, lefts, rights);
    assert ArrivedLeft(nodes, Flatten(lefts), hot);
    CollectRightAll(nodes, probes, hot, rights, left, right, lefts, rights);
    assert ArrivedLeft(nodes, Flatten(lefts), hot);
    count, sum, found := JoinAll(nodes, t, Flatten(lefts), Flatten(rights), hot);
    SidesAre(lefts, left, leftPreds, leftCol);
    SidesAre(rights, right, rightPreds, rightCol);
    ClusterIsNested(t, true, leftPreds, rightPreds, hot, |nodes|, lefts, rights);
    ClusterIsNested(t, false, leftPreds, rightPreds, hot, |nodes|, lefts, rights);
    NestedIsRowJoin(t, true, leftPreds, rightPreds);
    NestedIsRowJoin(t, false, leftPreds, rightPreds);
  }
}
