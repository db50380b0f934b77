/** The distributed join as arithmetic on entries: where the shuffle sends them,
    what every node finds, and why the total is the nested-loop join. */
module DistributedJoin {
  import opened Words
  import opened Storage
  import opened MemTables
  import opened AdaptiveIngester
  import opened PlanMeaning
  import opened RowIds

  // ----- signatures

  datatype FatSignature = FatSignature(kim: Word, xorSum: Word)

  datatype Entry = Entry(sig: FatSignature, rowId: nat)

  const FNV_OFFSET: nat := 14695981039346656037
  const FNV_PRIME: nat := 1099511628211

  /** One step of the FNV-1a hash. */
  function FnvStep(hash: Word, ch: byte): Word { WordOf(Wrap(Value(Xor(hash, WordOf(ch))) * FNV_PRIME)) }

  function XorSum(s: Str, n: nat): Word
    requires n <= |s|
  {
    if n == 0 then WordOf(FNV_OFFSET) else FnvStep(XorSum(s, n - 1), s[n - 1])
  }

  method GenerateXorSum(s: Str) returns (hash: Word)
    ensures hash == XorSum(s, |s|)
  {
    hide FnvStep;
    hash := WordOf(FNV_OFFSET);
    for i := 0 to |s|
      invariant hash == XorSum(s, i)
    {
      hash := FnvStep(hash, s[i]);
    }
  }

  ghost function SignatureOf(key: Str): FatSignature { FatSignature(Signature(key), XorSum(key, |key|)) }

  // ----- where entries go

  function HashOf(sig: FatSignature): nat { Value(Xor(sig.kim, sig.xorSum)) }

  function ColdTarget(sig: FatSignature, nodes: nat): nat
    requires nodes > 0
  {
    HashOf(sig) % nodes
  }

  /** Hot left entries go everywhere, cold ones to one node. */
  predicate LeftGoesTo(e: Entry, hot: set<FatSignature>, nodes: nat, n: nat)
    requires nodes > 0
  {
    e.sig in hot || ColdTarget(e.sig, nodes) == n
  }

  /** A right entry goes to one node; hot ones are spread by their batch number. */
  function RightTarget(e: Entry, hot: set<FatSignature>, nodes: nat): (n: nat)
    requires nodes > 0
    ensures n < nodes
  {
    if e.sig in hot then Wrap(HashOf(e.sig) + UnpackRowId(e.rowId).1) % nodes
    else ColdTarget(e.sig, nodes)
  }

  function SentLeft(ls: seq<Entry>, hot: set<FatSignature>, nodes: nat, n: nat): seq<Entry>
    requires nodes > 0
  {
    if ls == [] then []
    else SentLeft(ls[..|ls| - 1], hot, nodes, n) + if LeftGoesTo(ls[|ls| - 1], hot, nodes, n) then [ls[|ls| - 1]] else []
  }

  function SentRight(rs: seq<Entry>, hot: set<FatSignature>, nodes: nat, n: nat): seq<Entry>
    requires nodes > 0
  {
    if rs == [] then []
    else SentRight(rs[..|rs| - 1], hot, nodes, n) + if RightTarget(rs[|rs| - 1], hot, nodes) == n then [rs[|rs| - 1]] else []
  }

  // ----- what a pair of entries is worth

  /** Looking rows up by id: key and numeric value, by node and batch. */
  datatype Tables = Tables(left: seq<seq<Batch>>, right: seq<seq<Batch>>, leftCol: Str, rightCol: Str, agg: Str)

  function KeyCell(batch: Batch, col: Str, r: nat): Option<Str> {
    var f := FindColumn(batch.names, col);
    if f.Some? && f.value < |batch.columns| && batch.columns[f.value].Strs? && r < |batch.columns[f.value].strs|
    then batch.columns[f.value].strs[r] else None
  }

  /** An absent column reads as "". */
  function KeyAt(batches: seq<seq<Batch>>, col: Str, id: nat): Str {
    var (n, b, r) := UnpackRowId(id);
    if n < |batches| && b < |batches[n]| && KeyCell(batches[n][b], col, r).Some? then KeyCell(batches[n][b], col, r).value else []
  }

  /** An absent column reads as 0, and so does a null slot. */
  function NumberIn(batch: Batch, col: Str, r: nat): int {
    var f := FindColumn(batch.names, col);
    if f.Some? && f.value < |batch.columns| && batch.columns[f.value].Ints? && r < |batch.columns[f.value].ints|
       && batch.columns[f.value].ints[r].Some?
    then batch.columns[f.value].ints[r].value else 0
  }

  function NumberAt(batches: seq<seq<Batch>>, col: Str, id: nat): int {
    var (n, b, r) := UnpackRowId(id);
    if n < |batches| && b < |batches[n]| then NumberIn(batches[n][b], col, r) else 0
  }

  /** What a verified pair adds: one match, or the left row's aggregate value. */
  function Weight(t: Tables, counting: bool, id: nat): int {
    if counting then 1 else if t.agg == [] then 0 else NumberAt(t.left, t.agg, id)
  }

  predicate SameKey(t: Tables, l: nat, r: nat) { KeyAt(t.left, t.leftCol, l) == KeyAt(t.right, t.rightCol, r) }

  /** Same signature, and the payloads agree. */
  function PairWorth(t: Tables, counting: bool, l: Entry, r: Entry): int {
    if l.sig == r.sig && SameKey(t, l.rowId, r.rowId) then Weight(t, counting, l.rowId) else 0
  }

  function ProbeWorth(t: Tables, counting: bool, ls: seq<Entry>, r: Entry): int {
    if ls == [] then 0 else ProbeWorth(t, counting, ls[..|ls| - 1], r) + PairWorth(t, counting, ls[|ls| - 1], r)
  }

  /** Worth of all pairs of a left and a right list. */
  function JoinWorth(t: Tables, counting: bool, ls: seq<Entry>, rs: seq<Entry>): int {
    if rs == [] then 0 else JoinWorth(t, counting, ls, rs[..|rs| - 1]) + ProbeWorth(t, counting, ls, rs[|rs| - 1])
  }

  /** What the first n nodes find together. */
  function ClusterWorth(t: Tables, counting: bool, ls: seq<Entry>, rs: seq<Entry>, hot: set<FatSignature>, nodes: nat, n: nat): int
    requires nodes > 0
  {
    if n == 0 then 0
    else ClusterWorth(t, counting, ls, rs, hot, nodes, n - 1)
         + JoinWorth(t, counting, SentLeft(ls, hot, nodes, n - 1), SentRight(rs, hot, nodes, n - 1))
  }

  // ----- each pair is found exactly once

  lemma ProbeSnoc(t: Tables, counting: bool, ls: seq<Entry>, l: Entry, r: Entry)
    ensures ProbeWorth(t, counting, ls + [l], r) == ProbeWorth(t, counting, ls, r) + PairWorth(t, counting, l, r)
  {
    assert (ls + [l])[..|ls + [l]| - 1] == ls;
  }

  lemma JoinSnoc(t: Tables, counting: bool, ls: seq<Entry>, rs: seq<Entry>, r: Entry)
    ensures JoinWorth(t, counting, ls, rs + [r]) == JoinWorth(t, counting, ls, rs) + ProbeWorth(t, counting, ls, r)
  {
    assert (rs + [r])[..|rs + [r]| - 1] == rs;
  }

  /** At the node a right entry goes to, every left entry of the same signature arrives too. */
  lemma {:induction false} MeetsAll(t: Tables, counting: bool, ls: seq<Entry>, r: Entry, hot: set<FatSignature>, nodes: nat)
    requires nodes > 0
    ensures ProbeWorth(t, counting, SentLeft(ls, hot, nodes, RightTarget(r, hot, nodes)), r) == ProbeWorth(t, counting, ls, r)
  {
    if ls != [] {
      var n, rest, l := RightTarget(r, hot, nodes), ls[..|ls| - 1], ls[|ls| - 1];
      MeetsAll(t, counting, rest, r, hot, nodes);
      assert ls == rest + [l];
      ProbeSnoc(t, counting, rest, l, r);
      assert !LeftGoesTo(l, hot, nodes, n) ==> l.sig != r.sig;
      hide RightTarget, LeftGoesTo, SameKey, Weight, ProbeWorth;
      if LeftGoesTo(l, hot, nodes, n) {
        ProbeSnoc(t, counting, SentLeft(rest, hot, nodes, n), l, r);
      } else {
        assert SentLeft(ls, hot, nodes, n) == SentLeft(rest, hot, nodes, n);
      }
    }
  }

  lemma SentRightSnoc(rs: seq<Entry>, r: Entry, hot: set<FatSignature>, nodes: nat, n: nat)
    requires nodes > 0
    ensures RightTarget(r, hot, nodes) == n ==> SentRight(rs + [r], hot, nodes, n) == SentRight(rs, hot, nodes, n) + [r]
    ensures RightTarget(r, hot, nodes) != n ==> SentRight(rs + [r], hot, nodes, n) == SentRight(rs, hot, nodes, n)
  {
    assert (rs + [r])[..|rs + [r]| - 1] == rs;
    hide RightTarget;
  }

  lemma ClusterNext(t: Tables, counting: bool, ls: seq<Entry>, rs: seq<Entry>, hot: set<FatSignature>, nodes: nat, n: nat)
    requires nodes > 0
    ensures ClusterWorth(t, counting, ls, rs, hot, nodes, 0) == 0
    ensures ClusterWorth(t, counting, ls, rs, hot, nodes, n + 1) == ClusterWorth(t, counting, ls, rs, hot, nodes, n)
            + JoinWorth(t, counting, SentLeft(ls, hot, nodes, n), SentRight(rs, hot, nodes, n))
  {
    hide JoinWorth, SentLeft, SentRight;
  }

  /** One more right entry adds its pairs at exactly one node. */
  lemma {:induction false} OneTarget(t: Tables, counting: bool, ls: seq<Entry>, rs: seq<Entry>, r: Entry, hot: set<FatSignature>, nodes: nat, n: nat)
    requires nodes > 0
    ensures ClusterWorth(t, counting, ls, rs + [r], hot, nodes, n)
            == ClusterWorth(t, counting, ls, rs, hot, nodes, n) + if RightTarget(r, hot, nodes) < n then ProbeWorth(t, counting, ls, r) else 0
  {
    hide *;
    ClusterNext(t, counting, ls, rs, hot, nodes, if n > 0 then n - 1 else 0);
    ClusterNext(t, counting, ls, rs + [r], hot, nodes, if n > 0 then n - 1 else 0);
    if n > 0 {
      var m := n - 1;
      OneTarget(t, counting, ls, rs, r, hot, nodes, m);
      SentRightSnoc(rs, r, hot, nodes, m);
      if RightTarget(r, hot, nodes) == m {
        JoinSnoc(t, counting, SentLeft(ls, hot, nodes, m), SentRight(rs, hot, nodes, m), r);
        MeetsAll(t, counting, ls, r, hot, nodes);
      }
    }
  }

  lemma {:induction false} NoRights(t: Tables, counting: bool, ls: seq<Entry>, hot: set<FatSignature>, nodes: nat, n: nat)
    requires nodes > 0
    ensures ClusterWorth(t, counting, ls, [], hot, nodes, n) == 0
  {
    if n > 0 { NoRights(t, counting, ls, hot, nodes, n - 1); }
  }

  /** The nodes together find what one node with everything would: for any hot
      set whatever, no pair is missed and none is found twice. */
  lemma {:induction false} ShuffleLosesNothing(t: Tables, counting: bool, ls: seq<Entry>, rs: seq<Entry>, hot: set<FatSignature>, nodes: nat)
    requires nodes > 0
    ensures ClusterWorth(t, counting, ls, rs, hot, nodes, nodes) == JoinWorth(t, counting, ls, rs)
    decreases |rs|
  {
    if rs == [] {
      NoRights(t, counting, ls, hot, nodes, nodes);
    } else {
      var rest, r := rs[..|rs| - 1], rs[|rs| - 1];
      assert rs == rest + [r];
      hide ClusterWorth, JoinWorth, ProbeWorth, RightTarget;
      ShuffleLosesNothing(t, counting, ls, rest, hot, nodes);
      OneTarget(t, counting, ls, rest, r, hot, nodes, nodes);
      JoinSnoc(t, counting, ls, rest, r);
    }
  }

  /** A pair with one signature meets at one node and no other. */
  lemma PairMeetsOnce(l: Entry, r: Entry, hot: set<FatSignature>, nodes: nat, n: nat)
    requires nodes > 0 && l.sig == r.sig && n < nodes
    ensures LeftGoesTo(l, hot, nodes, n) && RightTarget(r, hot, nodes) == n <==> n == RightTarget(r, hot, nodes)
  {
  }

  // ----- the order of arrival does not matter

  lemma {:induction false} ProbeSplit(t: Tables, counting: bool, x: seq<Entry>, l: Entry, y: seq<Entry>, r: Entry)
    ensures ProbeWorth(t, counting, x + [l] + y, r) == ProbeWorth(t, counting, x + y, r) + PairWorth(t, counting, l, r)
    decreases |y|
  {
    hide PairWorth;
    if y == [] {
      assert x + [l] + y == x + [l] && x + y == x;
      ProbeSnoc(t, counting, x, l, r);
    } else {
      var rest, last := y[..|y| - 1], y[|y| - 1];
      assert x + [l] + y == (x + [l] + rest) + [last] && x + y == (x + rest) + [last];
      ProbeSplit(t, counting, x, l, rest, r);
      ProbeSnoc(t, counting, x + [l] + rest, last, r);
      ProbeSnoc(t, counting, x + rest, last, r);
    }
  }

  lemma {:induction false} JoinSplit(t: Tables, counting: bool, ls: seq<Entry>, x: seq<Entry>, r: Entry, y: seq<Entry>)
    ensures JoinWorth(t, counting, ls, x + [r] + y) == JoinWorth(t, counting, ls, x + y) + ProbeWorth(t, counting, ls, r)
    decreases |y|
  {
    hide ProbeWorth;
    if y == [] {
      assert x + [r] + y == x + [r] && x + y == x;
      JoinSnoc(t, counting, ls, x, r);
    } else {
      var rest, last := y[..|y| - 1], y[|y| - 1];
      assert x + [r] + y == (x + [r] + rest) + [last] && x + y == (x + rest) + [last];
      JoinSplit(t, counting, ls, x, r, rest);
      JoinSnoc(t, counting, ls, x + [r] + rest, last);
      JoinSnoc(t, counting, ls, x + rest, last);
    }
  }

  /** Two lists with the same elements: the last one of a at its place in b. */
  lemma PlaceOf<T>(a: seq<T>, b: seq<T>) returns (x: seq<T>, y: seq<T>)
    requires a != [] && multiset(a) == multiset(b)
    ensures b == x + [a[|a| - 1]] + y && multiset(a[..|a| - 1]) == multiset(x + y)
  {
    var rest, last := a[..|a| - 1], a[|a| - 1];
    assert a == rest + [last];
    assert last in multiset(b);
    var i :| 0 <= i < |b| && b[i] == last;
    x, y := b[..i], b[i + 1..];
    assert b == x + [last] + y;
    assert multiset(x + y) == multiset(b) - multiset{last};
  }

  lemma {:induction false} ProbeOrder(t: Tables, counting: bool, a: seq<Entry>, b: seq<Entry>, r: Entry)
    requires multiset(a) == multiset(b)
    ensures ProbeWorth(t, counting, a, r) == ProbeWorth(t, counting, b, r)
    decreases |a|
  {
    if a == [] {
      assert |multiset(b)| == |b|;
    } else {
      hide PairWorth;
      var x, y := PlaceOf(a, b);
      ProbeOrder(t, counting, a[..|a| - 1], x + y, r);
      ProbeSplit(t, counting, x, a[|a| - 1], y, r);
    }
  }

  lemma {:induction false} LeftOrder(t: Tables, counting: bool, a: seq<Entry>, b: seq<Entry>, rs: seq<Entry>)
    requires multiset(a) == multiset(b)
    ensures JoinWorth(t, counting, a, rs) == JoinWorth(t, counting, b, rs)
    decreases |rs|
  {
    hide ProbeWorth;
    if rs != [] {
      LeftOrder(t, counting, a, b, rs[..|rs| - 1]);
      ProbeOrder(t, counting, a, b, rs[|rs| - 1]);
    }
  }

  lemma {:induction false} RightOrder(t: Tables, counting: bool, ls: seq<Entry>, a: seq<Entry>, b: seq<Entry>)
    requires multiset(a) == multiset(b)
    ensures JoinWorth(t, counting, ls, a) == JoinWorth(t, counting, ls, b)
    decreases |a|
  {
    if a == [] {
      assert |multiset(b)| == |b|;
    } else {
      hide ProbeWorth;
      var x, y := PlaceOf(a, b);
      RightOrder(t, counting, ls, a[..|a| - 1], x + y);
      JoinSplit(t, counting, ls, x, a[|a| - 1], y);
    }
  }

  /** Results depend on what arrives, not on the order it arrives in. */
  lemma ArrivalOrder(t: Tables, counting: bool, ls: seq<Entry>, ls': seq<Entry>, rs: seq<Entry>, rs': seq<Entry>)
    requires multiset(ls) == multiset(ls') && multiset(rs) == multiset(rs')
    ensures JoinWorth(t, counting, ls, rs) == JoinWorth(t, counting, ls', rs')
  {
    LeftOrder(t, counting, ls, ls', rs);
    RightOrder(t, counting, ls', rs, rs');
  }

  // ----- the rows that take part

  datatype JoinRow = JoinRow(node: nat, batch: nat, row: nat, key: Str)

  /** The filter of the join; a non-null cell passes a predicate whose operator does not fit its kind. */
  predicate Admits(cell: Cell, pred: Predicate) {
    if pred.isString then
      cell.StrCell? && cell.s.Some?
      && (pred.op in {EQ, LIKE_PREFIX, LIKE_CONTAINS} ==> MatchString(cell.s.value, pred.op, CleanPattern(pred.op, pred.value)))
    else
      cell.IntCell? && cell.n.Some? && (pred.op in {EQ, GT, LT} ==> MatchNumeric(cell.n.value, pred.op, pred.number))
  }

  /** On operators that fit, this is the reference filter. */
  lemma AdmitsIsMatch(cell: Cell, pred: Predicate)
    requires WellKinded(pred)
    ensures Admits(cell, pred) == CellMatches(cell, pred)
  {
  }

  /** With any other operator the reference matches nothing and the join every non-null cell. */
  lemma UnfittingOperators(cell: Cell, pred: Predicate)
    requires !WellKinded(pred)
    ensures !CellMatches(cell, pred)
    ensures Admits(cell, pred) <==> cell.StrCell? == pred.isString && cell != StrCell(None) && cell != IntCell(None)
  {
  }

  predicate AdmittedTo(batch: Batch, preds: seq<Predicate>, k: nat, r: nat)
    requires batch.Valid() && k <= |preds| && r < batch.numRows
  {
    forall p :: 0 <= p < k ==>
      var f := FindColumn(batch.names, preds[p].column); f.Some? && Admits(CellAt(batch.columns[f.value], r), preds[p])
  }

  predicate Admitted(batch: Batch, preds: seq<Predicate>, r: nat)
    requires batch.Valid() && r < batch.numRows
  {
    AdmittedTo(batch, preds, |preds|, r)
  }

  /** Admitted rows with a non-null key among the first n of a batch. */
  function BatchJoinRows(node: nat, b: nat, batch: Batch, preds: seq<Predicate>, col: Str, n: nat): seq<JoinRow>
    requires batch.Valid() && n <= batch.numRows
  {
    if n == 0 then []
    else BatchJoinRows(node, b, batch, preds, col, n - 1)
         + if Admitted(batch, preds, n - 1) && KeyCell(batch, col, n - 1).Some?
           then [JoinRow(node, b, n - 1, KeyCell(batch, col, n - 1).value)] else []
  }

  function NodeJoinRows(node: nat, batches: seq<Batch>, preds: seq<Predicate>, col: Str, k: nat): seq<JoinRow>
    requires k <= |batches| && AllValid(batches)
  {
    if k == 0 then []
    else NodeJoinRows(node, batches, preds, col, k - 1)
         + BatchJoinRows(node, k - 1, batches[k - 1], preds, col, batches[k - 1].numRows)
  }

  predicate AllNodesValid(tables: seq<seq<Batch>>) { forall n :: 0 <= n < |tables| ==> AllValid(tables[n]) }

  /** All rows of one side that take part in the join. */
  function SideRows(tables: seq<seq<Batch>>, preds: seq<Predicate>, col: Str, n: nat): seq<JoinRow>
    requires n <= |tables| && AllNodesValid(tables)
  {
    if n == 0 then [] else SideRows(tables, preds, col, n - 1) + NodeJoinRows(n - 1, tables[n - 1], preds, col, |tables[n - 1]|)
  }

  ghost function EntryOf(j: JoinRow): Entry { Entry(SignatureOf(j.key), PackRowId(j.node, j.batch, j.row)) }

  ghost function EntriesOf(rows: seq<JoinRow>): seq<Entry> {
    if rows == [] then [] else EntriesOf(rows[..|rows| - 1]) + [EntryOf(rows[|rows| - 1])]
  }

  // ----- the nested-loop join

  function RowNumber(tables: seq<seq<Batch>>, agg: Str, j: JoinRow): int {
    if j.node < |tables| && j.batch < |tables[j.node]| then NumberIn(tables[j.node][j.batch], agg, j.row) else 0
  }

  function RowWorth(t: Tables, counting: bool, l: JoinRow): int {
    if counting then 1 else if t.agg == [] then 0 else RowNumber(t.left, t.agg, l)
  }

  function InnerLoop(t: Tables, counting: bool, ls: seq<JoinRow>, r: JoinRow): int {
    if ls == [] then 0
    else InnerLoop(t, counting, ls[..|ls| - 1], r) + if ls[|ls| - 1].key == r.key then RowWorth(t, counting, ls[|ls| - 1]) else 0
  }

  /** Every pair of rows with equal keys, one by one. */
  function NestedLoop(t: Tables, counting: bool, ls: seq<JoinRow>, rs: seq<JoinRow>): int {
    if rs == [] then 0 else NestedLoop(t, counting, ls, rs[..|rs| - 1]) + InnerLoop(t, counting, ls, rs[|rs| - 1])
  }

  /** The row is where its id says, and its key is the stored one. */
  predicate Identified(tables: seq<seq<Batch>>, col: Str, j: JoinRow) {
    && j.node < 256 && j.batch < 4096 && j.row < 4096
    && j.node < |tables| && j.batch < |tables[j.node]| && KeyCell(tables[j.node][j.batch], col, j.row) == Some(j.key)
  }

  predicate AllIdentified(tables: seq<seq<Batch>>, col: Str, rows: seq<JoinRow>) {
    forall i :: 0 <= i < |rows| ==> Identified(tables, col, rows[i])
  }

  lemma ResolvedKey(tables: seq<seq<Batch>>, col: Str, j: JoinRow)
    requires Identified(tables, col, j)
    ensures KeyAt(tables, col, EntryOf(j).rowId) == j.key
    ensures forall agg: Str :: NumberAt(tables, agg, EntryOf(j).rowId) == RowNumber(tables, agg, j)
  {
    PackExact(j.node, j.batch, j.row);
    hide PackRowId, UnpackRowId, KeyCell, NumberIn;
  }

  lemma PairIsRow(t: Tables, counting: bool, l: JoinRow, r: JoinRow)
    requires Identified(t.left, t.leftCol, l) && Identified(t.right, t.rightCol, r)
    ensures PairWorth(t, counting, EntryOf(l), EntryOf(r)) == if l.key == r.key then RowWorth(t, counting, l) else 0
  {
    ResolvedKey(t.left, t.leftCol, l);
    ResolvedKey(t.right, t.rightCol, r);
    hide SignatureOf, KeyAt, NumberAt, RowNumber, Identified, PackRowId;
  }

  lemma {:induction false} ProbeIsInner(t: Tables, counting: bool, ls: seq<JoinRow>, r: JoinRow)
    requires AllIdentified(t.left, t.leftCol, ls) && Identified(t.right, t.rightCol, r)
    ensures ProbeWorth(t, counting, EntriesOf(ls), EntryOf(r)) == InnerLoop(t, counting, ls, r)
  {
    hide Identified, EntryOf, PairWorth, RowWorth;
    if ls != [] {
      ProbeIsInner(t, counting, ls[..|ls| - 1], r);
      ProbeSnoc(t, counting, EntriesOf(ls[..|ls| - 1]), EntryOf(ls[|ls| - 1]), EntryOf(r));
      PairIsRow(t, counting, ls[|ls| - 1], r);
      hide ProbeWorth;
    }
  }

  /** The centralised hash join on entries is the nested-loop join on rows:
      colliding signatures are removed by the payload check. */
  lemma {:induction false} JoinIsNested(t: Tables, counting: bool, ls: seq<JoinRow>, rs: seq<JoinRow>)
    requires AllIdentified(t.left, t.leftCol, ls) && AllIdentified(t.right, t.rightCol, rs)
    ensures JoinWorth(t, counting, EntriesOf(ls), EntriesOf(rs)) == NestedLoop(t, counting, ls, rs)
    decreases |rs|
  {
    hide Identified, EntryOf, ProbeWorth, InnerLoop;
    if rs != [] {
      JoinIsNested(t, counting, ls, rs[..|rs| - 1]);
      JoinSnoc(t, counting, EntriesOf(ls), EntriesOf(rs[..|rs| - 1]), EntryOf(rs[|rs| - 1]));
      ProbeIsInner(t, counting, ls, rs[|rs| - 1]);
      hide JoinWorth;
    }
  }
}
