/** The cluster as it runs: nodes prepare, shuffle and collect signatures, join
    locally, and the coordinator verifies payloads and adds up. */
module DistributedCoordinator {
  import opened Words
  import opened Storage
  import opened MemTables
  import opened AdaptiveIngester
  import opened RowIds
  import opened DistributedJoin

  // ----- filtering

  /** Predicates are applied to columns of their own kind. */
  predicate JoinTyped(batch: Batch, preds: seq<Predicate>)
    requires batch.Valid()
  {
    forall p :: 0 <= p < |preds| ==>
      var f := FindColumn(batch.names, preds[p].column);
      f.Some? ==> batch.columns[f.value].Strs? == preds[p].isString
  }

  method FilterJoinColumn(batch: Batch, preds: seq<Predicate>, k: nat, f: nat, was: seq<bool>) returns (matches: seq<bool>)
    requires batch.Valid() && k < |preds| && FindColumn(batch.names, preds[k].column) == Some(f)
    requires batch.columns[f].Strs? == preds[k].isString && |was| == batch.numRows
    requires forall r :: 0 <= r < batch.numRows ==> was[r] == AdmittedTo(batch, preds, k, r)
    ensures |matches| == batch.numRows
    ensures forall r :: 0 <= r < batch.numRows ==> matches[r] == AdmittedTo(batch, preds, k + 1, r)
  {
    var pred, c := preds[k], batch.columns[f];
    var pattern := CleanPattern(pred.op, pred.value);
    matches := was;
    for r := 0 to batch.numRows
      invariant |matches| == batch.numRows
      invariant forall i :: 0 <= i < r ==> matches[i] == (was[i] && Admits(CellAt(c, i), pred))
      invariant forall i :: r <= i < batch.numRows ==> matches[i] == was[i]
    {
      if matches[r] {
        if pred.isString {
          if c.strs[r].None? { matches := matches[r := false]; }
          else if pred.op in {EQ, LIKE_PREFIX, LIKE_CONTAINS} {
            matches := matches[r := MatchString(c.strs[r].value, pred.op, pattern)];
          }
        } else {
          if c.ints[r].None? { matches := matches[r := false]; }
          else if pred.op in {EQ, GT, LT} { matches := matches[r := MatchNumeric(c.ints[r].value, pred.op, pred.number)]; }
        }
      }
    }
    hide Admits;
    forall r | 0 <= r < batch.numRows ensures matches[r] == AdmittedTo(batch, preds, k + 1, r) {
      assert AdmittedTo(batch, preds, k + 1, r) <==> AdmittedTo(batch, preds, k, r) && Admits(CellAt(c, r), pred);
    }
  }

  method GetMatchingRows(batch: Batch, preds: seq<Predicate>) returns (matches: seq<bool>)
    requires batch.Valid() && JoinTyped(batch, preds)
    ensures |matches| == batch.numRows
    ensures forall r :: 0 <= r < batch.numRows ==> matches[r] == Admitted(batch, preds, r)
  {
    hide Admits, FindColumn;
    matches := seq(batch.numRows, _ => true);
    for k := 0 to |preds|
      invariant |matches| == batch.numRows
      invariant forall r :: 0 <= r < batch.numRows ==> matches[r] == AdmittedTo(batch, preds, k, r)
    {
      var f := FindColumn(batch.names, preds[k].column);
      if f.None? {
        matches := seq(batch.numRows, _ => false);
        return;
      }
      matches := FilterJoinColumn(batch, preds, k, f.value, matches);
    }
  }

  /** The join column is a string column. */
  predicate KeyTyped(batch: Batch, col: Str)
    requires batch.Valid()
  {
    var f := FindColumn(batch.names, col);
    f.Some? ==> batch.columns[f.value].Strs?
  }

  predicate Joinable(batches: seq<Batch>, preds: seq<Predicate>, col: Str) {
    forall b :: 0 <= b < |batches| ==> batches[b].Valid() && JoinTyped(batches[b], preds) && KeyTyped(batches[b], col)
  }

  lemma {:induction false} NoKeys(node: nat, b: nat, batch: Batch, preds: seq<Predicate>, col: Str, n: nat)
    requires batch.Valid() && n <= batch.numRows && FindColumn(batch.names, col).None?
    ensures BatchJoinRows(node, b, batch, preds, col, n) == []
  {
    hide Admitted;
    if n > 0 { NoKeys(node, b, batch, preds, col, n - 1); }
  }

  lemma EntriesSnoc(rows: seq<JoinRow>, j: JoinRow)
    ensures EntriesOf(rows + [j]) == EntriesOf(rows) + [EntryOf(j)]
  {
    assert (rows + [j])[..|rows + [j]| - 1] == rows;
  }

  lemma {:induction false} EntriesAppend(x: seq<JoinRow>, y: seq<JoinRow>)
    ensures EntriesOf(x + y) == EntriesOf(x) + EntriesOf(y)
    decreases |y|
  {
    hide EntryOf;
    if y == [] {
      assert x + y == x;
    } else {
      var rest, last := y[..|y| - 1], y[|y| - 1];
      EntriesAppend(x, rest);
      assert x + y == (x + rest) + [last];
      EntriesSnoc(x + rest, last);
    }
  }

  lemma BatchRowsNext(node: nat, b: nat, batch: Batch, preds: seq<Predicate>, col: Str, n: nat)
    requires batch.Valid() && n < batch.numRows
    ensures BatchJoinRows(node, b, batch, preds, col, n + 1) == BatchJoinRows(node, b, batch, preds, col, n)
         + if Admitted(batch, preds, n) && KeyCell(batch, col, n).Some?
           then [JoinRow(node, b, n, KeyCell(batch, col, n).value)] else []
  {
    hide Admitted, KeyCell;
  }

  lemma EntriesNext(node: nat, b: nat, batch: Batch, preds: seq<Predicate>, col: Str, n: nat)
    requires batch.Valid() && n < batch.numRows
    ensures EntriesOf(BatchJoinRows(node, b, batch, preds, col, n + 1)) == EntriesOf(BatchJoinRows(node, b, batch, preds, col, n))
         + if Admitted(batch, preds, n) && KeyCell(batch, col, n).Some?
           then [EntryOf(JoinRow(node, b, n, KeyCell(batch, col, n).value))] else []
  {
    BatchRowsNext(node, b, batch, preds, col, n);
    hide Admitted, KeyCell, EntriesOf, EntryOf;
    NoEntries();
    if Admitted(batch, preds, n) && KeyCell(batch, col, n).Some? {
      EntriesSnoc(BatchJoinRows(node, b, batch, preds, col, n), JoinRow(node, b, n, KeyCell(batch, col, n).value));
    } else {
      assert BatchJoinRows(node, b, batch, preds, col, n + 1) == BatchJoinRows(node, b, batch, preds, col, n);
    }
  }

  method SignatureEntry(node: nat, b: nat, r: nat, key: Str) returns (e: Entry)
    ensures e == EntryOf(JoinRow(node, b, r, key))
  {
    hide Signature, XorSum, PackRowId;
    var kim := GenerateKimSignature(key);
    var xorSum := GenerateXorSum(key);
    e := Entry(FatSignature(kim, xorSum), PackRowId(node, b, r));
  }

  lemma KeyColumn(batch: Batch, col: Str, f: nat)
    requires batch.Valid() && FindColumn(batch.names, col) == Some(f) && batch.columns[f].Strs?
    ensures |batch.columns[f].strs| == batch.numRows
    ensures forall r :: 0 <= r < batch.numRows ==> KeyCell(batch, col, r) == batch.columns[f].strs[r]
  {
    hide FindColumn;
  }

  /** Signatures of one batch. */
  method BatchSignatures(node: nat, b: nat, batch: Batch, preds: seq<Predicate>, col: Str) returns (entries: seq<Entry>)
    requires batch.Valid() && JoinTyped(batch, preds) && KeyTyped(batch, col)
    ensures entries == EntriesOf(BatchJoinRows(node, b, batch, preds, col, batch.numRows))
  {
    var matches := GetMatchingRows(batch, preds);
    entries := [];
    var f := FindColumn(batch.names, col);
    hide Admitted, KeyCell, EntriesOf, FindColumn, JoinTyped, EntryOf, BatchJoinRows;
    NoEntries();
    if f.None? {
      NoKeys(node, b, batch, preds, col, batch.numRows);
      return;
    }
    KeyColumn(batch, col, f.value);
    var keys := batch.columns[f.value].strs;
    NoBatchRows(node, b, batch, preds, col);
    for r := 0 to batch.numRows
      invariant entries == EntriesOf(BatchJoinRows(node, b, batch, preds, col, r))
    {
      EntriesNext(node, b, batch, preds, col, r);
      if matches[r] && keys[r].Some? {
        var e := SignatureEntry(node, b, r, keys[r].value);
        entries := entries + [e];
      }
    }
  }

  lemma NoBatchRows(node: nat, b: nat, batch: Batch, preds: seq<Predicate>, col: Str)
    requires batch.Valid()
    ensures EntriesOf(BatchJoinRows(node, b, batch, preds, col, 0)) == []
  {
  }

  lemma NoEntries()
    ensures EntriesOf([]) == []
  {
  }

  method NodeSignatures(node: nat, batches: seq<Batch>, preds: seq<Predicate>, col: Str) returns (entries: seq<Entry>)
    requires Joinable(batches, preds, col) && AllValid(batches)
    ensures entries == EntriesOf(NodeJoinRows(node, batches, preds, col, |batches|))
  {
    hide BatchJoinRows, EntriesOf, JoinTyped, KeyTyped;
    NoEntries();
    entries := [];
    for b := 0 to |batches|
      invariant entries == EntriesOf(NodeJoinRows(node, batches, preds, col, b))
    {
      var more := BatchSignatures(node, b, batches[b], preds, col);
      EntriesAppend(NodeJoinRows(node, batches, preds, col, b), BatchJoinRows(node, b, batches[b], preds, col, batches[b].numRows));
      entries := entries + more;
    }
  }

  // ----- local join

  /** Left ids filed under a signature, in order. */
  function Bucket(ls: seq<Entry>, sig: FatSignature): seq<nat> {
    if ls == [] then []
    else Bucket(ls[..|ls| - 1], sig) + if ls[|ls| - 1].sig == sig then [ls[|ls| - 1].rowId] else []
  }

  function PairsWith(ids: seq<nat>, r: nat): seq<(nat, nat)> {
    if ids == [] then [] else PairsWith(ids[..|ids| - 1], r) + [(ids[|ids| - 1], r)]
  }

  function LocalMatches(ls: seq<Entry>, rs: seq<Entry>): seq<(nat, nat)> {
    if rs == [] then []
    else LocalMatches(ls, rs[..|rs| - 1]) + PairsWith(Bucket(ls, rs[|rs| - 1].sig), rs[|rs| - 1].rowId)
  }

  function MatchWorth(t: Tables, counting: bool, m: (nat, nat)): int {
    if SameKey(t, m.0, m.1) then Weight(t, counting, m.0) else 0
  }

  function MatchesWorth(t: Tables, counting: bool, ms: seq<(nat, nat)>): int {
    if ms == [] then 0 else MatchesWorth(t, counting, ms[..|ms| - 1]) + MatchWorth(t, counting, ms[|ms| - 1])
  }

  lemma {:induction false} WorthAppend(t: Tables, counting: bool, x: seq<(nat, nat)>, y: seq<(nat, nat)>)
    ensures MatchesWorth(t, counting, x + y) == MatchesWorth(t, counting, x) + MatchesWorth(t, counting, y)
    decreases |y|
  {
    hide MatchWorth;
    if y == [] {
      assert x + y == x;
    } else {
      WorthAppend(t, counting, x, y[..|y| - 1]);
      assert (x + y)[..|x + y| - 1] == x + y[..|y| - 1];
    }
  }

  lemma PairsSnoc(ids: seq<nat>, id: nat, r: nat)
    ensures PairsWith(ids + [id], r) == PairsWith(ids, r) + [(id, r)]
  {
    assert (ids + [id])[..|ids + [id]| - 1] == ids;
  }

  lemma {:induction false} BucketWorth(t: Tables, counting: bool, ls: seq<Entry>, r: Entry)
    ensures MatchesWorth(t, counting, PairsWith(Bucket(ls, r.sig), r.rowId)) == ProbeWorth(t, counting, ls, r)
  {
    hide *;
    if ls == [] {
      EmptyBucket(t, counting, r);
    } else {
      var rest, l := ls[..|ls| - 1], ls[|ls| - 1];
      assert ls == rest + [l];
      BucketWorth(t, counting, rest, r);
      BucketSnoc(rest, l, r.sig);
      ProbeSnoc(t, counting, rest, l, r);
      PairIsMatch(t, counting, l, r);
      if l.sig == r.sig {
        PairsSnoc(Bucket(rest, r.sig), l.rowId, r.rowId);
        WorthSnoc(t, counting, PairsWith(Bucket(rest, r.sig), r.rowId), (l.rowId, r.rowId));
      } else {
        assert Bucket(rest, r.sig) + [] == Bucket(rest, r.sig);
      }
    }
  }

  lemma EmptyBucket(t: Tables, counting: bool, r: Entry)
    ensures MatchesWorth(t, counting, PairsWith(Bucket([], r.sig), r.rowId)) == 0 == ProbeWorth(t, counting, [], r)
  {
  }

  lemma PairIsMatch(t: Tables, counting: bool, l: Entry, r: Entry)
    ensures PairWorth(t, counting, l, r) == if l.sig == r.sig then MatchWorth(t, counting, (l.rowId, r.rowId)) else 0
  {
    hide SameKey, Weight;
  }

  lemma WorthSnoc(t: Tables, counting: bool, ms: seq<(nat, nat)>, m: (nat, nat))
    ensures MatchesWorth(t, counting, ms + [m]) == MatchesWorth(t, counting, ms) + MatchWorth(t, counting, m)
  {
    assert (ms + [m])[..|ms + [m]| - 1] == ms;
  }

  /** The pairs a node finds are worth its part of the join. */
  lemma {:induction false} LocalWorth(t: Tables, counting: bool, ls: seq<Entry>, rs: seq<Entry>)
    ensures MatchesWorth(t, counting, LocalMatches(ls, rs)) == JoinWorth(t, counting, ls, rs)
    decreases |rs|
  {
    hide MatchesWorth, PairsWith, Bucket, ProbeWorth;
    if rs == [] {
      NothingWorth(t, counting);
    } else {
      LocalWorth(t, counting, ls, rs[..|rs| - 1]);
      BucketWorth(t, counting, ls, rs[|rs| - 1]);
      WorthAppend(t, counting, LocalMatches(ls, rs[..|rs| - 1]), PairsWith(Bucket(ls, rs[|rs| - 1].sig), rs[|rs| - 1].rowId));
    }
  }

  lemma NothingWorth(t: Tables, counting: bool)
    ensures MatchesWorth(t, counting, []) == 0
  {
  }

  lemma BucketSnoc(ls: seq<Entry>, l: Entry, sig: FatSignature)
    ensures Bucket(ls + [l], sig) == Bucket(ls, sig) + if l.sig == sig then [l.rowId] else []
  {
    assert (ls + [l])[..|ls + [l]| - 1] == ls;
  }

  function Look(m: map<FatSignature, seq<nat>>, sig: FatSignature): seq<nat> { if sig in m then m[sig] else [] }

  /** The table files every left id under its signature. */
  ghost predicate Files(m: map<FatSignature, seq<nat>>, ls: seq<Entry>) { forall sig :: Bucket(ls, sig) == Look(m, sig) }

  lemma FilesNext(m: map<FatSignature, seq<nat>>, ls: seq<Entry>, e: Entry)
    requires Files(m, ls)
    ensures Files(m[e.sig := Look(m, e.sig) + [e.rowId]], ls + [e])
  {
    var m' := m[e.sig := Look(m, e.sig) + [e.rowId]];
    forall sig ensures Bucket(ls + [e], sig) == Look(m', sig) {
      BucketSnoc(ls, e, sig);
      hide Bucket;
      assert Bucket(ls, sig) == Look(m, sig);
    }
  }

  /** The build side: ids by signature. */
  method BuildSide(ls: seq<Entry>) returns (m: map<FatSignature, seq<nat>>)
    ensures Files(m, ls)
  {
    m := map[];
    assert ls[..0] == [];
    assert Files(m, []);
    hide Files, Bucket;
    for i := 0 to |ls|
      invariant Files(m, ls[..i])
    {
      var e := ls[i];
      assert ls[..i + 1] == ls[..i] + [e];
      FilesNext(m, ls[..i], e);
      m := m[e.sig := Look(m, e.sig) + [e.rowId]];
    }
    assert ls[..|ls|] == ls;
  }

  method AppendPairs(before: seq<(nat, nat)>, range: seq<nat>, r: nat) returns (matches: seq<(nat, nat)>)
    ensures matches == before + PairsWith(range, r)
  {
    matches := before;
    assert range[..0] == [];
    for k := 0 to |range|
      invariant matches == before + PairsWith(range[..k], r)
    {
      assert range[..k + 1] == range[..k] + [range[k]];
      PairsSnoc(range[..k], range[k], r);
      matches := matches + [(range[k], r)];
    }
    assert range[..|range|] == range;
  }

  lemma LocalSnoc(ls: seq<Entry>, rs: seq<Entry>, r: Entry)
    ensures LocalMatches(ls, rs + [r]) == LocalMatches(ls, rs) + PairsWith(Bucket(ls, r.sig), r.rowId)
  {
    assert (rs + [r])[..|rs + [r]| - 1] == rs;
  }

  method ProbeSide(m: map<FatSignature, seq<nat>>, ls: seq<Entry>, rs: seq<Entry>) returns (matches: seq<(nat, nat)>)
    requires Files(m, ls)
    ensures matches == LocalMatches(ls, rs)
  {
    matches := [];
    assert rs[..0] == [];
    for i := 0 to |rs|
      invariant matches == LocalMatches(ls, rs[..i])
    {
      assert rs[..i + 1] == rs[..i] + [rs[i]];
      LocalSnoc(ls, rs[..i], rs[i]);
      assert Bucket(ls, rs[i].sig) == Look(m, rs[i].sig);
      hide Bucket, LocalMatches, Files, PairsWith;
      matches := AppendPairs(matches, Look(m, rs[i].sig), rs[i].rowId);
    }
    assert rs[..|rs|] == rs;
  }

  // ----- a node

  function Flatten(messages: seq<seq<Entry>>): seq<Entry> {
    if messages == [] then [] else Flatten(messages[..|messages| - 1]) + messages[|messages| - 1]
  }

  lemma FlattenSnoc(messages: seq<seq<Entry>>, m: seq<Entry>)
    ensures Flatten(messages + [m]) == Flatten(messages) + m
  {
    assert (messages + [m])[..|messages + [m]| - 1] == messages;
  }

  method SendLeft(entries: seq<Entry>, hot: set<FatSignature>, nodes: nat) returns (sends: seq<seq<Entry>>)
    requires nodes > 0
    ensures |sends| == nodes && forall n :: 0 <= n < nodes ==> sends[n] == SentLeft(entries, hot, nodes, n)
  {
    hide HashOf;
    sends := seq(nodes, _ => []);
    assert entries[..0] == [];
    for i := 0 to |entries|
      invariant |sends| == nodes && forall n :: 0 <= n < nodes ==> sends[n] == SentLeft(entries[..i], hot, nodes, n)
    {
      var e := entries[i];
      assert entries[..i + 1][..i] == entries[..i];
      ghost var was := sends;
      if e.sig in hot {
        for n := 0 to nodes
          invariant |sends| == nodes
          invariant forall k :: 0 <= k < n ==> sends[k] == was[k] + [e]
          invariant forall k :: n <= k < nodes ==> sends[k] == was[k]
        {
          sends := sends[n := sends[n] + [e]];
        }
      } else {
        var target := ColdTarget(e.sig, nodes);
        sends := sends[target := sends[target] + [e]];
      }
    }
    assert entries[..|entries|] == entries;
  }

  method SendRight(entries: seq<Entry>, hot: set<FatSignature>, nodes: nat) returns (sends: seq<seq<Entry>>)
    requires nodes > 0
    ensures |sends| == nodes && forall n :: 0 <= n < nodes ==> sends[n] == SentRight(entries, hot, nodes, n)
  {
    hide HashOf, Wrap, UnpackRowId;
    sends := seq(nodes, _ => []);
    assert entries[..0] == [];
    for i := 0 to |entries|
      invariant |sends| == nodes && forall n :: 0 <= n < nodes ==> sends[n] == SentRight(entries[..i], hot, nodes, n)
    {
      var e := entries[i];
      assert entries[..i + 1][..i] == entries[..i];
      if e.sig in hot {
        var (_, batch, _) := UnpackRowId(e.rowId);
        var target := Wrap(HashOf(e.sig) + batch) % nodes;
        sends := sends[target := sends[target] + [e]];
      } else {
        var target := ColdTarget(e.sig, nodes);
        sends := sends[target := sends[target] + [e]];
      }
    }
    assert entries[..|entries|] == entries;
  }

  class ClusterNode {
    const id: nat
    const nodes: nat
    var left: seq<Batch>
    var right: seq<Batch>
    var localLeft: seq<Entry>
    var localRight: seq<Entry>
    var receivedLeft: seq<Entry>
    var receivedRight: seq<Entry>

    constructor (id: nat, nodes: nat)
      ensures this.id == id && this.nodes == nodes && left == [] && right == []
    {
      this.id, this.nodes := id, nodes;
      left, right, localLeft, localRight, receivedLeft, receivedRight := [], [], [], [], [], [];
    }

    method IngestLeft(batch: Batch)
      modifies this`left
      ensures left == old(left) + [batch]
    {
      left := left + [batch];
    }

    method IngestRight(batch: Batch)
      modifies this`right
      ensures right == old(right) + [batch]
    {
      right := right + [batch];
    }

    method PrepareJoinSignatures(leftPreds: seq<Predicate>, rightPreds: seq<Predicate>, leftCol: Str, rightCol: Str)
      requires Joinable(left, leftPreds, leftCol) && AllValid(left)
      requires Joinable(right, rightPreds, rightCol) && AllValid(right)
      modifies this`localLeft, this`localRight
      ensures localLeft == EntriesOf(NodeJoinRows(id, left, leftPreds, leftCol, |left|))
      ensures localRight == EntriesOf(NodeJoinRows(id, right, rightPreds, rightCol, |right|))
    {
      hide NodeJoinRows, EntriesOf, Joinable;
      localLeft := NodeSignatures(id, left, leftPreds, leftCol);
      localRight := NodeSignatures(id, right, rightPreds, rightCol);
    }

    /** Forget what was received, and say what goes to each node. */
    method ShuffleLeftSignatures(hot: set<FatSignature>) returns (sends: seq<seq<Entry>>)
      requires nodes > 0
      modifies this`receivedLeft
      ensures receivedLeft == []
      ensures |sends| == nodes && forall n :: 0 <= n < nodes ==> sends[n] == SentLeft(localLeft, hot, nodes, n)
    {
      receivedLeft := [];
      sends := SendLeft(localLeft, hot, nodes);
    }

    method ShuffleRightSignatures(hot: set<FatSignature>) returns (sends: seq<seq<Entry>>)
      requires nodes > 0
      modifies this`receivedRight
      ensures receivedRight == []
      ensures |sends| == nodes && forall n :: 0 <= n < nodes ==> sends[n] == SentRight(localRight, hot, nodes, n)
    {
      receivedRight := [];
      sends := SendRight(localRight, hot, nodes);
    }

    method CollectLeftSignatures(messages: seq<seq<Entry>>)
      modifies this`receivedLeft
      ensures receivedLeft == old(receivedLeft) + Flatten(messages)
    {
      assert messages[..0] == [];
      for i := 0 to |messages|
        invariant receivedLeft == old(receivedLeft) + Flatten(messages[..i])
      {
        assert messages[..i + 1] == messages[..i] + [messages[i]];
        FlattenSnoc(messages[..i], messages[i]);
        receivedLeft := receivedLeft + messages[i];
      }
      assert messages[..|messages|] == messages;
    }

    method CollectRightSignatures(messages: seq<seq<Entry>>)
      modifies this`receivedRight
      ensures receivedRight == old(receivedRight) + Flatten(messages)
    {
      assert messages[..0] == [];
      for i := 0 to |messages|
        invariant receivedRight == old(receivedRight) + Flatten(messages[..i])
      {
        assert messages[..i + 1] == messages[..i] + [messages[i]];
        FlattenSnoc(messages[..i], messages[i]);
        receivedRight := receivedRight + messages[i];
      }
      assert messages[..|messages|] == messages;
    }

    /** Build on the left, probe with the right. */
    method PerformLocalJoin() returns (matches: seq<(nat, nat)>)
      ensures matches == LocalMatches(receivedLeft, receivedRight)
    {
      var table := BuildSide(receivedLeft);
      matches := ProbeSide(table, receivedLeft, receivedRight);
    }
  }
}
