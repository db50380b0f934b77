/** Which pairs the nodes find: together exactly the pairs one node with everything
    would find, each as often. */
module JoinPairs {
  import opened Storage
  import opened RowIds
  import opened DistributedJoin
  import opened DistributedCoordinator

  /** The pairs the first n nodes find, one node after the other. */
  function ClusterMatches(ls: seq<Entry>, rs: seq<Entry>, hot: set<FatSignature>, nodes: nat, n: nat): seq<(nat, nat)>
    requires nodes > 0
  {
    if n == 0 then []
    else ClusterMatches(ls, rs, hot, nodes, n - 1)
         + LocalMatches(SentLeft(ls, hot, nodes, n - 1), SentRight(rs, hot, nodes, n - 1))
  }

  lemma MatchesNext(ls: seq<Entry>, rs: seq<Entry>, hot: set<FatSignature>, nodes: nat, n: nat)
    requires nodes > 0
    ensures ClusterMatches(ls, rs, hot, nodes, 0) == []
    ensures ClusterMatches(ls, rs, hot, nodes, n + 1)
            == ClusterMatches(ls, rs, hot, nodes, n) + LocalMatches(SentLeft(ls, hot, nodes, n), SentRight(rs, hot, nodes, n))
  {
    hide LocalMatches, SentLeft, SentRight;
  }

  lemma SentLeftSnoc(ls: seq<Entry>, l: Entry, hot: set<FatSignature>, nodes: nat, n: nat)
    requires nodes > 0
    ensures SentLeft(ls + [l], hot, nodes, n) == SentLeft(ls, hot, nodes, n) + if LeftGoesTo(l, hot, nodes, n) then [l] else []
  {
    assert (ls + [l])[..|ls + [l]| - 1] == ls;
    hide LeftGoesTo;
  }

  lemma SameTarget(l: Entry, r: Entry, hot: set<FatSignature>, nodes: nat)
    requires nodes > 0 && l.sig == r.sig
    ensures LeftGoesTo(l, hot, nodes, RightTarget(r, hot, nodes))
  {
    hide ColdTarget;
  }

  /** At the node a right entry goes to, the left entries of its signature are all there, in order. */
  lemma {:induction false} BucketArrives(ls: seq<Entry>, r: Entry, hot: set<FatSignature>, nodes: nat)
    requires nodes > 0
    ensures Bucket(SentLeft(ls, hot, nodes, RightTarget(r, hot, nodes)), r.sig) == Bucket(ls, r.sig)
  {
    if ls != [] {
      var n, rest, l := RightTarget(r, hot, nodes), ls[..|ls| - 1], ls[|ls| - 1];
      assert ls == rest + [l];
      hide *;
      BucketArrives(rest, r, hot, nodes);
      SentLeftSnoc(rest, l, hot, nodes, n);
      BucketSnoc(rest, l, r.sig);
      BucketSnoc(SentLeft(rest, hot, nodes, n), l, r.sig);
      if l.sig == r.sig { SameTarget(l, r, hot, nodes); }
      assert SentLeft(rest, hot, nodes, n) + [] == SentLeft(rest, hot, nodes, n);
      assert Bucket(rest, r.sig) + [] == Bucket(rest, r.sig);
    }
  }

  /** One more right entry adds its pairs at exactly one node. */
  lemma {:induction false} PairsAtOneNode(ls: seq<Entry>, rs: seq<Entry>, r: Entry, hot: set<FatSignature>, nodes: nat, n: nat)
    requires nodes > 0
    ensures multiset(ClusterMatches(ls, rs + [r], hot, nodes, n))
            == multiset(ClusterMatches(ls, rs, hot, nodes, n))
               + if RightTarget(r, hot, nodes) < n then multiset(PairsWith(Bucket(ls, r.sig), r.rowId)) else multiset{}
  {
    hide *;
    MatchesNext(ls, rs, hot, nodes, if n > 0 then n - 1 else 0);
    MatchesNext(ls, rs + [r], hot, nodes, if n > 0 then n - 1 else 0);
    if n > 0 {
      var m := n - 1;
      PairsAtOneNode(ls, rs, r, hot, nodes, m);
      SentRightSnoc(rs, r, hot, nodes, m);
      if RightTarget(r, hot, nodes) == m {
        LocalSnoc(SentLeft(ls, hot, nodes, m), SentRight(rs, hot, nodes, m), r);
        BucketArrives(ls, r, hot, nodes);
      }
    }
  }

  lemma {:induction false} NothingToPair(ls: seq<Entry>, hot: set<FatSignature>, nodes: nat, n: nat)
    requires nodes > 0
    ensures ClusterMatches(ls, [], hot, nodes, n) == [] && LocalMatches(ls, []) == []
  {
    if n > 0 { NothingToPair(ls, hot, nodes, n - 1); }
  }

  /** For any hot set, the nodes together find every pair of equal signatures exactly
      as often as one node with all entries would. */
  lemma {:induction false} EveryPairOnce(ls: seq<Entry>, rs: seq<Entry>, hot: set<FatSignature>, nodes: nat)
    requires nodes > 0
    ensures multiset(ClusterMatches(ls, rs, hot, nodes, nodes)) == multiset(LocalMatches(ls, rs))
    decreases |rs|
  {
    if rs == [] {
      NothingToPair(ls, hot, nodes, nodes);
    } else {
      var rest, r := rs[..|rs| - 1], rs[|rs| - 1];
      assert rs == rest + [r];
      hide *;
      EveryPairOnce(ls, rest, hot, nodes);
      PairsAtOneNode(ls, rest, r, hot, nodes, nodes);
      TargetInside(r, hot, nodes);
      LocalSnoc(ls, rest, r);
    }
  }

  lemma TargetInside(r: Entry, hot: set<FatSignature>, nodes: nat)
    requires nodes > 0
    ensures RightTarget(r, hot, nodes) < nodes
  {
    hide HashOf;
  }

  // ----- the order of arrival

  lemma {:induction false} BucketCounts(ls: seq<Entry>, sig: FatSignature, id: nat)
    ensures multiset(Bucket(ls, sig))[id] == multiset(ls)[Entry(sig, id)]
  {
    if ls != [] {
      var rest, l := ls[..|ls| - 1], ls[|ls| - 1];
      assert ls == rest + [l];
      hide Bucket;
      BucketCounts(rest, sig, id);
      BucketSnoc(rest, l, sig);
    }
  }

  lemma {:induction false} PairCounts(ids: seq<nat>, r: nat, p: (nat, nat))
    ensures multiset(PairsWith(ids, r))[p] == if p.1 == r then multiset(ids)[p.0] else 0
  {
    if ids != [] {
      var rest, id := ids[..|ids| - 1], ids[|ids| - 1];
      assert ids == rest + [id];
      hide PairsWith;
      PairCounts(rest, r, p);
      PairsSnoc(rest, id, r);
    }
  }

  lemma BucketOrder(a: seq<Entry>, b: seq<Entry>, r: Entry)
    requires multiset(a) == multiset(b)
    ensures multiset(PairsWith(Bucket(a, r.sig), r.rowId)) == multiset(PairsWith(Bucket(b, r.sig), r.rowId))
  {
    hide PairsWith, Bucket;
    var x, y := multiset(PairsWith(Bucket(a, r.sig), r.rowId)), multiset(PairsWith(Bucket(b, r.sig), r.rowId));
    forall p ensures x[p] == y[p] {
      PairCounts(Bucket(a, r.sig), r.rowId, p);
      PairCounts(Bucket(b, r.sig), r.rowId, p);
      BucketCounts(a, r.sig, p.0);
      BucketCounts(b, r.sig, p.0);
    }
  }

  lemma {:induction false} MatchesLeftOrder(a: seq<Entry>, b: seq<Entry>, rs: seq<Entry>)
    requires multiset(a) == multiset(b)
    ensures multiset(LocalMatches(a, rs)) == multiset(LocalMatches(b, rs))
    decreases |rs|
  {
    if rs != [] {
      hide PairsWith, Bucket;
      MatchesLeftOrder(a, b, rs[..|rs| - 1]);
      BucketOrder(a, b, rs[|rs| - 1]);
    }
  }

  lemma NoMatches(ls: seq<Entry>)
    ensures LocalMatches(ls, []) == []
  {
  }

  lemma {:induction false} LocalAppend(ls: seq<Entry>, x: seq<Entry>, y: seq<Entry>)
    ensures LocalMatches(ls, x + y) == LocalMatches(ls, x) + LocalMatches(ls, y)
    decreases |y|
  {
    hide *;
    if y == [] {
      assert x + y == x;
      NoMatches(ls);
    } else {
      var rest, r := y[..|y| - 1], y[|y| - 1];
      assert x + y == (x + rest) + [r] && y == rest + [r];
      LocalAppend(ls, x, rest);
      LocalSnoc(ls, x + rest, r);
      LocalSnoc(ls, rest, r);
    }
  }

  lemma {:induction false} MatchesRightOrder(ls: seq<Entry>, a: seq<Entry>, b: seq<Entry>)
    requires multiset(a) == multiset(b)
    ensures multiset(LocalMatches(ls, a)) == multiset(LocalMatches(ls, b))
    decreases |a|
  {
    if a == [] {
      assert |multiset(b)| == |b|;
    } else {
      var rest, r := a[..|a| - 1], a[|a| - 1];
      assert a == rest + [r];
      hide LocalMatches;
      var x, y := PlaceOf(a, b);
      MatchesRightOrder(ls, rest, x + y);
      LocalAppend(ls, rest, [r]);
      LocalAppend(ls, x + [r], y);
      LocalAppend(ls, x, [r]);
      LocalAppend(ls, x, y);
    }
  }

  /** The pairs found do not depend on the order of arrival. */
  lemma FoundInAnyOrder(ls: seq<Entry>, ls': seq<Entry>, rs: seq<Entry>, rs': seq<Entry>)
    requires multiset(ls) == multiset(ls') && multiset(rs) == multiset(rs')
    ensures multiset(LocalMatches(ls, rs)) == multiset(LocalMatches(ls', rs'))
  {
    MatchesLeftOrder(ls, ls', rs);
    MatchesRightOrder(ls', rs, rs');
  }
}
