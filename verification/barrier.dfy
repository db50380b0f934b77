/** The transport keeps what the join expects of the barrier: when the packets of every
    message have arrived, and no message a second time in full, a node has received
    exactly the entries that were sent to it. */
module ReliableBarrier {
  import opened Storage
  import opened DistributedJoin
  import opened DistributedCoordinator
  import opened JoinQuery
  import opened SrdTransport

  /** One message id per sender for its message to the node. */
  predicate Numbered(outbox: seq<seq<seq<Entry>>>, n: nat, ids: seq<u32>) {
    |outbox| == |ids| && |ids| <= IDS && forall i :: 0 <= i < |outbox| ==> n < |outbox[i]|
  }

  function SenderKey(ids: seq<u32>, i: nat): nat
    requires i < |ids| <= IDS
  {
    ReconKey(i, ids[i])
  }

  /** What the first k senders have for node n, by the receiver's key. */
  function SentTo(outbox: seq<seq<seq<Entry>>>, n: nat, ids: seq<u32>, k: nat): Sent
    requires Numbered(outbox, n, ids) && k <= |outbox|
  {
    if k == 0 then map[] else SentTo(outbox, n, ids, k - 1)[SenderKey(ids, k - 1) := outbox[k - 1][n]]
  }

  /** Keys of the messages that are not empty. */
  function KeysTo(outbox: seq<seq<seq<Entry>>>, n: nat, ids: seq<u32>, k: nat): seq<nat>
    requires Numbered(outbox, n, ids) && k <= |outbox|
  {
    if k == 0 then []
    else KeysTo(outbox, n, ids, k - 1) + if outbox[k - 1][n] != [] then [SenderKey(ids, k - 1)] else []
  }

  /** Every message with entries makes exactly one complete round of arrivals. */
  ghost predicate OnceEach(ps: seq<Packet>, sent: Sent) {
    forall key :: key in sent && sent[key] != [] ==> Delivered(After(ps).keys, key) == 1
  }

  lemma SentNext(outbox: seq<seq<seq<Entry>>>, n: nat, ids: seq<u32>, k: nat)
    requires Numbered(outbox, n, ids) && k < |outbox|
    ensures n < |outbox[k]| && k < |ids| <= IDS
    ensures SentTo(outbox, n, ids, k + 1) == SentTo(outbox, n, ids, k)[SenderKey(ids, k) := outbox[k][n]]
    ensures KeysTo(outbox, n, ids, k + 1) == KeysTo(outbox, n, ids, k) + if outbox[k][n] != [] then [SenderKey(ids, k)] else []
  {
    hide SenderKey;
  }

  lemma NothingTo(outbox: seq<seq<seq<Entry>>>, n: nat, ids: seq<u32>)
    requires Numbered(outbox, n, ids)
    ensures SentTo(outbox, n, ids, 0) == map[] && KeysTo(outbox, n, ids, 0) == [] && forall key :: Delivered([], key) == 0
    ensures Flatten(MessagesTo(outbox[..0], n)) == [] && forall sent: Sent :: Messages(sent, []) == []
  {
  }

  /** Senders have different keys. */
  lemma {:induction false} NotYetSent(outbox: seq<seq<seq<Entry>>>, n: nat, ids: seq<u32>, k: nat, j: nat)
    requires Numbered(outbox, n, ids) && k <= j < |outbox|
    ensures SenderKey(ids, j) !in SentTo(outbox, n, ids, k)
  {
    if k > 0 {
      NotYetSent(outbox, n, ids, k - 1, j);
      KeyInjective(k - 1, ids[k - 1], j, ids[j]);
    }
  }

  lemma {:induction false} KeysCounted(outbox: seq<seq<seq<Entry>>>, n: nat, ids: seq<u32>, k: nat, key: nat)
    requires Numbered(outbox, n, ids) && k <= |outbox|
    ensures var sent := SentTo(outbox, n, ids, k);
            Delivered(KeysTo(outbox, n, ids, k), key) == if key in sent && sent[key] != [] then 1 else 0
  {
    hide *;
    if k == 0 {
      NothingTo(outbox, n, ids);
    } else {
      KeysCounted(outbox, n, ids, k - 1, key);
      SentNext(outbox, n, ids, k - 1);
      NumberedParts(outbox, n, ids);
      NotYetSent(outbox, n, ids, k - 1, k - 1);
      DeliveredNext(KeysTo(outbox, n, ids, k - 1), SenderKey(ids, k - 1), key);
      assert KeysTo(outbox, n, ids, k - 1) + [] == KeysTo(outbox, n, ids, k - 1);
    }
  }

  lemma NumberedParts(outbox: seq<seq<seq<Entry>>>, n: nat, ids: seq<u32>)
    requires Numbered(outbox, n, ids)
    ensures |outbox| == |ids| <= IDS && forall i :: 0 <= i < |outbox| ==> n < |outbox[i]|
  {
  }

  lemma {:induction false} DeliveredCounted(keys: seq<nat>, key: nat)
    ensures multiset(keys)[key] == Delivered(keys, key)
  {
    if keys != [] {
      DeliveredCounted(keys[..|keys| - 1], key);
      assert keys == keys[..|keys| - 1] + [keys[|keys| - 1]];
    }
  }

  // ----- messages by key

  function Messages(sent: Sent, keys: seq<nat>): seq<Entry>
    requires forall i :: 0 <= i < |keys| ==> keys[i] in sent
  {
    if keys == [] then [] else Messages(sent, keys[..|keys| - 1]) + sent[keys[|keys| - 1]]
  }

  lemma {:induction false} MessagesAppend(sent: Sent, x: seq<nat>, y: seq<nat>)
    requires forall i :: 0 <= i < |x + y| ==> (x + y)[i] in sent
    ensures (forall i :: 0 <= i < |x| ==> x[i] in sent) && forall i :: 0 <= i < |y| ==> y[i] in sent
    ensures Messages(sent, x + y) == Messages(sent, x) + Messages(sent, y)
    decreases |y|
  {
    assert forall i :: 0 <= i < |x| ==> x[i] == (x + y)[i];
    assert forall i :: 0 <= i < |y| ==> y[i] == (x + y)[|x| + i];
    if y == [] {
      assert x + y == x;
    } else {
      var rest, last := y[..|y| - 1], y[|y| - 1];
      assert (x + y)[..|x + y| - 1] == x + rest;
      MessagesAppend(sent, x, rest);
    }
  }

  lemma KeysAmong(a: seq<nat>, b: seq<nat>, sent: Sent)
    requires multiset(a) == multiset(b) && forall i :: 0 <= i < |b| ==> b[i] in sent
    ensures forall i :: 0 <= i < |a| ==> a[i] in sent
  {
    forall k | 0 <= k < |a| ensures a[k] in sent { assert a[k] in multiset(b); }
  }

  lemma WithoutOne(x: seq<nat>, last: nat, y: seq<nat>, sent: Sent)
    requires forall i :: 0 <= i < |(x + [last]) + y| ==> ((x + [last]) + y)[i] in sent
    ensures forall i :: 0 <= i < |x + y| ==> (x + y)[i] in sent
  {
    var all := (x + [last]) + y;
    forall i | 0 <= i < |x + y| ensures (x + y)[i] in sent {
      assert (x + y)[i] == all[if i < |x| then i else i + 1];
    }
  }

  lemma NoMessages(a: seq<nat>, b: seq<nat>, sent: Sent)
    requires a == [] && multiset(a) == multiset(b)
    ensures b == [] && Messages(sent, []) == []
  {
    assert |multiset(b)| == |b|;
  }

  /** The messages' entries do not depend on the order of the keys. */
  lemma {:induction false} MessagesOrder(sent: Sent, a: seq<nat>, b: seq<nat>)
    requires multiset(a) == multiset(b) && forall i :: 0 <= i < |b| ==> b[i] in sent
    ensures forall i :: 0 <= i < |a| ==> a[i] in sent
    ensures multiset(Messages(sent, a)) == multiset(Messages(sent, b))
    decreases |a|
  {
    hide *;
    if a == [] {
      NoMessages(a, b, sent);
    } else {
      var rest, last := a[..|a| - 1], a[|a| - 1];
      var x, y := PlaceOf(a, b);
      assert a == rest + [last];
      KeysAmong(a, b, sent);
      WithoutOne(x, last, y, sent);
      MessagesOrder(sent, rest, x + y);
      MessagesAppend(sent, rest, [last]);
      MessagesAppend(sent, x + [last], y);
      MessagesAppend(sent, x, [last]);
      MessagesAppend(sent, x, y);
    }
  }

  lemma {:induction false} CompletedMessages(sent: Sent, keys: seq<nat>, completed: seq<seq<Entry>>)
    requires |keys| == |completed| && forall i :: 0 <= i < |keys| ==> keys[i] in sent && completed[i] == sent[keys[i]]
    ensures Flatten(completed) == Messages(sent, keys)
    decreases |keys|
  {
    if keys != [] {
      CompletedMessages(sent, keys[..|keys| - 1], completed[..|completed| - 1]);
    }
  }

  lemma {:induction false} MoreSent(sent: Sent, more: Sent, keys: seq<nat>)
    requires forall i :: 0 <= i < |keys| ==> keys[i] in sent && keys[i] in more && more[keys[i]] == sent[keys[i]]
    ensures Messages(more, keys) == Messages(sent, keys)
  {
    if keys != [] { MoreSent(sent, more, keys[..|keys| - 1]); }
  }

  lemma {:induction false} KeysAreSent(outbox: seq<seq<seq<Entry>>>, n: nat, ids: seq<u32>, k: nat)
    requires Numbered(outbox, n, ids) && k <= |outbox|
    ensures var keys := KeysTo(outbox, n, ids, k); forall i :: 0 <= i < |keys| ==> keys[i] in SentTo(outbox, n, ids, k)
  {
    hide *;
    if k == 0 {
      NothingTo(outbox, n, ids);
    } else {
      KeysAreSent(outbox, n, ids, k - 1);
      SentNext(outbox, n, ids, k - 1);
      var before, keys := KeysTo(outbox, n, ids, k - 1), KeysTo(outbox, n, ids, k);
      forall i | 0 <= i < |keys| ensures keys[i] in SentTo(outbox, n, ids, k) {
        if i < |before| { assert keys[i] == before[i]; }
      }
    }
  }

  /** The messages of all senders, one after the other, are the column for the node. */
  lemma {:induction false} ColumnMessages(outbox: seq<seq<seq<Entry>>>, n: nat, ids: seq<u32>, k: nat)
    requires Numbered(outbox, n, ids) && k <= |outbox|
    requires var keys := KeysTo(outbox, n, ids, k); forall i :: 0 <= i < |keys| ==> keys[i] in SentTo(outbox, n, ids, k)
    ensures (forall i :: 0 <= i < |outbox| ==> n < |outbox[i]|)
            && Messages(SentTo(outbox, n, ids, k), KeysTo(outbox, n, ids, k)) == Flatten(MessagesTo(outbox[..k], n))
  {
    hide *;
    NumberedParts(outbox, n, ids);
    if k == 0 {
      NothingTo(outbox, n, ids);
    } else {
      var before, after, keys := SentTo(outbox, n, ids, k - 1), SentTo(outbox, n, ids, k), KeysTo(outbox, n, ids, k - 1);
      KeysAreSent(outbox, n, ids, k - 1);
      ColumnMessages(outbox, n, ids, k - 1);
      SentNext(outbox, n, ids, k - 1);
      NotYetSent(outbox, n, ids, k - 1, k - 1);
      ColumnPrefix(outbox, n, k - 1);
      MoreSent(before, after, keys);
      if outbox[k - 1][n] != [] {
        MessagesAppend(after, keys, [SenderKey(ids, k - 1)]);
        OneMessage(after, SenderKey(ids, k - 1));
      } else {
        assert keys + [] == keys;
        assert Flatten(MessagesTo(outbox[..k - 1], n)) + [] == Flatten(MessagesTo(outbox[..k - 1], n));
      }
    }
  }

  lemma OneMessage(sent: Sent, key: nat)
    requires key in sent
    ensures Messages(sent, [key]) == sent[key]
  {
    assert [key][..0] == [];
    assert Messages(sent, []) == [];
  }

  // ----- what the node has received

  lemma NoEmptyDelivered(ps: seq<Packet>, sent: Sent, key: nat)
    requires Arrivals(ps, sent) && key in sent && sent[key] == []
    ensures Delivered(After(ps).keys, key) == 0
  {
    forall i | 0 <= i < |ps| ensures KeyOf(ps[i]) != key { assert Genuine(ps[i], sent); }
    assert Delivered(After([]).keys, key) == 0;
    assert [] + ps == ps;
    hide Arrivals, KeyOf, After, Delivered;
    NothingMore([], ps, sent, key);
  }

  lemma {:induction false} NeverDelivered(keys: seq<nat>, key: nat)
    requires forall i :: 0 <= i < |keys| ==> keys[i] != key
    ensures Delivered(keys, key) == 0
  {
    if keys != [] { NeverDelivered(keys[..|keys| - 1], key); }
  }

  lemma SoundParts(run: Run, sent: Sent)
    requires Sound(run, sent)
    ensures |run.keys| == |run.receiver.completed|
    ensures forall i :: 0 <= i < |run.keys| ==> run.keys[i] in sent && run.receiver.completed[i] == sent[run.keys[i]]
  {
    hide GoodBuffer;
  }

  lemma DeliveredOnce(ps: seq<Packet>, sent: Sent, key: nat)
    requires Arrivals(ps, sent) && OnceEach(ps, sent)
    ensures Delivered(After(ps).keys, key) == if key in sent && sent[key] != [] then 1 else 0
  {
    hide Arrivals, After, Delivered;
    if key !in sent {
      SoundAfter(ps, sent);
      hide Sound;
      SoundParts(After(ps), sent);
      NeverDelivered(After(ps).keys, key);
    } else if sent[key] == [] {
      NoEmptyDelivered(ps, sent, key);
    }
  }

  lemma SameKeys(a: seq<nat>, b: seq<nat>)
    requires forall key: nat :: Delivered(a, key) == Delivered(b, key)
    ensures multiset(a) == multiset(b)
  {
    var x: multiset<int>, y: multiset<int> := multiset(a), multiset(b);
    hide Delivered;
    forall key: int ensures x[key] == y[key] {
      if key >= 0 {
        DeliveredCounted(a, key);
        DeliveredCounted(b, key);
      } else {
        assert key !in x && key !in y;
      }
    }
    assert x == y;
  }

  /** The entries a node receives are those sent to it, each as often: what Deliver
      promises to the join. */
  lemma BarrierDelivers(outbox: seq<seq<seq<Entry>>>, n: nat, ids: seq<u32>, ps: seq<Packet>)
    requires Numbered(outbox, n, ids)
    requires Arrivals(ps, SentTo(outbox, n, ids, |outbox|)) && OnceEach(ps, SentTo(outbox, n, ids, |outbox|))
    ensures forall i :: 0 <= i < |outbox| ==> n < |outbox[i]|
    ensures multiset(Flatten(After(ps).receiver.completed)) == multiset(Flatten(MessagesTo(outbox, n)))
  {
    hide *;
    var k, run := |outbox|, After(ps);
    var sent, keys := SentTo(outbox, n, ids, k), KeysTo(outbox, n, ids, k);
    KeysAreSent(outbox, n, ids, k);
    forall i | 0 <= i < |keys| ensures keys[i] in sent {
      assert KeysTo(outbox, n, ids, k)[i] in SentTo(outbox, n, ids, k);
    }
    forall key: nat ensures Delivered(run.keys, key) == Delivered(keys, key) {
      DeliveredOnce(ps, sent, key);
      KeysCounted(outbox, n, ids, k, key);
    }
    SameKeys(run.keys, keys);
    SoundAfter(ps, sent);
    SoundParts(run, sent);
    MessagesOrder(sent, run.keys, keys);
    CompletedMessages(sent, run.keys, run.receiver.completed);
    ColumnMessages(outbox, n, ids, k);
    assert outbox[..k] == outbox;
  }
}
