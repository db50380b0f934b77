/** Shuffle messages over an unordered, lossy, duplicating network: a message is
    cut into packets of five entries and put together again by the receiver. */
module SrdTransport {
  import opened Storage
  import opened DistributedJoin
  import opened DistributedCoordinator

  const ENTRIES_PER_PACKET: nat := 5
  const IDS: nat := 0x1_0000_0000

  type u32 = n: nat | n < IDS

  datatype Packet = Packet(sender: u32, msgId: u32, index: nat, total: nat, payload: seq<Entry>)

  // ----- sending

  function TotalPackets(n: nat): nat { (n + ENTRIES_PER_PACKET - 1) / ENTRIES_PER_PACKET }

  /** Entries 5p to 5p + 4, as far as there are any. */
  function Fragment(entries: seq<Entry>, p: nat): (f: seq<Entry>)
    requires p < TotalPackets(|entries|)
    ensures f != []
  {
    entries[p * ENTRIES_PER_PACKET..Min(p * ENTRIES_PER_PACKET + ENTRIES_PER_PACKET, |entries|)]
  }

  function PacketOf(sender: u32, msgId: u32, entries: seq<Entry>, p: nat): Packet
    requires p < TotalPackets(|entries|)
  {
    Packet(sender, msgId, p, TotalPackets(|entries|), Fragment(entries, p))
  }

  /** Every packet carries five entries, but for the last, which carries the rest. */
  lemma FragmentSizes(entries: seq<Entry>, p: nat)
    requires p < TotalPackets(|entries|)
    ensures p + 1 < TotalPackets(|entries|) ==> |Fragment(entries, p)| == 5
    ensures p + 1 == TotalPackets(|entries|) ==> |Fragment(entries, p)| == |entries| - 5 * p && 1 <= |entries| - 5 * p <= 5
  {
  }

  /** The first n fragments of a message, end to end. */
  function FirstFragments(entries: seq<Entry>, n: nat): seq<Entry>
    requires n <= TotalPackets(|entries|)
  {
    if n == 0 then [] else FirstFragments(entries, n - 1) + Fragment(entries, n - 1)
  }

  lemma {:induction false} FragmentsSoFar(entries: seq<Entry>, n: nat)
    requires n <= TotalPackets(|entries|)
    ensures FirstFragments(entries, n) == entries[..Min(n * ENTRIES_PER_PACKET, |entries|)]
  {
    if n > 0 { FragmentsSoFar(entries, n - 1); }
  }

  /** Fragmentation loses nothing. */
  lemma AllFragments(entries: seq<Entry>)
    ensures FirstFragments(entries, TotalPackets(|entries|)) == entries
  {
    FragmentsSoFar(entries, TotalPackets(|entries|));
  }

  // ----- receiving

  /** Packets of a message so far; an empty one has not arrived. */
  datatype Reconstruction = Reconstruction(total: nat, received: nat, packets: seq<seq<Entry>>)

  datatype Receiver = Receiver(buffers: map<nat, Reconstruction>, completed: seq<seq<Entry>>)

  function NoPackets(n: nat): seq<seq<Entry>> { seq(n, _ => []) }

  /** `(sender << 32) | msg_id` */
  function ReconKey(sender: u32, msgId: u32): nat { sender * IDS + msgId }

  /** The message id takes the low 32 bits, the sender those above. */
  lemma KeyParts(sender: u32, msgId: u32)
    ensures ReconKey(sender, msgId) / 0x1_0000_0000 == sender && ReconKey(sender, msgId) % 0x1_0000_0000 == msgId
  {
  }

  lemma KeyInjective(s: u32, m: u32, s': u32, m': u32)
    ensures ReconKey(s, m) == ReconKey(s', m') <==> s == s' && m == m'
  {
  }

  function Opened(r: Receiver, p: Packet): Reconstruction {
    var key := ReconKey(p.sender, p.msgId);
    var msg := if key in r.buffers then r.buffers[key] else Reconstruction(0, 0, []);
    if msg.total == 0 then Reconstruction(p.total, msg.received, NoPackets(p.total)) else msg
  }

  /** What the arrival of a packet does. */
  function Accept(r: Receiver, p: Packet): Receiver {
    var key, msg := ReconKey(p.sender, p.msgId), Opened(r, p);
    if p.index < msg.total && p.index < |msg.packets| && msg.packets[p.index] == [] then
      var filled := Reconstruction(msg.total, msg.received + 1, msg.packets[p.index := p.payload]);
      if filled.received == filled.total then Receiver(r.buffers - {key}, r.completed + [Flatten(filled.packets)])
      else r.(buffers := r.buffers[key := filled])
    else r.(buffers := r.buffers[key := msg])
  }

  /** One end of the transport. */
  class Transport {
    const node: u32
    var nextMsgId: u32
    var buffers: map<nat, Reconstruction>
    var completed: seq<seq<Entry>>

    function State(): Receiver
      reads this
    {
      Receiver(buffers, completed)
    }

    constructor (node: u32)
      ensures this.node == node && nextMsgId == 1 && State() == Receiver(map[], [])
    {
      this.node := node;
      nextMsgId, buffers, completed := 1, map[], [];
    }

    /** The packets of a message; an empty message is not sent. */
    method Send(entries: seq<Entry>) returns (packets: seq<Packet>)
      modifies this`nextMsgId
      ensures entries == [] ==> packets == [] && nextMsgId == old(nextMsgId)
      ensures entries != [] ==> nextMsgId == (old(nextMsgId) + 1) % IDS
      ensures |packets| == TotalPackets(|entries|)
      ensures forall p :: 0 <= p < |packets| ==> packets[p] == PacketOf(node, old(nextMsgId), entries, p)
    {
      packets := [];
      if entries == [] { return; }
      var msgId := nextMsgId;
      nextMsgId := (nextMsgId + 1) % IDS;
      var total := TotalPackets(|entries|);
      for p := 0 to total
        invariant |packets| == p
        invariant forall i :: 0 <= i < p ==> packets[i] == PacketOf(node, msgId, entries, i)
      {
        var start := p * ENTRIES_PER_PACKET;
        var end := Min(start + ENTRIES_PER_PACKET, |entries|);
        packets := packets + [Packet(node, msgId, p, total, entries[start..end])];
      }
    }

    method Receive(p: Packet)
      modifies this`buffers, this`completed
      ensures State() == Accept(old(State()), p)
    {
      var key := ReconKey(p.sender, p.msgId);
      if key !in buffers { buffers := buffers[key := Reconstruction(0, 0, [])]; }
      if buffers[key].total == 0 {
        buffers := buffers[key := Reconstruction(p.total, buffers[key].received, NoPackets(p.total))];
      }
      var msg := buffers[key];
      if p.index < msg.total && p.index < |msg.packets| && msg.packets[p.index] == [] {
        msg := Reconstruction(msg.total, msg.received + 1, msg.packets[p.index := p.payload]);
        buffers := buffers[key := msg];
        if msg.received == msg.total {
          completed := completed + [Flatten(msg.packets)];
          buffers := buffers - {key};
        }
      }
    }

    method ReceiveAll() returns (messages: seq<seq<Entry>>)
      modifies this`completed
      ensures messages == old(completed) && completed == []
    {
      messages := completed;
      completed := [];
    }
  }

  // ----- runs: any sequence of genuine packets

  /** Messages in flight, by sender and message id; ids are unique. */
  type Sent = map<nat, seq<Entry>>

  function KeyOf(p: Packet): nat { ReconKey(p.sender, p.msgId) }

  /** A packet some sender sent: nothing is forged, and parts are unchanged. */
  predicate Genuine(p: Packet, sent: Sent) {
    && KeyOf(p) in sent
    && p.index < TotalPackets(|sent[KeyOf(p)]|)
    && p.total == TotalPackets(|sent[KeyOf(p)]|)
    && p.payload == Fragment(sent[KeyOf(p)], p.index)
  }

  /** Any order, any losses, any repetitions, any interleaving of senders. */
  predicate Arrivals(ps: seq<Packet>, sent: Sent) { forall i :: 0 <= i < |ps| ==> Genuine(ps[i], sent) }

  /** The receiver, and which message each delivery came from. */
  datatype Run = Run(receiver: Receiver, keys: seq<nat>)

  function KeysAfter(x: Run, y: Receiver, packet: Packet): seq<nat> {
    x.keys + if |y.completed| > |x.receiver.completed| then [KeyOf(packet)] else []
  }

  function After(ps: seq<Packet>): Run {
    if ps == [] then Run(Receiver(map[], []), [])
    else
      var before, p := After(ps[..|ps| - 1]), ps[|ps| - 1];
      var r := Accept(before.receiver, p);
      Run(r, KeysAfter(before, r, p))
  }

  /** Number of packets that have arrived in a buffer. */
  function Filled(packets: seq<seq<Entry>>): nat {
    if packets == [] then 0 else Filled(packets[..|packets| - 1]) + if packets[|packets| - 1] != [] then 1 else 0
  }

  lemma {:induction false} FilledBound(packets: seq<seq<Entry>>)
    ensures Filled(packets) <= |packets|
    ensures Filled(packets) == |packets| <==> forall i :: 0 <= i < |packets| ==> packets[i] != []
  {
    if packets != [] { FilledBound(packets[..|packets| - 1]); }
  }

  lemma {:induction false} FillOne(packets: seq<seq<Entry>>, i: nat, payload: seq<Entry>)
    requires i < |packets| && packets[i] == [] && payload != []
    ensures Filled(packets[i := payload]) == Filled(packets) + 1
  {
    var rest, last := packets[..|packets| - 1], packets[|packets| - 1];
    if i == |packets| - 1 {
      assert packets[i := payload][..|packets| - 1] == rest;
    } else {
      assert packets[i := payload][..|packets| - 1] == rest[i := payload];
      FillOne(rest, i, payload);
    }
  }

  lemma {:induction false} NoneFilled(n: nat)
    ensures Filled(NoPackets(n)) == 0
  {
    if n > 0 {
      assert NoPackets(n)[..n - 1] == NoPackets(n - 1);
      NoneFilled(n - 1);
    }
  }

  /** A buffer of a message that is not complete yet. */
  predicate GoodBuffer(msg: Reconstruction, entries: seq<Entry>) {
    && msg.total == TotalPackets(|entries|) == |msg.packets|
    && msg.received == Filled(msg.packets) < msg.total
    && forall i :: 0 <= i < msg.total ==> msg.packets[i] == [] || msg.packets[i] == Fragment(entries, i)
  }

  predicate Has(r: Receiver, key: nat, p: nat) { key in r.buffers && p < |r.buffers[key].packets| && r.buffers[key].packets[p] != [] }

  /** How often a packet arrived. */
  function Seen(ps: seq<Packet>, key: nat, p: nat): nat {
    if ps == [] then 0
    else Seen(ps[..|ps| - 1], key, p) + if KeyOf(ps[|ps| - 1]) == key && ps[|ps| - 1].index == p then 1 else 0
  }

  /** How often a message was delivered. */
  function Delivered(keys: seq<nat>, key: nat): nat {
    if keys == [] then 0 else Delivered(keys[..|keys| - 1], key) + if keys[|keys| - 1] == key then 1 else 0
  }

  // ----- invariants

  ghost predicate Sound(run: Run, sent: Sent) {
    && |run.keys| == |run.receiver.completed|
    && (forall i :: 0 <= i < |run.keys| ==> run.keys[i] in sent && run.receiver.completed[i] == sent[run.keys[i]])
    && (forall key :: key in run.receiver.buffers ==> key in sent && GoodBuffer(run.receiver.buffers[key], sent[key]))
  }

  lemma {:induction false} FlattenFragments(packets: seq<seq<Entry>>, entries: seq<Entry>, n: nat)
    requires n <= |packets| == TotalPackets(|entries|)
    requires forall i :: 0 <= i < |packets| ==> packets[i] == Fragment(entries, i)
    ensures Flatten(packets[..n]) == FirstFragments(entries, n)
  {
    if n > 0 {
      FlattenFragments(packets, entries, n - 1);
      assert packets[..n] == packets[..n - 1] + [packets[n - 1]];
      FlattenSnoc(packets[..n - 1], packets[n - 1]);
    }
  }

  /** A complete set of packets is the message. */
  lemma Reassembled(packets: seq<seq<Entry>>, entries: seq<Entry>)
    requires |packets| == TotalPackets(|entries|)
    requires forall i :: 0 <= i < |packets| ==> packets[i] == Fragment(entries, i)
    ensures Flatten(packets) == entries
  {
    FlattenFragments(packets, entries, |packets|);
    assert packets[..|packets|] == packets;
    AllFragments(entries);
  }

  /** The buffer a genuine packet meets. */
  lemma OpenedBuffer(run: Run, p: Packet, sent: Sent)
    requires Sound(run, sent) && Genuine(p, sent)
    ensures GoodBuffer(Opened(run.receiver, p), sent[KeyOf(p)])
    ensures forall i :: 0 <= i < p.total ==> (Opened(run.receiver, p).packets[i] != [] <==> Has(run.receiver, KeyOf(p), i))
  {
    var key := KeyOf(p);
    if key !in run.receiver.buffers {
      NoneFilled(p.total);
    }
    hide Fragment, Filled;
  }

  /** The buffer after a genuine packet: one more packet, or unchanged. */
  function Filling(msg: Reconstruction, p: Packet): Reconstruction
    requires p.index < |msg.packets|
  {
    Reconstruction(msg.total, msg.received + 1, msg.packets[p.index := p.payload])
  }

  lemma FillingGood(msg: Reconstruction, p: Packet, entries: seq<Entry>)
    requires GoodBuffer(msg, entries) && p.index < msg.total && msg.packets[p.index] == [] && p.payload == Fragment(entries, p.index)
    ensures var f := Filling(msg, p);
            && f.received == Filled(f.packets) && |f.packets| == f.total
            && (forall i :: 0 <= i < f.total ==> f.packets[i] == [] || f.packets[i] == Fragment(entries, i))
            && (f.received != f.total ==> GoodBuffer(f, entries))
            && (f.received == f.total ==> Flatten(f.packets) == entries)
  {
    var f := Filling(msg, p);
    FillOne(msg.packets, p.index, p.payload);
    FilledBound(f.packets);
    hide Fragment, Filled, Flatten;
    if f.received == f.total { Reassembled(f.packets, entries); }
  }

  /** What accepting a packet does, said in terms of its buffer. */
  lemma AcceptIs(r: Receiver, p: Packet, msg: Reconstruction)
    requires msg == Opened(r, p) && p.index < msg.total == |msg.packets|
    ensures msg.packets[p.index] != [] ==> Accept(r, p) == r.(buffers := r.buffers[KeyOf(p) := msg])
    ensures msg.packets[p.index] == [] ==>
      var f := Filling(msg, p);
      Accept(r, p) == if f.received == f.total then Receiver(r.buffers - {KeyOf(p)}, r.completed + [Flatten(f.packets)])
                      else r.(buffers := r.buffers[KeyOf(p) := f])
  {
    hide Opened, ReconKey, Flatten;
  }

  lemma GenuineParts(p: Packet, sent: Sent, msg: Reconstruction)
    requires Genuine(p, sent) && GoodBuffer(msg, sent[KeyOf(p)])
    ensures KeyOf(p) in sent && p.index < msg.total == |msg.packets| == TotalPackets(|sent[KeyOf(p)]|)
    ensures p.payload == Fragment(sent[KeyOf(p)], p.index) && p.payload != []
    ensures Filled(msg.packets) < msg.total
  {
    hide Fragment, Filled;
  }

  predicate Same(x: Receiver, y: Receiver, key: nat) { (key in x.buffers <==> key in y.buffers) && (key in x.buffers ==> x.buffers[key] == y.buffers[key]) }

  /** One arrival: either the message is delivered, or its buffer gains the packet. */
  ghost predicate Arrival(x: Receiver, y: Receiver, p: Packet, entries: seq<Entry>) {
    && (forall key :: key != KeyOf(p) ==> Same(x, y, key))
    && (if |y.completed| > |x.completed| then
          && y.completed == x.completed + [entries] && KeyOf(p) !in y.buffers
          && forall i :: 0 <= i < TotalPackets(|entries|) && i != p.index ==> Has(x, KeyOf(p), i)
        else
          && y.completed == x.completed && KeyOf(p) in y.buffers && GoodBuffer(y.buffers[KeyOf(p)], entries)
          && forall i :: 0 <= i < TotalPackets(|entries|) ==> (Has(y, KeyOf(p), i) <==> Has(x, KeyOf(p), i) || i == p.index))
  }

  lemma {:induction false} CompleteFills(f: Reconstruction)
    requires f.received == Filled(f.packets) == |f.packets|
    ensures forall i :: 0 <= i < |f.packets| ==> f.packets[i] != []
  {
    FilledBound(f.packets);
  }

  lemma StoredArrival(x: Receiver, p: Packet, buffer: Reconstruction, entries: seq<Entry>)
    requires GoodBuffer(buffer, entries)
    requires forall i :: 0 <= i < buffer.total ==> (buffer.packets[i] != [] <==> Has(x, KeyOf(p), i) || i == p.index)
    ensures Arrival(x, x.(buffers := x.buffers[KeyOf(p) := buffer]), p, entries)
  {
    hide Fragment, Filled, KeyOf;
  }

  lemma CompleteArrival(x: Receiver, p: Packet, entries: seq<Entry>)
    requires forall i :: 0 <= i < TotalPackets(|entries|) && i != p.index ==> Has(x, KeyOf(p), i)
    ensures Arrival(x, Receiver(x.buffers - {KeyOf(p)}, x.completed + [entries]), p, entries)
  {
    hide KeyOf, GoodBuffer, TotalPackets;
  }

  lemma FillingHas(x: Receiver, p: Packet, msg: Reconstruction)
    requires p.index < |msg.packets| && p.payload != []
    requires forall i :: 0 <= i < |msg.packets| ==> (msg.packets[i] != [] <==> Has(x, KeyOf(p), i))
    ensures var f := Filling(msg, p);
            |f.packets| == |msg.packets| && forall i :: 0 <= i < |f.packets| ==> (f.packets[i] != [] <==> Has(x, KeyOf(p), i) || i == p.index)
  {
    hide Has, KeyOf;
  }

  lemma AcceptArrival(run: Run, p: Packet, sent: Sent)
    requires Sound(run, sent) && Genuine(p, sent)
    ensures KeyOf(p) in sent && Arrival(run.receiver, Accept(run.receiver, p), p, sent[KeyOf(p)])
  {
    hide *;
    assert KeyOf(p) in sent by { GenuineKey(p, sent); }
    var r, msg, entries := run.receiver, Opened(run.receiver, p), sent[KeyOf(p)];
    OpenedBuffer(run, p, sent);
    GenuineParts(p, sent, msg);
    GenuineKey(p, sent);
    AcceptIs(r, p, msg);
    if msg.packets[p.index] != [] {
      StoredArrival(r, p, msg, entries);
    } else {
      FillingGood(msg, p, entries);
      FillingHas(r, p, msg);
      var f := Filling(msg, p);
      FillingTotal(msg, p);
      if f.received == f.total {
        CompleteFills(f);
        CompleteArrival(r, p, entries);
      } else {
        StoredArrival(r, p, f, entries);
      }
    }
  }

  lemma FillingTotal(msg: Reconstruction, p: Packet)
    requires p.index < |msg.packets|
    ensures Filling(msg, p).total == msg.total
  {
  }

  lemma GenuineKey(p: Packet, sent: Sent)
    requires Genuine(p, sent)
    ensures KeyOf(p) in sent && p.total == TotalPackets(|sent[KeyOf(p)]|)
  {
  }

  lemma SoundNext(run: Run, p: Packet, sent: Sent)
    requires Sound(run, sent) && Genuine(p, sent)
    ensures var r := Accept(run.receiver, p);
            Sound(Run(r, KeysAfter(run, r, p)), sent)
  {
    var r := Accept(run.receiver, p);
    AcceptArrival(run, p, sent);
    hide Accept, GoodBuffer, Genuine, KeyOf;
    forall key | key in r.buffers ensures key in sent && GoodBuffer(r.buffers[key], sent[key]) {
      if key != KeyOf(p) { assert Same(run.receiver, r, key); }
    }
  }

  lemma SoundAfter(ps: seq<Packet>, sent: Sent)
    requires Arrivals(ps, sent)
    ensures Sound(After(ps), sent)
    decreases |ps|
  {
    if ps != [] {
      assert Genuine(ps[|ps| - 1], sent);
      SoundAfter(ps[..|ps| - 1], sent);
      hide Sound, Accept, Genuine;
      SoundNext(After(ps[..|ps| - 1]), ps[|ps| - 1], sent);
    }
  }

  /** Safety: every reassembled message equals a sent one, entry for entry. */
  lemma OnlySentMessages(ps: seq<Packet>, sent: Sent)
    requires Arrivals(ps, sent)
    ensures forall i :: 0 <= i < |After(ps).receiver.completed| ==>
      exists key :: key in sent && After(ps).receiver.completed[i] == sent[key]
  {
    SoundAfter(ps, sent);
    var run := After(ps);
    hide After, GoodBuffer;
    forall i | 0 <= i < |run.receiver.completed| ensures exists key :: key in sent && run.receiver.completed[i] == sent[key] {
      assert run.keys[i] in sent;
    }
  }

  // ----- delivery

  /** Since a moment at which the message had no buffer and `base` deliveries: each
      delivery uses up one arrival of every packet, and without a delivery every
      packet that arrived is in the buffer. */
  ghost predicate Counted(run: Run, ps: seq<Packet>, key: nat, total: nat, base: nat) {
    && Delivered(run.keys, key) >= base
    && forall p :: 0 <= p < total ==>
         && Delivered(run.keys, key) + (if Has(run.receiver, key, p) then 1 else 0) <= base + Seen(ps, key, p)
         && (Delivered(run.keys, key) == base && Seen(ps, key, p) > 0 ==> Has(run.receiver, key, p))
  }

  lemma SeenNext(ps: seq<Packet>, key: nat, p: nat)
    requires ps != []
    ensures Seen(ps, key, p) == Seen(ps[..|ps| - 1], key, p) + if KeyOf(ps[|ps| - 1]) == key && ps[|ps| - 1].index == p then 1 else 0
  {
  }

  lemma DeliveredNext(keys: seq<nat>, more: nat, key: nat)
    ensures Delivered(keys + [more], key) == Delivered(keys, key) + if more == key then 1 else 0
  {
    assert (keys + [more])[..|keys + [more]| - 1] == keys;
  }

  lemma SameHas(x: Receiver, y: Receiver, key: nat, p: nat)
    requires Same(x, y, key)
    ensures Has(x, key, p) == Has(y, key, p)
  {
  }

  lemma OtherDelivered(x: Run, y: Receiver, packet: Packet, key: nat)
    requires key != KeyOf(packet)
    ensures Delivered(KeysAfter(x, y, packet), key) == Delivered(x.keys, key)
  {
    DeliveredNext(x.keys, KeyOf(packet), key);
    hide Delivered, KeyOf;
    assert x.keys + [] == x.keys;
  }

  lemma OtherKey(x: Run, y: Receiver, packet: Packet, key: nat, ps: seq<Packet>, entries: seq<Entry>, total: nat, base: nat)
    requires key != KeyOf(packet) && ps != [] && packet == ps[|ps| - 1]
    requires Arrival(x.receiver, y, packet, entries) && Counted(x, ps[..|ps| - 1], key, total, base)
    ensures Counted(Run(y, KeysAfter(x, y, packet)), ps, key, total, base)
  {
    assert Same(x.receiver, y, key);
    hide Same, Arrival, Delivered, Seen, Has, KeyOf, KeysAfter;
    OtherDelivered(x, y, packet, key);
    forall p | 0 <= p < total
      ensures Seen(ps, key, p) == Seen(ps[..|ps| - 1], key, p) && Has(y, key, p) == Has(x.receiver, key, p)
    {
      SeenNext(ps, key, p);
      SameHas(x.receiver, y, key, p);
    }
  }

  lemma NoBuffer(y: Receiver, key: nat, p: nat)
    requires key !in y.buffers
    ensures !Has(y, key, p)
  {
  }

  /** The packet's own message: delivered once more, or one packet richer. */
  lemma ThisKey(x: Run, y: Receiver, packet: Packet, ps: seq<Packet>, entries: seq<Entry>, base: nat)
    requires ps != [] && packet == ps[|ps| - 1]
    requires Arrival(x.receiver, y, packet, entries) && Counted(x, ps[..|ps| - 1], KeyOf(packet), TotalPackets(|entries|), base)
    ensures Counted(Run(y, KeysAfter(x, y, packet)), ps, KeyOf(packet), TotalPackets(|entries|), base)
  {
    var key := KeyOf(packet);
    DeliveredNext(x.keys, key, key);
    assert x.keys + [] == x.keys;
    hide Delivered, GoodBuffer, KeyOf, Seen, Has, TotalPackets;
    forall p | 0 <= p < TotalPackets(|entries|)
      ensures Seen(ps, key, p) == Seen(ps[..|ps| - 1], key, p) + if packet.index == p then 1 else 0
      ensures key !in y.buffers ==> !Has(y, key, p)
    {
      SeenNext(ps, key, p);
      if key !in y.buffers { NoBuffer(y, key, p); }
    }
  }

  lemma ArrivalsSplit(x: seq<Packet>, y: seq<Packet>, sent: Sent)
    ensures Arrivals(x + y, sent) <==> Arrivals(x, sent) && Arrivals(y, sent)
  {
    hide Genuine;
    assert forall i :: 0 <= i < |x| ==> (x + y)[i] == x[i];
    assert forall i :: 0 <= i < |y| ==> (x + y)[|x| + i] == y[i];
  }

  lemma AfterSnoc(ps: seq<Packet>, p: Packet)
    ensures var r := Accept(After(ps).receiver, p); After(ps + [p]) == Run(r, KeysAfter(After(ps), r, p))
  {
    assert (ps + [p])[..|ps + [p]| - 1] == ps;
    hide Accept, KeysAfter;
  }

  lemma LastArrival(ps: seq<Packet>, sent: Sent)
    requires ps != [] && Arrivals(ps, sent)
    ensures Genuine(ps[|ps| - 1], sent) && KeyOf(ps[|ps| - 1]) in sent && ps == ps[..|ps| - 1] + [ps[|ps| - 1]]
  {
  }

  lemma NothingCounted(run: Run, key: nat, total: nat)
    requires key !in run.receiver.buffers
    ensures Counted(run, [], key, total, Delivered(run.keys, key))
  {
    hide Delivered;
  }

  /** Counting from any moment at which the message has no buffer. */
  lemma {:induction false} CountedFrom(before: seq<Packet>, more: seq<Packet>, sent: Sent, key: nat)
    requires Arrivals(before + more, sent) && key in sent && key !in After(before).receiver.buffers
    ensures Counted(After(before + more), more, key, TotalPackets(|sent[key]|), Delivered(After(before).keys, key))
    decreases |more|
  {
    hide *;
    var total, base := TotalPackets(|sent[key]|), Delivered(After(before).keys, key);
    if more == [] {
      assert before + more == before;
      NothingCounted(After(before), key, total);
    } else {
      ArrivalsSplit(before, more, sent);
      LastArrival(more, sent);
      var rest, p := more[..|more| - 1], more[|more| - 1];
      var ps := before + rest;
      assert ps + [p] == before + more;
      ArrivalsSplit(ps, [p], sent);
      CountedFrom(before, rest, sent, key);
      SoundAfter(ps, sent);
      AcceptArrival(After(ps), p, sent);
      AfterSnoc(ps, p);
      var r := Accept(After(ps).receiver, p);
      if key == KeyOf(p) {
        ThisKey(After(ps), r, p, more, sent[key], base);
      } else {
        OtherKey(After(ps), r, p, key, more, sent[KeyOf(p)], total, base);
      }
    }
  }

  lemma NothingYet(key: nat)
    ensures Delivered(After([]).keys, key) == 0 && key !in After([]).receiver.buffers
  {
  }

  lemma CountedAfter(ps: seq<Packet>, sent: Sent, key: nat)
    requires Arrivals(ps, sent) && key in sent
    ensures Counted(After(ps), ps, key, TotalPackets(|sent[key]|), 0)
  {
    hide *;
    NothingYet(key);
    assert [] + ps == ps;
    CountedFrom([], ps, sent, key);
  }

  /** A buffer always misses some packet: complete ones are delivered at once. */
  lemma SomeMissing(run: Run, sent: Sent, key: nat)
    requires Sound(run, sent) && key in sent && sent[key] != []
    ensures exists p :: 0 <= p < TotalPackets(|sent[key]|) && !Has(run.receiver, key, p)
  {
    if key in run.receiver.buffers {
      var packets := run.receiver.buffers[key].packets;
      FilledBound(packets);
      var i :| 0 <= i < |packets| && packets[i] == [];
      assert !Has(run.receiver, key, i);
    } else {
      assert !Has(run.receiver, key, 0);
    }
  }

  /** Delivery: a message all of whose packets arrive is delivered. */
  lemma AllArriveDelivered(ps: seq<Packet>, sent: Sent, key: nat)
    requires Arrivals(ps, sent) && key in sent && sent[key] != []
    requires forall p :: 0 <= p < TotalPackets(|sent[key]|) ==> Seen(ps, key, p) > 0
    ensures Delivered(After(ps).keys, key) > 0
    ensures exists i :: 0 <= i < |After(ps).keys| && After(ps).keys[i] == key && i < |After(ps).receiver.completed|
                        && After(ps).receiver.completed[i] == sent[key]
  {
    CountedAfter(ps, sent, key);
    SoundAfter(ps, sent);
    var run := After(ps);
    hide After, Seen, Delivered, Has, GoodBuffer, TotalPackets, Arrivals;
    SomeMissing(run, sent, key);
    assert Delivered(run.keys, key) > 0;
    DeliveredSomewhere(run.keys, key);
    var i :| 0 <= i < |run.keys| && run.keys[i] == key;
    assert run.receiver.completed[i] == sent[key];
  }

  lemma {:induction false} DeliveredSomewhere(keys: seq<nat>, key: nat)
    requires Delivered(keys, key) > 0
    ensures exists i :: 0 <= i < |keys| && keys[i] == key
  {
    if keys[|keys| - 1] != key {
      DeliveredSomewhere(keys[..|keys| - 1], key);
      var i :| 0 <= i < |keys[..|keys| - 1]| && keys[..|keys| - 1][i] == key;
      assert keys[i] == key;
    }
  }

  /** A message is delivered at most as often as any one of its packets arrives:
      without duplicates of some packet, at most once. */
  lemma AtMostAsOftenAsAPacket(ps: seq<Packet>, sent: Sent, key: nat, p: nat)
    requires Arrivals(ps, sent) && key in sent && p < TotalPackets(|sent[key]|)
    ensures Delivered(After(ps).keys, key) <= Seen(ps, key, p)
  {
    CountedAfter(ps, sent, key);
    hide After, Seen, Delivered, Has;
  }

  // ----- how often, exactly

  /** Every packet of the message occurs. */
  predicate Covers(ps: seq<Packet>, key: nat, total: nat) { forall p :: 0 <= p < total ==> Seen(ps, key, p) > 0 }

  /** From a moment without a buffer, the message is delivered again if and only if
      all of its packets arrive again. */
  lemma DeliveredAgainIff(before: seq<Packet>, more: seq<Packet>, sent: Sent, key: nat)
    requires Arrivals(before + more, sent) && key in sent && sent[key] != [] && key !in After(before).receiver.buffers
    ensures Delivered(After(before + more).keys, key) >= Delivered(After(before).keys, key)
    ensures Delivered(After(before + more).keys, key) > Delivered(After(before).keys, key)
            <==> Covers(more, key, TotalPackets(|sent[key]|))
  {
    CountedFrom(before, more, sent, key);
    SoundAfter(before + more, sent);
    assert 0 < TotalPackets(|sent[key]|);
    hide After, Seen, Delivered, Has, Sound, TotalPackets, Arrivals;
    SomeMissing(After(before + more), sent, key);
  }

  /** One packet delivers at most once, and leaves no buffer when it does. */
  lemma OneAtATime(ps: seq<Packet>, p: Packet, sent: Sent, key: nat)
    requires Arrivals(ps + [p], sent)
    ensures var d, d' := Delivered(After(ps).keys, key), Delivered(After(ps + [p]).keys, key);
            d' == d || (d' == d + 1 && KeyOf(p) == key && key !in After(ps + [p]).receiver.buffers)
  {
    ArrivalsSplit(ps, [p], sent);
    assert Genuine([p][0], sent);
    hide After, Accept, Arrivals, Delivered, KeyOf, Sound, Genuine, GoodBuffer, Has;
    SoundAfter(ps, sent);
    AcceptArrival(After(ps), p, sent);
    AfterSnoc(ps, p);
    DeliveredNext(After(ps).keys, KeyOf(p), key);
    assert After(ps).keys + [] == After(ps).keys;
  }

  /** Length of the shortest beginning in which every packet occurs. */
  function FirstRound(ps: seq<Packet>, key: nat, total: nat): (n: nat)
    requires Covers(ps, key, total)
    ensures n <= |ps| && Covers(ps[..n], key, total)
    ensures n > 0 ==> !Covers(ps[..n - 1], key, total)
  {
    if ps != [] && Covers(ps[..|ps| - 1], key, total) then
      var n := FirstRound(ps[..|ps| - 1], key, total);
      assert ps[..|ps| - 1][..n] == ps[..n];
      assert n > 0 ==> ps[..|ps| - 1][..n - 1] == ps[..n - 1];
      n
    else
      assert ps[..|ps|] == ps;
      |ps|
  }

  lemma RoundNotEmpty(ps: seq<Packet>, key: nat, total: nat)
    requires total > 0 && Covers(ps, key, total)
    ensures FirstRound(ps, key, total) > 0
  {
    assert ps[..0] == [];
    NothingCovered(key, total);
    hide Covers, FirstRound;
  }

  lemma NothingCovered(key: nat, total: nat)
    requires total > 0
    ensures !Covers([], key, total)
  {
    assert Seen([], key, 0) == 0;
  }

  /** Complete rounds in a row: how often one can cut off a shortest beginning in
      which every packet of the message occurs. */
  function Rounds(ps: seq<Packet>, key: nat, total: nat): nat
    requires total > 0
    decreases |ps|
  {
    if !Covers(ps, key, total) then 0
    else
      RoundNotEmpty(ps, key, total);
      1 + Rounds(ps[FirstRound(ps, key, total)..], key, total)
  }

  lemma SomePackets(entries: seq<Entry>)
    requires entries != []
    ensures TotalPackets(|entries|) > 0
  {
  }

  lemma RoundsIs(ps: seq<Packet>, key: nat, total: nat)
    requires total > 0
    ensures !Covers(ps, key, total) ==> Rounds(ps, key, total) == 0
    ensures Covers(ps, key, total) ==>
      0 < FirstRound(ps, key, total) <= |ps| && Rounds(ps, key, total) == 1 + Rounds(ps[FirstRound(ps, key, total)..], key, total)
  {
    hide Covers, FirstRound;
    if Covers(ps, key, total) { RoundNotEmpty(ps, key, total); }
  }

  /** The first round ends with a delivery. */
  lemma FirstRoundDelivers(before: seq<Packet>, ps: seq<Packet>, sent: Sent, key: nat)
    requires Arrivals(before + ps, sent) && key in sent && sent[key] != [] && key !in After(before).receiver.buffers
    requires Covers(ps, key, TotalPackets(|sent[key]|))
    ensures var now := before + ps[..FirstRound(ps, key, TotalPackets(|sent[key]|))];
            && Arrivals(now, sent) && key !in After(now).receiver.buffers
            && Delivered(After(now).keys, key) == Delivered(After(before).keys, key) + 1
  {
    var total := TotalPackets(|sent[key]|);
    assert total > 0;
    hide *;
    RoundNotEmpty(ps, key, total);
    var n := FirstRound(ps, key, total);
    var early, p := before + ps[..n - 1], ps[n - 1];
    assert early + [p] == before + ps[..n] && (before + ps[..n]) + ps[n..] == before + ps;
    ArrivalsSplit(before + ps[..n], ps[n..], sent);
    ArrivalsSplit(early, [p], sent);
    DeliveredAgainIff(before, ps[..n - 1], sent, key);
    DeliveredAgainIff(before, ps[..n], sent, key);
    OneAtATime(early, p, sent, key);
  }

  /** How often a message is delivered: once for every complete round of its
      packets, for every message length and every order of arrival. */
  lemma {:induction false} DeliveredIsRounds(before: seq<Packet>, ps: seq<Packet>, sent: Sent, key: nat)
    requires Arrivals(before + ps, sent) && key in sent && sent[key] != [] && key !in After(before).receiver.buffers
    ensures TotalPackets(|sent[key]|) > 0
    ensures Delivered(After(before + ps).keys, key)
            == Delivered(After(before).keys, key) + Rounds(ps, key, TotalPackets(|sent[key]|))
    decreases |ps|
  {
    hide *;
    SomePackets(sent[key]);
    var total := TotalPackets(|sent[key]|);
    RoundsIs(ps, key, total);
    if Covers(ps, key, total) {
      var n := FirstRound(ps, key, total);
      FirstRoundDelivers(before, ps, sent, key);
      assert (before + ps[..n]) + ps[n..] == before + ps;
      DeliveredIsRounds(before + ps[..n], ps[n..], sent, key);
    } else {
      DeliveredAgainIff(before, ps, sent, key);
    }
  }

  /** Over a whole run: deliveries are the complete rounds. */
  lemma DeliveriesAreRounds(ps: seq<Packet>, sent: Sent, key: nat)
    requires Arrivals(ps, sent) && key in sent && sent[key] != []
    ensures TotalPackets(|sent[key]|) > 0
    ensures Delivered(After(ps).keys, key) == Rounds(ps, key, TotalPackets(|sent[key]|))
  {
    hide *;
    NothingYet(key);
    assert [] + ps == ps;
    DeliveredIsRounds([], ps, sent, key);
  }

  /** Exactly once, exactly: all packets arrive, and what arrives after the packet
      that completes the message misses one of its packets. */
  lemma ExactlyOnceIff(ps: seq<Packet>, sent: Sent, key: nat)
    requires Arrivals(ps, sent) && key in sent && sent[key] != []
    ensures var total := TotalPackets(|sent[key]|);
            Delivered(After(ps).keys, key) == 1
            <==> Covers(ps, key, total) && !Covers(ps[FirstRound(ps, key, total)..], key, total)
  {
    DeliveriesAreRounds(ps, sent, key);
    hide After, Arrivals, Delivered, Covers, FirstRound, TotalPackets;
  }

  /** Without further packets of a message there is no further delivery of it. */
  lemma NothingMore(ps: seq<Packet>, more: seq<Packet>, sent: Sent, key: nat)
    requires Arrivals(ps + more, sent) && key in sent
    requires forall i :: 0 <= i < |more| ==> KeyOf(more[i]) != key
    ensures Delivered(After(ps + more).keys, key) == Delivered(After(ps).keys, key)
    decreases |more|
  {
    if more == [] {
      assert ps + more == ps;
    } else {
      var rest, last := more[..|more| - 1], more[|more| - 1];
      assert (ps + rest) + [last] == ps + more;
      assert KeyOf(last) != key;
      hide Delivered, Accept, Genuine, KeyOf, After, Arrivals, KeysAfter;
      ArrivalsSplit(ps + rest, [last], sent);
      NothingMore(ps, rest, sent, key);
      AfterSnoc(ps + rest, last);
      OtherDelivered(After(ps + rest), Accept(After(ps + rest).receiver, last), last, key);
    }
  }

  /** Delivered exactly once when no packet of the message reappears after the
      packet that completes it, however often packets were repeated before. */
  lemma ExactlyOnce(before: seq<Packet>, p: Packet, more: seq<Packet>, sent: Sent, key: nat)
    requires Arrivals(before + [p] + more, sent) && key in sent
    requires Delivered(After(before).keys, key) == 0 && Delivered(After(before + [p]).keys, key) > 0
    requires forall i :: 0 <= i < |more| ==> KeyOf(more[i]) != key
    ensures Delivered(After(before + [p] + more).keys, key) == 1
  {
    hide *;
    ArrivalsSplit(before + [p], more, sent);
    OneAtATime(before, p, sent, key);
    NothingMore(before + [p], more, sent, key);
  }

  /** After the packet that completes a message, copies open a new round: it is
      delivered again if and only if every one of its packets arrives again. */
  lemma LateCopyDeliversAgain(before: seq<Packet>, p: Packet, more: seq<Packet>, sent: Sent, key: nat)
    requires Arrivals(before + [p] + more, sent) && key in sent && sent[key] != []
    requires Delivered(After(before + [p]).keys, key) > Delivered(After(before).keys, key)
    ensures Delivered(After(before + [p] + more).keys, key) > Delivered(After(before + [p]).keys, key)
            <==> Covers(more, key, TotalPackets(|sent[key]|))
  {
    hide *;
    ArrivalsSplit(before + [p], more, sent);
    OneAtATime(before, p, sent, key);
    DeliveredAgainIff(before + [p], more, sent, key);
  }

  // ----- several senders at once

  lemma KeysApart()
    ensures forall s: u32, m: u32, s': u32, m': u32 :: ReconKey(s, m) == ReconKey(s', m') ==> s == s' && m == m'
  {
    forall s: u32, m: u32, s': u32, m': u32 | ReconKey(s, m) == ReconKey(s', m') ensures s == s' && m == m' {
      KeyInjective(s, m, s', m');
    }
  }

  /** The messages of all senders by the receiver's key; no two share one. */
  function SentBy(messages: map<(u32, u32), seq<Entry>>): Sent {
    KeysApart();
    map id | id in messages :: ReconKey(id.0, id.1) := messages[id]
  }

  /** Every packet a sender makes of its message is genuine, whatever the others send. */
  lemma SentAreGenuine(messages: map<(u32, u32), seq<Entry>>, sender: u32, msgId: u32, p: nat)
    requires (sender, msgId) in messages && p < TotalPackets(|messages[(sender, msgId)]|)
    ensures Genuine(PacketOf(sender, msgId, messages[(sender, msgId)], p), SentBy(messages))
  {
    KeysApart();
    var id := (sender, msgId);
    assert ReconKey(id.0, id.1) in SentBy(messages);
    hide Fragment;
  }

  // ----- any packets at all, also forged, cut or contradictory ones

  /** Whatever arrives, a buffer has as many slots as its total and misses a packet. */
  lemma {:induction false} AnyArrivals(ps: seq<Packet>, key: nat)
    requires key in After(ps).receiver.buffers
    ensures var msg := After(ps).receiver.buffers[key];
            msg.total == |msg.packets| && (msg.received < msg.total || msg.total == msg.received == 0)
  {
    var rest, p := ps[..|ps| - 1], ps[|ps| - 1];
    if key in After(rest).receiver.buffers { AnyArrivals(rest, key); }
    hide Flatten, ReconKey;
  }

  lemma AcceptFills(x: Receiver, p: Packet, msg: Reconstruction)
    requires Opened(x, p) == msg && p.index < msg.total == |msg.packets| && msg.packets[p.index] == []
    ensures var filled := msg.packets[p.index := p.payload];
            Accept(x, p) == if msg.received + 1 == msg.total then Receiver(x.buffers - {KeyOf(p)}, x.completed + [Flatten(filled)])
                            else Receiver(x.buffers[KeyOf(p) := Reconstruction(msg.total, msg.received + 1, filled)], x.completed)
  {
    hide Flatten, Opened;
  }

  lemma KeyIs(p: Packet)
    ensures KeyOf(p) == p.sender * 0x1_0000_0000 + p.msgId
  {
  }

  lemma OpenBuffer(x: Receiver, p: Packet)
    requires KeyOf(p) in x.buffers && x.buffers[KeyOf(p)].total == |x.buffers[KeyOf(p)].packets| > 0
    ensures var msg := x.buffers[KeyOf(p)];
            Opened(x, p) == msg && (p.index >= msg.total || msg.packets[p.index] != [] ==> Accept(x, p) == x)
  {
    hide Flatten;
  }

  /** Whatever has arrived, a packet that fits no empty slot of an open buffer changes
      nothing; one that does fills it, and delivers the slots' entries, in order,
      exactly when it was the last one missing. */
  lemma NextPacket(ps: seq<Packet>, p: Packet)
    requires KeyOf(p) in After(ps).receiver.buffers && After(ps).receiver.buffers[KeyOf(p)].total > 0
    ensures var x, y, key := After(ps).receiver, After(ps + [p]).receiver, p.sender * 0x1_0000_0000 + p.msgId;
            var msg := x.buffers[KeyOf(p)];
            && |msg.packets| == msg.total && key == KeyOf(p)
            && (p.index >= msg.total || msg.packets[p.index] != [] ==> y == x)
            && (p.index < msg.total && msg.packets[p.index] == [] ==>
                  var filled := msg.packets[p.index := p.payload];
                  if msg.received + 1 < msg.total
                  then y == Receiver(x.buffers[key := Reconstruction(msg.total, msg.received + 1, filled)], x.completed)
                  else y == Receiver(x.buffers - {key}, x.completed + [Flatten(filled)]))
  {
    hide *;
    var x, msg := After(ps).receiver, After(ps).receiver.buffers[KeyOf(p)];
    AnyArrivals(ps, KeyOf(p));
    AfterSnoc(ps, p);
    KeyIs(p);
    OpenBuffer(x, p);
    if p.index < msg.total && msg.packets[p.index] == [] { AcceptFills(x, p, msg); }
  }

  lemma FreshBuffer(x: Receiver, p: Packet)
    requires KeyOf(p) !in x.buffers && p.index < p.total
    ensures Opened(x, p) == Reconstruction(p.total, 0, NoPackets(p.total)) && |NoPackets(p.total)| == p.total
    ensures NoPackets(p.total)[p.index] == [] && x.buffers - {KeyOf(p)} == x.buffers
  {
  }

  lemma OnePacket(payload: seq<Entry>)
    ensures |NoPackets(1)| == 1 && Flatten(NoPackets(1)[0 := payload]) == payload
  {
    assert NoPackets(1)[0 := payload] == [] + [payload];
    FlattenSnoc([], payload);
    hide NoPackets;
    assert Flatten([]) == [];
  }

  /** The first packet of a message opens a buffer with as many slots as it says, whatever
      else has arrived, and fills its own slot; an only packet is delivered at once. */
  lemma FirstPacket(ps: seq<Packet>, p: Packet)
    requires KeyOf(p) !in After(ps).receiver.buffers && p.index < p.total
    ensures var x, y, msg := After(ps).receiver, After(ps + [p]).receiver, Reconstruction(p.total, 1, NoPackets(p.total)[p.index := p.payload]);
            y == if p.total == 1 then Receiver(x.buffers, x.completed + [p.payload]) else Receiver(x.buffers[KeyOf(p) := msg], x.completed)
  {
    AfterSnoc(ps, p);
    hide After, Accept, NoPackets, KeyOf, Flatten, Opened;
    FreshBuffer(After(ps).receiver, p);
    AcceptFills(After(ps).receiver, p, Reconstruction(p.total, 0, NoPackets(p.total)));
    OnePacket(p.payload);
  }
}
