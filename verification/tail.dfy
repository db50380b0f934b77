/** The tail payload of a block: the number of strings, n + 1 offsets, the
    NUL-terminated strings, and padding to a multiple of 64 bytes. */
module TailPayload {
  import opened Words
  import opened Storage

  function Offset(strings: seq<Str>, i: nat): nat
    requires i <= |strings|
  {
    if i == 0 then 0 else Offset(strings, i - 1) + |strings[i - 1]| + 1
  }

  function OffsetBytes(strings: seq<Str>, k: nat): seq<byte>
    requires k <= |strings| + 1
  {
    if k == 0 then [] else OffsetBytes(strings, k - 1) + Encode(Offset(strings, k - 1), 8)
  }

  function Payload(strings: seq<Str>, k: nat): seq<byte>
    requires k <= |strings|
  {
    if k == 0 then [] else Payload(strings, k - 1) + strings[k - 1] + [0]
  }

  function MetadataSize(n: nat): nat { 8 + (n + 1) * 8 }

  function TailSize(strings: seq<Str>): nat {
    MetadataSize(|strings|) + Offset(strings, |strings|)
  }

  function Assembled(n: nat, table: seq<byte>, payload: seq<byte>, size: nat): seq<byte> {
    Encode(n, 8) + table + payload + Zeros(Padding(size))
  }

  function TailOf(strings: seq<Str>): seq<byte> {
    if strings == [] then []
    else Assembled(|strings|, OffsetBytes(strings, |strings| + 1), Payload(strings, |strings|), TailSize(strings))
  }

  // ----- reading

  function ReadU64(tail: seq<byte>, pos: nat): nat
    requires pos + 8 <= |tail|
  {
    Decode(tail[pos..pos + 8])
  }

  /** String number idx lies inside the tail. */
  predicate Readable(tail: seq<byte>, idx: nat) {
    && 8 * idx + 24 <= |tail|
    && var data := MetadataSize(ReadU64(tail, 0));
    && var start, end := ReadU64(tail, 8 + 8 * idx), ReadU64(tail, 16 + 8 * idx);
    && start < end && data + end <= |tail|
  }

  function DataStart(tail: seq<byte>): nat
    requires 8 <= |tail|
  {
    MetadataSize(ReadU64(tail, 0))
  }

  function ReadString(tail: seq<byte>, idx: nat): Str
    requires Readable(tail, idx)
  {
    var start, end := ReadU64(tail, 8 + 8 * idx), ReadU64(tail, 16 + 8 * idx);
    tail[DataStart(tail) + start..DataStart(tail) + end - 1]
  }

  // ----- reading what was written

  lemma {:induction false} OffsetBytesSize(strings: seq<Str>, k: nat)
    requires k <= |strings| + 1
    ensures |OffsetBytes(strings, k)| == 8 * k
  {
    if k > 0 { OffsetBytesSize(strings, k - 1); }
  }

  lemma {:induction false} OffsetBytesAt(strings: seq<Str>, k: nat, i: nat)
    requires i < k <= |strings| + 1
    ensures |OffsetBytes(strings, k)| == 8 * k
    ensures OffsetBytes(strings, k)[8 * i..8 * i + 8] == Encode(Offset(strings, i), 8)
  {
    OffsetBytesSize(strings, k);
    OffsetBytesSize(strings, k - 1);
    var rest := OffsetBytes(strings, k - 1);
    if i < k - 1 {
      OffsetBytesAt(strings, k - 1, i);
      assert OffsetBytes(strings, k)[8 * i..8 * i + 8] == rest[8 * i..8 * i + 8];
    }
  }

  lemma {:induction false} PayloadSize(strings: seq<Str>, k: nat)
    requires k <= |strings|
    ensures |Payload(strings, k)| == Offset(strings, k)
  {
    if k > 0 { PayloadSize(strings, k - 1); }
  }

  lemma {:induction false} OffsetMonotone(strings: seq<Str>, i: nat, k: nat)
    requires i <= k <= |strings|
    ensures Offset(strings, i) <= Offset(strings, k)
  {
    if i < k { OffsetMonotone(strings, i, k - 1); }
  }

  lemma {:induction false} PayloadAt(strings: seq<Str>, k: nat, i: nat)
    requires i < k <= |strings|
    ensures Offset(strings, i) + |strings[i]| < |Payload(strings, k)|
    ensures Payload(strings, k)[Offset(strings, i)..Offset(strings, i) + |strings[i]|] == strings[i]
  {
    PayloadSize(strings, k);
    PayloadSize(strings, k - 1);
    var o := Offset(strings, i);
    var rest := Payload(strings, k - 1);
    if i < k - 1 {
      PayloadAt(strings, k - 1, i);
      assert Payload(strings, k)[o..o + |strings[i]|] == rest[o..o + |strings[i]|];
    }
  }

  lemma Parts(head: seq<byte>, table: seq<byte>, payload: seq<byte>, pad: seq<byte>)
    ensures var s := head + table + payload + pad;
            && s[0..|head|] == head
            && s[|head|..|head| + |table|] == table
            && s[|head| + |table|..|head| + |table| + |payload|] == payload
  {
  }

  lemma TailParts(strings: seq<Str>)
    requires strings != [] && TailSize(strings) < TWO_64
    ensures |TailOf(strings)| == TailSize(strings) + Padding(TailSize(strings))
    ensures ReadU64(TailOf(strings), 0) == |strings|
    ensures TailOf(strings)[MetadataSize(|strings|)..TailSize(strings)] == Payload(strings, |strings|)
    ensures TailOf(strings)[8..MetadataSize(|strings|)] == OffsetBytes(strings, |strings| + 1)
  {
    var n := |strings|;
    OffsetBytesSize(strings, n + 1);
    PayloadSize(strings, n);
    Pow256Of8();
    DecodeEncode(n, 8);
    Parts(Encode(n, 8), OffsetBytes(strings, n + 1), Payload(strings, n), Zeros(Padding(TailSize(strings))));
  }

  lemma SubSlice(s: seq<byte>, a: nat, b: nat, c: nat, d: nat)
    requires a <= b <= |s| && c <= d <= b - a
    ensures s[a..b][c..d] == s[a + c..a + d]
  {
    var x, y := s[a..b][c..d], s[a + c..a + d];
    forall k | 0 <= k < d - c ensures x[k] == y[k] { assert s[a..b][c + k] == s[a + c + k]; }
  }

  /** The offset table of a tail with the given table bytes. */
  lemma ReadOffset(tail: seq<byte>, strings: seq<Str>, i: nat)
    requires TailSize(strings) < TWO_64 && i <= |strings|
    requires |tail| >= MetadataSize(|strings|)
    requires tail[8..MetadataSize(|strings|)] == OffsetBytes(strings, |strings| + 1)
    ensures ReadU64(tail, 8 + 8 * i) == Offset(strings, i)
  {
    Pow256Of8();
    hide OffsetBytes, Offset, Encode, Decode, Pow256;
    OffsetBytesAt(strings, |strings| + 1, i);
    OffsetMonotone(strings, i, |strings|);
    DecodeEncode(Offset(strings, i), 8);
    SubSlice(tail, 8, MetadataSize(|strings|), 8 * i, 8 * i + 8);
  }

  lemma PayloadOf(tail: seq<byte>, strings: seq<Str>, i: nat)
    requires i < |strings| && |tail| >= TailSize(strings)
    requires tail[MetadataSize(|strings|)..TailSize(strings)] == Payload(strings, |strings|)
    ensures var start := MetadataSize(|strings|) + Offset(strings, i);
            && start + |strings[i]| + 1 <= |tail|
            && tail[start..start + |strings[i]|] == strings[i]
  {
    hide Payload, Offset;
    PayloadSize(strings, |strings|);
    PayloadAt(strings, |strings|, i);
    SubSlice(tail, MetadataSize(|strings|), TailSize(strings), Offset(strings, i), Offset(strings, i) + |strings[i]|);
  }

  lemma ReadableWhen(tail: seq<byte>, idx: nat, n: nat, start: nat, end: nat)
    requires 8 * idx + 24 <= |tail| && ReadU64(tail, 0) == n
    requires ReadU64(tail, 8 + 8 * idx) == start && ReadU64(tail, 16 + 8 * idx) == end
    requires start < end && MetadataSize(n) + end <= |tail|
    ensures Readable(tail, idx) && ReadString(tail, idx) == tail[MetadataSize(n) + start..MetadataSize(n) + end - 1]
  {
    hide ReadU64;
  }

  lemma LastOffset(strings: seq<Str>, idx: nat)
    requires idx < |strings|
    ensures Offset(strings, idx + 1) == Offset(strings, idx) + |strings[idx]| + 1
    ensures MetadataSize(|strings|) + Offset(strings, idx + 1) <= TailSize(strings)
    ensures 8 * idx + 24 <= MetadataSize(|strings|)
  {
    OffsetMonotone(strings, idx + 1, |strings|);
  }

  /** Every string is read back exactly as written. */
  lemma ReadBack(strings: seq<Str>, idx: nat)
    requires idx < |strings| && TailSize(strings) < TWO_64
    ensures Readable(TailOf(strings), idx)
    ensures ReadString(TailOf(strings), idx) == strings[idx]
  {
    hide *;
    TailParts(strings);
    var tail := TailOf(strings);
    LastOffset(strings, idx);
    ReadOffset(tail, strings, idx);
    ReadOffset(tail, strings, idx + 1);
    PayloadOf(tail, strings, idx);
    ReadableWhen(tail, idx, |strings|, Offset(strings, idx), Offset(strings, idx + 1));
  }

  lemma TailPieces(strings: seq<Str>)
    requires strings != []
    ensures var n := |strings|;
            && |Payload(strings, n)| == Offset(strings, n) && |OffsetBytes(strings, n + 1)| == 8 * (n + 1)
            && TailOf(strings) == Encode(n, 8) + OffsetBytes(strings, n + 1) + Payload(strings, n) + Zeros(Padding(16 + 8 * n + Offset(strings, n)))
  {
    PayloadSize(strings, |strings|);
    OffsetBytesSize(strings, |strings| + 1);
    hide Encode, OffsetBytes, Payload, Offset, Zeros, Padding;
  }

  lemma PieceAt(head: seq<byte>, payload: seq<byte>, zeros: seq<byte>, k: nat)
    ensures |head + payload + zeros| == |head| + |payload| + |zeros|
    ensures k < |payload| ==> (head + payload + zeros)[|head| + k] == payload[k]
    ensures |head| + |payload| <= k < |head| + |payload| + |zeros| ==> (head + payload + zeros)[k] == zeros[k - |head| - |payload|]
  {
  }

  lemma PaddingZeros(n: nat)
    ensures |Zeros(Padding(n))| < 64 && (n + |Zeros(Padding(n))|) % 64 == 0
    ensures forall k :: 0 <= k < |Zeros(Padding(n))| ==> Zeros(Padding(n))[k] == 0
  {
  }

  lemma {:induction false} Terminators(strings: seq<Str>, k: nat, i: nat)
    requires i < k <= |strings|
    ensures Offset(strings, i + 1) <= |Payload(strings, k)| && Offset(strings, i + 1) > 0
    ensures Payload(strings, k)[Offset(strings, i + 1) - 1] == 0
  {
    PayloadSize(strings, k);
    PayloadSize(strings, k - 1);
    if i < k - 1 { Terminators(strings, k - 1, i); }
  }

  /** The bytes of a tail besides the strings: every string is followed by a NUL,
      after the last one there are fewer than 64 zeros, up to a multiple of 64. */
  lemma TailZeros(strings: seq<Str>, k: nat)
    requires strings != []
    ensures var tail, end := TailOf(strings), 16 + 8 * |strings| + Offset(strings, |strings|);
            && |tail| % 64 == 0 && end <= |tail| < end + 64
            && (end <= k < |tail| ==> tail[k] == 0)
            && (k < |strings| ==> 0 < 16 + 8 * |strings| + Offset(strings, k + 1) <= end && tail[16 + 8 * |strings| + Offset(strings, k + 1) - 1] == 0)
  {
    hide *;
    TailPieces(strings);
    var n := |strings|;
    var head, payload, end := Encode(n, 8) + OffsetBytes(strings, n + 1), Payload(strings, n), 16 + 8 * n + Offset(strings, n);
    PaddingZeros(end);
    if k < n {
      Terminators(strings, n, k);
      PieceAt(head, payload, Zeros(Padding(end)), Offset(strings, k + 1) - 1);
    }
    PieceAt(head, payload, Zeros(Padding(end)), k);
  }

  // ----- writing, as the ingester does it

  lemma OffsetNext(strings: seq<Str>, i: nat)
    requires i < |strings|
    ensures Offset(strings, i + 1) == Offset(strings, i) + |strings[i]| + 1
  {
  }

  lemma NoOffset(strings: seq<Str>)
    ensures Offset(strings, 0) == 0
  {
  }

  method ComputeOffsets(strings: seq<Str>) returns (offsets: seq<nat>)
    ensures |offsets| == |strings| + 1
    ensures forall j :: 0 <= j <= |strings| ==> offsets[j] == Offset(strings, j)
  {
    hide *;
    NoOffset(strings);
    offsets := [];
    var current := 0;
    for i := 0 to |strings|
      invariant |offsets| == i && current == Offset(strings, i)
      invariant forall j :: 0 <= j < i ==> offsets[j] == Offset(strings, j)
    {
      OffsetNext(strings, i);
      offsets := offsets + [current];
      current := current + |strings[i]| + 1;
    }
    offsets := offsets + [current];
  }

  method WriteOffsets(strings: seq<Str>, offsets: seq<nat>) returns (bytes: seq<byte>)
    requires |offsets| == |strings| + 1
    requires forall j :: 0 <= j <= |strings| ==> offsets[j] == Offset(strings, j)
    ensures bytes == OffsetBytes(strings, |strings| + 1)
  {
    bytes := [];
    for i := 0 to |strings| + 1
      invariant bytes == OffsetBytes(strings, i)
    {
      bytes := bytes + Encode(offsets[i], 8);
    }
  }

  method WritePayload(strings: seq<Str>) returns (bytes: seq<byte>)
    ensures bytes == Payload(strings, |strings|)
  {
    bytes := [];
    for i := 0 to |strings|
      invariant bytes == Payload(strings, i)
    {
      bytes := bytes + strings[i] + [0];
    }
  }

  method BuildTail(strings: seq<Str>) returns (tail: seq<byte>)
    ensures tail == TailOf(strings)
  {
    tail := [];
    if strings != [] {
      var offsets := ComputeOffsets(strings);
      var table := WriteOffsets(strings, offsets);
      var payload := WritePayload(strings);
      var total := MetadataSize(|strings|) + offsets[|strings|];
      tail := Assembled(|strings|, table, payload, total);
    }
  }
}
