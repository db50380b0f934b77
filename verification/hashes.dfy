/** The hash functions by their values: the signature bits of a bigram, FNV-1a on its
    test vectors, and the nodes that entries are sent to. */
module Hashes {
  import opened Words
  import opened Storage
  import opened AdaptiveIngester
  import opened RowIds
  import opened DistributedJoin

  // ----- signature bits

  lemma LowOfWrapped(n: nat)
    ensures n % 0x1_0000_0000 % 64 == n % 64
  {
  }

  lemma LowOfSum(n: nat, k: nat)
    ensures (n % 0x1_0000_0000 + k) % 0x1_0000_0000 % 64 == (n + k) % 64
  {
  }

  lemma Congruent(n: nat, q: nat, r: nat)
    requires n == 64 * q + r
    ensures n % 64 == r % 64
  {
  }

  /** The bits of a bigram depend on its second byte only. */
  lemma BigramBits(x: nat, y: nat)
    requires x < 256 && y < 256
    ensures BigramHashes(x, y) == ((49 * y) % 64, (55 * y + 57) % 64, (61 * y + 50) % 64)
  {
    var n := x * 256 + y;
    hide *;
    HashesAre(x, y);
    LowOfWrapped(n * 2654435761);
    LowOfSum(n * 2246822519, 12345);
    LowOfSum(n * 3266489917, 67890);
    Congruent(n * 2654435761, 4 * x * 2654435761 + 41475558 * y, 49 * y);
    Congruent(n * 2246822519 + 12345, 4 * x * 2246822519 + 35106601 * y + 192, 55 * y + 57);
    Congruent(n * 3266489917 + 67890, 4 * x * 3266489917 + 51038904 * y + 1060, 61 * y + 50);
  }

  lemma HashesAre(x: byte, y: byte)
    ensures var n := x * 256 + y;
            BigramHashes(x, y) == ((n * 2654435761) % 0x1_0000_0000 % 64,
                                   ((n * 2246822519) % 0x1_0000_0000 + 12345) % 0x1_0000_0000 % 64,
                                   ((n * 3266489917) % 0x1_0000_0000 + 67890) % 0x1_0000_0000 % 64)
  {
  }

  lemma ByteBits(c: nat)
    requires c < 256
    ensures ByteHashes(c) == ((17 * c) % 64, (31 * c + 5) % 64, (63 * c + 13) % 64)
  {
    Small32(c * 17);
    Small32(c * 31 + 5);
    Small32(c * 127 + 13);
    Congruent(c * 127 + 13, c, 63 * c + 13);
  }

  lemma Small32(n: nat)
    requires n < 0x1_0000_0000
    ensures n % 0x1_0000_0000 == n
  {
  }

  /** The three bits a byte sets that follows another one. */
  predicate SetsBit(y: nat, bit: nat) { bit == (49 * y) % 64 || bit == (55 * y + 57) % 64 || bit == (61 * y + 50) % 64 }

  lemma AmongIs(x: byte, y: byte, bit: nat)
    ensures Among(bit, BigramHashes(x, y)) <==> SetsBit(y, bit)
  {
    BigramBits(x, y);
    hide BigramHashes;
  }

  /** The signature of a text of two or more bytes: three bits for every byte but the first. */
  lemma SignatureBits(s: Str, bit: nat)
    requires |s| >= 2 && bit < 64
    ensures Signature(s)[bit] <==> exists i :: 1 <= i < |s| && SetsBit(s[i], bit)
  {
    hide BigramHashes, SetsBit, Among;
    forall j: nat | j + 1 < |s| ensures BigramAt(s, j, bit) <==> SetsBit(s[j + 1], bit) {
      AmongIs(s[j], s[j + 1], bit);
    }
    if i :| 1 <= i < |s| && SetsBit(s[i], bit) {
      assert BigramAt(s, i - 1, bit);
    }
  }

  // ----- FNV-1a

  /** Bitwise exclusive or of two numbers. */
  function BitXor(a: nat, b: nat): nat {
    if a == 0 && b == 0 then 0 else (if a % 2 != b % 2 then 1 else 0) + 2 * BitXor(a / 2, b / 2)
  }

  lemma {:induction false} XorZero(a: nat)
    ensures BitXor(a, 0) == a
  {
    if a > 0 { XorZero(a / 2); }
  }

  function XorBits(x: seq<bool>, y: seq<bool>): (z: seq<bool>)
    requires |x| == |y|
    ensures |z| == |x|
  {
    seq(|x|, i requires 0 <= i < |x| => x[i] != y[i])
  }

  lemma {:induction false} XorBitsValue(x: seq<bool>, y: seq<bool>)
    requires |x| == |y|
    ensures Value(XorBits(x, y)) == BitXor(Value(x), Value(y))
  {
    hide *;
    if |x| == 0 {
      NoBits(x, y);
    } else {
      XorBitsValue(x[1..], y[1..]);
      XorBitsTail(x, y);
      FirstBit(x);
      FirstBit(y);
      FirstBit(XorBits(x, y));
      HalfXor(Value(x), Value(y));
    }
  }

  lemma NoBits(x: seq<bool>, y: seq<bool>)
    requires |x| == |y| == 0
    ensures Value(XorBits(x, y)) == BitXor(Value(x), Value(y)) == 0
  {
  }

  lemma FirstBit(x: seq<bool>)
    requires |x| > 0
    ensures Value(x) % 2 == (if x[0] then 1 else 0) && Value(x) / 2 == Value(x[1..])
    ensures Value(x) == (if x[0] then 1 else 0) + 2 * Value(x[1..])
  {
  }

  lemma XorBitsTail(x: seq<bool>, y: seq<bool>)
    requires |x| == |y| > 0
    ensures |XorBits(x, y)| == |x| && XorBits(x, y)[0] == (x[0] != y[0]) && XorBits(x, y)[1..] == XorBits(x[1..], y[1..])
  {
  }

  lemma HalfXor(a: nat, b: nat)
    ensures BitXor(a, b) == (if a % 2 != b % 2 then 1 else 0) + 2 * BitXor(a / 2, b / 2)
  {
    if a == 0 && b == 0 { assert BitXor(0, 0) == 0; }
  }

  lemma XorValue(x: Word, y: Word)
    ensures Value(Xor(x, y)) == BitXor(Value(x), Value(y))
  {
    XorBitsValue(x, y);
    assert Xor(x, y) == XorBits(x, y);
    hide Value, BitXor;
  }

  /** One byte: exclusive or, then the multiplication modulo 2^64. */
  lemma FnvByte(hash: Word, ch: byte)
    ensures Value(FnvStep(hash, ch)) == (BitXor(Value(hash), ch) * 1099511628211) % 0x1_0000_0000_0000_0000
  {
    WordValue(ch);
    XorValue(hash, WordOf(ch));
    hide Value, WordOf, Xor, BitXor;
    WordValue(Wrap(Value(Xor(hash, WordOf(ch))) * 1099511628211));
  }

  lemma FirstByte()
    ensures BitXor(14695981039346656037, 97) == 14695981039346656068
  {
    XorZero(114812351869895750);
    assert BitXor(229624703739791500, 1) == 229624703739791501;
    assert BitXor(459249407479583001, 3) == 459249407479583002;
    assert BitXor(918498814959166002, 6) == 918498814959166004;
    assert BitXor(1836997629918332004, 12) == 1836997629918332008;
    assert BitXor(3673995259836664009, 24) == 3673995259836664017;
    assert BitXor(7347990519673328018, 48) == 7347990519673328034;
    assert BitXor(14695981039346656037, 97) == 14695981039346656068;
  }

  lemma SecondByte()
    ensures BitXor(12638187200555641996, 98) == 12638187200555642094
  {
    XorZero(98735837504340953);
    assert BitXor(197471675008681906, 1) == 197471675008681907;
    assert BitXor(394943350017363812, 3) == 394943350017363815;
    assert BitXor(789886700034727624, 6) == 789886700034727630;
    assert BitXor(1579773400069455249, 12) == 1579773400069455261;
    assert BitXor(3159546800138910499, 24) == 3159546800138910523;
    assert BitXor(6319093600277820998, 49) == 6319093600277821047;
    assert BitXor(12638187200555641996, 98) == 12638187200555642094;
  }

  lemma SumNext(s: Str, n: nat)
    requires n < |s|
    ensures XorSum(s, n + 1) == FnvStep(XorSum(s, n), s[n])
    ensures XorSum(s, 0) == WordOf(14695981039346656037) && XorSum([], 0) == WordOf(14695981039346656037)
  {
    hide FnvStep, WordOf;
  }

  const A: Str := ['a' as int]
  const AB: Str := ['a' as int, 'b' as int]

  lemma Texts()
    ensures A[0] == 97 == AB[0] && AB[1] == 98 && |A| == 1 && |AB| == 2
  {
  }

  lemma BasisValue()
    ensures Value(WordOf(14695981039346656037)) == 14695981039346656037 == 0xcbf29ce484222325
  {
    assert 14695981039346656037 < TWO_64;
    hide Value, WordOf;
    WordValue(14695981039346656037);
  }

  lemma Remainder(n: nat, q: nat, r: nat)
    requires n == q * 0x1_0000_0000_0000_0000 + r && r < 0x1_0000_0000_0000_0000
    ensures n % 0x1_0000_0000_0000_0000 == r
  {
  }

  lemma AfterFirst(s: Str)
    requires |s| > 0 && s[0] == 97
    ensures Value(XorSum(s, 1)) == 0xaf63dc4c8601ec8c
  {
    hide *;
    SumNext(s, 0);
    BasisValue();
    FnvByte(XorSum(s, 0), 97);
    FirstByte();
    Remainder(14695981039346656068 * 1099511628211, 875948729822, 0xaf63dc4c8601ec8c);
  }

  /** The published values for "", "a" and "ab". */
  lemma FnvVectors()
    ensures Value(XorSum([], 0)) == 0xcbf29ce484222325
    ensures Value(XorSum(A, |A|)) == 0xaf63dc4c8601ec8c
    ensures Value(XorSum(AB, |AB|)) == 0x089c4407b545986a
  {
    hide *;
    Texts();
    SumNext(A, 0);
    BasisValue();
    AfterFirst(A);
    AfterFirst(AB);
    SumNext(AB, 1);
    FnvByte(XorSum(AB, 1), 98);
    SecondByte();
    Remainder(12638187200555642094 * 1099511628211, 753294658992, 0x089c4407b545986a);
  }

  // ----- targets

  /** Cold entries go to the exclusive or of their two hashes modulo the number of
      nodes; hot right entries to that plus their batch, added on 64 bits. */
  lemma TargetsAre(sig: FatSignature, node: nat, batch: nat, row: nat, hot: set<FatSignature>, nodes: nat)
    requires nodes > 0 && node < 256 && batch < 4096 && row < 4096
    ensures var e, h := Entry(sig, PackRowId(node, batch, row)), BitXor(Value(sig.kim), Value(sig.xorSum));
            && ColdTarget(sig, nodes) == h % nodes
            && RightTarget(e, hot, nodes) == (if sig in hot then (h + batch) % 0x1_0000_0000_0000_0000 else h) % nodes
            && forall n :: 0 <= n < nodes ==> (LeftGoesTo(e, hot, nodes, n) <==> sig in hot || n == h % nodes)
  {
    PackExact(node, batch, row);
    XorValue(sig.kim, sig.xorSum);
    hide Value, Xor, BitXor, PackRowId, UnpackRowId;
  }
}
