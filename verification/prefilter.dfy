/** What the skeleton and signature tests mean for the strings behind the lanes:
    on good patterns they never lose a match, and on every other pattern they
    lose one. */
module Prefilter {
  import opened Words
  import opened Storage
  import opened MemTables
  import opened AdaptiveIngester
  import opened MicroOps
  import opened QueryPlanner

  // ----- low bits and low bytes

  lemma EqualLowBits(x: nat, y: nat, k: nat)
    requires k <= 64
    ensures WordOf(x)[..k] == WordOf(y)[..k] <==> x % Pow2(k) == y % Pow2(k)
  {
    LowBits(x, k);
    LowBits(y, k);
    if x % Pow2(k) == y % Pow2(k) {
      ValueInjective(WordOf(x)[..k], WordOf(y)[..k]);
    }
  }

  /** The first four bytes, padded with zero bytes. */
  function FourBytes(s: Str): (f: Str)
    ensures |f| == 4
  {
    seq(4, i requires 0 <= i < 4 => ByteOrZero(s, i))
  }

  lemma {:induction false} DecodeZeros(s: Str, n: nat)
    ensures Decode(s + Zeros(n)) == Decode(s)
  {
    if s == [] {
      assert s + Zeros(n) == Zeros(n);
      DecodeAllZeros(n);
    } else {
      DecodeZeros(s[1..], n);
      assert (s + Zeros(n))[1..] == s[1..] + Zeros(n);
    }
  }

  lemma {:induction false} DecodeAllZeros(n: nat)
    ensures Decode(Zeros(n)) == 0
  {
    if n > 0 {
      DecodeAllZeros(n - 1);
      assert Zeros(n)[1..] == Zeros(n - 1);
    }
  }

  lemma SkeletonBytes(s: Str)
    ensures SkeletonOf(s) == Decode(FourBytes(s))
  {
    var m := Min(4, |s|);
    DecodeZeros(s[..m], 4 - m);
    assert FourBytes(s) == s[..m] + Zeros(4 - m);
  }

  /** A skeleton comparison on k bytes compares exactly the first k bytes, where
      short strings count as padded with zero bytes. */
  lemma SkeletonExact(s: Str, c: Str, k: nat)
    requires 1 <= k <= 4
    ensures LaneTest(CMP_SKELETON, WordOf(SkeletonOf(s)), WordOf(SkeletonOf(c)), 8 * k)
            <==> FourBytes(s)[..k] == FourBytes(c)[..k]
  {
    hide SkeletonOf, WordOf;
    SkeletonBytes(s);
    SkeletonBytes(c);
    EqualLowBits(SkeletonOf(s), SkeletonOf(c), 8 * k);
    BytesAreBits(k);
    DecodePrefix(FourBytes(s), k);
    DecodePrefix(FourBytes(c), k);
    if Decode(FourBytes(s)[..k]) == Decode(FourBytes(c)[..k]) {
      DecodeInjective(FourBytes(s)[..k], FourBytes(c)[..k]);
    }
  }

  // ----- signatures

  lemma SignatureTest(s: Str, c: Str)
    ensures LaneTest(CMP_KIM, Signature(s), Signature(c), 64) <==>
            forall b: nat :: b < 64 && SignatureBit(c, b) ==> SignatureBit(s, b)
  {
    hide SignatureBit;
    var x, y := Signature(s), Signature(c);
    assert forall b :: 0 <= b < 64 ==> x[b] == SignatureBit(s, b) && y[b] == SignatureBit(c, b);
    hide Signature;
  }

  /** A substring of length two or more contributes only bigrams of the text. */
  lemma SubstringSignature(text: Str, pattern: Str, at: nat, b: nat)
    requires OccursAt(text, pattern, at) && |pattern| != 1 && SignatureBit(pattern, b)
    ensures SignatureBit(text, b)
  {
    hide BigramHashes, ByteHashes;
    var i: nat :| BigramAt(pattern, i, b);
    assert pattern[i] == text[at + i] && pattern[i + 1] == text[at + i + 1];
    assert BigramAt(text, at + i, b);
  }

  // ----- string predicates

  /** Does the text survive the emitted tests? */
  ghost predicate Survives(op: PredicateOp, value: Str, text: Str)
    requires op in {EQ, LIKE_PREFIX, LIKE_CONTAINS}
  {
    && (op != LIKE_CONTAINS ==> SurvivesSkeleton(op, value, text))
    && (op != LIKE_PREFIX ==> SurvivesSignature(op, value, text))
  }

  function SkeletonBits(op: PredicateOp, value: Str): nat {
    Min(32, (|CleanPattern(op, value)| + (if op == EQ then 1 else 0)) * 8)
  }

  predicate SurvivesSkeleton(op: PredicateOp, value: Str, text: Str) {
    LaneTest(CMP_SKELETON, WordOf(SkeletonOf(text)), SkeletonConstant(value), CompareBits(CMP_SKELETON, SkeletonBits(op, value)))
  }

  ghost predicate SurvivesSignature(op: PredicateOp, value: Str, text: Str) {
    LaneTest(CMP_KIM, Signature(text), Signature(CleanPattern(op, value)), 64)
  }

  /** Patterns on which the tests are safe: an equality pattern of at most four
      bytes must not end in '%', a prefix must not be empty, a contained pattern
      must not be a single byte. */
  predicate GoodPattern(op: PredicateOp, value: Str) {
    match op
    case EQ => !(|value| <= 4 && value != [] && value[|value| - 1] == PERCENT)
    case LIKE_PREFIX => CleanPattern(op, value) != []
    case LIKE_CONTAINS => |CleanPattern(op, value)| != 1
    case GT => true
    case LT => true
  }

  /** Number of bytes the skeleton comparison looks at; an empty prefix means all four. */
  function SkeletonWidth(op: PredicateOp, value: Str): (k: nat)
    ensures 1 <= k <= 4
    ensures CompareBits(CMP_SKELETON, SkeletonBits(op, value)) == 8 * k
  {
    var n := |CleanPattern(op, value)| + (if op == EQ then 1 else 0);
    if n == 0 then 4 else Min(4, n)
  }

  lemma SkeletonMeaning(op: PredicateOp, value: Str, text: Str)
    ensures var k := SkeletonWidth(op, value);
            SurvivesSkeleton(op, value, text) <==> FourBytes(text)[..k] == FourBytes(DropLastPercent(value))[..k]
  {
    hide CompareBits, SkeletonBits, LaneTest, SkeletonOf, WordOf, FourBytes;
    SkeletonExact(text, DropLastPercent(value), SkeletonWidth(op, value));
  }

  lemma EqualSurvives(value: Str)
    requires GoodPattern(EQ, value)
    ensures Survives(EQ, value, value)
  {
    hide LaneTest, SurvivesSkeleton, Signature, SignatureBit;
    SkeletonMeaning(EQ, value, value);
    SignatureTest(value, value);
    var k := SkeletonWidth(EQ, value);
    assert FourBytes(value)[..k] == FourBytes(DropLastPercent(value))[..k];
  }

  lemma PrefixSurvives(value: Str, text: Str)
    requires GoodPattern(LIKE_PREFIX, value) && CleanPattern(LIKE_PREFIX, value) <= text
    ensures Survives(LIKE_PREFIX, value, text)
  {
    hide LaneTest, SurvivesSkeleton;
    SkeletonMeaning(LIKE_PREFIX, value, text);
    var k := SkeletonWidth(LIKE_PREFIX, value);
    assert FourBytes(text)[..k] == FourBytes(DropLastPercent(value))[..k];
  }

  lemma ContainedSurvives(value: Str, text: Str)
    requires GoodPattern(LIKE_CONTAINS, value) && Contains(text, CleanPattern(LIKE_CONTAINS, value))
    ensures Survives(LIKE_CONTAINS, value, text)
  {
    var pattern := CleanPattern(LIKE_CONTAINS, value);
    var at: nat :| at <= |text| && OccursAt(text, pattern, at);
    hide CleanPattern, SignatureBit, Signature;
    SignatureTest(text, pattern);
    forall b: nat | b < 64 && SignatureBit(pattern, b) ensures SignatureBit(text, b) {
      SubstringSignature(text, pattern, at, b);
    }
  }

  /** On good patterns no matching text is lost. */
  lemma NoMatchLost(op: PredicateOp, value: Str, text: Str)
    requires op in {EQ, LIKE_PREFIX, LIKE_CONTAINS} && GoodPattern(op, value)
    requires MatchString(text, op, CleanPattern(op, value))
    ensures Survives(op, value, text)
  {
    hide Survives;
    if op == EQ { EqualSurvives(value); }
    else if op == LIKE_PREFIX { PrefixSurvives(value, text); }
    else { ContainedSurvives(value, text); }
  }

  // ----- every other pattern loses a match

  lemma EqualLost(value: Str)
    requires !GoodPattern(EQ, value)
    ensures !Survives(EQ, value, value)
  {
    hide LaneTest, SurvivesSkeleton;
    SkeletonMeaning(EQ, value, value);
    var k, n := SkeletonWidth(EQ, value), |value|;
    assert FourBytes(value)[..k][n - 1] == PERCENT;
    assert FourBytes(DropLastPercent(value))[..k][n - 1] == 0;
  }

  lemma EmptyPrefixLost(value: Str)
    requires !GoodPattern(LIKE_PREFIX, value)
    ensures !Survives(LIKE_PREFIX, value, [1])
  {
    hide LaneTest, SurvivesSkeleton;
    SkeletonMeaning(LIKE_PREFIX, value, [1]);
    assert FourBytes([1])[..4][0] == 1;
    assert FourBytes(DropLastPercent(value))[..4][0] == 0;
  }

  lemma Modulo64(n: nat, a: nat, r: nat)
    requires n == 64 * a + r
    ensures n % 64 == r % 64
  {
  }

  lemma LowSix(n: nat)
    ensures n % TWO_32 % 64 == n % 64
  {
  }

  /** The low six bits of a product and of a sum, taken through the 32-bit wrap. */
  lemma LowSixOfSum(n: nat, m: nat, c: nat)
    requires n % 64 == m % 64
    ensures (n % TWO_32 + c) % TWO_32 % 64 == (m + c) % 64
  {
    LowSix(n);
    LowSix(n % TWO_32 + c);
    SumModulo(n % TWO_32, m, c);
  }

  lemma SumModulo(a: nat, b: nat, c: nat)
    requires a % 64 == b % 64
    ensures (a + c) % 64 == (b + c) % 64
  {
    var p, q := a / 64, b / 64;
    assert a == 64 * p + a % 64 && b == 64 * q + a % 64;
    assert a + c == 64 * (p - q) + (b + c);
  }

  lemma SecondProduct(x: byte, y: byte)
    ensures ((x * 256 + y) * 2246822519) % 64 == (55 * y) % 64
  {
    Modulo64((x * 256 + y) * 2246822519, 4 * 2246822519 * x + 35106601 * y, 55 * y);
  }

  lemma ThirdProduct(x: byte, y: byte)
    ensures ((x * 256 + y) * 3266489917) % 64 == (61 * y) % 64
  {
    Modulo64((x * 256 + y) * 3266489917, 4 * 3266489917 * x + 51038904 * y, 61 * y);
  }

  lemma FirstHash(x: byte, y: byte)
    ensures BigramHashes(x, y).0 == (49 * y) % 64
  {
    var n := (x * 256 + y) * 2654435761;
    LowSix(n);
    Modulo64(n, 4 * 2654435761 * x + 41475558 * y, 49 * y);
  }

  lemma SecondHash(x: byte, y: byte)
    ensures BigramHashes(x, y).1 == (55 * y + 57) % 64
  {
    SecondProduct(x, y);
    LowSixOfSum((x * 256 + y) * 2246822519, 55 * y, 12345);
    SumModulo(12345, 57, 55 * y);
  }

  lemma ThirdHash(x: byte, y: byte)
    ensures BigramHashes(x, y).2 == (61 * y + 50) % 64
  {
    ThirdProduct(x, y);
    LowSixOfSum((x * 256 + y) * 3266489917, 61 * y, 67890);
    SumModulo(67890, 50, 61 * y);
  }

  /** Modulo 64 the bigram hashes depend on the second byte alone. */
  lemma BigramHashesModulo(x: byte, y: byte)
    ensures BigramHashes(x, y) == ((49 * y) % 64, (55 * y + 57) % 64, (61 * y + 50) % 64)
  {
    hide BigramHashes;
    FirstHash(x, y);
    SecondHash(x, y);
    ThirdHash(x, y);
  }

  /** For a one-byte pattern c, some two-byte text starting with c lacks one of
      the pattern's signature bits. */
  lemma SingleByteLost(c: byte) returns (text: Str)
    ensures |text| == 2 && text[0] == c
    ensures exists b: nat :: b < 64 && SignatureBit([c], b) && !SignatureBit(text, b)
  {
    var b := (c * 17) % 64;
    LowSix(c * 17);
    assert SignatureBit([c], b);
    var x: byte := MissingByte(b);
    text := [c, x];
    BigramHashesModulo(c, x);
    hide BigramHashes;
    assert !SignatureBit(text, b) by {
      assert forall i: nat :: BigramAt(text, i, b) ==> i == 0;
    }
  }

  lemma MissingByte(b: nat) returns (x: byte)
    requires b < 64
    ensures x < 4 && b != (49 * x) % 64 && b != (55 * x + 57) % 64 && b != (61 * x + 50) % 64
  {
    x := 0;
    if b == 0 || b == 57 || b == 50 { x := 1; }
  }

  /** The emitted tests keep every matching text exactly for the good patterns. */
  lemma PrefilterLossless(op: PredicateOp, value: Str)
    requires op in {EQ, LIKE_PREFIX, LIKE_CONTAINS}
    ensures GoodPattern(op, value) <==>
            forall text: Str :: MatchString(text, op, CleanPattern(op, value)) ==> Survives(op, value, text)
  {
    hide Survives;
    if GoodPattern(op, value) {
      forall text: Str | MatchString(text, op, CleanPattern(op, value)) ensures Survives(op, value, text) {
        NoMatchLost(op, value, text);
      }
    } else if op == EQ {
      EqualLost(value);
    } else if op == LIKE_PREFIX {
      EmptyPrefixLost(value);
      assert MatchString([1], op, CleanPattern(op, value));
    } else {
      SinglePatternLost(value);
    }
  }

  lemma SinglePatternLost(value: Str)
    requires !GoodPattern(LIKE_CONTAINS, value)
    ensures exists text: Str :: Contains(text, CleanPattern(LIKE_CONTAINS, value)) && !Survives(LIKE_CONTAINS, value, text)
  {
    var pattern := CleanPattern(LIKE_CONTAINS, value);
    assert pattern == [pattern[0]];
    hide CleanPattern;
    var text := SingleByteLost(pattern[0]);
    assert text[0..0 + |pattern|] == pattern;
    assert OccursAt(text, pattern, 0);
    SignatureLost(value, text);
  }

  lemma SignatureLost(value: Str, text: Str)
    requires exists b: nat :: b < 64 && SignatureBit(CleanPattern(LIKE_CONTAINS, value), b) && !SignatureBit(text, b)
    ensures !Survives(LIKE_CONTAINS, value, text)
  {
    hide CleanPattern, Signature, SignatureBit, LaneTest;
    SignatureTest(text, CleanPattern(LIKE_CONTAINS, value));
  }
}
