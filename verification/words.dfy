/** 64-bit machine words, kept as their bits, least significant bit first.
    The bitwise instructions act bit by bit; `Value` and `WordOf` connect a
    word with the unsigned number it denotes. */
module Words {

  type Word = w: seq<bool> | |w| == 64 witness seq(64, _ => false)

  const TWO_64: nat := 0x1_0000_0000_0000_0000

  function Repeated(bit: bool): Word { seq(64, _ => bit) }

  const ZEROS: Word := Repeated(false)
  const ONES: Word := Repeated(true)

  function And(x: Word, y: Word): Word { seq(64, i requires 0 <= i < 64 => x[i] && y[i]) }

  function Or(x: Word, y: Word): Word { seq(64, i requires 0 <= i < 64 => x[i] || y[i]) }

  function Xor(x: Word, y: Word): Word { seq(64, i requires 0 <= i < 64 => x[i] != y[i]) }

  function Bic(x: Word, y: Word): Word { seq(64, i requires 0 <= i < 64 => x[i] && !y[i]) }

  function Shr(x: Word, k: nat): Word { seq(64, i requires 0 <= i < 64 => i + k < 64 && x[i + k]) }

  function Shl(x: Word, k: nat): Word { seq(64, i requires 0 <= i < 64 => i >= k && x[i - k]) }

  /** `1ULL << i` */
  function OneBit(i: nat): Word { seq(64, k => k == i) }

  /** `(1ULL << n) - 1` */
  function LowMask(n: nat): Word { seq(64, k => k < n) }

  function Pow2(n: nat): (p: nat)
    ensures p > 0
  {
    if n == 0 then 1 else 2 * Pow2(n - 1)
  }

  /** The number a bit string denotes, least significant bit first. */
  function Value(bits: seq<bool>): nat {
    if bits == [] then 0 else (if bits[0] then 1 else 0) + 2 * Value(bits[1..])
  }

  function Bits(n: nat, width: nat): (b: seq<bool>)
    ensures |b| == width
  {
    if width == 0 then [] else [n % 2 == 1] + Bits(n / 2, width - 1)
  }

  /** The low 64 bits of a number. */
  function WordOf(n: nat): Word { Bits(n, 64) }

  function Popcount(bits: seq<bool>): nat {
    if bits == [] then 0 else (if bits[0] then 1 else 0) + Popcount(bits[1..])
  }

  // ----- unsigned 64-bit arithmetic

  /** The result of an unsigned 64-bit addition. */
  function Wrap(n: int): (r: nat)
    ensures r < TWO_64
    ensures 0 <= n < TWO_64 ==> r == n
  {
    n % TWO_64
  }

  lemma WrapUnique(n: int, q: int, r: nat)
    requires r < TWO_64 && n == q * TWO_64 + r
    ensures Wrap(n) == r
  {
  }

  /** Sums may be reduced at any point. */
  lemma WrapAdd(a: int, b: int)
    ensures Wrap(Wrap(a) + b) == Wrap(a + b)
  {
    var q, p := a / TWO_64, (Wrap(a) + b) / TWO_64;
    WrapUnique(a + b, q + p, Wrap(Wrap(a) + b));
  }

  // ----- arithmetic of bit strings

  lemma MulGap(k: int, d: int)
    requires d > 0
    ensures k >= 1 ==> k * d >= d
    ensures k <= -1 ==> k * d <= -d
  {
  }

  lemma DivModUnique(n: nat, d: nat, q: nat, r: nat)
    requires d > 0 && r < d && n == q * d + r
    ensures n / d == q && n % d == r
  {
    var q', r' := n / d, n % d;
    assert n == q' * d + r';
    MulGap(q' - q, d);
    assert (q' - q) * d == q' * d - q * d;
  }

  lemma ModHalf(n: nat, m: nat)
    requires m > 0
    ensures n % (2 * m) == n % 2 + 2 * ((n / 2) % m)
    ensures n / (2 * m) == (n / 2) / m
  {
    var q, r := (n / 2) / m, (n / 2) % m;
    assert n / 2 == q * m + r;
    assert n == q * (2 * m) + (2 * r + n % 2);
    DivModUnique(n, 2 * m, q, 2 * r + n % 2);
  }

  lemma {:induction false} ValueBound(bits: seq<bool>)
    ensures Value(bits) < Pow2(|bits|)
  {
    if bits != [] { ValueBound(bits[1..]); }
  }

  lemma {:induction false} ValueOfBits(n: nat, width: nat)
    ensures Value(Bits(n, width)) == n % Pow2(width)
  {
    if width > 0 {
      ValueOfBits(n / 2, width - 1);
      ModHalf(n, Pow2(width - 1));
      assert Bits(n, width)[1..] == Bits(n / 2, width - 1);
    }
  }

  lemma {:induction false} BitsOfValue(bits: seq<bool>)
    ensures Bits(Value(bits), |bits|) == bits
  {
    if bits != [] {
      BitsOfValue(bits[1..]);
      var v := Value(bits[1..]);
      assert Value(bits) / 2 == v;
      assert Value(bits) % 2 == 1 <==> bits[0];
    }
  }

  lemma {:induction false} BitsCongruent(n: nat, k: nat, width: nat)
    ensures Bits(n + k * Pow2(width), width) == Bits(n, width)
  {
    if width > 0 {
      var p := Pow2(width - 1);
      assert k * (2 * p) == 2 * (k * p);
      assert (n + 2 * (k * p)) / 2 == n / 2 + k * p;
      BitsCongruent(n / 2, k, width - 1);
    }
  }

  lemma Pow2Of64()
    ensures Pow2(64) == TWO_64
  {
    assert Pow2(8) == 256;
    Pow2Add(8, 8);
    Pow2Add(16, 16);
    Pow2Add(32, 32);
  }

  lemma {:induction false} Pow2Add(a: nat, b: nat)
    ensures Pow2(a + b) == Pow2(a) * Pow2(b)
  {
    if a > 0 {
      Pow2Add(a - 1, b);
      assert Pow2(a + b) == 2 * Pow2(a + b - 1);
    }
  }

  lemma WordValue(n: nat)
    ensures Value(WordOf(n)) == n % TWO_64
    ensures n < TWO_64 ==> Value(WordOf(n)) == n
  {
    ValueOfBits(n, 64);
    Pow2Of64();
  }

  lemma WordOfValue(w: Word)
    ensures WordOf(Value(w)) == w
    ensures Value(w) < TWO_64
  {
    BitsOfValue(w);
    ValueBound(w);
    Pow2Of64();
  }

  /** Appending the next higher bit. */
  lemma {:induction false} ValueSnoc(bits: seq<bool>, top: bool)
    ensures Value(bits + [top]) == Value(bits) + (if top then Pow2(|bits|) else 0)
  {
    if bits == [] {
      assert [] + [top] == [top];
      assert [top][1..] == [];
    } else {
      ValueSnoc(bits[1..], top);
      assert (bits + [top])[1..] == bits[1..] + [top];
    }
  }

  lemma ValueLow(w: seq<bool>, k: nat)
    requires k < |w|
    ensures Value(w[..k + 1]) == Value(w[..k]) + (if w[k] then Pow2(k) else 0)
    ensures Value(w[..k]) < Pow2(k)
  {
    assert w[..k + 1] == w[..k] + [w[k]];
    ValueSnoc(w[..k], w[k]);
    ValueBound(w[..k]);
  }

  /** High bits that are all clear add nothing. */
  lemma {:induction false} ValueTrim(w: seq<bool>, k: nat)
    requires k <= |w|
    requires forall i :: k <= i < |w| ==> !w[i]
    ensures Value(w[..k]) == Value(w)
    decreases |w| - k
  {
    if k == |w| {
      assert w[..k] == w;
    } else {
      ValueLow(w, k);
      ValueTrim(w, k + 1);
    }
  }

  lemma ValueInjective(x: seq<bool>, y: seq<bool>)
    requires |x| == |y| && Value(x) == Value(y)
    ensures x == y
  {
    BitsOfValue(x);
    BitsOfValue(y);
  }

  /** A value below 2^k has no bit at or above k. */
  lemma {:induction false} SmallValueBits(w: seq<bool>, k: nat, i: nat)
    requires k <= i < |w| && Value(w) < Pow2(k)
    ensures !w[i]
  {
    if k > 0 {
      SmallValueBits(w[1..], k - 1, i - 1);
    } else {
      assert Value(w) == 0;
      ZeroValue(w, i);
    }
  }

  lemma {:induction false} ZeroValue(w: seq<bool>, i: nat)
    requires i < |w| && Value(w) == 0
    ensures !w[i]
  {
    if i > 0 { ZeroValue(w[1..], i - 1); }
  }

  lemma LowBits(n: nat, k: nat)
    requires k <= 64
    ensures Value(WordOf(n)[..k]) == n % Pow2(k)
  {
    BitsPrefix(n, 64, k);
    ValueOfBits(n, k);
  }

  lemma {:induction false} BitsPrefix(n: nat, width: nat, k: nat)
    requires k <= width
    ensures Bits(n, width)[..k] == Bits(n, k)
  {
    if k > 0 {
      BitsPrefix(n / 2, width - 1, k - 1);
      assert Bits(n, width)[1..] == Bits(n / 2, width - 1);
      assert Bits(n, width)[..k] == [Bits(n, width)[0]] + Bits(n, width)[1..][..k - 1];
    }
  }

  // ----- popcount and the lowest set bit

  lemma {:induction false} PopcountZero(w: seq<bool>)
    ensures Popcount(w) == 0 <==> forall i :: 0 <= i < |w| ==> !w[i]
  {
    if w != [] {
      PopcountZero(w[1..]);
      assert forall i :: 0 < i < |w| ==> w[i] == w[1..][i - 1];
      if w[0] {
      } else if Popcount(w) == 0 {
        forall i | 0 <= i < |w| ensures !w[i] { if i > 0 { assert w[i] == w[1..][i - 1]; } }
      } else {
        var j :| 0 <= j < |w[1..]| && w[1..][j];
        assert w[j + 1];
      }
    }
  }

  lemma {:induction false} PopcountClear(w: seq<bool>, i: nat)
    requires i < |w| && w[i]
    ensures Popcount(w[i := false]) == Popcount(w) - 1
  {
    if i == 0 {
      assert w[0 := false][1..] == w[1..];
    } else {
      PopcountClear(w[1..], i - 1);
      assert w[i := false][1..] == w[1..][i - 1 := false];
    }
  }

  /** Index of the lowest set bit: count of trailing zeros. */
  function TrailingZeros(w: seq<bool>): (i: nat)
    requires exists k :: 0 <= k < |w| && w[k]
    ensures i < |w| && w[i]
    ensures forall k :: 0 <= k < i ==> !w[k]
  {
    if w[0] then 0
    else
      assert exists k :: 0 <= k < |w[1..]| && w[1..][k] by {
        var k :| 0 <= k < |w| && w[k];
        assert w[1..][k - 1];
      }
      1 + TrailingZeros(w[1..])
  }

  /** `w & (w - 1)` clears exactly the lowest set bit. */
  lemma {:induction false} ClearLowestBits(w: seq<bool>)
    requires exists k :: 0 <= k < |w| && w[k]
    ensures Value(w) > 0
    ensures var d := Bits(Value(w) - 1, |w|);
            forall i :: 0 <= i < |w| ==> (w[i] && d[i] <==> w[i] && i != TrailingZeros(w))
  {
    var k :| 0 <= k < |w| && w[k];
    if w[0] {
      var d := Bits(Value(w) - 1, |w|);
      BitsOfValue(w[1..]);
      assert d[1..] == w[1..];
    } else {
      assert w[1..][k - 1];
      ClearLowestBits(w[1..]);
      var d := Bits(Value(w) - 1, |w|);
      assert (Value(w) - 1) / 2 == Value(w[1..]) - 1;
      assert d[1..] == Bits(Value(w[1..]) - 1, |w| - 1);
    }
  }

  predicate NonZero(w: Word) { exists k :: 0 <= k < |w| && w[k] }

  function Decrement(w: Word): Word
    requires NonZero(w)
  {
    ClearLowestBits(w);
    WordOf(Value(w) - 1)
  }

  lemma ClearLowest(w: Word)
    requires NonZero(w)
    ensures And(w, Decrement(w)) == w[TrailingZeros(w) := false]
    ensures Popcount(And(w, Decrement(w))) == Popcount(w) - 1
  {
    ClearLowestBits(w);
    var i := TrailingZeros(w);
    var x := And(w, Decrement(w));
    assert x == w[i := false];
    PopcountClear(w, i);
  }

  /** `w == 0` for words. */
  lemma ZeroWord(w: Word)
    ensures Value(w) == 0 <==> !NonZero(w)
    ensures w == ZEROS <==> !NonZero(w)
  {
    if NonZero(w) {
      ClearLowestBits(w);
      var k :| 0 <= k < 64 && w[k];
      assert !ZEROS[k];
    } else {
      assert w == ZEROS;
      ValueTrim(w, 0);
    }
  }

  /** `(1 << n) - 1` really is the mask of the n low bits. */
  lemma {:induction false} LowMaskValue(n: nat, width: nat)
    requires n <= width
    ensures Value(seq(width, k => k < n)) == Pow2(n) - 1
  {
    var m := seq(width, k => k < n);
    if n == 0 {
      ValueTrim(m, 0);
    } else {
      LowMaskValue(n - 1, width - 1);
      assert m[1..] == seq(width - 1, k => k < n - 1);
    }
  }
}
