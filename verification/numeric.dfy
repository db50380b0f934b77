/** What the numeric tile tests mean for the integers behind the lanes, and when
    the unsigned comparison on few bits agrees with the signed one. */
module NumericTests {
  import opened Words
  import opened Storage
  import opened MemTables
  import opened MicroOps
  import opened QueryPlanner

  /** The comparison as unsigned numbers. */
  predicate UnsignedMatch(op: PredicateOp, x: nat, target: nat) {
    if op == GT then x > target else if op == LT then x < target else x == target
  }

  /** The emitted test compares the low n bits as unsigned numbers. */
  lemma NumericLane(op: PredicateOp, x: nat, target: nat, n: nat)
    requires n <= 64
    ensures LaneTest(NumericOp(op), WordOf(x), WordOf(target), n) <==> UnsignedMatch(op, x % Pow2(n), target % Pow2(n))
  {
    hide WordOf, Value, Pow2;
    LowBits(x, n);
    LowBits(target, n);
    if WordOf(x)[..n] != WordOf(target)[..n] && x % Pow2(n) == target % Pow2(n) {
      ValueInjective(WordOf(x)[..n], WordOf(target)[..n]);
    }
  }

  lemma {:induction false} TopBitBound(w: Word, k: nat)
    requires k <= 64
    ensures TopBit(w, k) < 64 && Value(w[..k]) < Pow2(TopBit(w, k) + 1)
  {
    if k > 0 {
      ValueLow(w, k - 1);
      if !w[k - 1] { TopBitBound(w, k - 1); }
    }
  }

  lemma {:induction false} Pow2Monotone(a: nat, b: nat)
    requires a <= b
    ensures Pow2(a) <= Pow2(b)
  {
    if a < b { Pow2Monotone(a, b - 1); }
  }

  /** The planned width always covers the target. */
  lemma TargetCovered(maxBit: nat, target: u64)
    requires maxBit < 64
    ensures var n := NumCompareBits(maxBit, target); maxBit < n <= 64 && target < Pow2(n)
  {
    hide WordOf, Value, Pow2;
    var w, n := WordOf(target), NumCompareBits(maxBit, target);
    WordValue(target);
    assert w[..64] == w;
    TopBitBound(w, 64);
    Pow2Monotone(TopBit(w, 64) + 1, n);
  }

  lemma {:induction false} TopBitSet(w: Word, k: nat)
    requires k <= 64
    ensures TopBit(w, k) == 0 || Value(w[..k]) >= Pow2(TopBit(w, k))
  {
    if k > 0 {
      ValueLow(w, k - 1);
      if !w[k - 1] { TopBitSet(w, k - 1); }
    }
  }

  /** The planned width is the least that exceeds the highest plane and covers the target. */
  lemma WidthLeast(maxBit: nat, target: u64, n: nat)
    requires maxBit < 64 && 0 < n < NumCompareBits(maxBit, target)
    ensures n <= maxBit || target >= Pow2(n)
  {
    var w := WordOf(target);
    WordValue(target);
    assert w[..64] == w;
    TopBitSet(w, 64);
    if n > maxBit {
      Pow2Monotone(n, TopBit(w, 64));
    }
    hide WordOf, Value, Pow2, TopBit;
  }

  /** A comparison on n bits that cover the target agrees with the comparison of
      the whole value exactly when the value fits, or the dropped bits do not
      change the verdict. */
  lemma NarrowExact(op: PredicateOp, x: nat, target: nat, n: nat)
    requires target < Pow2(n)
    ensures (UnsignedMatch(op, x % Pow2(n), target % Pow2(n)) <==> UnsignedMatch(op, x, target))
            <==> (x < Pow2(n) || (if op == GT then x % Pow2(n) > target
                                  else if op == LT then x % Pow2(n) >= target
                                  else x % Pow2(n) != target))
  {
    SmallModulo(x, Pow2(n));
    SmallModulo(target, Pow2(n));
    NarrowCases(op, x, x % Pow2(n), target, Pow2(n));
    hide UnsignedMatch, Pow2;
  }

  lemma SmallModulo(x: nat, p: nat)
    requires p > 0
    ensures x < p ==> x % p == x
  {
  }

  lemma NarrowCases(op: PredicateOp, x: nat, low: nat, target: nat, p: nat)
    requires target < p && (x < p ==> low == x)
    ensures (UnsignedMatch(op, low, target) <==> UnsignedMatch(op, x, target))
            <==> (x < p || (if op == GT then low > target else if op == LT then low >= target else low != target))
  {
  }

  /** Unsigned and signed comparison agree exactly on equality and on operands of
      the same sign. */
  lemma SignedAgreement(op: PredicateOp, n: int64, target: u64)
    requires op in {EQ, GT, LT}
    ensures (UnsignedMatch(op, Unsigned(n), target) <==> MatchNumeric(n, op, target))
            <==> (op == EQ || (n < 0) == (Signed(target) < 0))
  {
  }
}
