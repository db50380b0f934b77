/** Executing a compiled query: scan each block, drop lanes beyond the last row,
    verify strings on the surviving lanes, count, and sum by bit planes. */
module QueryRunner {
  import opened Words
  import opened SimdTransposer
  import opened Storage
  import opened TailPayload
  import opened MemTables
  import opened BlockReader
  import opened QueryPlanner
  import opened PlanMeaning

  // ----- masked eight-byte comparison

  /** Eight bytes of the payload; bytes beyond its end read as zero. */
  function EightBytes(tail: Str, pos: nat): (s: Str)
    ensures |s| == 8
  {
    seq(8, i requires 0 <= i < 8 => ByteFrom(tail, pos, i))
  }

  function ByteFrom(tail: Str, pos: nat, i: nat): byte { ByteOrZero(tail, pos + i) }

  predicate MaskedEqual(tail: Str, pos: nat, pattern: Str) {
    And(WordOf(Decode(EightBytes(tail, pos))), LowMask(8 * |pattern|)) == WordOf(Decode(pattern))
  }

  lemma MaskLow(w: Word, k: nat)
    requires k <= 64
    ensures Value(And(w, LowMask(k))) == Value(w[..k])
  {
    var m := And(w, LowMask(k));
    assert m[..k] == w[..k];
    ValueTrim(m, k);
  }

  lemma MaskedValue(w: Word, k: nat, c: nat)
    requires k <= 64 && c < TWO_64
    ensures And(w, LowMask(k)) == WordOf(c) <==> Value(w[..k]) == c
  {
    hide WordOf, Value, And, LowMask;
    MaskLow(w, k);
    WordValue(c);
    if Value(w[..k]) == c { ValueInjective(And(w, LowMask(k)), WordOf(c)); }
  }

  /** The masked comparison looks at exactly the pattern's bytes. */
  lemma MaskedCompare(tail: Str, pos: nat, pattern: Str)
    requires |pattern| < 8 && pos + |pattern| <= |tail|
    ensures MaskedEqual(tail, pos, pattern) <==> tail[pos..pos + |pattern|] == pattern
  {
    hide *;
    EightPrefix(tail, pos, |pattern|);
    EightIs(tail, pos, pattern);
    PrefixNumber(EightBytes(tail, pos), |pattern|);
    DecodeBound(pattern);
    Pow256Below8(|pattern|);
    MaskedValue(WordOf(Decode(EightBytes(tail, pos))), 8 * |pattern|, Decode(pattern));
    if Decode(EightBytes(tail, pos)[..|pattern|]) == Decode(pattern) { DecodeInjective(EightBytes(tail, pos)[..|pattern|], pattern); }
  }

  lemma EightPrefix(tail: Str, pos: nat, n: nat)
    requires n < 8 && pos + n <= |tail|
    ensures |EightBytes(tail, pos)| == 8 && EightBytes(tail, pos)[..n] == tail[pos..pos + n]
  {
  }

  lemma EightIs(tail: Str, pos: nat, pattern: Str)
    requires |pattern| < 8
    ensures MaskedEqual(tail, pos, pattern)
            <==> And(WordOf(Decode(EightBytes(tail, pos))), LowMask(8 * |pattern|)) == WordOf(Decode(pattern))
  {
    hide And, WordOf, Decode, EightBytes, LowMask;
  }

  /** The low bits of eight bytes are the number of the first bytes. */
  lemma PrefixNumber(eight: Str, n: nat)
    requires |eight| == 8 && n < 8
    ensures Value(WordOf(Decode(eight))[..8 * n]) == Decode(eight[..n])
  {
    hide *;
    LowBits(Decode(eight), 8 * n);
    BytesAreBits(n);
    DecodePrefix(eight, n);
  }

  lemma Pow256Below8(n: nat)
    requires n < 8
    ensures Pow256(n) <= TWO_64
  {
    Pow256Of8();
    Pow256Monotone(n, 8);
  }

  lemma {:induction false} Pow256Monotone(m: nat, n: nat)
    requires m <= n
    ensures Pow256(m) <= Pow256(n)
  {
    if m < n { Pow256Monotone(m, n - 1); }
  }

  method PrefixEqual(tail: Str, pos: nat, pattern: Str) returns (equal: bool)
    requires pos + |pattern| <= |tail|
    ensures equal == (tail[pos..pos + |pattern|] == pattern)
  {
    if |pattern| < 8 {
      MaskedCompare(tail, pos, pattern);
      equal := MaskedEqual(tail, pos, pattern);
    } else {
      equal := tail[pos..pos + |pattern|] == pattern;
    }
  }

  /** One string test on the bytes at pos. */
  method AcceptText(op: PredicateOp, tail: Str, pos: nat, len: nat, pattern: Str) returns (ok: bool)
    requires pos + len <= |tail| && op in {EQ, LIKE_PREFIX, LIKE_CONTAINS}
    ensures ok == MatchString(tail[pos..pos + len], op, pattern)
  {
    var text := tail[pos..pos + len];
    if op == EQ {
      ok := false;
      if len == |pattern| { ok := PrefixEqual(tail, pos, pattern); }
    } else if op == LIKE_PREFIX {
      ok := false;
      if len >= |pattern| {
        ok := PrefixEqual(tail, pos, pattern);
        assert text[..|pattern|] == tail[pos..pos + |pattern|];
      }
    } else {
      ok := len >= |pattern| && Contains(text, pattern);
    }
  }

  // ----- deferred verification

  predicate Parallel(run: Runner) {
    |run.stringCols| == |run.stringPreds| == |run.patterns|
  }

  /** Text of string predicate p in row r; `rows` rows in the block. */
  function TextOf(run: Runner, tail: Str, rows: nat, p: nat, r: nat): Str
    requires p < |run.stringCols|
  {
    var idx := Slot(run.stringCols[p], rows, r);
    if Readable(tail, idx) then ReadString(tail, idx) else []
  }

  /** Several predicates: operators other than the three string ones are skipped. */
  predicate Accepts(run: Runner, tail: Str, rows: nat, p: nat, r: nat)
    requires Parallel(run) && p < |run.stringPreds|
  {
    var op := run.stringPreds[p].op;
    op in {GT, LT} || MatchString(TextOf(run, tail, rows, p, r), op, run.patterns[p])
  }

  predicate AcceptsTo(run: Runner, tail: Str, rows: nat, k: nat, r: nat)
    requires Parallel(run) && k <= |run.stringPreds|
  {
    forall p :: 0 <= p < k ==> Accepts(run, tail, rows, p, r)
  }

  /** A single predicate is tested on its own, and an operator other than the
      three string ones then accepts nothing. */
  predicate Verified(run: Runner, tail: Str, rows: nat, r: nat)
    requires Parallel(run)
  {
    if |run.stringPreds| == 1 then MatchString(TextOf(run, tail, rows, 0, r), run.stringPreds[0].op, run.patterns[0])
    else AcceptsTo(run, tail, rows, |run.stringPreds|, r)
  }

  /** Every string the loops may look at is in the tail. */
  predicate TextsReadable(run: Runner, tail: Str, rows: nat, candidates: Word) {
    forall r, p :: 0 <= r < 64 && candidates[r] && 0 <= p < |run.stringCols| ==> Readable(tail, Slot(run.stringCols[p], rows, r))
  }

  lemma TextReadable(run: Runner, tail: Str, rows: nat, candidates: Word, r: nat)
    requires TextsReadable(run, tail, rows, candidates) && r < 64 && candidates[r]
    ensures forall p :: 0 <= p < |run.stringCols| ==> Readable(tail, Slot(run.stringCols[p], rows, r))
  {
    hide Readable, Slot;
  }

  /** Candidate lanes that pass verification. */
  function FinalMask(run: Runner, tail: Str, rows: nat, candidates: Word): Word
    requires Parallel(run)
  {
    seq(64, r requires 0 <= r < 64 => candidates[r] && Verified(run, tail, rows, r))
  }

  /** Candidate lanes the loop over all predicates keeps. */
  function GeneralMask(run: Runner, tail: Str, rows: nat, candidates: Word): Word
    requires Parallel(run)
  {
    seq(64, r requires 0 <= r < 64 => candidates[r] && AcceptsTo(run, tail, rows, |run.stringPreds|, r))
  }

  // ----- the fast path of a single predicate

  /** A pattern of fewer than eight bytes as a number, and the mask of its bits. */
  function PatternConst(pattern: Str): Word {
    if |pattern| < 8 then WordOf(Decode(pattern)) else ZEROS
  }

  function PatternMask(pattern: Str): Word {
    if |pattern| < 8 then LowMask(8 * |pattern|) else ZEROS
  }

  predicate BeginsWith(tail: Str, pos: nat, pattern: Str, patConst: Word, patMask: Word)
    requires pos + |pattern| <= |tail|
  {
    if |pattern| < 8 then And(WordOf(Decode(EightBytes(tail, pos))), patMask) == patConst
    else tail[pos..pos + |pattern|] == pattern
  }

  predicate FastTest(op: PredicateOp, tail: Str, pos: nat, len: nat, pattern: Str)
    requires pos + len <= |tail|
  {
    match op
    case EQ => len == |pattern| && BeginsWith(tail, pos, pattern, PatternConst(pattern), PatternMask(pattern))
    case LIKE_PREFIX => len >= |pattern| && BeginsWith(tail, pos, pattern, PatternConst(pattern), PatternMask(pattern))
    case LIKE_CONTAINS => len >= |pattern| && Contains(tail[pos..pos + len], pattern)
    case GT => false
    case LT => false
  }

  predicate FastLane(run: Runner, tail: Str, rows: nat, r: nat)
    requires Parallel(run) && |run.stringPreds| == 1 && Readable(tail, Slot(run.stringCols[0], rows, r))
  {
    var idx := Slot(run.stringCols[0], rows, r);
    var start, end := ReadU64(tail, 8 + 8 * idx), ReadU64(tail, 16 + 8 * idx);
    FastTest(run.stringPreds[0].op, tail, DataStart(tail) + start, end - start - 1, run.patterns[0])
  }

  /** Candidate lanes the loop for one predicate keeps. */
  function FastMask(run: Runner, tail: Str, rows: nat, candidates: Word): Word
    requires Parallel(run) && |run.stringPreds| == 1 && TextsReadable(run, tail, rows, candidates)
  {
    seq(64, r requires 0 <= r < 64 =>
      candidates[r] && FastLane(run, tail, rows, r))
  }

  lemma PrefixOf(tail: Str, pos: nat, len: nat, pattern: Str)
    requires pos + len <= |tail| && |pattern| <= len
    ensures tail[pos..pos + len][..|pattern|] == tail[pos..pos + |pattern|]
    ensures pattern <= tail[pos..pos + len] <==> tail[pos..pos + |pattern|] == pattern
  {
  }

  /** The hoisted constants decide whether the bytes begin with the pattern. */
  lemma BeginsExact(tail: Str, pos: nat, pattern: Str)
    requires pos + |pattern| <= |tail|
    ensures BeginsWith(tail, pos, pattern, PatternConst(pattern), PatternMask(pattern)) <==> tail[pos..pos + |pattern|] == pattern
  {
    hide Decode, EightBytes, LowMask, And, WordOf;
    if |pattern| < 8 { MaskedCompare(tail, pos, pattern); }
  }

  /** Each fast test decides the string predicate. */
  lemma FastTestExact(op: PredicateOp, tail: Str, pos: nat, len: nat, pattern: Str)
    requires pos + len <= |tail|
    ensures FastTest(op, tail, pos, len, pattern) == MatchString(tail[pos..pos + len], op, pattern)
  {
    hide BeginsWith, PatternConst, PatternMask, Contains;
    if len >= |pattern| {
      PrefixOf(tail, pos, len, pattern);
      BeginsExact(tail, pos, pattern);
    }
    if op == LIKE_CONTAINS && Contains(tail[pos..pos + len], pattern) { ContainedFits(tail[pos..pos + len], pattern); }
  }

  lemma ContainedFits(text: Str, pattern: Str)
    requires Contains(text, pattern)
    ensures |pattern| <= |text|
  {
  }

  lemma FastLaneExact(run: Runner, tail: Str, rows: nat, r: nat)
    requires Parallel(run) && |run.stringPreds| == 1 && Readable(tail, Slot(run.stringCols[0], rows, r))
    ensures FastLane(run, tail, rows, r) == Verified(run, tail, rows, r)
  {
    hide MatchString, FastTest, Slot, ReadU64;
    var idx := Slot(run.stringCols[0], rows, r);
    var start, end := ReadU64(tail, 8 + 8 * idx), ReadU64(tail, 16 + 8 * idx);
    FastTestExact(run.stringPreds[0].op, tail, DataStart(tail) + start, end - start - 1, run.patterns[0]);
  }

  lemma AcceptsOnly(run: Runner, tail: Str, rows: nat, r: nat)
    requires Parallel(run) && |run.stringPreds| == 1
    ensures AcceptsTo(run, tail, rows, 1, r) == (run.stringPreds[0].op in {GT, LT} || Verified(run, tail, rows, r))
  {
    hide TextOf, MatchString;
    assert AcceptsTo(run, tail, rows, 1, r) == Accepts(run, tail, rows, 0, r);
  }

  lemma FastMaskFinal(run: Runner, tail: Str, rows: nat, candidates: Word)
    requires Parallel(run) && |run.stringPreds| == 1 && TextsReadable(run, tail, rows, candidates)
    ensures FastMask(run, tail, rows, candidates) == FinalMask(run, tail, rows, candidates)
  {
    forall r | 0 <= r < 64 ensures FastMask(run, tail, rows, candidates)[r] == (candidates[r] && Verified(run, tail, rows, r)) {
      LaneVerdicts(run, tail, rows, candidates, r);
    }
    hide Verified, FastMask, TextsReadable;
  }

  /** With one string predicate, the fast loops keep what the general loop would
      if and only if the operator is one they know or there is no candidate:
      otherwise the fast path keeps none and the general loop keeps all. */
  lemma FastPathAgrees(run: Runner, tail: Str, rows: nat, candidates: Word)
    requires Parallel(run) && |run.stringPreds| == 1 && TextsReadable(run, tail, rows, candidates)
    ensures FastMask(run, tail, rows, candidates) == GeneralMask(run, tail, rows, candidates)
            <==> run.stringPreds[0].op in {EQ, LIKE_PREFIX, LIKE_CONTAINS} || candidates == ZEROS
    ensures run.stringPreds[0].op in {GT, LT} ==>
      FastMask(run, tail, rows, candidates) == ZEROS && GeneralMask(run, tail, rows, candidates) == candidates
  {
    var fast, general := FastMask(run, tail, rows, candidates), GeneralMask(run, tail, rows, candidates);
    forall r | 0 <= r < 64
      ensures fast[r] == (candidates[r] && Verified(run, tail, rows, r))
      ensures general[r] == (candidates[r] && (run.stringPreds[0].op in {GT, LT} || Verified(run, tail, rows, r)))
    {
      LaneVerdicts(run, tail, rows, candidates, r);
    }
    if run.stringPreds[0].op in {GT, LT} {
      forall r | 0 <= r < 64 ensures !Verified(run, tail, rows, r) { NoStringMatch(run, tail, rows, r); }
    }
    hide FastMask, GeneralMask, Verified, TextsReadable;
    assert run.stringPreds[0].op in {GT, LT} ==> fast == ZEROS && general == candidates;
    assert run.stringPreds[0].op !in {GT, LT} ==> fast == general;
  }

  lemma LaneVerdicts(run: Runner, tail: Str, rows: nat, candidates: Word, r: nat)
    requires Parallel(run) && |run.stringPreds| == 1 && TextsReadable(run, tail, rows, candidates) && r < 64
    ensures FastMask(run, tail, rows, candidates)[r] == (candidates[r] && Verified(run, tail, rows, r))
    ensures GeneralMask(run, tail, rows, candidates)[r]
            == (candidates[r] && (run.stringPreds[0].op in {GT, LT} || Verified(run, tail, rows, r)))
  {
    hide Verified, FastLane, AcceptsTo, Readable, Slot;
    if candidates[r] {
      TextReadable(run, tail, rows, candidates, r);
      FastLaneExact(run, tail, rows, r);
    }
    AcceptsOnly(run, tail, rows, r);
  }

  lemma NoStringMatch(run: Runner, tail: Str, rows: nat, r: nat)
    requires Parallel(run) && |run.stringPreds| == 1 && run.stringPreds[0].op in {GT, LT}
    ensures !Verified(run, tail, rows, r)
  {
  }

  // ----- walking the candidate lanes

  /** Lanes already taken from the work mask are settled. */
  ghost predicate Settled(target: Word, todo: Word, mask: Word) {
    forall r :: 0 <= r < 64 ==> mask[r] == (!todo[r] && target[r])
  }

  lemma Settle(target: Word, todo: Word, mask: Word, i: nat)
    requires Settled(target, todo, mask) && i < 64 && todo[i]
    ensures target[i] ==> Settled(target, todo[i := false], Or(mask, OneBit(i)))
    ensures !target[i] ==> Settled(target, todo[i := false], mask)
  {
  }

  predicate Within(inner: Word, outer: Word) { forall r :: 0 <= r < 64 && inner[r] ==> outer[r] }

  lemma SettleStart(target: Word, candidates: Word)
    requires Within(target, candidates)
    ensures Settled(target, candidates, ZEROS) && Within(candidates, candidates)
  {
  }

  lemma SettleEnd(target: Word, mask: Word)
    requires Settled(target, ZEROS, mask)
    ensures mask == target
  {
  }

  lemma StillWithin(todo: Word, candidates: Word, i: nat)
    requires Within(todo, candidates) && i < 64 && todo[i]
    ensures candidates[i] && Within(todo[i := false], candidates)
  {
  }

  lemma MasksWithin(run: Runner, tail: Str, rows: nat, candidates: Word)
    requires Parallel(run)
    ensures Within(GeneralMask(run, tail, rows, candidates), candidates)
    ensures |run.stringPreds| == 1 && TextsReadable(run, tail, rows, candidates) ==> Within(FastMask(run, tail, rows, candidates), candidates)
  {
    hide AcceptsTo, FastLane, Readable, Slot;
  }

  /** Take the lowest set bit off the work mask. */
  method NextLane(todo: Word) returns (i: nat, rest: Word)
    requires todo != ZEROS
    ensures i < 64 && todo[i] && rest == todo[i := false]
    ensures forall k :: 0 <= k < i ==> !todo[k]
    ensures Popcount(rest) == Popcount(todo) - 1
  {
    ZeroWord(todo);
    ClearLowest(todo);
    i := TrailingZeros(todo);
    rest := And(todo, Decrement(todo));
  }

  /** Where string idx starts, behind the offset table, and its length. */
  method LocateText(tail: Str, idx: nat) returns (pos: nat, len: nat)
    requires Readable(tail, idx)
    ensures pos == DataStart(tail) + ReadU64(tail, 8 + 8 * idx) && pos + len <= |tail|
    ensures len == ReadU64(tail, 16 + 8 * idx) - ReadU64(tail, 8 + 8 * idx) - 1
  {
    var start, end := ReadU64(tail, 8 + 8 * idx), ReadU64(tail, 16 + 8 * idx);
    pos, len := DataStart(tail) + start, end - start - 1;
  }

  // ----- the three fast loops

  lemma FastLaneIs(run: Runner, tail: Str, rows: nat, candidates: Word, r: nat)
    requires Parallel(run) && |run.stringPreds| == 1 && TextsReadable(run, tail, rows, candidates) && r < 64 && candidates[r]
    ensures var idx := run.stringCols[0] * rows + r;
            && Readable(tail, idx)
            && var start, end := ReadU64(tail, 8 + 8 * idx), ReadU64(tail, 16 + 8 * idx);
               FastMask(run, tail, rows, candidates)[r]
               == FastTest(run.stringPreds[0].op, tail, DataStart(tail) + start, end - start - 1, run.patterns[0])
  {
    assert Slot(run.stringCols[0], rows, r) == run.stringCols[0] * rows + r;
    hide Slot, Readable, FastTest;
    TextReadable(run, tail, rows, candidates, r);
  }

  method VerifyEqual(run: Runner, tail: Str, rows: nat, candidates: Word) returns (mask: Word)
    requires Parallel(run) && |run.stringPreds| == 1 && run.stringPreds[0].op == EQ && TextsReadable(run, tail, rows, candidates)
    ensures mask == FastMask(run, tail, rows, candidates)
  {
    hide FastMask, TextsReadable, Readable, Settled, Within, EightBytes, Popcount, Decode;
    ghost var target := FastMask(run, tail, rows, candidates);
    MasksWithin(run, tail, rows, candidates);
    SettleStart(target, candidates);
    var pattern, base := run.patterns[0], run.stringCols[0] * rows;
    var patConst, patMask := PatternConst(pattern), PatternMask(pattern);
    mask := ZEROS;
    var todo := candidates;
    while todo != ZEROS
      invariant Settled(target, todo, mask) && Within(todo, candidates)
      decreases Popcount(todo)
    {
      var i, rest := NextLane(todo);
      Settle(target, todo, mask, i);
      StillWithin(todo, candidates, i);
      todo := rest;
      FastLaneIs(run, tail, rows, candidates, i);
      var pos, len := LocateText(tail, base + i);
      if len == |pattern| {
        if |pattern| < 8 {
          if And(WordOf(Decode(EightBytes(tail, pos))), patMask) == patConst { mask := Or(mask, OneBit(i)); }
        } else if tail[pos..pos + |pattern|] == pattern {
          mask := Or(mask, OneBit(i));
        }
      }
    }
    SettleEnd(target, mask);
  }

  method VerifyPrefix(run: Runner, tail: Str, rows: nat, candidates: Word) returns (mask: Word)
    requires Parallel(run) && |run.stringPreds| == 1 && run.stringPreds[0].op == LIKE_PREFIX && TextsReadable(run, tail, rows, candidates)
    ensures mask == FastMask(run, tail, rows, candidates)
  {
    hide FastMask, TextsReadable, Readable, Settled, Within, EightBytes, Popcount, Decode;
    ghost var target := FastMask(run, tail, rows, candidates);
    MasksWithin(run, tail, rows, candidates);
    SettleStart(target, candidates);
    var pattern, base := run.patterns[0], run.stringCols[0] * rows;
    var patConst, patMask := PatternConst(pattern), PatternMask(pattern);
    mask := ZEROS;
    var todo := candidates;
    while todo != ZEROS
      invariant Settled(target, todo, mask) && Within(todo, candidates)
      decreases Popcount(todo)
    {
      var i, rest := NextLane(todo);
      Settle(target, todo, mask, i);
      StillWithin(todo, candidates, i);
      todo := rest;
      FastLaneIs(run, tail, rows, candidates, i);
      var pos, len := LocateText(tail, base + i);
      if len >= |pattern| {
        if |pattern| < 8 {
          if And(WordOf(Decode(EightBytes(tail, pos))), patMask) == patConst { mask := Or(mask, OneBit(i)); }
        } else if tail[pos..pos + |pattern|] == pattern {
          mask := Or(mask, OneBit(i));
        }
      }
    }
    SettleEnd(target, mask);
  }

  method VerifyContains(run: Runner, tail: Str, rows: nat, candidates: Word) returns (mask: Word)
    requires Parallel(run) && |run.stringPreds| == 1 && run.stringPreds[0].op == LIKE_CONTAINS && TextsReadable(run, tail, rows, candidates)
    ensures mask == FastMask(run, tail, rows, candidates)
  {
    hide FastMask, TextsReadable, Readable, Settled, Within, Popcount, Contains;
    ghost var target := FastMask(run, tail, rows, candidates);
    MasksWithin(run, tail, rows, candidates);
    SettleStart(target, candidates);
    var pattern, base := run.patterns[0], run.stringCols[0] * rows;
    mask := ZEROS;
    var todo := candidates;
    while todo != ZEROS
      invariant Settled(target, todo, mask) && Within(todo, candidates)
      decreases Popcount(todo)
    {
      var i, rest := NextLane(todo);
      Settle(target, todo, mask, i);
      StillWithin(todo, candidates, i);
      todo := rest;
      FastLaneIs(run, tail, rows, candidates, i);
      var pos, len := LocateText(tail, base + i);
      if len >= |pattern| && Contains(tail[pos..pos + len], pattern) { mask := Or(mask, OneBit(i)); }
    }
    SettleEnd(target, mask);
  }

  /** The path of a single predicate; another operator leaves the mask empty. */
  method VerifySingle(run: Runner, tail: Str, rows: nat, candidates: Word) returns (mask: Word)
    requires Parallel(run) && |run.stringPreds| == 1 && TextsReadable(run, tail, rows, candidates)
    ensures mask == FastMask(run, tail, rows, candidates)
  {
    hide FastMask, TextsReadable;
    match run.stringPreds[0].op
    case EQ => mask := VerifyEqual(run, tail, rows, candidates);
    case LIKE_PREFIX => mask := VerifyPrefix(run, tail, rows, candidates);
    case LIKE_CONTAINS => mask := VerifyContains(run, tail, rows, candidates);
    case _ =>
      FastPathAgrees(run, tail, rows, candidates);
      mask := ZEROS;
  }

  // ----- the loop over all predicates

  method TestLane(run: Runner, tail: Str, rows: nat, p: nat, r: nat) returns (ok: bool)
    requires Parallel(run) && p < |run.stringPreds| && run.stringPreds[p].op in {EQ, LIKE_PREFIX, LIKE_CONTAINS}
    requires Readable(tail, Slot(run.stringCols[p], rows, r))
    ensures ok == Accepts(run, tail, rows, p, r)
  {
    hide Slot, MatchString;
    var pos, len := LocateText(tail, Slot(run.stringCols[p], rows, r));
    ok := AcceptText(run.stringPreds[p].op, tail, pos, len, run.patterns[p]);
  }

  method TestAll(run: Runner, tail: Str, rows: nat, r: nat) returns (matched: bool)
    requires Parallel(run)
    requires forall p :: 0 <= p < |run.stringCols| ==> Readable(tail, Slot(run.stringCols[p], rows, r))
    ensures matched == AcceptsTo(run, tail, rows, |run.stringPreds|, r)
  {
    hide Readable, Slot, MatchString, TextOf;
    for p := 0 to |run.stringPreds|
      invariant AcceptsTo(run, tail, rows, p, r)
    {
      if run.stringPreds[p].op in {EQ, LIKE_PREFIX, LIKE_CONTAINS} {
        var ok := TestLane(run, tail, rows, p, r);
        if !ok { return false; }
      } else {
        assert run.stringPreds[p].op == GT || run.stringPreds[p].op == LT;
      }
    }
    return true;
  }

  lemma GeneralLaneIs(run: Runner, tail: Str, rows: nat, candidates: Word, r: nat)
    requires Parallel(run) && r < 64 && candidates[r]
    ensures GeneralMask(run, tail, rows, candidates)[r] == AcceptsTo(run, tail, rows, |run.stringPreds|, r)
  {
    hide AcceptsTo;
  }

  method VerifyAll(run: Runner, tail: Str, rows: nat, candidates: Word) returns (mask: Word)
    requires Parallel(run) && TextsReadable(run, tail, rows, candidates)
    ensures mask == GeneralMask(run, tail, rows, candidates)
  {
    hide AcceptsTo, Settled, Within, GeneralMask, TextsReadable, Readable, Slot, Popcount;
    ghost var target := GeneralMask(run, tail, rows, candidates);
    MasksWithin(run, tail, rows, candidates);
    SettleStart(target, candidates);
    mask := ZEROS;
    var todo := candidates;
    while todo != ZEROS
      invariant Settled(target, todo, mask) && Within(todo, candidates)
      decreases Popcount(todo)
    {
      var i, rest := NextLane(todo);
      Settle(target, todo, mask, i);
      StillWithin(todo, candidates, i);
      todo := rest;
      TextReadable(run, tail, rows, candidates, i);
      GeneralLaneIs(run, tail, rows, candidates, i);
      var matched := TestAll(run, tail, rows, i);
      if matched { mask := Or(mask, OneBit(i)); }
    }
    SettleEnd(target, mask);
  }

  lemma FinalMaskIs(run: Runner, tail: Str, rows: nat, candidates: Word)
    requires Parallel(run)
    ensures run.stringPreds == [] ==> FinalMask(run, tail, rows, candidates) == candidates
    ensures |run.stringPreds| != 1 ==> FinalMask(run, tail, rows, candidates) == GeneralMask(run, tail, rows, candidates)
  {
    hide Accepts;
  }

  method Verify(run: Runner, tail: Str, rows: nat, candidates: Word) returns (mask: Word)
    requires Parallel(run) && TextsReadable(run, tail, rows, candidates)
    ensures mask == FinalMask(run, tail, rows, candidates)
  {
    hide FinalMask, FastMask, GeneralMask, TextsReadable;
    FinalMaskIs(run, tail, rows, candidates);
    if run.stringPreds == [] {
      mask := candidates;
    } else if |run.stringPreds| == 1 {
      mask := VerifySingle(run, tail, rows, candidates);
      FastMaskFinal(run, tail, rows, candidates);
    } else {
      mask := VerifyAll(run, tail, rows, candidates);
    }
  }

  // ----- SUM by bit planes

  /** `count << bit` on 64 bits. */
  function ShiftLeft(count: nat, bit: nat): u64 { Wrap(count * Pow2(bit)) }

  /** Weighted popcounts of the planes below k. */
  function PlaneSum(mask: Word, planes: Matrix, k: nat): nat
    requires k <= 64
  {
    if k == 0 then 0 else PlaneSum(mask, planes, k - 1) + Popcount(And(mask, planes[k - 1])) * Pow2(k - 1)
  }

  /** Sum of the low k bits of the selected lanes below n. */
  function LaneSum(mask: Word, planes: Matrix, k: nat, n: nat): nat
    requires k <= 64 && n <= 64
  {
    if n == 0 then 0
    else LaneSum(mask, planes, k, n - 1) + if mask[n - 1] then Value(Transposed(planes)[n - 1][..k]) else 0
  }

  lemma {:induction false} PopcountSnoc(w: seq<bool>, bit: bool)
    ensures Popcount(w + [bit]) == Popcount(w) + if bit then 1 else 0
  {
    if w == [] {
      assert [] + [bit] == [bit];
    } else {
      PopcountSnoc(w[1..], bit);
      assert (w + [bit])[1..] == w[1..] + [bit];
    }
  }

  lemma PopcountLow(w: seq<bool>, n: nat)
    requires n < |w|
    ensures Popcount(w[..n + 1]) == Popcount(w[..n]) + if w[n] then 1 else 0
  {
    assert w[..n + 1] == w[..n] + [w[n]];
    PopcountSnoc(w[..n], w[n]);
  }

  lemma LaneBit(planes: Matrix, k: nat, r: nat)
    requires k < 64 && r < 64
    ensures Value(Transposed(planes)[r][..k + 1]) == Value(Transposed(planes)[r][..k]) + if planes[k][r] then Pow2(k) else 0
  {
    ValueLow(Transposed(planes)[r], k);
  }

  lemma Distribute(a: nat, d: nat, p: nat)
    ensures (a + d) * p == a * p + d * p
  {
  }

  lemma {:induction false} LaneSumPlane(mask: Word, planes: Matrix, k: nat, n: nat)
    requires k < 64 && n <= 64
    ensures LaneSum(mask, planes, k + 1, n) ==
            LaneSum(mask, planes, k, n) + Popcount(And(mask, planes[k])[..n]) * Pow2(k)
  {
    var both := And(mask, planes[k]);
    if n > 0 {
      var bit := both[n - 1];
      assert bit == (mask[n - 1] && planes[k][n - 1]);
      hide Transposed, Value, Popcount, Pow2, And;
      LaneSumPlane(mask, planes, k, n - 1);
      LaneBit(planes, k, n - 1);
      PopcountLow(both, n - 1);
      Distribute(Popcount(both[..n - 1]), if bit then 1 else 0, Pow2(k));
    }
  }

  lemma {:induction false} NoBits(mask: Word, planes: Matrix, n: nat)
    requires n <= 64
    ensures LaneSum(mask, planes, 0, n) == 0
  {
    if n > 0 { NoBits(mask, planes, n - 1); }
  }

  /** The weighted popcounts add up the selected lanes. */
  lemma {:induction false} PlaneSumIsLaneSum(mask: Word, planes: Matrix, k: nat)
    requires k <= 64
    ensures PlaneSum(mask, planes, k) == LaneSum(mask, planes, k, 64)
  {
    if k == 0 {
      NoBits(mask, planes, 64);
    } else {
      hide LaneSum;
      PlaneSumIsLaneSum(mask, planes, k - 1);
      LaneSumPlane(mask, planes, k - 1, 64);
      var both := And(mask, planes[k - 1]);
      assert both[..64] == both;
    }
  }

  /** Zero planes on top may be left out. */
  lemma {:induction false} PlaneSumTrim(mask: Word, planes: Matrix, k: nat, n: nat)
    requires k <= n <= 64 && forall b :: k <= b < n ==> planes[b] == ZEROS
    ensures PlaneSum(mask, planes, n) == PlaneSum(mask, planes, k)
  {
    if k < n {
      PlaneSumTrim(mask, planes, k, n - 1);
      PopcountZero(And(mask, planes[n - 1]));
    }
  }

  lemma {:induction false} NothingSelected(planes: Matrix, k: nat, n: nat)
    requires k <= 64 && n <= 64
    ensures LaneSum(ZEROS, planes, k, n) == 0
  {
    if n > 0 { NothingSelected(planes, k, n - 1); }
  }

  method AddPlane(mask: Word, planes: Matrix, bit: nat, sum: u64) returns (sum': u64)
    requires bit < 64 && sum == Wrap(PlaneSum(mask, planes, bit))
    ensures sum' == Wrap(PlaneSum(mask, planes, bit + 1))
  {
    var m := And(mask, planes[bit]);
    var was, more := PlaneSum(mask, planes, bit), Popcount(m) * Pow2(bit);
    hide Wrap;
    WrapAdd(was, more);
    WrapAdd(more, sum);
    sum' := Wrap(sum + ShiftLeft(Popcount(m), bit));
  }

  /** Trim zero planes, add four planes at a time, then the rest. */
  method SumPlanes(mask: Word, planes: Matrix, maxBit: nat) returns (sum: u64)
    requires maxBit < 64
    ensures sum == Wrap(LaneSum(mask, planes, maxBit + 1, 64))
  {
    hide LaneSum, PlaneSum, Wrap;
    var top: nat := maxBit;
    while top > 0 && planes[top] == ZEROS
      invariant top <= maxBit && forall b :: top < b <= maxBit ==> planes[b] == ZEROS
    {
      top := top - 1;
    }
    PlaneSumStart(mask, planes);
    sum := 0;
    var bit: int := 0;
    while bit <= top - 3
      invariant 0 <= bit <= top + 1 && sum == Wrap(PlaneSum(mask, planes, bit))
    {
      sum := AddPlane(mask, planes, bit, sum);
      sum := AddPlane(mask, planes, bit + 1, sum);
      sum := AddPlane(mask, planes, bit + 2, sum);
      sum := AddPlane(mask, planes, bit + 3, sum);
      bit := bit + 4;
    }
    while bit <= top
      invariant 0 <= bit <= top + 1 && sum == Wrap(PlaneSum(mask, planes, bit))
    {
      sum := AddPlane(mask, planes, bit, sum);
      bit := bit + 1;
    }
    PlaneSumTrim(mask, planes, top + 1, maxBit + 1);
    PlaneSumIsLaneSum(mask, planes, maxBit + 1);
  }

  lemma PlaneSumStart(mask: Word, planes: Matrix)
    ensures Wrap(PlaneSum(mask, planes, 0)) == 0
  {
  }

  // ----- blocks and row groups

  /** Lanes the compiled scan lets through, without lanes beyond the last row. */
  function Candidates(run: Runner, block: Block, rows: nat, ctx: Context): Word {
    var scanned := ScanBlock(run.code, block, ctx);
    if rows < 64 then And(scanned, LowMask(rows)) else scanned
  }

  function Matched(run: Runner, block: Block, rows: nat, ctx: Context): Word
    requires Parallel(run)
  {
    FinalMask(run, block.tail, rows, Candidates(run, block, rows, ctx))
  }

  /** One context per block, readable strings, an aggregate column that exists. */
  predicate Executable(run: Runner, rg: RowGroup, ctxs: seq<Context>) {
    && Parallel(run) && run.maxAggBit < 64
    && |rg.blocks| == |ctxs|
    && (forall b :: 0 <= b < |rg.blocks| ==> ExecutableBlock(run, rg, ctxs, b))
  }

  predicate ExecutableBlock(run: Runner, rg: RowGroup, ctxs: seq<Context>, b: nat)
    requires b < |rg.blocks| == |ctxs|
  {
    && b * 64 < rg.numRows
    && (run.aggIndex.Some? ==> run.aggIndex.value < |rg.blocks[b].columns|)
    && var rows := RowsIn(rg.numRows, b);
       TextsReadable(run, rg.blocks[b].tail, rows, Candidates(run, rg.blocks[b], rows, ctxs[b]))
  }

  function BlockSum(run: Runner, block: Block, mask: Word): nat
    requires run.maxAggBit < 64 && (run.aggIndex.Some? ==> run.aggIndex.value < |block.columns|)
  {
    if run.aggIndex.None? then 0 else LaneSum(mask, block.columns[run.aggIndex.value].planes, run.maxAggBit + 1, 64)
  }

  /** Matches in the first k blocks. */
  function CountBlocks(run: Runner, rg: RowGroup, ctxs: seq<Context>, k: nat): nat
    requires Executable(run, rg, ctxs) && k <= |rg.blocks|
  {
    if k == 0 then 0
    else
      assert ExecutableBlock(run, rg, ctxs, k - 1);
      CountBlocks(run, rg, ctxs, k - 1) + Popcount(Matched(run, rg.blocks[k - 1], RowsIn(rg.numRows, k - 1), ctxs[k - 1]))
  }

  function SumBlocks(run: Runner, rg: RowGroup, ctxs: seq<Context>, k: nat): nat
    requires Executable(run, rg, ctxs) && k <= |rg.blocks|
  {
    if k == 0 then 0
    else
      assert ExecutableBlock(run, rg, ctxs, k - 1);
      SumBlocks(run, rg, ctxs, k - 1)
      + BlockSum(run, rg.blocks[k - 1], Matched(run, rg.blocks[k - 1], RowsIn(rg.numRows, k - 1), ctxs[k - 1]))
  }

  method ExecuteBlock(run: Runner, block: Block, rows: nat, ctx: Context) returns (count: nat, sum: u64)
    requires Parallel(run) && run.maxAggBit < 64 && (run.aggIndex.Some? ==> run.aggIndex.value < |block.columns|)
    requires TextsReadable(run, block.tail, rows, Candidates(run, block, rows, ctx))
    ensures var mask := Matched(run, block, rows, ctx); count == Popcount(mask) && sum == Wrap(BlockSum(run, block, mask))
  {
    hide ScanBlock, TextsReadable, LaneSum, Verified, Wrap;
    var candidates := ScanBlock(run.code, block, ctx);
    if rows < 64 { candidates := And(candidates, LowMask(rows)); }
    if candidates == ZEROS {
      assert Matched(run, block, rows, ctx) == ZEROS;
      NothingMatched(run, block);
      return 0, 0;
    }
    var mask := Verify(run, block.tail, rows, candidates);
    count, sum := Popcount(mask), 0;
    if run.aggIndex.Some? && mask != ZEROS {
      sum := SumPlanes(mask, block.columns[run.aggIndex.value].planes, run.maxAggBit);
    } else {
      NothingMatched(run, block);
    }
  }

  lemma NothingMatched(run: Runner, block: Block)
    requires run.maxAggBit < 64 && (run.aggIndex.Some? ==> run.aggIndex.value < |block.columns|)
    ensures Popcount(ZEROS) == 0 && BlockSum(run, block, ZEROS) == 0 && Wrap(0) == 0
  {
    PopcountZero(ZEROS);
    if run.aggIndex.Some? { NothingSelected(block.columns[run.aggIndex.value].planes, run.maxAggBit + 1, 64); }
  }

  method Execute(run: Runner, rg: RowGroup, ctxs: seq<Context>) returns (count: nat, sum: u64)
    requires Executable(run, rg, ctxs)
    ensures count == CountBlocks(run, rg, ctxs, |rg.blocks|)
    ensures sum == Wrap(SumBlocks(run, rg, ctxs, |rg.blocks|))
  {
    hide Matched, BlockSum, Candidates, TextsReadable, Wrap;
    count, sum := 0, 0;
    for b := 0 to |rg.blocks|
      invariant count == CountBlocks(run, rg, ctxs, b)
      invariant sum == Wrap(SumBlocks(run, rg, ctxs, b))
    {
      assert ExecutableBlock(run, rg, ctxs, b);
      var rows := RowsIn(rg.numRows, b);
      var n, s := ExecuteBlock(run, rg.blocks[b], rows, ctxs[b]);
      count := count + n;
      sum := AddSums(sum, s, SumBlocks(run, rg, ctxs, b), BlockSum(run, rg.blocks[b], Matched(run, rg.blocks[b], rows, ctxs[b])));
    }
  }

  // ----- the whole table: persisted groups, then both memtables

  predicate ExecutableAll(run: Runner, groups: seq<RowGroup>, ctxs: seq<seq<Context>>) {
    |groups| == |ctxs| && forall g :: 0 <= g < |groups| ==> Executable(run, groups[g], ctxs[g])
  }

  function CountGroups(run: Runner, groups: seq<RowGroup>, ctxs: seq<seq<Context>>, k: nat): nat
    requires ExecutableAll(run, groups, ctxs) && k <= |groups|
  {
    if k == 0 then 0
    else CountGroups(run, groups, ctxs, k - 1) + CountBlocks(run, groups[k - 1], ctxs[k - 1], |groups[k - 1].blocks|)
  }

  function SumGroups(run: Runner, groups: seq<RowGroup>, ctxs: seq<seq<Context>>, k: nat): nat
    requires ExecutableAll(run, groups, ctxs) && k <= |groups|
  {
    if k == 0 then 0
    else SumGroups(run, groups, ctxs, k - 1) + SumBlocks(run, groups[k - 1], ctxs[k - 1], |groups[k - 1].blocks|)
  }

  predicate Queryable(batches: seq<Batch>, preds: seq<Predicate>, agg: Str) {
    AllValid(batches) && forall i :: 0 <= i < |batches| ==> Typed(batches[i], preds) && NumericColumn(batches[i], agg)
  }

  method ExecuteTable(run: Runner, groups: seq<RowGroup>, ctxs: seq<seq<Context>>, active: seq<Batch>, frozen: seq<Batch>)
      returns (count: nat, sum: u64)
    requires ExecutableAll(run, groups, ctxs)
    requires Queryable(active, run.preds, run.aggName) && Queryable(frozen, run.preds, run.aggName)
    ensures count == CountGroups(run, groups, ctxs, |groups|)
                     + CountAll(active, run.preds, |active|) + CountAll(frozen, run.preds, |frozen|)
    ensures sum == Wrap(SumGroups(run, groups, ctxs, |groups|)
                        + SumAll(active, run.preds, run.aggName, |active|) + SumAll(frozen, run.preds, run.aggName, |frozen|))
  {
    hide Executable, CountBlocks, SumBlocks, Wrap, Typed, NumericColumn, CountAll, SumAll;
    count, sum := 0, 0;
    for g := 0 to |groups|
      invariant count == CountGroups(run, groups, ctxs, g)
      invariant sum == Wrap(SumGroups(run, groups, ctxs, g))
    {
      var n, s := Execute(run, groups[g], ctxs[g]);
      count := count + n;
      sum := AddSums(sum, s, SumGroups(run, groups, ctxs, g), SumBlocks(run, groups[g], ctxs[g], |groups[g].blocks|));
    }
    var n, s := QueryBatches(active, run.preds, run.aggName);
    ghost var total := SumGroups(run, groups, ctxs, |groups|);
    sum := AddSums(sum, s, total, SumAll(active, run.preds, run.aggName, |active|));
    total := total + SumAll(active, run.preds, run.aggName, |active|);
    var n', s' := QueryBatches(frozen, run.preds, run.aggName);
    sum := AddSums(sum, s', total, SumAll(frozen, run.preds, run.aggName, |frozen|));
    count := count + n + n';
  }

  /** Adding two wrapped sums. */
  method AddSums(a: u64, b: u64, ghost x: int, ghost y: int) returns (sum: u64)
    requires a == Wrap(x) && b == Wrap(y)
    ensures sum == Wrap(x + y)
  {
    hide Wrap;
    WrapAdd(x, y);
    WrapAdd(y, a);
    sum := Wrap(a + b);
  }
}
