/** The in-place 64x64 bit transpose: six butterfly stages of XOR swaps, once
    over single words and once over pairs of words held in vector lanes. */
module SimdTransposer {
  import opened Words

  type Matrix = m: seq<Word> | |m| == 64 witness seq(64, _ => ZEROS)

  /** Word i of the result collects bit i of every word of the input. */
  function Transposed(m: Matrix): (t: Matrix) {
    seq(64, i requires 0 <= i < 64 => seq(64, j requires 0 <= j < 64 => m[j][i]))
  }

  // ----- row and column numbers, bit by bit

  /** Bit k of an index. */
  predicate IndexBit(x: nat, k: nat) {
    if k == 0 then x % 2 == 1 else IndexBit(x / 2, k - 1)
  }

  /** Multiple of 2^(k+1): start of a block of the stage of distance 2^k. */
  predicate Aligned(x: nat, k: nat) {
    x % 2 == 0 && (k > 0 ==> Aligned(x / 2, k - 1))
  }

  /** The index bits of `high` from k up, those of `low` below k. */
  function Mix(k: nat, high: nat, low: nat): nat {
    if k == 0 then high else 2 * Mix(k - 1, high / 2, low / 2) + low % 2
  }

  lemma {:induction false} FlipUp(x: nat, k: nat, n: nat)
    requires k < n && x < Pow2(n) && !IndexBit(x, k)
    ensures IndexBit(x + Pow2(k), k) && x + Pow2(k) < Pow2(n)
  {
    if k > 0 {
      assert (x + Pow2(k)) / 2 == x / 2 + Pow2(k - 1);
      FlipUp(x / 2, k - 1, n - 1);
    }
  }

  lemma {:induction false} FlipDown(x: nat, k: nat)
    requires IndexBit(x, k)
    ensures x >= Pow2(k) && !IndexBit(x - Pow2(k), k)
  {
    if k > 0 {
      FlipDown(x / 2, k - 1);
      assert (x - Pow2(k)) / 2 == x / 2 - Pow2(k - 1);
    }
  }

  lemma {:induction false} BlockRows(block: nat, k: nat, i: nat, n: nat)
    requires Aligned(block, k) && block < Pow2(n) && k < n && block <= i < block + Pow2(k)
    ensures !IndexBit(i, k)
    ensures block + Pow2(k + 1) <= Pow2(n)
  {
    if k > 0 { BlockRows(block / 2, k - 1, i / 2, n - 1); }
  }

  lemma {:induction false} NextBlock(block: nat, k: nat)
    requires Aligned(block, k)
    ensures Aligned(block + Pow2(k + 1), k)
  {
    if k > 0 {
      NextBlock(block / 2, k - 1);
      assert (block + Pow2(k + 1)) / 2 == block / 2 + Pow2(k);
    }
  }

  lemma {:induction false} AlignedZero(k: nat)
    ensures Aligned(0, k)
  {
    if k > 0 { AlignedZero(k - 1); }
  }

  lemma {:induction false} MixBound(k: nat, high: nat, low: nat, n: nat)
    requires k <= n && high < Pow2(n) && low < Pow2(n)
    ensures Mix(k, high, low) < Pow2(n)
  {
    if k > 0 { MixBound(k - 1, high / 2, low / 2, n - 1); }
  }

  lemma {:induction false} MixSelf(n: nat, high: nat, low: nat)
    requires high < Pow2(n) && low < Pow2(n)
    ensures Mix(n, high, low) == low
  {
    if n > 0 { MixSelf(n - 1, high / 2, low / 2); }
  }

  /** Exchanging the k-bits of two indices moves the boundary of a mix by one. */
  lemma {:induction false} MixEqualBits(k: nat, r: nat, c: nat)
    requires IndexBit(r, k) == IndexBit(c, k)
    ensures Mix(k + 1, c, r) == Mix(k, c, r)
  {
    if k == 0 {
      assert Mix(1, c, r) == 2 * (c / 2) + r % 2;
    } else {
      MixEqualBits(k - 1, r / 2, c / 2);
    }
  }

  lemma {:induction false} MixRaise(k: nat, r: nat, c: nat)
    requires !IndexBit(r, k) && IndexBit(c, k)
    ensures c >= Pow2(k) && Mix(k + 1, c - Pow2(k), r + Pow2(k)) == Mix(k, c, r)
  {
    FlipDown(c, k);
    if k == 0 {
      assert Mix(1, c - 1, r + 1) == 2 * ((c - 1) / 2) + (r + 1) % 2;
    } else {
      var p := Pow2(k - 1);
      MixRaise(k - 1, r / 2, c / 2);
      assert (c - 2 * p) / 2 == c / 2 - p && (r + 2 * p) / 2 == r / 2 + p && (r + 2 * p) % 2 == r % 2;
    }
  }

  lemma {:induction false} MixLower(k: nat, r: nat, c: nat)
    requires IndexBit(r, k) && !IndexBit(c, k)
    ensures r >= Pow2(k) && Mix(k + 1, c + Pow2(k), r - Pow2(k)) == Mix(k, c, r)
  {
    FlipDown(r, k);
    if k == 0 {
      assert Mix(1, c + 1, r - 1) == 2 * ((c + 1) / 2) + (r - 1) % 2;
    } else {
      var p := Pow2(k - 1);
      MixLower(k - 1, r / 2, c / 2);
      assert (c + 2 * p) / 2 == c / 2 + p && (r - 2 * p) / 2 == r / 2 - p && (r - 2 * p) % 2 == r % 2;
    }
  }

  // ----- what the stage of distance 2^k does

  /** The stage constant, e.g. 0x0F0F... for k = 2: columns whose k-bit is clear. */
  function StageMask(k: nat): Word {
    seq(64, c requires 0 <= c < 64 => !IndexBit(c, k))
  }

  /** After the stage, entry (r, c) is the old entry with the k-bits of row and
      column exchanged. */
  function StageEntry(m: Matrix, k: nat, r: nat, c: nat): bool
    requires k < 6 && r < 64 && c < 64
  {
    if IndexBit(r, k) == IndexBit(c, k) then m[r][c]
    else if IndexBit(c, k) then FlipUp(r, k, 6); FlipDown(c, k); m[r + Pow2(k)][c - Pow2(k)]
    else FlipUp(c, k, 6); FlipDown(r, k); m[r - Pow2(k)][c + Pow2(k)]
  }

  function Stage(m: Matrix, k: nat): Matrix
    requires k < 6
  {
    seq(64, r requires 0 <= r < 64 => seq(64, c requires 0 <= c < 64 => StageEntry(m, k, r, c)))
  }

  /** The word that the XOR swap exchanges between two rows. */
  function Difference(x: Word, y: Word, k: nat): Word {
    And(Xor(Shr(x, Pow2(k)), y), StageMask(k))
  }

  lemma DifferenceBits(x: Word, y: Word, k: nat, c: nat)
    requires k < 6 && c < 64
    ensures !IndexBit(c, k) ==> c + Pow2(k) < 64 && Difference(x, y, k)[c] == (x[c + Pow2(k)] != y[c])
    ensures IndexBit(c, k) ==> c >= Pow2(k) && !Difference(x, y, k)[c] && Difference(x, y, k)[c - Pow2(k)] == (x[c] != y[c - Pow2(k)])
    ensures c >= Pow2(k) && !IndexBit(c, k) ==> !Difference(x, y, k)[c - Pow2(k)]
  {
    if IndexBit(c, k) {
      FlipDown(c, k);
    } else {
      FlipUp(c, k, 6);
      if c >= Pow2(k) && !IndexBit(c - Pow2(k), k) {
        FlipUp(c - Pow2(k), k, 6);
      }
    }
  }

  /** The XOR swap of two rows at distance 2^k. */
  function SwappedPair(x: Word, y: Word, k: nat): (Word, Word) {
    var t := Difference(x, y, k);
    (Xor(x, Shl(t, Pow2(k))), Xor(y, t))
  }

  lemma SwappedBits(m: Matrix, k: nat, i: nat, c: nat)
    requires k < 6 && i < 64 && !IndexBit(i, k) && c < 64
    ensures i + Pow2(k) < 64 && IndexBit(i + Pow2(k), k)
    ensures var p := SwappedPair(m[i], m[i + Pow2(k)], k);
            p.0[c] == StageEntry(m, k, i, c) && p.1[c] == StageEntry(m, k, i + Pow2(k), c)
  {
    FlipUp(i, k, 6);
    DifferenceBits(m[i], m[i + Pow2(k)], k, c);
    hide Difference, IndexBit, Pow2;
  }

  lemma SwappedRows(m: Matrix, k: nat, i: nat)
    requires k < 6 && i < 64 && !IndexBit(i, k)
    ensures i + Pow2(k) < 64
    ensures SwappedPair(m[i], m[i + Pow2(k)], k) == (Stage(m, k)[i], Stage(m, k)[i + Pow2(k)])
  {
    FlipUp(i, k, 6);
    var d := Pow2(k);
    var p := SwappedPair(m[i], m[i + d], k);
    hide SwappedPair, IndexBit, Pow2, StageEntry;
    forall c | 0 <= c < 64
      ensures p.0[c] == Stage(m, k)[i][c]
      ensures p.1[c] == Stage(m, k)[i + d][c]
    {
      SwappedBits(m, k, i, c);
    }
    assert p.0 == Stage(m, k)[i];
    assert p.1 == Stage(m, k)[i + d];
  }

  // ----- six stages make the transpose

  /** Row and column indices exchanged from bit k up, kept below it. */
  function Exchanged(m: Matrix, k: nat): Matrix
    requires k <= 6
  {
    seq(64, r requires 0 <= r < 64 => seq(64, c requires 0 <= c < 64 =>
      MixBound(k, r, c, 6); MixBound(k, c, r, 6); m[Mix(k, c, r)][Mix(k, r, c)]))
  }

  lemma StageEntryExchanges(m: Matrix, k: nat, r: nat, c: nat)
    requires k < 6 && r < 64 && c < 64
    ensures StageEntry(Exchanged(m, k + 1), k, r, c) == Exchanged(m, k)[r][c]
  {
    if IndexBit(r, k) == IndexBit(c, k) {
      MixEqualBits(k, r, c);
      MixEqualBits(k, c, r);
    } else if IndexBit(r, k) {
      FlipUp(c, k, 6);
      MixLower(k, r, c);
      MixRaise(k, c, r);
    } else {
      FlipUp(r, k, 6);
      MixRaise(k, r, c);
      MixLower(k, c, r);
    }
  }

  /** The invariant of the butterfly: the stage of distance 2^k exchanges one
      more index bit. */
  lemma StageExchanges(m: Matrix, k: nat)
    requires k < 6
    ensures Stage(Exchanged(m, k + 1), k) == Exchanged(m, k)
  {
    forall r | 0 <= r < 64 ensures Stage(Exchanged(m, k + 1), k)[r] == Exchanged(m, k)[r] {
      forall c | 0 <= c < 64 ensures Stage(Exchanged(m, k + 1), k)[r][c] == Exchanged(m, k)[r][c] {
        StageEntryExchanges(m, k, r, c);
      }
    }
  }

  function AllStages(m: Matrix): Matrix {
    Stage(Stage(Stage(Stage(Stage(Stage(m, 5), 4), 3), 2), 1), 0)
  }

  /** All six stages compute exactly the transpose, and it is its own inverse. */
  lemma StagesTranspose(m: Matrix)
    ensures AllStages(m) == Transposed(m)
  {
    ExchangedEnds(m);
    StageExchanges(m, 5);
    StageExchanges(m, 4);
    StageExchanges(m, 3);
    StageExchanges(m, 2);
    StageExchanges(m, 1);
    StageExchanges(m, 0);
  }

  lemma TransposeInvolution(m: Matrix)
    ensures Transposed(Transposed(m)) == m
    ensures AllStages(AllStages(m)) == m
  {
    StagesTranspose(m);
    StagesTranspose(Transposed(m));
    var t := Transposed(Transposed(m));
    forall r | 0 <= r < 64 ensures t[r] == m[r] { assert forall c :: 0 <= c < 64 ==> t[r][c] == m[r][c]; }
  }

  lemma ExchangedEnds(m: Matrix)
    ensures Exchanged(m, 6) == m
    ensures Exchanged(m, 0) == Transposed(m)
  {
    forall r | 0 <= r < 64
      ensures Exchanged(m, 6)[r] == m[r]
      ensures Exchanged(m, 0)[r] == Transposed(m)[r]
    {
      forall c | 0 <= c < 64
        ensures Exchanged(m, 6)[r][c] == m[r][c]
        ensures Exchanged(m, 0)[r][c] == Transposed(m)[r][c]
      {
        MixSelf(6, c, r);
        MixSelf(6, r, c);
      }
    }
  }

  // ----- the scalar routine

  /** One block of a stage: rows below its middle meet the rows above. */
  method ScalarBlock(a: array<Word>, k: nat, block: nat, ghost m: Matrix)
    requires a.Length == 64 && k < 6 && block < 64 && Aligned(block, k)
    requires a[..] == Blend(m, Stage(m, k), block)
    modifies a
    ensures block + Pow2(k + 1) <= 64
    ensures a[..] == Blend(m, Stage(m, k), block + Pow2(k + 1))
  {
    ghost var before, goal := a[..], Stage(m, k);
    var d := Pow2(k);
    assert Pow2(k + 1) == 2 * d && Pow2(6) == 64;
    BlockRows(block, k, block, 6);
    hide *;
    var i := block;
    BlockStarts(m, goal, block, d);
    while i < block + d
      invariant block <= i <= block + d
      invariant a[..] == PartlyDone(before, goal, block, d, i)
    {
      BlockRows(block, k, i, 6);
      SwappedRows(m, k, i);
      StillUndone(m, goal, block, d, i);
      assert a[..][i] == m[i] && a[..][i + d] == m[i + d];
      SwapWords(a, k, i);
      PairDone(before, goal, block, d, i);
      i := i + 1;
    }
    BlockDone(m, goal, block, d);
  }

  /** Pairs (r, r + d) with r below i are done. */
  function PartlyDone<T>(was: seq<T>, goal: seq<T>, block: nat, d: nat, i: nat): seq<T>
    requires |was| == |goal|
  {
    seq(|was|, r requires 0 <= r < |was| => if block <= r < i || block + d <= r < i + d then goal[r] else was[r])
  }

  lemma PairDone<T>(was: seq<T>, goal: seq<T>, block: nat, d: nat, i: nat)
    requires |was| == |goal| && block <= i < block + d && block + 2 * d <= |was|
    ensures |PartlyDone(was, goal, block, d, i)| == |was|
    ensures PartlyDone(was, goal, block, d, i + 1) == PartlyDone(was, goal, block, d, i)[i := goal[i]][i + d := goal[i + d]]
  {
  }

  /** Rows below n are done. */
  function Blend<T>(was: seq<T>, goal: seq<T>, n: nat): seq<T>
    requires |was| == |goal|
  {
    seq(|was|, r requires 0 <= r < |was| => if r < n then goal[r] else was[r])
  }

  lemma BlendEnds<T>(was: seq<T>, goal: seq<T>)
    requires |was| == |goal|
    ensures Blend(was, goal, 0) == was && Blend(was, goal, |was|) == goal
  {
  }

  lemma BlendNext<T>(was: seq<T>, goal: seq<T>, n: nat)
    requires |was| == |goal| && n < |was|
    ensures |Blend(was, goal, n)| == |was| && Blend(was, goal, n)[n] == was[n]
    ensures Blend(was, goal, n + 1) == Blend(was, goal, n)[n := goal[n]]
  {
  }

  /** In a block being done, the rows not yet reached are as they were. */
  lemma StillUndone<T>(was: seq<T>, goal: seq<T>, block: nat, d: nat, i: nat)
    requires |was| == |goal| && block <= i < block + d && block + 2 * d <= |was|
    ensures |Blend(was, goal, block)| == |was|
    ensures var s := PartlyDone(Blend(was, goal, block), goal, block, d, i); |s| == |was| && s[i] == was[i] && s[i + d] == was[i + d]
  {
  }

  lemma BlockStarts<T>(was: seq<T>, goal: seq<T>, block: nat, d: nat)
    requires |was| == |goal|
    ensures |Blend(was, goal, block)| == |was|
    ensures PartlyDone(Blend(was, goal, block), goal, block, d, block) == Blend(was, goal, block)
  {
  }

  lemma BlockDone<T>(was: seq<T>, goal: seq<T>, block: nat, d: nat)
    requires |was| == |goal| && block + 2 * d <= |was|
    ensures |Blend(was, goal, block)| == |was|
    ensures PartlyDone(Blend(was, goal, block), goal, block, d, block + d) == Blend(was, goal, block + 2 * d)
  {
  }

  method SwapWords(a: array<Word>, k: nat, i: nat)
    requires a.Length == 64 && k < 6 && i + Pow2(k) < 64
    modifies a
    ensures var swapped := SwappedPair(old(a[i]), old(a[i + Pow2(k)]), k);
            a[..] == old(a[..])[i := swapped.0][i + Pow2(k) := swapped.1]
  {
    var d := Pow2(k);
    var t := And(Xor(Shr(a[i], d), a[i + d]), StageMask(k));
    a[i + d] := Xor(a[i + d], t);
    a[i] := Xor(a[i], Shl(t, d));
  }

  method ScalarStage(a: array<Word>, k: nat)
    requires a.Length == 64 && k < 6
    modifies a
    ensures a[..] == Stage(old(a[..]), k)
  {
    ghost var m: Matrix := a[..];
    var block := 0;
    AlignedZero(k);
    BlendEnds(m, Stage(m, k));
    hide *;
    while block < 64
      invariant block <= 64 && Aligned(block, k)
      invariant a[..] == Blend(m, Stage(m, k), block)
    {
      ScalarBlock(a, k, block, m);
      NextBlock(block, k);
      block := block + Pow2(k + 1);
    }
  }

  method Transpose64Scalar(a: array<Word>)
    requires a.Length == 64
    modifies a
    ensures a[..] == Transposed(old(a[..]))
  {
    StagesTranspose(a[..]);
    ScalarStage(a, 5);
    ScalarStage(a, 4);
    ScalarStage(a, 3);
    ScalarStage(a, 2);
    ScalarStage(a, 1);
    ScalarStage(a, 0);
  }

  // ----- the lane-paired routine: element j holds words 2j (low lane) and 2j + 1

  type Lanes = (Word, Word)

  function Unpaired(q: seq<Lanes>): Matrix
    requires |q| == 32
  {
    seq(64, r requires 0 <= r < 64 => if r % 2 == 0 then q[r / 2].0 else q[r / 2].1)
  }

  function Paired(m: Matrix): seq<Lanes> {
    seq(32, j requires 0 <= j < 32 => (m[2 * j], m[2 * j + 1]))
  }

  lemma PairingInverse(q: seq<Lanes>)
    requires |q| == 32
    ensures Paired(Unpaired(q)) == q
  {
  }

  lemma UnpairedPaired(m: Matrix)
    ensures Unpaired(Paired(m)) == m
  {
  }

  /** One vector step swaps two rows in each lane. */
  lemma SwappedLanes(m: Matrix, k: nat, j: nat)
    requires 0 < k < 6 && j < 32 && !IndexBit(j, k - 1)
    ensures j + Pow2(k - 1) < 32
    ensures var q, goal, h := Paired(m), Paired(Stage(m, k)), Pow2(k - 1);
            && SwappedPair(q[j].0, q[j + h].0, k) == (goal[j].0, goal[j + h].0)
            && SwappedPair(q[j].1, q[j + h].1, k) == (goal[j].1, goal[j + h].1)
  {
    FlipUp(j, k - 1, 5);
    var h := Pow2(k - 1);
    assert (2 * j) / 2 == j && (2 * j + 1) / 2 == j;
    assert 2 * j + Pow2(k) == 2 * (j + h);
    SwappedRows(m, k, 2 * j);
    SwappedRows(m, k, 2 * j + 1);
  }

  method SwapVectors(q: array<Lanes>, k: nat, j: nat)
    requires q.Length == 32 && 0 < k < 6 && j + Pow2(k - 1) < 32
    modifies q
    ensures var va, vb := old(q[j]), old(q[j + Pow2(k - 1)]);
            var low, high := SwappedPair(va.0, vb.0, k), SwappedPair(va.1, vb.1, k);
            q[..] == old(q[..])[j := (low.0, high.0)][j + Pow2(k - 1) := (low.1, high.1)]
  {
    var d, h := Pow2(k), Pow2(k - 1);
    var va, vb := q[j], q[j + h];
    var vt := (And(Xor(Shr(va.0, d), vb.0), StageMask(k)), And(Xor(Shr(va.1, d), vb.1), StageMask(k)));
    q[j + h] := (Xor(vb.0, vt.0), Xor(vb.1, vt.1));
    q[j] := (Xor(va.0, Shl(vt.0, d)), Xor(va.1, Shl(vt.1, d)));
  }

  /** One block of a stage: rows below its middle meet the rows above. */
  method VectorBlock(q: array<Lanes>, k: nat, block: nat, ghost m: Matrix, ghost was: seq<Lanes>, ghost goal: seq<Lanes>)
    requires q.Length == 32 && 0 < k < 6 && block < 32 && Aligned(block, k - 1)
    requires was == Paired(m) && goal == Paired(Stage(m, k)) && |was| == |goal| == 32
    requires q[..] == Blend(was, goal, block)
    modifies q
    ensures block + Pow2(k) <= 32
    ensures q[..] == Blend(was, goal, block + Pow2(k))
  {
    ghost var before := q[..];
    var h := Pow2(k - 1);
    assert Pow2(k) == 2 * h && Pow2(5) == 32;
    BlockRows(block, k - 1, block, 5);
    hide *;
    var j := block;
    BlockStarts(was, goal, block, h);
    while j < block + h
      invariant block <= j <= block + h
      invariant q[..] == PartlyDone(before, goal, block, h, j)
    {
      BlockRows(block, k - 1, j, 5);
      SwappedLanes(m, k, j);
      StillUndone(was, goal, block, h, j);
      assert q[..][j] == was[j] && q[..][j + h] == was[j + h];
      SwapVectors(q, k, j);
      PairDone(before, goal, block, h, j);
      j := j + 1;
    }
    BlockDone(was, goal, block, h);
  }

  lemma PairsMeet(q: seq<Lanes>, m: Matrix, k: nat)
    requires |q| == 32 && k < 6 && m == Unpaired(q)
    ensures Paired(m) == q && |Paired(Stage(m, k))| == 32
    ensures Blend(q, Paired(Stage(m, k)), 0) == q && Blend(q, Paired(Stage(m, k)), 32) == Paired(Stage(m, k))
  {
    PairingInverse(q);
    hide Stage;
    BlendEnds(q, Paired(Stage(m, k)));
  }

  /** Stages of distance 32 down to 2: whole vectors at half the distance. */
  method VectorStage(q: array<Lanes>, k: nat)
    requires q.Length == 32 && 0 < k < 6
    modifies q
    ensures q[..] == Paired(Stage(Unpaired(old(q[..])), k))
  {
    hide *;
    ghost var m := Unpaired(q[..]);
    ghost var was, goal := Paired(m), Paired(Stage(m, k));
    PairsMeet(q[..], m, k);
    var block := 0;
    AlignedZero(k - 1);
    while block < 32
      invariant block <= 32 && Aligned(block, k - 1)
      invariant q[..] == Blend(was, goal, block)
    {
      VectorBlock(q, k, block, m, was, goal);
      NextBlock(block, k - 1);
      block := block + Pow2(k);
    }
  }

  /** The swap within one vector. */
  method SwapLanes(q: array<Lanes>, j: nat, ghost m: Matrix)
    requires q.Length == 32 && j < 32 && q[j] == Paired(m)[j]
    modifies q
    ensures q[..] == old(q[..])[j := Paired(Stage(m, 0))[j]]
  {
    SwappedRows(m, 0, 2 * j);
    hide Stage;
    var shifted := (Shr(q[j].0, 1), Shr(q[j].1, 1));
    var swapped := (q[j].1, q[j].0);
    var t := (And(Xor(shifted.0, swapped.0), StageMask(0)), And(Xor(shifted.1, swapped.1), StageMask(0)));
    var left := (Shl(t.0, 1), Shl(t.1, 1));
    var final := (left.0, t.0);
    q[j] := (Xor(q[j].0, final.0), Xor(q[j].1, final.1));
  }

  /** Distance 1: the partner word is the other lane of the same vector. */
  method VectorStage0(q: array<Lanes>)
    requires q.Length == 32
    modifies q
    ensures q[..] == Paired(Stage(Unpaired(old(q[..])), 0))
  {
    hide *;
    ghost var m := Unpaired(q[..]);
    ghost var was, goal := q[..], Paired(Stage(m, 0));
    PairsMeet(was, m, 0);
    for j := 0 to 32
      invariant q[..] == Blend(was, goal, j)
    {
      BlendNext(was, goal, j);
      assert q[..][j] == was[j];
      SwapLanes(q, j, m);
    }
  }

  /** Both routines compute the same planes. */
  method Transpose64Vector(q: array<Lanes>)
    requires q.Length == 32
    modifies q
    ensures Unpaired(q[..]) == Transposed(Unpaired(old(q[..])))
  {
    ghost var m := Unpaired(q[..]);
    StagesTranspose(m);
    forall x: Matrix ensures Unpaired(Paired(x)) == x { UnpairedPaired(x); }
    VectorStage(q, 5);
    VectorStage(q, 4);
    VectorStage(q, 3);
    VectorStage(q, 2);
    VectorStage(q, 1);
    VectorStage0(q);
  }

  /** Without a validity mask every lane counts as valid. */
  method Transpose64(data: array<Word>, valid: seq<bool>, masked: bool) returns (planes: Matrix, validity: Word)
    requires data.Length == 64 && |valid| == 64
    modifies data
    ensures planes == Transposed(old(data[..]))
    ensures validity == if masked then valid else ONES
  {
    validity := ONES;
    if masked {
      validity := ZEROS;
      for i := 0 to 64
        invariant forall k :: 0 <= k < 64 ==> validity[k] == (k < i && valid[k])
      {
        if valid[i] { validity := Or(validity, OneBit(i)); }
      }
    }
    Transpose64Scalar(data);
    planes := data[..];
  }
}
