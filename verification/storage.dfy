/** Bytes, little-endian integers, and the stored form of a table: tiles of 64
    bit planes, blocks of 64 rows, row groups; and the columnar batches they
    come from. */
module Storage {
  import opened Words
  import opened SimdTransposer

  datatype Option<+T> = None | Some(value: T)

  datatype Result<+T> = Ok(value: T) | Err(reason: string)

  type byte = n: nat | n < 256

  /** A C++ std::string: raw bytes. */
  type Str = seq<byte>

  type int64 = n: int | -0x8000_0000_0000_0000 <= n < 0x8000_0000_0000_0000

  /** `static_cast<uint64_t>` of a signed value. */
  function Unsigned(n: int64): (u: nat)
    ensures u < TWO_64
    ensures u == if n < 0 then n + TWO_64 else n
  {
    if n < 0 then n + TWO_64 else n
  }

  /** `static_cast<int64_t>` of a 64-bit word. */
  function Signed(u: nat): (n: int64)
    requires u < TWO_64
    ensures Unsigned(n) == u
  {
    if u < 0x8000_0000_0000_0000 then u else u - TWO_64
  }

  // ----- little-endian numbers

  function Pow256(n: nat): (p: nat)
    ensures p > 0
  {
    if n == 0 then 1 else 256 * Pow256(n - 1)
  }

  /** Low `width` bytes of n, least significant first. */
  function Encode(n: nat, width: nat): (s: seq<byte>)
    ensures |s| == width
  {
    if width == 0 then [] else [n % 256] + Encode(n / 256, width - 1)
  }

  function Decode(s: seq<byte>): nat {
    if s == [] then 0 else s[0] + 256 * Decode(s[1..])
  }

  lemma EncodeNext(n: nat, width: nat)
    requires width > 0
    ensures Encode(n, width) == [n % 256] + Encode(n / 256, width - 1) && Encode(n, 0) == []
  {
  }

  lemma ThreeBytes(n: nat)
    ensures n / 256 / 256 == n / 65536 && n / 65536 / 256 == n / 16777216
  {
  }

  /** Little-endian, by its bytes. */
  lemma LittleEndian(n: nat)
    ensures Encode(n, 4) == [n % 256, n / 256 % 256, n / 65536 % 256, n / 16777216 % 256]
  {
    hide *;
    ThreeBytes(n);
    EncodeNext(n, 4);
    EncodeNext(n / 256, 3);
    EncodeNext(n / 65536, 2);
    EncodeNext(n / 16777216, 1);
    EncodeNext(n / 16777216 / 256, 1);
  }

  lemma {:induction false} DecodeBound(s: seq<byte>)
    ensures Decode(s) < Pow256(|s|)
  {
    if s != [] { DecodeBound(s[1..]); }
  }

  lemma {:induction false} DecodeEncode(n: nat, width: nat)
    requires n < Pow256(width)
    ensures Decode(Encode(n, width)) == n
  {
    if width > 0 {
      DecodeEncode(n / 256, width - 1);
      assert Encode(n, width)[1..] == Encode(n / 256, width - 1);
    }
  }

  lemma {:induction false} EncodeDecode(s: seq<byte>)
    ensures Encode(Decode(s), |s|) == s
  {
    if s != [] {
      EncodeDecode(s[1..]);
      assert Decode(s) / 256 == Decode(s[1..]) && Decode(s) % 256 == s[0];
    }
  }

  lemma ModShift(rest: nat, p: nat, low: nat)
    requires p > 0 && low < 256
    ensures (low + 256 * rest) % (256 * p) == low + 256 * (rest % p)
  {
    var q, r := rest / p, rest % p;
    assert 256 * rest == q * (256 * p) + 256 * r by { assert rest == q * p + r; }
    DivModUnique(low + 256 * rest, 256 * p, q, low + 256 * r);
  }

  /** Keeping the low k bytes of a number keeps the first k bytes of its encoding. */
  lemma {:induction false} DecodePrefix(s: seq<byte>, k: nat)
    requires k <= |s|
    ensures Decode(s) % Pow256(k) == Decode(s[..k])
  {
    if k > 0 {
      DecodePrefix(s[1..], k - 1);
      assert s[..k][1..] == s[1..][..k - 1];
      ModShift(Decode(s[1..]), Pow256(k - 1), s[0]);
    }
  }

  lemma DecodeInjective(x: seq<byte>, y: seq<byte>)
    requires |x| == |y| && Decode(x) == Decode(y)
    ensures x == y
  {
    EncodeDecode(x);
    EncodeDecode(y);
  }

  lemma Pow256Of8()
    ensures Pow256(8) == TWO_64
    ensures Pow256(4) == 0x1_0000_0000
  {
    assert Pow256(4) == 0x1_0000_0000;
  }

  lemma {:induction false} BytesAreBits(k: nat)
    ensures Pow256(k) == Pow2(8 * k)
  {
    if k > 0 {
      BytesAreBits(k - 1);
      Pow2Add(8, 8 * (k - 1));
      assert Pow2(8) == 256;
    }
  }

  function ByteOrZero(s: Str, i: nat): byte { if i < |s| then s[i] else 0 }

  function Zeros(n: nat): seq<byte> { seq(n, _ => 0) }

  /** Distance to the next multiple of 64. */
  function Padding(n: nat): (p: nat)
    ensures p < 64 && (n + p) % 64 == 0
  {
    (64 - n % 64) % 64
  }

  // ----- tiles, blocks, row groups

  type Pad = p: seq<Word> | |p| == 7 witness seq(7, _ => ZEROS)

  /** 64 planes, one validity plane, 56 bytes of padding. */
  datatype Tile = Tile(planes: Matrix, validity: Word, padding: Pad)

  datatype Block = Block(columns: seq<Tile>, tail: seq<byte>, deleteMask: Word)

  datatype RowGroup = RowGroup(numRows: nat, columnNames: seq<Str>, columnTypes: seq<nat>, blocks: seq<Block>)

  /** The word a lane holds across the planes. */
  function Lane(t: Tile, r: nat): Word
    requires r < 64
  {
    Transposed(t.planes)[r]
  }

  // ----- batches

  datatype Column =
    | Ints(ints: seq<Option<int64>>)
    | Strs(strs: seq<Option<Str>>)
  {
    function Size(): nat { if Ints? then |ints| else |strs| }
  }

  datatype Cell = IntCell(n: Option<int64>) | StrCell(s: Option<Str>)

  function CellAt(c: Column, r: nat): Cell
    requires r < c.Size()
  {
    if c.Ints? then IntCell(c.ints[r]) else StrCell(c.strs[r])
  }

  datatype Batch = Batch(names: seq<Str>, columns: seq<Column>, numRows: nat)
  {
    predicate Valid() {
      && |names| == |columns|
      && forall f :: 0 <= f < |columns| ==> columns[f].Size() == numRows
    }
  }

  type Row = seq<Cell>

  function RowAt(b: Batch, r: nat): Row
    requires b.Valid() && r < b.numRows
  {
    seq(|b.columns|, f requires 0 <= f < |b.columns| => CellAt(b.columns[f], r))
  }

  function Min(a: int, b: int): int { if a < b then a else b }

  /** `std::min(64, num_rows - b * 64)` */
  function RowsIn(numRows: nat, b: nat): (n: nat)
    requires b * 64 < numRows
    ensures 0 < n <= 64 && b * 64 + n <= numRows
  {
    Min(64, numRows - b * 64)
  }

  function NumBlocks(numRows: nat): (n: nat)
    ensures numRows <= n * 64 < numRows + 64
  {
    (numRows + 63) / 64
  }
}
