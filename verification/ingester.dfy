/** Ingestion of a columnar batch into tiles, and reading it back. */
module AdaptiveIngester {
  import opened Words
  import opened SimdTransposer
  import opened Storage
  import opened TailPayload

  const KIM_SUFFIX: Str := [95, 107, 105, 109]  // "_kim"

  // Arrow type tags
  const TYPE_UINT64: nat := 8
  const TYPE_INT64: nat := 9
  const TYPE_STRING: nat := 13

  // ----- the bigram Bloom signature

  const TWO_32: nat := 0x1_0000_0000

  /** The signature bits of a one-byte string. */
  function ByteHashes(ch: byte): (nat, nat, nat) {
    ((ch * 17) % TWO_32 % 64, (ch * 31 + 5) % TWO_32 % 64, (ch * 127 + 13) % TWO_32 % 64)
  }

  /** The signature bits of a bigram, in 32-bit wrapping arithmetic. */
  function BigramHashes(x: byte, y: byte): (nat, nat, nat) {
    var bigram := x * 256 + y;
    ((bigram * 2654435761) % TWO_32 % 64,
     ((bigram * 2246822519) % TWO_32 + 12345) % TWO_32 % 64,
     ((bigram * 3266489917) % TWO_32 + 67890) % TWO_32 % 64)
  }

  predicate Among(bit: nat, hashes: (nat, nat, nat)) {
    bit == hashes.0 || bit == hashes.1 || bit == hashes.2
  }

  predicate BigramAt(s: Str, i: nat, bit: nat) {
    i + 1 < |s| && Among(bit, BigramHashes(s[i], s[i + 1]))
  }

  ghost predicate SignatureBit(s: Str, bit: nat) {
    if |s| == 1 then Among(bit, ByteHashes(s[0])) else exists i: nat :: BigramAt(s, i, bit)
  }

  ghost function Signature(s: Str): Word {
    seq(64, bit requires 0 <= bit < 64 => SignatureBit(s, bit))
  }

  method AddHashes(sig: Word, hashes: (nat, nat, nat)) returns (r: Word)
    ensures forall b :: 0 <= b < 64 ==> r[b] == (sig[b] || Among(b, hashes))
  {
    r := Or(Or(Or(sig, OneBit(hashes.0)), OneBit(hashes.1)), OneBit(hashes.2));
  }

  method GenerateKimSignature(s: Str) returns (sig: Word)
    ensures sig == Signature(s)
  {
    hide BigramHashes, ByteHashes;
    sig := ZEROS;
    if s == [] {
      assert forall b :: 0 <= b < 64 ==> !SignatureBit(s, b);
      return;
    }
    if |s| == 1 {
      sig := AddHashes(sig, ByteHashes(s[0]));
      return;
    }
    for i := 0 to |s| - 1
      invariant forall b :: 0 <= b < 64 ==> (sig[b] <==> exists j: nat :: j < i && BigramAt(s, j, b))
    {
      ghost var was := sig;
      sig := AddHashes(sig, BigramHashes(s[i], s[i + 1]));
      forall b | 0 <= b < 64 ensures sig[b] <==> exists j: nat :: j < i + 1 && BigramAt(s, j, b) {
        assert sig[b] <==> was[b] || BigramAt(s, i, b);
      }
    }
  }

  // ----- physical layout: a string column takes two tiles, skeleton and signature

  function Width(c: Column): nat { if c.Strs? then 2 else 1 }

  /** Physical index of the first tile of logical column f. */
  function PhysicalIndex(columns: seq<Column>, f: nat): nat
    requires f <= |columns|
  {
    if f == 0 then 0 else PhysicalIndex(columns, f - 1) + Width(columns[f - 1])
  }

  /** Number of string columns before logical column f. */
  function StringIndex(columns: seq<Column>, f: nat): nat
    requires f <= |columns|
  {
    if f == 0 then 0 else StringIndex(columns, f - 1) + (if columns[f - 1].Strs? then 1 else 0)
  }

  function PhysicalNames(batch: Batch, f: nat): seq<Str>
    requires batch.Valid() && f <= |batch.names|
  {
    if f == 0 then []
    else PhysicalNames(batch, f - 1)
         + if batch.columns[f - 1].Strs? then [batch.names[f - 1], batch.names[f - 1] + KIM_SUFFIX]
           else [batch.names[f - 1]]
  }

  function PhysicalTypes(columns: seq<Column>, f: nat): seq<nat>
    requires f <= |columns|
  {
    if f == 0 then []
    else PhysicalTypes(columns, f - 1)
         + if columns[f - 1].Strs? then [TYPE_STRING, TYPE_UINT64] else [TYPE_INT64]
  }

  // ----- one column of one block

  /** First four bytes of a string as a little-endian number. */
  function SkeletonOf(s: Str): nat { Decode(s[..Min(4, |s|)]) }

  function IntWord(v: Option<int64>): Word {
    if v.Some? then WordOf(Unsigned(v.value)) else ZEROS
  }

  function SkeletonWord(v: Option<Str>): Word {
    if v.Some? then WordOf(SkeletonOf(v.value)) else ZEROS
  }

  ghost function SignatureWord(v: Option<Str>): Word {
    if v.Some? then Signature(v.value) else ZEROS
  }

  /** What the tail stores for a value: the bytes, or nothing for a null. */
  function StoredString(v: Option<Str>): Str { if v.Some? then v.value else [] }

  predicate Window(c: Column, base: nat, rows: nat) {
    rows <= 64 && base + rows <= c.Size()
  }

  // Lanes at and beyond `rows` hold zero and count as invalid.

  predicate LaneValid(c: Column, base: nat, rows: nat, i: nat)
    requires Window(c, base, rows)
  {
    i < rows && (if c.Ints? then c.ints[base + i].Some? else c.strs[base + i].Some?)
  }

  function IntLane(c: Column, base: nat, rows: nat, i: nat): Word
    requires c.Ints? && Window(c, base, rows)
  {
    if i < rows then IntWord(c.ints[base + i]) else ZEROS
  }

  function SkeletonLane(c: Column, base: nat, rows: nat, i: nat): Word
    requires c.Strs? && Window(c, base, rows)
  {
    if i < rows then SkeletonWord(c.strs[base + i]) else ZEROS
  }

  ghost function SignatureLane(c: Column, base: nat, rows: nat, i: nat): Word
    requires c.Strs? && Window(c, base, rows)
  {
    if i < rows then SignatureWord(c.strs[base + i]) else ZEROS
  }

  function Validity(c: Column, base: nat, rows: nat): Word
    requires Window(c, base, rows)
  {
    seq(64, i requires 0 <= i < 64 => LaneValid(c, base, rows, i))
  }

  function IntWords(c: Column, base: nat, rows: nat): Matrix
    requires c.Ints? && Window(c, base, rows)
  {
    seq(64, i requires 0 <= i < 64 => IntLane(c, base, rows, i))
  }

  function SkeletonWords(c: Column, base: nat, rows: nat): Matrix
    requires c.Strs? && Window(c, base, rows)
  {
    seq(64, i requires 0 <= i < 64 => SkeletonLane(c, base, rows, i))
  }

  ghost function SignatureWords(c: Column, base: nat, rows: nat): Matrix
    requires c.Strs? && Window(c, base, rows)
  {
    seq(64, i requires 0 <= i < 64 => SignatureLane(c, base, rows, i))
  }

  const NO_PADDING: Pad := [ZEROS, ZEROS, ZEROS, ZEROS, ZEROS, ZEROS, ZEROS]

  function TileOf(words: Matrix, valid: Word): Tile { Tile(Transposed(words), valid, NO_PADDING) }

  ghost function ColumnTiles(c: Column, base: nat, rows: nat): seq<Tile>
    requires Window(c, base, rows)
  {
    if c.Ints? then [TileOf(IntWords(c, base, rows), Validity(c, base, rows))]
    else [TileOf(SkeletonWords(c, base, rows), Validity(c, base, rows)),
          TileOf(SignatureWords(c, base, rows), Validity(c, base, rows))]
  }

  function ColumnStrings(c: Column, base: nat, rows: nat): seq<Str>
    requires Window(c, base, rows)
  {
    if c.Ints? then [] else seq(rows, i requires 0 <= i < rows => StoredString(c.strs[base + i]))
  }

  // ----- one block, and the whole row group

  predicate Windows(columns: seq<Column>, base: nat, rows: nat) {
    forall f :: 0 <= f < |columns| ==> Window(columns[f], base, rows)
  }

  ghost function BlockTiles(columns: seq<Column>, f: nat, base: nat, rows: nat): seq<Tile>
    requires f <= |columns| && Windows(columns, base, rows)
  {
    if f == 0 then [] else BlockTiles(columns, f - 1, base, rows) + ColumnTiles(columns[f - 1], base, rows)
  }

  function BlockStrings(columns: seq<Column>, f: nat, base: nat, rows: nat): seq<Str>
    requires f <= |columns| && Windows(columns, base, rows)
  {
    if f == 0 then [] else BlockStrings(columns, f - 1, base, rows) + ColumnStrings(columns[f - 1], base, rows)
  }

  ghost function BlockOf(batch: Batch, b: nat): Block
    requires batch.Valid() && b * 64 < batch.numRows
  {
    Block(BlockTiles(batch.columns, |batch.columns|, b * 64, RowsIn(batch.numRows, b)),
          TailOf(BlockStrings(batch.columns, |batch.columns|, b * 64, RowsIn(batch.numRows, b))), ONES)
  }

  ghost function BlocksOf(batch: Batch): seq<Block>
    requires batch.Valid()
  {
    seq(NumBlocks(batch.numRows), b requires 0 <= b < NumBlocks(batch.numRows) => BlockOf(batch, b))
  }

  ghost function Ingested(batch: Batch): RowGroup
    requires batch.Valid()
  {
    RowGroup(batch.numRows, PhysicalNames(batch, |batch.columns|), PhysicalTypes(batch.columns, |batch.columns|),
             BlocksOf(batch))
  }

  // ----- the ingester's loops

  method IngestInts(c: Column, base: nat, rows: nat) returns (tile: Tile)
    requires c.Ints? && Window(c, base, rows)
    ensures tile == ColumnTiles(c, base, rows)[0]
  {
    var buffer := new Word[64](_ => ZEROS);
    var valid := ZEROS;
    for i := 0 to rows
      invariant forall k :: 0 <= k < 64 ==> buffer[k] == if k < i then IntWord(c.ints[base + k]) else ZEROS
      invariant forall k :: 0 <= k < 64 ==> valid[k] == (k < i && c.ints[base + k].Some?)
    {
      var v := c.ints[base + i];
      if v.Some? {
        buffer[i] := WordOf(Unsigned(v.value));
        valid := valid[i := true];
      }
    }
    assert buffer[..] == IntWords(c, base, rows);
    assert valid == Validity(c, base, rows);
    var planes, validity := Transpose64(buffer, valid, true);
    tile := Tile(planes, validity, NO_PADDING);
  }

  method FillStringLanes(c: Column, base: nat, rows: nat, skeletons: array<Word>, kims: array<Word>)
      returns (valid: Word, strings: seq<Str>)
    requires c.Strs? && Window(c, base, rows)
    requires skeletons.Length == kims.Length == 64 && skeletons != kims
    requires forall k :: 0 <= k < 64 ==> skeletons[k] == ZEROS && kims[k] == ZEROS
    modifies skeletons, kims
    ensures skeletons[..] == SkeletonWords(c, base, rows) && kims[..] == SignatureWords(c, base, rows)
    ensures valid == Validity(c, base, rows) && strings == ColumnStrings(c, base, rows)
  {
    hide Signature, SkeletonOf, WordOf;
    valid, strings := ZEROS, [];
    for i := 0 to rows
      invariant forall k :: 0 <= k < i ==> skeletons[k] == SkeletonWord(c.strs[base + k])
      invariant forall k :: 0 <= k < i ==> kims[k] == SignatureWord(c.strs[base + k])
      invariant forall k :: i <= k < 64 ==> skeletons[k] == ZEROS && kims[k] == ZEROS
      invariant forall k :: 0 <= k < 64 ==> valid[k] == (k < i && c.strs[base + k].Some?)
      invariant |strings| == i && forall k :: 0 <= k < i ==> strings[k] == StoredString(c.strs[base + k])
    {
      var v := c.strs[base + i];
      if v.None? {
        strings := strings + [[]];
      } else {
        skeletons[i] := WordOf(SkeletonOf(v.value));
        var sig := GenerateKimSignature(v.value);
        kims[i] := sig;
        valid := valid[i := true];
        strings := strings + [v.value];
      }
    }
  }

  method IngestStrings(c: Column, base: nat, rows: nat) returns (skeleton: Tile, kim: Tile, strings: seq<Str>)
    requires c.Strs? && Window(c, base, rows)
    ensures [skeleton, kim] == ColumnTiles(c, base, rows)
    ensures strings == ColumnStrings(c, base, rows)
  {
    var skeletons := new Word[64](_ => ZEROS);
    var kims := new Word[64](_ => ZEROS);
    var valid: Word;
    valid, strings := FillStringLanes(c, base, rows, skeletons, kims);
    var planes, validity := Transpose64(skeletons, valid, true);
    skeleton := Tile(planes, validity, NO_PADDING);
    var kimPlanes, kimValidity := Transpose64(kims, valid, true);
    kim := Tile(kimPlanes, kimValidity, NO_PADDING);
  }

  method IngestBlock(batch: Batch, b: nat) returns (block: Block)
    requires batch.Valid() && b * 64 < batch.numRows
    ensures block == BlockOf(batch, b)
  {
    var base, rows := b * 64, RowsIn(batch.numRows, b);
    assert Windows(batch.columns, base, rows);
    var tiles: seq<Tile> := [];
    var strings: seq<Str> := [];
    for f := 0 to |batch.columns|
      invariant tiles == BlockTiles(batch.columns, f, base, rows)
      invariant strings == BlockStrings(batch.columns, f, base, rows)
    {
      var c := batch.columns[f];
      if c.Ints? {
        var tile := IngestInts(c, base, rows);
        tiles := tiles + [tile];
      } else {
        var skeleton, kim, values := IngestStrings(c, base, rows);
        tiles := tiles + [skeleton, kim];
        strings := strings + values;
      }
    }
    var tail := BuildTail(strings);
    block := Block(tiles, tail, ONES);
  }

  method Ingest(batch: Batch) returns (rg: RowGroup)
    requires batch.Valid()
    ensures rg == Ingested(batch)
  {
    var names: seq<Str> := [];
    var types: seq<nat> := [];
    for f := 0 to |batch.columns|
      invariant names == PhysicalNames(batch, f)
      invariant types == PhysicalTypes(batch.columns, f)
    {
      if batch.columns[f].Strs? {
        names := names + [batch.names[f], batch.names[f] + KIM_SUFFIX];
        types := types + [TYPE_STRING, TYPE_UINT64];
      } else {
        names := names + [batch.names[f]];
        types := types + [TYPE_INT64];
      }
    }
    var blocks: seq<Block> := [];
    var n := NumBlocks(batch.numRows);
    for b := 0 to n
      invariant |blocks| == b
      invariant forall k :: 0 <= k < b ==> blocks[k] == BlockOf(batch, k)
    {
      var block := IngestBlock(batch, b);
      blocks := blocks + [block];
    }
    rg := RowGroup(batch.numRows, names, types, blocks);
  }
}
