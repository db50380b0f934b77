/** The binary form of a row group: a 64-byte header, column metadata, and blocks
    of tiles, delete mask and tail, each section padded to a multiple of 64. */
module Exporter {
  import opened Words
  import opened SimdTransposer
  import opened Storage

  const MAGIC: seq<byte> := [67, 66, 83, 84]  // "CBST"

  const TOO_SMALL := "Invalid CBST serialized data: too small"
  const BAD_MAGIC := "Invalid CBST serialized data: magic mismatch"
  const BAD_COLUMN := "Malformed CBST data: column metadata bounds check failed"
  const BAD_NAME := "Malformed CBST data: column name bounds check failed"
  const BAD_TILE := "Malformed CBST data: block tile bounds check failed"
  const BAD_MASK := "Malformed CBST data: block delete mask bounds check failed"
  const BAD_TAIL_SIZE := "Malformed CBST data: block tail size bounds check failed"
  const BAD_TAIL := "Malformed CBST data: block tail payload bounds check failed"

  /** A vector cannot hold that many bytes. */
  const TOO_LONG := "vector::_M_default_append"

  const TILE_SIZE: nat := 576

  // ----- words and tiles as bytes

  function WordBytes(w: Word): (s: seq<byte>)
    ensures |s| == 8
  {
    Encode(Value(w), 8)
  }

  function WordFrom(s: seq<byte>): Word { WordOf(Decode(s)) }

  lemma WordRoundTrip(w: Word)
    ensures WordFrom(WordBytes(w)) == w
  {
    WordOfValue(w);
    Pow256Of8();
    hide WordOf, Value, Decode, Encode, Pow256;
    DecodeEncode(Value(w), 8);
  }

  function WordsBytes(ws: seq<Word>): seq<byte> {
    if ws == [] then [] else WordsBytes(ws[..|ws| - 1]) + WordBytes(ws[|ws| - 1])
  }

  lemma {:induction false} WordsSize(ws: seq<Word>)
    ensures |WordsBytes(ws)| == 8 * |ws|
  {
    if ws != [] { WordsSize(ws[..|ws| - 1]); }
  }

  lemma {:induction false} WordsAt(ws: seq<Word>, i: nat)
    requires i < |ws|
    ensures |WordsBytes(ws)| == 8 * |ws| && WordsBytes(ws)[8 * i..8 * i + 8] == WordBytes(ws[i])
  {
    hide WordBytes;
    WordsSize(ws);
    WordsSize(ws[..|ws| - 1]);
    if i < |ws| - 1 {
      WordsAt(ws[..|ws| - 1], i);
      assert WordsBytes(ws)[8 * i..8 * i + 8] == WordsBytes(ws[..|ws| - 1])[8 * i..8 * i + 8];
    }
  }

  function TileWords(t: Tile): (ws: seq<Word>)
    ensures |ws| == 72
  {
    t.planes + [t.validity] + t.padding
  }

  /** The memory image of a tile. */
  function TileBytes(t: Tile): (s: seq<byte>)
    ensures |s| == TILE_SIZE
  {
    WordsSize(TileWords(t));
    WordsBytes(TileWords(t))
  }

  function WordAt(s: seq<byte>, i: nat): Word
    requires 8 * i + 8 <= |s|
  {
    WordFrom(s[8 * i..8 * i + 8])
  }

  function PlaneFrom(s: seq<byte>, i: nat): Word
    requires |s| == TILE_SIZE && i < 64
  {
    WordAt(s, i)
  }

  function PaddingFrom(s: seq<byte>, i: nat): Word
    requires |s| == TILE_SIZE && i < 7
  {
    WordAt(s, 65 + i)
  }

  function TileFrom(s: seq<byte>): Tile
    requires |s| == TILE_SIZE
  {
    Tile(seq(64, i requires 0 <= i < 64 => PlaneFrom(s, i)), WordAt(s, 64), seq(7, i requires 0 <= i < 7 => PaddingFrom(s, i)))
  }

  lemma TileWordAt(t: Tile, i: nat)
    requires i < 72
    ensures WordAt(TileBytes(t), i) == TileWords(t)[i]
  {
    WordsAt(TileWords(t), i);
    WordRoundTrip(TileWords(t)[i]);
    hide WordsBytes, WordFrom, WordBytes, TileWords;
  }

  lemma TileRoundTrip(t: Tile)
    ensures TileFrom(TileBytes(t)) == t
  {
    var s := TileBytes(t);
    forall i | 0 <= i < 64 ensures PlaneFrom(s, i) == t.planes[i] { TileWordAt(t, i); }
    forall i | 0 <= i < 7 ensures PaddingFrom(s, i) == t.padding[i] {
      TileWordAt(t, 65 + i);
      assert TileWords(t)[65 + i] == t.padding[i];
    }
    TileWordAt(t, 64);
    hide WordAt, TileBytes;
  }

  // ----- writing

  /** Sizes that fit their fields. */
  predicate WellFormed(rg: RowGroup) {
    && rg.numRows + 63 < TWO_64 && |rg.columnNames| == |rg.columnTypes| < TWO_64
    && |rg.blocks| == NumBlocks(rg.numRows)
    && (forall i :: 0 <= i < |rg.columnNames| ==> |rg.columnNames[i]| < 0x1_0000_0000 && rg.columnTypes[i] < 0x1_0000_0000)
    && (forall b :: 0 <= b < |rg.blocks| ==> |rg.blocks[b].columns| == |rg.columnNames| && |rg.blocks[b].tail| < TWO_64)
  }

  function HeaderBytes(rows: nat, columns: nat, blocks: nat): (s: seq<byte>)
    ensures |s| == 64
  {
    MAGIC + Encode(rows, 8) + Encode(columns, 8) + Encode(blocks, 8) + Zeros(36)
  }

  function ColumnBytes(name: Str, kind: nat): seq<byte> { Encode(kind, 4) + Encode(|name|, 4) + name }

  function ColumnsBytes(names: seq<Str>, types: seq<nat>, n: nat): seq<byte>
    requires n <= |names| == |types|
  {
    if n == 0 then [] else ColumnsBytes(names, types, n - 1) + ColumnBytes(names[n - 1], types[n - 1])
  }

  function TilesBytes(tiles: seq<Tile>, n: nat): seq<byte>
    requires n <= |tiles|
  {
    if n == 0 then [] else TilesBytes(tiles, n - 1) + TileBytes(tiles[n - 1])
  }

  function TailBytes(mask: Word, tail: seq<byte>): seq<byte> {
    WordBytes(mask) + Encode(|tail|, 8) + tail + Zeros(Padding(16 + |tail|))
  }

  function BlockBytes(block: Block): seq<byte> {
    TilesBytes(block.columns, |block.columns|) + TailBytes(block.deleteMask, block.tail)
  }

  function BlocksBytes(blocks: seq<Block>, n: nat): seq<byte>
    requires n <= |blocks|
  {
    if n == 0 then [] else BlocksBytes(blocks, n - 1) + BlockBytes(blocks[n - 1])
  }

  /** Header and column metadata, padded. */
  function Preamble(rg: RowGroup): seq<byte>
    requires |rg.columnNames| == |rg.columnTypes|
  {
    var head := HeaderBytes(rg.numRows, |rg.columnNames|, NumBlocks(rg.numRows)) + ColumnsBytes(rg.columnNames, rg.columnTypes, |rg.columnNames|);
    head + Zeros(Padding(|head|))
  }

  /** The file up to block n. */
  function SerializedTo(rg: RowGroup, n: nat): seq<byte>
    requires |rg.columnNames| == |rg.columnTypes| && n <= |rg.blocks|
  {
    Preamble(rg) + BlocksBytes(rg.blocks, n)
  }

  method SerializeBlock(block: Block) returns (bytes: seq<byte>)
    ensures bytes == BlockBytes(block)
  {
    hide TileBytes, WordBytes, Encode;
    bytes := [];
    for c := 0 to |block.columns|
      invariant bytes == TilesBytes(block.columns, c)
    {
      bytes := bytes + TileBytes(block.columns[c]);
    }
    ghost var tiles := bytes;
    bytes := bytes + WordBytes(block.deleteMask);
    bytes := bytes + Encode(|block.tail|, 8);
    if |block.tail| > 0 { bytes := bytes + block.tail; }
    var section := 8 + 8 + |block.tail|;
    bytes := bytes + Zeros((64 - section % 64) % 64);
    assert bytes == tiles + TailBytes(block.deleteMask, block.tail);
  }

  method Serialize(rg: RowGroup) returns (buffer: seq<byte>)
    requires |rg.columnNames| == |rg.columnTypes| && NumBlocks(rg.numRows) <= |rg.blocks|
    ensures buffer == SerializedTo(rg, NumBlocks(rg.numRows))
  {
    hide Encode, BlockBytes;
    var blocks := NumBlocks(rg.numRows);
    buffer := MAGIC + Encode(rg.numRows, 8) + Encode(|rg.columnNames|, 8) + Encode(blocks, 8) + Zeros(36);
    ghost var header := buffer;
    for i := 0 to |rg.columnNames|
      invariant buffer == header + ColumnsBytes(rg.columnNames, rg.columnTypes, i)
    {
      buffer := buffer + (Encode(rg.columnTypes[i], 4) + Encode(|rg.columnNames[i]|, 4) + rg.columnNames[i]);
    }
    buffer := buffer + Zeros((64 - |buffer| % 64) % 64);
    assert buffer == Preamble(rg);
    for b := 0 to blocks
      invariant buffer == SerializedTo(rg, b)
    {
      var bytes := SerializeBlock(rg.blocks[b]);
      buffer := buffer + bytes;
    }
  }

  // ----- alignment

  lemma {:induction false} TileBytesSize(tiles: seq<Tile>, n: nat)
    requires n <= |tiles|
    ensures |TilesBytes(tiles, n)| == TILE_SIZE * n
  {
    hide TileBytes;
    if n > 0 { TileBytesSize(tiles, n - 1); }
  }

  lemma BlockSize(block: Block)
    ensures |BlockBytes(block)| == TILE_SIZE * |block.columns| + 16 + |block.tail| + Padding(16 + |block.tail|)
    ensures |BlockBytes(block)| % 64 == 0
  {
    TileBytesSize(block.columns, |block.columns|);
    assert |TailBytes(block.deleteMask, block.tail)| == 16 + |block.tail| + Padding(16 + |block.tail|);
    hide TilesBytes, TailBytes, Padding;
    Multiple(|block.columns|, 16 + |block.tail|, Padding(16 + |block.tail|));
  }

  lemma Multiple(n: nat, size: nat, pad: nat)
    requires (size + pad) % 64 == 0
    ensures (TILE_SIZE * n + size + pad) % 64 == 0
  {
    var q := (size + pad) / 64;
    assert TILE_SIZE * n + size + pad == 64 * (9 * n + q);
  }

  /** Every block, and the end of the file, is at a multiple of 64. */
  lemma {:induction false} BlocksAligned(rg: RowGroup, n: nat)
    requires |rg.columnNames| == |rg.columnTypes| && n <= |rg.blocks|
    ensures |SerializedTo(rg, n)| % 64 == 0
  {
    hide *;
    if n == 0 {
      PreambleAligned(rg);
    } else {
      BlocksAligned(rg, n - 1);
      BlockSize(rg.blocks[n - 1]);
      OneMoreBlock(rg, n - 1);
      Multiples64(|SerializedTo(rg, n - 1)|, |BlockBytes(rg.blocks[n - 1])|);
    }
  }

  lemma PreambleAligned(rg: RowGroup)
    requires |rg.columnNames| == |rg.columnTypes|
    ensures |SerializedTo(rg, 0)| % 64 == 0
  {
    hide ColumnsBytes, HeaderBytes;
  }

  lemma OneMoreBlock(rg: RowGroup, n: nat)
    requires |rg.columnNames| == |rg.columnTypes| && n < |rg.blocks|
    ensures |SerializedTo(rg, n + 1)| == |SerializedTo(rg, n)| + |BlockBytes(rg.blocks[n])|
  {
    hide Preamble, BlockBytes;
  }

  lemma Multiples64(x: nat, y: nat)
    requires x % 64 == 0 && y % 64 == 0
    ensures (x + y) % 64 == 0
  {
  }

  // ----- reading

  function ReadNumber(data: seq<byte>, o: nat, width: nat): nat
    requires o + width <= |data|
  {
    Decode(data[o..o + width])
  }

  function ParseColumns(data: seq<byte>, o: nat, n: nat, names: seq<Str>, types: seq<nat>): Result<(seq<Str>, seq<nat>, nat)>
    decreases n
  {
    if n == 0 then Ok((names, types, o))
    else if o + 8 > |data| then Err(BAD_COLUMN)
    else
      var kind, length := ReadNumber(data, o, 4), ReadNumber(data, o + 4, 4);
      if o + 8 + length > |data| then Err(BAD_NAME)
      else ParseColumns(data, o + 8 + length, n - 1, names + [data[o + 8..o + 8 + length]], types + [kind])
  }

  function ParseTiles(data: seq<byte>, o: nat, n: nat, tiles: seq<Tile>): Result<(seq<Tile>, nat)>
    decreases n
  {
    if n == 0 then Ok((tiles, o))
    else if o + TILE_SIZE > |data| then Err(BAD_TILE)
    else ParseTiles(data, o + TILE_SIZE, n - 1, tiles + [TileFrom(data[o..o + TILE_SIZE])])
  }

  /** Delete mask, tail size, tail and padding. The bounds check on the tail adds on 64 bits. */
  function ParseTail(data: seq<byte>, o: nat): Result<(Word, seq<byte>, nat)> {
    if o + 8 > |data| then Err(BAD_MASK)
    else if o + 16 > |data| then Err(BAD_TAIL_SIZE)
    else
      var mask, size := WordFrom(data[o..o + 8]), ReadNumber(data, o + 8, 8);
      if size > 0 && Wrap(o + 16 + size) > |data| then Err(BAD_TAIL)
      else if size > 0 && o + 16 + size > |data| then Err(TOO_LONG)
      else Ok((mask, if size > 0 then data[o + 16..o + 16 + size] else [], o + 16 + size + Padding(16 + size)))
  }

  function ParseBlock(data: seq<byte>, o: nat, columns: nat): Result<(Block, nat)> {
    match ParseTiles(data, o, columns, [])
    case Err(e) => Err(e)
    case Ok((tiles, o1)) =>
      match ParseTail(data, o1)
      case Err(e) => Err(e)
      case Ok((mask, tail, o2)) => Ok((Block(tiles, tail, mask), o2))
  }

  function ParseBlocks(data: seq<byte>, o: nat, n: nat, columns: nat, blocks: seq<Block>): Result<(seq<Block>, nat)>
    decreases n
  {
    if n == 0 then Ok((blocks, o))
    else match ParseBlock(data, o, columns)
         case Err(e) => Err(e)
         case Ok((block, o1)) => ParseBlocks(data, o1, n - 1, columns, blocks + [block])
  }

  function Parse(data: seq<byte>): Result<RowGroup> {
    if |data| < 64 then Err(TOO_SMALL)
    else if data[..4] != MAGIC then Err(BAD_MAGIC)
    else
      match ParseColumns(data, 64, ReadNumber(data, 12, 8), [], [])
      case Err(e) => Err(e)
      case Ok((names, types, o)) =>
        match ParseBlocks(data, o + Padding(o), ReadNumber(data, 20, 8), ReadNumber(data, 12, 8), [])
        case Err(e) => Err(e)
        case Ok((blocks, _)) => Ok(RowGroup(ReadNumber(data, 4, 8), names, types, blocks))
  }

  method DeserializeColumns(data: seq<byte>, n: nat) returns (r: Result<(seq<Str>, seq<nat>, nat)>)
    requires |data| >= 64
    ensures r == ParseColumns(data, 64, n, [], [])
  {
    var names: seq<Str>, types: seq<nat> := [], [];
    var offset: nat := 64;
    for i := 0 to n
      invariant ParseColumns(data, offset, n - i, names, types) == ParseColumns(data, 64, n, [], [])
    {
      if offset + 8 > |data| { return Err(BAD_COLUMN); }
      var kind, length := ReadNumber(data, offset, 4), ReadNumber(data, offset + 4, 4);
      offset := offset + 8;
      if offset + length > |data| { return Err(BAD_NAME); }
      names, types := names + [data[offset..offset + length]], types + [kind];
      offset := offset + length;
    }
    return Ok((names, types, offset));
  }

  method DeserializeBlock(data: seq<byte>, o: nat, columns: nat) returns (r: Result<(Block, nat)>)
    ensures r == ParseBlock(data, o, columns)
  {
    hide TileFrom, WordFrom;
    var tiles: seq<Tile> := [];
    var offset: nat := o;
    for c := 0 to columns
      invariant ParseTiles(data, offset, columns - c, tiles) == ParseTiles(data, o, columns, [])
    {
      if offset + TILE_SIZE > |data| { return Err(BAD_TILE); }
      tiles := tiles + [TileFrom(data[offset..offset + TILE_SIZE])];
      offset := offset + TILE_SIZE;
    }
    if offset + 8 > |data| { return Err(BAD_MASK); }
    var mask := WordFrom(data[offset..offset + 8]);
    offset := offset + 8;
    if offset + 8 > |data| { return Err(BAD_TAIL_SIZE); }
    var size := ReadNumber(data, offset, 8);
    offset := offset + 8;
    var tail: seq<byte> := [];
    if size > 0 {
      if Wrap(offset + size) > |data| { return Err(BAD_TAIL); }
      if offset + size > |data| { return Err(TOO_LONG); }
      tail := data[offset..offset + size];
      offset := offset + size;
    }
    offset := offset + Padding(8 + 8 + size);
    return Ok((Block(tiles, tail, mask), offset));
  }

  method Deserialize(data: seq<byte>) returns (r: Result<RowGroup>)
    ensures r == Parse(data)
  {
    hide ParseColumns, ParseBlock, Decode;
    if |data| < 64 { return Err(TOO_SMALL); }
    if data[..4] != MAGIC { return Err(BAD_MAGIC); }
    var rows, columns, n := ReadNumber(data, 4, 8), ReadNumber(data, 12, 8), ReadNumber(data, 20, 8);
    var metadata := DeserializeColumns(data, columns);
    if metadata.Err? { return Err(metadata.reason); }
    var (names, types, end) := metadata.value;
    var start := end + Padding(end);
    var offset: nat := start;
    var blocks: seq<Block> := [];
    for b := 0 to n
      invariant ParseBlocks(data, offset, n - b, columns, blocks) == ParseBlocks(data, start, n, columns, [])
    {
      var next := DeserializeBlock(data, offset, columns);
      if next.Err? { return Err(next.reason); }
      blocks := blocks + [next.value.0];
      offset := next.value.1;
    }
    return Ok(RowGroup(rows, names, types, blocks));
  }

  // ----- round trip

  /** The bytes s are at position o. */
  predicate At(data: seq<byte>, o: nat, s: seq<byte>) { o + |s| <= |data| && data[o..o + |s|] == s }

  lemma AtParts(data: seq<byte>, o: nat, x: seq<byte>, y: seq<byte>)
    requires At(data, o, x + y)
    ensures At(data, o, x) && At(data, o + |x|, y)
  {
    assert data[o..o + |x|] == data[o..o + |x + y|][..|x|];
    assert data[o + |x|..o + |x| + |y|] == data[o..o + |x + y|][|x|..];
  }

  lemma NumberAt(data: seq<byte>, o: nat, n: nat, width: nat)
    requires At(data, o, Encode(n, width)) && n < Pow256(width)
    ensures o + width <= |data| && ReadNumber(data, o, width) == n
  {
    DecodeEncode(n, width);
    hide Decode, Encode;
  }

  lemma {:induction false} ColumnsAt(data: seq<byte>, o: nat, names: seq<Str>, types: seq<nat>, n: nat, i: nat)
    requires i < n <= |names| == |types| && At(data, o, ColumnsBytes(names, types, n))
    ensures At(data, o + |ColumnsBytes(names, types, i)|, ColumnBytes(names[i], types[i]))
  {
    AtParts(data, o, ColumnsBytes(names, types, n - 1), ColumnBytes(names[n - 1], types[n - 1]));
    hide ColumnBytes, At;
    if i < n - 1 { ColumnsAt(data, o, names, types, n - 1, i); }
  }

  lemma ColumnRead(data: seq<byte>, o: nat, name: Str, kind: nat)
    requires At(data, o, ColumnBytes(name, kind)) && |name| < 0x1_0000_0000 && kind < 0x1_0000_0000
    ensures o + 8 + |name| <= |data| && |ColumnBytes(name, kind)| == 8 + |name|
    ensures ReadNumber(data, o, 4) == kind && ReadNumber(data, o + 4, 4) == |name| && data[o + 8..o + 8 + |name|] == name
  {
    Pow256Of8();
    hide Encode, Pow256;
    AtParts(data, o, Encode(kind, 4) + Encode(|name|, 4), name);
    AtParts(data, o, Encode(kind, 4), Encode(|name|, 4));
    hide At, Decode;
    NumberAt(data, o, kind, 4);
    NumberAt(data, o + 4, |name|, 4);
    NameAt(data, o + 8, name);
  }

  lemma NameAt(data: seq<byte>, o: nat, name: Str)
    requires At(data, o, name)
    ensures o + |name| <= |data| && data[o..o + |name|] == name
  {
  }

  lemma ParseColumnsNext(data: seq<byte>, o: nat, n: nat, names: seq<Str>, types: seq<nat>, name: Str, kind: nat)
    requires n > 0 && o + 8 + |name| <= |data|
    requires ReadNumber(data, o, 4) == kind && ReadNumber(data, o + 4, 4) == |name| && data[o + 8..o + 8 + |name|] == name
    ensures ParseColumns(data, o, n, names, types) == ParseColumns(data, o + 8 + |name|, n - 1, names + [name], types + [kind])
  {
    hide ReadNumber;
  }

  lemma ColumnsNext(names: seq<Str>, types: seq<nat>, i: nat)
    requires i < |names| == |types|
    ensures |ColumnsBytes(names, types, i + 1)| == |ColumnsBytes(names, types, i)| + |ColumnBytes(names[i], types[i])|
    ensures names[..i + 1] == names[..i] + [names[i]] && types[..i + 1] == types[..i] + [types[i]]
  {
    hide ColumnBytes;
  }

  lemma ColumnsDone(data: seq<byte>, o: nat, names: seq<Str>, types: seq<nat>)
    requires |names| == |types|
    ensures ParseColumns(data, o, 0, names[..|names|], types[..|names|]) == Ok((names, types, o))
  {
    assert names[..|names|] == names && types[..|names|] == types;
  }

  lemma {:induction false} ColumnsParse(data: seq<byte>, names: seq<Str>, types: seq<nat>, i: nat)
    requires |names| == |types| && i <= |names| && At(data, 64, ColumnsBytes(names, types, |names|))
    requires forall k :: 0 <= k < |names| ==> |names[k]| < 0x1_0000_0000 && types[k] < 0x1_0000_0000
    ensures ParseColumns(data, 64 + |ColumnsBytes(names, types, i)|, |names| - i, names[..i], types[..i])
            == Ok((names, types, 64 + |ColumnsBytes(names, types, |names|)|))
    decreases |names| - i
  {
    hide *;
    var o := 64 + |ColumnsBytes(names, types, i)|;
    if i == |names| {
      ColumnsDone(data, o, names, types);
    } else {
      ColumnsAt(data, 64, names, types, |names|, i);
      ColumnRead(data, o, names[i], types[i]);
      ColumnsNext(names, types, i);
      ParseColumnsNext(data, o, |names| - i, names[..i], types[..i], names[i], types[i]);
      ColumnsParse(data, names, types, i + 1);
    }
  }

  lemma {:induction false} TileBytesAt(data: seq<byte>, o: nat, tiles: seq<Tile>, n: nat, i: nat)
    requires i < n <= |tiles| && At(data, o, TilesBytes(tiles, n))
    ensures At(data, o + TILE_SIZE * i, TileBytes(tiles[i]))
  {
    TileBytesSize(tiles, n - 1);
    AtParts(data, o, TilesBytes(tiles, n - 1), TileBytes(tiles[n - 1]));
    hide TileBytes, At;
    if i < n - 1 { TileBytesAt(data, o, tiles, n - 1, i); }
  }

  lemma ParseTilesNext(data: seq<byte>, o: nat, n: nat, tiles: seq<Tile>, tile: Tile)
    requires n > 0 && At(data, o, TileBytes(tile))
    ensures ParseTiles(data, o, n, tiles) == ParseTiles(data, o + TILE_SIZE, n - 1, tiles + [tile])
  {
    hide TileBytes, TileFrom;
    TileRoundTrip(tile);
    assert data[o..o + TILE_SIZE] == TileBytes(tile);
  }

  lemma TilesDone(data: seq<byte>, o: nat, tiles: seq<Tile>)
    ensures ParseTiles(data, o, 0, tiles[..|tiles|]) == Ok((tiles, o))
  {
    assert tiles[..|tiles|] == tiles;
  }

  lemma {:induction false} TilesParse(data: seq<byte>, o: nat, tiles: seq<Tile>, i: nat)
    requires i <= |tiles| && At(data, o, TilesBytes(tiles, |tiles|))
    ensures ParseTiles(data, o + TILE_SIZE * i, |tiles| - i, tiles[..i]) == Ok((tiles, o + TILE_SIZE * |tiles|))
    decreases |tiles| - i
  {
    hide *;
    if i == |tiles| {
      TilesDone(data, o + TILE_SIZE * i, tiles);
    } else {
      TileBytesAt(data, o, tiles, |tiles|, i);
      ParseTilesNext(data, o + TILE_SIZE * i, |tiles| - i, tiles[..i], tiles[i]);
      assert tiles[..i + 1] == tiles[..i] + [tiles[i]];
      TilesParse(data, o, tiles, i + 1);
    }
  }

  lemma TailParts(data: seq<byte>, o: nat, mask: Word, tail: seq<byte>)
    requires At(data, o, TailBytes(mask, tail)) && |tail| < TWO_64
    ensures At(data, o, WordBytes(mask)) && At(data, o + 8, Encode(|tail|, 8)) && At(data, o + 16, tail)
    ensures |TailBytes(mask, tail)| == 16 + |tail| + Padding(16 + |tail|)
  {
    var size, pad := Encode(|tail|, 8), Zeros(Padding(16 + |tail|));
    hide Encode, WordBytes, At;
    AtParts(data, o, WordBytes(mask) + size + tail, pad);
    AtParts(data, o, WordBytes(mask) + size, tail);
    AtParts(data, o, WordBytes(mask), size);
  }

  lemma ParseTailWhen(data: seq<byte>, o: nat, mask: Word, tail: seq<byte>)
    requires o + 16 + |tail| <= |data| && WordFrom(data[o..o + 8]) == mask
    requires ReadNumber(data, o + 8, 8) == |tail| && data[o + 16..o + 16 + |tail|] == tail
    ensures ParseTail(data, o) == Ok((mask, tail, o + 16 + |tail| + Padding(16 + |tail|)))
  {
    TailFits(o + 16 + |tail|, |data|);
    hide Wrap, Padding, WordFrom, ReadNumber;
  }

  lemma TailParse(data: seq<byte>, o: nat, mask: Word, tail: seq<byte>)
    requires At(data, o, TailBytes(mask, tail)) && |tail| < TWO_64
    ensures ParseTail(data, o) == Ok((mask, tail, o + |TailBytes(mask, tail)|))
  {
    hide *;
    TailParts(data, o, mask, tail);
    Pow256Of8();
    NumberAt(data, o + 8, |tail|, 8);
    WordRoundTrip(mask);
    NameAt(data, o, WordBytes(mask));
    NameAt(data, o + 16, tail);
    ParseTailWhen(data, o, mask, tail);
  }

  lemma TailFits(end: nat, size: nat)
    requires end <= size
    ensures Wrap(end) <= size
  {
  }

  lemma ParseBlockWhen(data: seq<byte>, o: nat, columns: nat, tiles: seq<Tile>, o1: nat, mask: Word, tail: seq<byte>, o2: nat)
    requires ParseTiles(data, o, columns, []) == Ok((tiles, o1)) && ParseTail(data, o1) == Ok((mask, tail, o2))
    ensures ParseBlock(data, o, columns) == Ok((Block(tiles, tail, mask), o2))
  {
    hide ParseTiles, ParseTail;
  }

  lemma BlockPieces(data: seq<byte>, o: nat, block: Block)
    requires At(data, o, BlockBytes(block))
    ensures At(data, o, TilesBytes(block.columns, |block.columns|))
    ensures At(data, o + TILE_SIZE * |block.columns|, TailBytes(block.deleteMask, block.tail))
    ensures |BlockBytes(block)| == TILE_SIZE * |block.columns| + |TailBytes(block.deleteMask, block.tail)|
    ensures block.columns[..0] == []
  {
    TileBytesSize(block.columns, |block.columns|);
    AtParts(data, o, TilesBytes(block.columns, |block.columns|), TailBytes(block.deleteMask, block.tail));
    hide At, TilesBytes, TailBytes;
  }

  lemma BlockParse(data: seq<byte>, o: nat, block: Block)
    requires At(data, o, BlockBytes(block)) && |block.tail| < TWO_64
    ensures ParseBlock(data, o, |block.columns|) == Ok((block, o + |BlockBytes(block)|))
  {
    hide *;
    var n, mid := |block.columns|, o + TILE_SIZE * |block.columns|;
    BlockPieces(data, o, block);
    TilesParse(data, o, block.columns, 0);
    TailParse(data, mid, block.deleteMask, block.tail);
    ParseBlockWhen(data, o, n, block.columns, mid, block.deleteMask, block.tail, mid + |TailBytes(block.deleteMask, block.tail)|);
  }

  lemma {:induction false} BlocksAt(data: seq<byte>, o: nat, blocks: seq<Block>, n: nat, i: nat)
    requires i < n <= |blocks| && At(data, o, BlocksBytes(blocks, n))
    ensures At(data, o + |BlocksBytes(blocks, i)|, BlockBytes(blocks[i]))
  {
    AtParts(data, o, BlocksBytes(blocks, n - 1), BlockBytes(blocks[n - 1]));
    hide BlockBytes, At;
    if i < n - 1 { BlocksAt(data, o, blocks, n - 1, i); }
  }

  lemma ParseBlocksNext(data: seq<byte>, o: nat, n: nat, columns: nat, blocks: seq<Block>, block: Block, next: nat)
    requires n > 0 && ParseBlock(data, o, columns) == Ok((block, next))
    ensures ParseBlocks(data, o, n, columns, blocks) == ParseBlocks(data, next, n - 1, columns, blocks + [block])
  {
    hide ParseBlock;
  }

  lemma BlocksNext(blocks: seq<Block>, i: nat)
    requires i < |blocks|
    ensures |BlocksBytes(blocks, i + 1)| == |BlocksBytes(blocks, i)| + |BlockBytes(blocks[i])|
    ensures blocks[..i + 1] == blocks[..i] + [blocks[i]]
  {
    hide BlockBytes;
  }

  lemma BlocksDone(data: seq<byte>, o: nat, columns: nat, blocks: seq<Block>)
    ensures ParseBlocks(data, o, 0, columns, blocks[..|blocks|]) == Ok((blocks, o))
  {
    assert blocks[..|blocks|] == blocks;
  }

  lemma {:induction false} BlocksParse(data: seq<byte>, o: nat, blocks: seq<Block>, columns: nat, i: nat)
    requires i <= |blocks| && At(data, o, BlocksBytes(blocks, |blocks|))
    requires forall b :: 0 <= b < |blocks| ==> |blocks[b].columns| == columns && |blocks[b].tail| < TWO_64
    ensures ParseBlocks(data, o + |BlocksBytes(blocks, i)|, |blocks| - i, columns, blocks[..i])
            == Ok((blocks, o + |BlocksBytes(blocks, |blocks|)|))
    decreases |blocks| - i
  {
    hide *;
    var at := o + |BlocksBytes(blocks, i)|;
    if i == |blocks| {
      BlocksDone(data, at, columns, blocks);
    } else {
      BlocksAt(data, o, blocks, |blocks|, i);
      BlockParse(data, at, blocks[i]);
      BlocksNext(blocks, i);
      ParseBlocksNext(data, at, |blocks| - i, columns, blocks[..i], blocks[i], at + |BlockBytes(blocks[i])|);
      BlocksParse(data, o, blocks, columns, i + 1);
    }
  }

  lemma HeaderParse(data: seq<byte>, rows: nat, columns: nat, blocks: nat)
    requires At(data, 0, HeaderBytes(rows, columns, blocks)) && rows < TWO_64 && columns < TWO_64 && blocks < TWO_64
    ensures |data| >= 64 && data[..4] == MAGIC
    ensures ReadNumber(data, 4, 8) == rows && ReadNumber(data, 12, 8) == columns && ReadNumber(data, 20, 8) == blocks
  {
    var a, b, c := Encode(rows, 8), Encode(columns, 8), Encode(blocks, 8);
    Pow256Of8();
    hide Encode, Pow256, Decode;
    AtParts(data, 0, MAGIC + a + b + c, Zeros(36));
    AtParts(data, 0, MAGIC + a + b, c);
    AtParts(data, 0, MAGIC + a, b);
    AtParts(data, 0, MAGIC, a);
    NumberAt(data, 4, rows, 8);
    NumberAt(data, 12, columns, 8);
    NumberAt(data, 20, blocks, 8);
  }

  lemma PreambleParts(rg: RowGroup, data: seq<byte>)
    requires WellFormed(rg) && data == SerializedTo(rg, |rg.blocks|)
    ensures var names, types := rg.columnNames, rg.columnTypes;
            var n, end := |names|, 64 + |ColumnsBytes(names, types, |names|)|;
            && At(data, 0, HeaderBytes(rg.numRows, n, |rg.blocks|))
            && At(data, 64, ColumnsBytes(names, types, n))
            && At(data, end + Padding(end), BlocksBytes(rg.blocks, |rg.blocks|))
  {
    var header := HeaderBytes(rg.numRows, |rg.columnNames|, |rg.blocks|);
    var columns := ColumnsBytes(rg.columnNames, rg.columnTypes, |rg.columnNames|);
    var pad := Zeros(Padding(|header + columns|));
    hide HeaderBytes, ColumnsBytes, BlocksBytes;
    var blocks := BlocksBytes(rg.blocks, |rg.blocks|);
    assert data == header + columns + pad + blocks;
    AtParts(data, 0, header + columns + pad, blocks);
    AtParts(data, 0, header + columns, pad);
    AtParts(data, 0, header, columns);
  }

  lemma ParseWhen(data: seq<byte>, rg: RowGroup, n: nat, o: nat, end: nat)
    requires |data| >= 64 && data[..4] == MAGIC
    requires ReadNumber(data, 4, 8) == rg.numRows && ReadNumber(data, 12, 8) == n && ReadNumber(data, 20, 8) == |rg.blocks|
    requires ParseColumns(data, 64, n, [], []) == Ok((rg.columnNames, rg.columnTypes, o))
    requires ParseBlocks(data, o + Padding(o), |rg.blocks|, n, []) == Ok((rg.blocks, end))
    ensures Parse(data) == Ok(rg)
  {
    hide ReadNumber, ParseColumns, ParseBlocks, Padding;
  }

  lemma Beginnings(rg: RowGroup)
    requires WellFormed(rg)
    ensures |rg.columnNames| == |rg.columnTypes| < TWO_64 && |rg.blocks| == NumBlocks(rg.numRows) < TWO_64 && rg.numRows < TWO_64
    ensures |ColumnsBytes(rg.columnNames, rg.columnTypes, 0)| == 0 && |BlocksBytes(rg.blocks, 0)| == 0
    ensures rg.columnNames[..0] == [] && rg.columnTypes[..0] == [] && rg.blocks[..0] == []
    ensures forall i :: 0 <= i < |rg.columnNames| ==> |rg.columnNames[i]| < 0x1_0000_0000 && rg.columnTypes[i] < 0x1_0000_0000
    ensures forall b :: 0 <= b < |rg.blocks| ==> |rg.blocks[b].columns| == |rg.columnNames| && |rg.blocks[b].tail| < TWO_64
  {
  }

  /** Reading back what was written: no bounds check fires and nothing changes. */
  lemma RoundTrip(rg: RowGroup)
    requires WellFormed(rg)
    ensures Parse(SerializedTo(rg, NumBlocks(rg.numRows))) == Ok(rg)
  {
    hide *;
    Beginnings(rg);
    var data, n := SerializedTo(rg, |rg.blocks|), |rg.columnNames|;
    var end := 64 + |ColumnsBytes(rg.columnNames, rg.columnTypes, n)|;
    PreambleParts(rg, data);
    HeaderParse(data, rg.numRows, n, |rg.blocks|);
    ColumnsParse(data, rg.columnNames, rg.columnTypes, 0);
    BlocksParse(data, end + Padding(end), rg.blocks, n, 0);
    ParseWhen(data, rg, n, end, end + Padding(end) + |BlocksBytes(rg.blocks, |rg.blocks|)|);
  }
}
