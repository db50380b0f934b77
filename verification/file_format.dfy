/** The file of a row group byte by byte: where everything stands, what any accepted
    file holds, and how a file that was cut off is refused. */
module FileFormat {
  import opened Words
  import opened SimdTransposer
  import opened Storage
  import opened Exporter

  // ----- where everything stands

  /** Position of column i's entry. */
  function ColumnEntry(rg: RowGroup, i: nat): nat
    requires i <= |rg.columnNames| == |rg.columnTypes|
  {
    if i == 0 then 64 else ColumnEntry(rg, i - 1) + 8 + |rg.columnNames[i - 1]|
  }

  /** Bytes of block b: its tiles, 8 bytes of delete mask, 8 of tail size, the tail, and padding. */
  function BlockLength(block: Block): nat {
    576 * |block.columns| + 16 + |block.tail| + Padding(16 + |block.tail|)
  }

  /** Position of block b. */
  function BlockEntry(rg: RowGroup, b: nat): nat
    requires b <= |rg.blocks| && |rg.columnNames| == |rg.columnTypes|
  {
    if b == 0 then ColumnEntry(rg, |rg.columnNames|) + Padding(ColumnEntry(rg, |rg.columnNames|))
    else BlockEntry(rg, b - 1) + BlockLength(rg.blocks[b - 1])
  }

  function File(rg: RowGroup): seq<byte>
    requires WellFormed(rg)
  {
    SerializedTo(rg, |rg.blocks|)
  }

  lemma {:induction false} ColumnsSize(rg: RowGroup, i: nat)
    requires i <= |rg.columnNames| == |rg.columnTypes|
    ensures 64 + |ColumnsBytes(rg.columnNames, rg.columnTypes, i)| == ColumnEntry(rg, i)
  {
    if i > 0 { ColumnsSize(rg, i - 1); }
  }

  lemma BlockLengthIs(block: Block)
    ensures |BlockBytes(block)| == BlockLength(block)
    ensures |TailBytes(block.deleteMask, block.tail)| == 16 + |block.tail| + Padding(16 + |block.tail|)
  {
    BlockSize(block);
    TileBytesSize(block.columns, |block.columns|);
  }

  lemma {:induction false} BlocksSize(rg: RowGroup, b: nat)
    requires b <= |rg.blocks| && |rg.columnNames| == |rg.columnTypes|
    ensures BlockEntry(rg, 0) + |BlocksBytes(rg.blocks, b)| == BlockEntry(rg, b)
  {
    if b > 0 {
      BlocksSize(rg, b - 1);
      BlockLengthIs(rg.blocks[b - 1]);
      hide BlockBytes, BlockLength, ColumnEntry;
    }
  }

  lemma FileParts(rg: RowGroup)
    requires WellFormed(rg)
    ensures |rg.columnNames| == |rg.columnTypes| < TWO_64 && |rg.blocks| < TWO_64 && rg.numRows < TWO_64
    ensures At(File(rg), 0, HeaderBytes(rg.numRows, |rg.columnNames|, |rg.blocks|))
    ensures At(File(rg), 64, ColumnsBytes(rg.columnNames, rg.columnTypes, |rg.columnNames|))
    ensures At(File(rg), BlockEntry(rg, 0), BlocksBytes(rg.blocks, |rg.blocks|))
    ensures |File(rg)| == BlockEntry(rg, |rg.blocks|)
  {
    Beginnings(rg);
    PreambleParts(rg, File(rg));
    ColumnsSize(rg, |rg.columnNames|);
    BlocksSize(rg, |rg.blocks|);
    FileSize(rg);
    hide WellFormed, At, HeaderBytes, ColumnsBytes, BlocksBytes, ColumnEntry;
  }

  lemma FileSize(rg: RowGroup)
    requires WellFormed(rg)
    ensures var end := 64 + |ColumnsBytes(rg.columnNames, rg.columnTypes, |rg.columnNames|)|;
            |File(rg)| == end + Padding(end) + |BlocksBytes(rg.blocks, |rg.blocks|)|
  {
    hide HeaderBytes, ColumnsBytes, BlocksBytes;
  }

  /** What being well formed says of one column, and of one block. */
  lemma WellColumn(rg: RowGroup, i: nat)
    requires WellFormed(rg) && i < |rg.columnNames|
    ensures |rg.columnNames| == |rg.columnTypes| && |rg.columnNames[i]| < 0x1_0000_0000 && rg.columnTypes[i] < 0x1_0000_0000
  {
  }

  lemma WellBlock(rg: RowGroup, b: nat)
    requires WellFormed(rg) && b < |rg.blocks|
    ensures |rg.columnNames| == |rg.columnTypes| && |rg.blocks[b].columns| == |rg.columnNames| && |rg.blocks[b].tail| < TWO_64
  {
  }

  lemma NextColumn(rg: RowGroup, i: nat)
    requires i < |rg.columnNames| == |rg.columnTypes|
    ensures ColumnEntry(rg, i + 1) == ColumnEntry(rg, i) + 8 + |rg.columnNames[i]|
  {
  }

  lemma ColumnThere(rg: RowGroup, i: nat)
    requires WellFormed(rg) && i < |rg.columnNames|
    ensures |rg.columnNames| == |rg.columnTypes| && |rg.columnNames[i]| < 0x1_0000_0000 && rg.columnTypes[i] < 0x1_0000_0000
    ensures At(File(rg), ColumnEntry(rg, i), ColumnBytes(rg.columnNames[i], rg.columnTypes[i]))
    ensures ColumnEntry(rg, i + 1) == ColumnEntry(rg, i) + 8 + |rg.columnNames[i]|
  {
    hide *;
    WellColumn(rg, i);
    NextColumn(rg, i);
    FileParts(rg);
    ColumnsAt(File(rg), 64, rg.columnNames, rg.columnTypes, |rg.columnNames|, i);
    ColumnsSize(rg, i);
  }

  lemma BlockThere(rg: RowGroup, b: nat)
    requires WellFormed(rg) && b < |rg.blocks|
    ensures |rg.columnNames| == |rg.columnTypes| && |rg.blocks[b].columns| == |rg.columnNames| && |rg.blocks[b].tail| < TWO_64
    ensures At(File(rg), BlockEntry(rg, b), BlockBytes(rg.blocks[b]))
    ensures BlockEntry(rg, b + 1) == BlockEntry(rg, b) + BlockLength(rg.blocks[b])
    ensures |BlockBytes(rg.blocks[b])| == BlockLength(rg.blocks[b])
  {
    hide *;
    WellBlock(rg, b);
    FileParts(rg);
    BlocksAt(File(rg), BlockEntry(rg, 0), rg.blocks, |rg.blocks|, b);
    BlocksSize(rg, b);
    BlocksSize(rg, b + 1);
    BlocksNext(rg.blocks, b);
    BlockLengthIs(rg.blocks[b]);
  }

  /** The header: the magic, three numbers, and zeros up to byte 64. */
  lemma HeaderLayout(rg: RowGroup)
    requires WellFormed(rg)
    ensures var s := File(rg);
            && |s| >= 64 && s[..4] == ['C' as int, 'B' as int, 'S' as int, 'T' as int]
            && Decode(s[4..12]) == rg.numRows && Decode(s[12..20]) == |rg.columnNames| && Decode(s[20..28]) == |rg.blocks|
            && forall i :: 28 <= i < 64 ==> s[i] == 0
  {
    hide *;
    FileParts(rg);
    HeaderParse(File(rg), rg.numRows, |rg.columnNames|, |rg.blocks|);
    HeaderNumbers(File(rg));
    HeaderZeros(File(rg), rg.numRows, |rg.columnNames|, |rg.blocks|);
    Magic();
  }

  lemma Magic()
    ensures MAGIC == ['C' as int, 'B' as int, 'S' as int, 'T' as int]
  {
  }

  lemma HeaderNumbers(s: seq<byte>)
    requires |s| >= 64
    ensures ReadNumber(s, 4, 8) == Decode(s[4..12]) && ReadNumber(s, 12, 8) == Decode(s[12..20]) && ReadNumber(s, 20, 8) == Decode(s[20..28])
  {
    hide Decode;
  }

  lemma HeaderZeros(data: seq<byte>, rows: nat, columns: nat, blocks: nat)
    requires |data| >= 64 && At(data, 0, HeaderBytes(rows, columns, blocks))
    ensures forall i :: 28 <= i < 64 ==> data[i] == 0
  {
    var head := HeaderBytes(rows, columns, blocks);
    assert head[28..] == Zeros(36) by { hide Encode; }
    hide HeaderBytes;
    forall i | 28 <= i < 64 ensures data[i] == 0 {
      assert data[i] == data[0..64][i] == head[i] == head[28..][i - 28];
    }
  }

  /** A column's entry: its type and the length of its name, four bytes each, and the name. */
  lemma ColumnLayout(rg: RowGroup, i: nat)
    requires WellFormed(rg) && i < |rg.columnNames|
    ensures i < |rg.columnTypes|
    ensures var s, o := File(rg), ColumnEntry(rg, i);
            && o + 8 + |rg.columnNames[i]| <= |s|
            && Decode(s[o..o + 4]) == rg.columnTypes[i] && Decode(s[o + 4..o + 8]) == |rg.columnNames[i]|
            && s[o + 8..o + 8 + |rg.columnNames[i]|] == rg.columnNames[i]
  {
    hide *;
    ColumnThere(rg, i);
    ColumnRead(File(rg), ColumnEntry(rg, i), rg.columnNames[i], rg.columnTypes[i]);
    FourNumbers(File(rg), ColumnEntry(rg, i));
  }

  lemma FourNumbers(s: seq<byte>, o: nat)
    requires o + 8 <= |s|
    ensures ReadNumber(s, o, 4) == Decode(s[o..o + 4]) && ReadNumber(s, o + 4, 4) == Decode(s[o + 4..o + 8])
  {
    hide Decode;
  }

  lemma PartOf(s: seq<byte>, o: nat, part: seq<byte>, p: nat, n: nat)
    requires At(s, o, part) && p + n <= |part|
    ensures o + p + n <= |s| && s[o + p..o + p + n] == part[p..p + n]
  {
    var x, y := s[o + p..o + p + n], part[p..p + n];
    forall k | 0 <= k < n ensures x[k] == y[k] { assert s[o..o + |part|][p + k] == s[o + p + k]; }
  }

  lemma WordDecodes(w: Word)
    ensures Decode(WordBytes(w)) == Value(w)
  {
    WordOfValue(w);
    Pow256Of8();
    hide WordOf, Value, Decode, Encode, Pow256;
    DecodeEncode(Value(w), 8);
  }

  lemma TileThere(data: seq<byte>, o: nat, tiles: seq<Tile>, c: nat)
    requires c < |tiles| && At(data, o, TilesBytes(tiles, |tiles|))
    ensures At(data, o + 576 * c, TileBytes(tiles[c]))
  {
    TileBytesAt(data, o, tiles, |tiles|, c);
    hide At, TilesBytes, TileBytes;
  }

  lemma WordsOfTile(tile: Tile, i: nat)
    requires i < 72
    ensures TileWords(tile)[i] == if i < 64 then tile.planes[i] else if i == 64 then tile.validity else tile.padding[i - 65]
    ensures TileBytes(tile) == WordsBytes(TileWords(tile)) && |TileBytes(tile)| == 576
  {
    hide WordsBytes;
  }

  /** Word i of tile c of block b: 64 planes, the validity plane, seven words of padding. */
  lemma TileLayout(rg: RowGroup, b: nat, c: nat, i: nat)
    requires WellFormed(rg) && b < |rg.blocks| && c < |rg.blocks[b].columns| && i < 72
    ensures |rg.columnNames| == |rg.columnTypes|
    ensures var s, o, tile := File(rg), BlockEntry(rg, b) + 576 * c + 8 * i, rg.blocks[b].columns[c];
            && o + 8 <= |s|
            && Decode(s[o..o + 8]) == Value(if i < 64 then tile.planes[i] else if i == 64 then tile.validity else tile.padding[i - 65])
  {
    hide *;
    WellBlock(rg, b);
    var block, o := rg.blocks[b], BlockEntry(rg, b);
    var tile := block.columns[c];
    WordsOfTile(tile, i);
    BlockThere(rg, b);
    PiecesOfBlock(File(rg), o, block);
    TileThere(File(rg), o, block.columns, c);
    WordsAt(TileWords(tile), i);
    PartOf(File(rg), o + 576 * c, TileBytes(tile), 8 * i, 8);
    WordDecodes(TileWords(tile)[i]);
  }

  /** Behind the tiles: the delete mask, the size of the tail, the tail. */
  lemma TailLayout(rg: RowGroup, b: nat)
    requires WellFormed(rg) && b < |rg.blocks|
    ensures |rg.columnNames| == |rg.columnTypes|
    ensures var s, block := File(rg), rg.blocks[b];
            var o := BlockEntry(rg, b) + 576 * |block.columns|;
            && o + 16 + |block.tail| <= |s|
            && Decode(s[o..o + 8]) == Value(block.deleteMask) && Decode(s[o + 8..o + 16]) == |block.tail|
            && s[o + 16..o + 16 + |block.tail|] == block.tail
  {
    hide *;
    var block := rg.blocks[b];
    BlockThere(rg, b);
    var o := BlockEntry(rg, b) + 576 * |block.columns|;
    PiecesOfBlock(File(rg), BlockEntry(rg, b), block);
    TailParts(File(rg), o, block.deleteMask, block.tail);
    NameAt(File(rg), o, WordBytes(block.deleteMask));
    NameAt(File(rg), o + 16, block.tail);
    WordDecodes(block.deleteMask);
    Pow256Of8();
    NumberAt(File(rg), o + 8, |block.tail|, 8);
    EightNumber(File(rg), o + 8);
  }

  lemma EightNumber(s: seq<byte>, o: nat)
    requires o + 8 <= |s|
    ensures ReadNumber(s, o, 8) == Decode(s[o..o + 8])
  {
    hide Decode;
  }

  // ----- what any accepted file holds

  lemma {:induction false} TilesExactly(data: seq<byte>, o: nat, n: nat, tiles: seq<Tile>)
    ensures ParseTiles(data, o, n, tiles).Ok? <==> n == 0 || o + 576 * n <= |data|
    ensures ParseTiles(data, o, n, tiles).Err? ==> ParseTiles(data, o, n, tiles) == Err(BAD_TILE)
    ensures ParseTiles(data, o, n, tiles).Ok? ==>
      ParseTiles(data, o, n, tiles).value.1 == o + 576 * n && |ParseTiles(data, o, n, tiles).value.0| == |tiles| + n
    decreases n
  {
    hide TileFrom;
    if n > 0 && o + 576 <= |data| { TilesExactly(data, o + 576, n - 1, tiles + [TileFrom(data[o..o + 576])]); }
  }

  lemma {:induction false} ColumnsShape(data: seq<byte>, o: nat, n: nat, names: seq<Str>, types: seq<nat>)
    requires ParseColumns(data, o, n, names, types).Ok?
    ensures var (names', types', end) := ParseColumns(data, o, n, names, types).value;
            |names'| == |names| + n && |types'| == |types| + n && (n == 0 || end <= |data|) && end >= o + 8 * n
    decreases n
  {
    if n > 0 {
      var kind, length := ReadNumber(data, o, 4), ReadNumber(data, o + 4, 4);
      hide ReadNumber;
      ColumnsShape(data, o + 8 + length, n - 1, names + [data[o + 8..o + 8 + length]], types + [kind]);
    }
  }

  lemma BlockShape(data: seq<byte>, o: nat, columns: nat)
    requires ParseBlock(data, o, columns).Ok?
    ensures |ParseBlock(data, o, columns).value.0.columns| == columns
    ensures o + 576 * columns + 16 + |ParseBlock(data, o, columns).value.0.tail| <= |data|
  {
    TilesExactly(data, o, columns, []);
    hide ParseTiles, WordFrom, ReadNumber;
  }

  lemma {:induction false} BlocksShape(data: seq<byte>, o: nat, n: nat, columns: nat, blocks: seq<Block>)
    requires ParseBlocks(data, o, n, columns, blocks).Ok? && forall b :: 0 <= b < |blocks| ==> |blocks[b].columns| == columns
    ensures var found := ParseBlocks(data, o, n, columns, blocks).value.0;
            |found| == |blocks| + n && forall b :: 0 <= b < |found| ==> |found[b].columns| == columns
    decreases n
  {
    if n > 0 {
      BlockShape(data, o, columns);
      var (block, next) := ParseBlock(data, o, columns).value;
      hide ParseBlock;
      BlocksShape(data, next, n - 1, columns, blocks + [block]);
    }
  }

  /** Whatever is accepted has as many columns, and blocks, as its header says, and a
      tile for every column in every block. */
  lemma ParsedShape(data: seq<byte>, rg: RowGroup)
    requires Parse(data) == Ok(rg)
    ensures |data| >= 64 && rg.numRows == Decode(data[4..12])
    ensures |rg.columnNames| == |rg.columnTypes| == Decode(data[12..20]) && |rg.blocks| == Decode(data[20..28])
    ensures forall b :: 0 <= b < |rg.blocks| ==> |rg.blocks[b].columns| == |rg.columnNames|
  {
    hide *;
    ParseParts(data, rg);
    HeaderNumbers(data);
    var n := ReadNumber(data, 12, 8);
    ColumnsShape(data, 64, n, [], []);
    var o := ParseColumns(data, 64, n, [], []).value.2;
    BlocksShape(data, o + Padding(o), ReadNumber(data, 20, 8), n, []);
  }

  lemma Unreadable(cut: seq<byte>)
    ensures |cut| < 64 ==> Parse(cut) == Err(TOO_SMALL)
    ensures |cut| >= 64 && cut[..4] != MAGIC ==> Parse(cut) == Err(BAD_MAGIC)
    ensures |cut| >= 64 && cut[..4] == MAGIC && ParseColumns(cut, 64, ReadNumber(cut, 12, 8), [], []).Err? ==>
      Parse(cut) == Err(ParseColumns(cut, 64, ReadNumber(cut, 12, 8), [], []).reason)
  {
    hide ParseColumns, ParseBlocks, ReadNumber, Padding;
  }

  lemma Readable(cut: seq<byte>, names: seq<Str>, types: seq<nat>, o: nat)
    requires |cut| >= 64 && cut[..4] == MAGIC && ParseColumns(cut, 64, ReadNumber(cut, 12, 8), [], []) == Ok((names, types, o))
    ensures Parse(cut) == match ParseBlocks(cut, o + Padding(o), ReadNumber(cut, 20, 8), ReadNumber(cut, 12, 8), [])
                          case Err(e) => Err(e)
                          case Ok((blocks, _)) => Ok(RowGroup(ReadNumber(cut, 4, 8), names, types, blocks))
  {
    hide ParseColumns, ParseBlocks, ReadNumber, Padding;
  }

  lemma ParseParts(data: seq<byte>, rg: RowGroup)
    requires Parse(data) == Ok(rg)
    ensures |data| >= 64 && rg.numRows == ReadNumber(data, 4, 8)
    ensures var n := ReadNumber(data, 12, 8);
            var columns := ParseColumns(data, 64, n, [], []);
            && columns.Ok? && columns.value.0 == rg.columnNames && columns.value.1 == rg.columnTypes
            && var blocks := ParseBlocks(data, columns.value.2 + Padding(columns.value.2), ReadNumber(data, 20, 8), n, []);
               blocks.Ok? && blocks.value.0 == rg.blocks
  {
    hide *;
    Unreadable(data);
    var (names, types, o) := ParseColumns(data, 64, ReadNumber(data, 12, 8), [], []).value;
    Readable(data, names, types, o);
  }

  // ----- files cut off after k bytes

  /** Why the columns from i on cannot be read, if k bytes are left. */
  function ColumnsReason(rg: RowGroup, i: nat, k: nat): Option<string>
    requires i <= |rg.columnNames| == |rg.columnTypes|
    decreases |rg.columnNames| - i
  {
    if i == |rg.columnNames| then None
    else if k < ColumnEntry(rg, i) + 8 then Some(BAD_COLUMN)
    else if k < ColumnEntry(rg, i + 1) then Some(BAD_NAME)
    else ColumnsReason(rg, i + 1, k)
  }

  /** Why block b cannot be read. The sum in the bounds check of the tail is one on 64 bits. */
  function BlockReason(rg: RowGroup, b: nat, k: nat): Option<string>
    requires b < |rg.blocks| && |rg.columnNames| == |rg.columnTypes|
  {
    var block := rg.blocks[b];
    var tiles := BlockEntry(rg, b) + 576 * |block.columns|;
    if |block.columns| > 0 && k < tiles then Some(BAD_TILE)
    else if k < tiles + 8 then Some(BAD_MASK)
    else if k < tiles + 16 then Some(BAD_TAIL_SIZE)
    else if k < tiles + 16 + |block.tail| then Some(if Wrap(tiles + 16 + |block.tail|) > k then BAD_TAIL else TOO_LONG)
    else None
  }

  function BlocksReason(rg: RowGroup, b: nat, k: nat): Option<string>
    requires b <= |rg.blocks| && |rg.columnNames| == |rg.columnTypes|
    decreases |rg.blocks| - b
  {
    if b == |rg.blocks| then None
    else if BlockReason(rg, b, k).Some? then BlockReason(rg, b, k)
    else BlocksReason(rg, b + 1, k)
  }

  function CutReason(rg: RowGroup, k: nat): Option<string>
    requires |rg.columnNames| == |rg.columnTypes|
  {
    if k < 64 then Some(TOO_SMALL)
    else if ColumnsReason(rg, 0, k).Some? then ColumnsReason(rg, 0, k)
    else BlocksReason(rg, 0, k)
  }

  /** Where the last tail ends, or the column metadata when there is no block. */
  function Needed(rg: RowGroup): nat
    requires |rg.columnNames| == |rg.columnTypes|
  {
    if rg.blocks == [] then ColumnEntry(rg, |rg.columnNames|)
    else
      var last := |rg.blocks| - 1;
      BlockEntry(rg, last) + 576 * |rg.blocks[last].columns| + 16 + |rg.blocks[last].tail|
  }

  lemma AtCut(data: seq<byte>, k: nat, o: nat, s: seq<byte>)
    requires k <= |data| && At(data, o, s) && o + |s| <= k
    ensures At(data[..k], o, s)
  {
    assert data[..k][o..o + |s|] == data[o..o + |s|];
  }

  lemma SizeThere(data: seq<byte>, o: nat, name: Str, kind: nat)
    requires At(data, o, ColumnBytes(name, kind))
    ensures At(data, o + 4, Encode(|name|, 4)) && |Encode(|name|, 4)| == 4
  {
    hide Encode;
    AtParts(data, o, Encode(kind, 4) + Encode(|name|, 4), name);
    AtParts(data, o, Encode(kind, 4), Encode(|name|, 4));
  }

  lemma NoHead(cut: seq<byte>, o: nat, n: nat, names: seq<Str>, types: seq<nat>)
    requires n > 0
    ensures o + 8 > |cut| ==> ParseColumns(cut, o, n, names, types) == Err(BAD_COLUMN)
    ensures o + 8 <= |cut| && o + 8 + ReadNumber(cut, o + 4, 4) > |cut| ==> ParseColumns(cut, o, n, names, types) == Err(BAD_NAME)
  {
    hide ReadNumber;
  }

  lemma ColumnReasonIs(rg: RowGroup, i: nat, k: nat)
    requires i < |rg.columnNames| == |rg.columnTypes|
    ensures ColumnsReason(rg, |rg.columnNames|, k) == None
    ensures k < ColumnEntry(rg, i) + 8 ==> ColumnsReason(rg, i, k) == Some(BAD_COLUMN)
    ensures ColumnEntry(rg, i) + 8 <= k < ColumnEntry(rg, i + 1) ==> ColumnsReason(rg, i, k) == Some(BAD_NAME)
    ensures k >= ColumnEntry(rg, i) + 8 && k >= ColumnEntry(rg, i + 1) ==> ColumnsReason(rg, i, k) == ColumnsReason(rg, i + 1, k)
  {
    hide ColumnEntry;
  }

  lemma {:induction false} ColumnsCut(rg: RowGroup, i: nat, k: nat)
    requires WellFormed(rg) && i <= |rg.columnNames| == |rg.columnTypes| && k <= |File(rg)|
    ensures ParseColumns(File(rg)[..k], ColumnEntry(rg, i), |rg.columnNames| - i, rg.columnNames[..i], rg.columnTypes[..i])
            == match ColumnsReason(rg, i, k)
               case None => Ok((rg.columnNames, rg.columnTypes, ColumnEntry(rg, |rg.columnNames|)))
               case Some(e) => Err(e)
    decreases |rg.columnNames| - i
  {
    hide *;
    var data, cut, n, o := File(rg), File(rg)[..k], |rg.columnNames|, ColumnEntry(rg, i);
    if i == n {
      ColumnsDone(cut, o, rg.columnNames, rg.columnTypes);
      NoColumnReason(rg, k);
    } else {
      var name, kind := rg.columnNames[i], rg.columnTypes[i];
      ColumnThere(rg, i);
      ColumnReasonIs(rg, i, k);
      NoHead(cut, o, n - i, rg.columnNames[..i], rg.columnTypes[..i]);
      if o + 8 <= k {
        SizeThere(data, o, name, kind);
        AtCut(data, k, o + 4, Encode(|name|, 4));
        Pow256Of8();
        NumberAt(cut, o + 4, |name|, 4);
        if o + 8 + |name| <= k {
          ColumnRead(data, o, name, kind);
          AtCut(data, k, o, ColumnBytes(name, kind));
          ColumnRead(cut, o, name, kind);
          ParseColumnsNext(cut, o, n - i, rg.columnNames[..i], rg.columnTypes[..i], name, kind);
          ColumnsNext(rg.columnNames, rg.columnTypes, i);
          ColumnsCut(rg, i + 1, k);
        }
      }
    }
  }

  lemma NoColumnReason(rg: RowGroup, k: nat)
    requires |rg.columnNames| == |rg.columnTypes|
    ensures ColumnsReason(rg, |rg.columnNames|, k) == None
  {
  }

  /** The tail of a block in a file cut off after k bytes. */
  lemma TailCut(data: seq<byte>, k: nat, o: nat, mask: Word, tail: seq<byte>)
    requires k <= |data| && At(data, o, TailBytes(mask, tail)) && |tail| < TWO_64
    ensures ParseTail(data[..k], o)
            == if k < o + 8 then Err(BAD_MASK) else if k < o + 16 then Err(BAD_TAIL_SIZE)
               else if k < o + 16 + |tail| then Err(if Wrap(o + 16 + |tail|) > k then BAD_TAIL else TOO_LONG)
               else Ok((mask, tail, o + 16 + |tail| + Padding(16 + |tail|)))
  {
    hide *;
    var cut := data[..k];
    TailParts(data, o, mask, tail);
    TailRefused(cut, o);
    if k >= o + 16 {
      EncodedSize(|tail|);
      AtCut(data, k, o + 8, Encode(|tail|, 8));
      Pow256Of8();
      NumberAt(cut, o + 8, |tail|, 8);
      if k >= o + 16 + |tail| {
        AtCut(data, k, o, WordBytes(mask));
        AtCut(data, k, o + 16, tail);
        WordRoundTrip(mask);
        NameAt(cut, o, WordBytes(mask));
        NameAt(cut, o + 16, tail);
        ParseTailWhen(cut, o, mask, tail);
      }
    }
  }

  lemma EncodedSize(n: nat)
    ensures |Encode(n, 8)| == 8
  {
    hide Encode;
  }

  lemma TailRefused(cut: seq<byte>, o: nat)
    ensures |cut| < o + 8 ==> ParseTail(cut, o) == Err(BAD_MASK)
    ensures o + 8 <= |cut| < o + 16 ==> ParseTail(cut, o) == Err(BAD_TAIL_SIZE)
    ensures o + 16 <= |cut| && o + 16 + ReadNumber(cut, o + 8, 8) > |cut| ==>
      ParseTail(cut, o) == Err(if Wrap(o + 16 + ReadNumber(cut, o + 8, 8)) > |cut| then BAD_TAIL else TOO_LONG)
  {
    hide ReadNumber, WordFrom, Wrap;
  }

  lemma BlockRefused(cut: seq<byte>, o: nat, columns: nat)
    ensures ParseTiles(cut, o, columns, []).Err? ==> ParseBlock(cut, o, columns) == Err(ParseTiles(cut, o, columns, []).reason)
    ensures ParseTiles(cut, o, columns, []).Ok? && ParseTail(cut, ParseTiles(cut, o, columns, []).value.1).Err? ==>
      ParseBlock(cut, o, columns) == Err(ParseTail(cut, ParseTiles(cut, o, columns, []).value.1).reason)
  {
    hide ParseTiles, ParseTail;
  }

  lemma NoTiles(cut: seq<byte>, o: nat, tiles: seq<Tile>)
    requires tiles == []
    ensures ParseTiles(cut, o, 0, []) == Ok((tiles, o))
  {
  }

  lemma TilesCut(data: seq<byte>, k: nat, o: nat, tiles: seq<Tile>)
    requires k <= |data| && At(data, o, TilesBytes(tiles, |tiles|))
    ensures ParseTiles(data[..k], o, |tiles|, [])
            == if |tiles| > 0 && k < o + 576 * |tiles| then Err(BAD_TILE) else Ok((tiles, o + 576 * |tiles|))
  {
    hide *;
    var cut, n := data[..k], |tiles|;
    TilesExactly(cut, o, n, []);
    if n == 0 {
      NoTiles(cut, o, tiles);
    } else if o + 576 * n <= k {
      TilesLength(tiles);
      AtCut(data, k, o, TilesBytes(tiles, n));
      TilesRead(cut, o, tiles);
    }
  }

  lemma TilesLength(tiles: seq<Tile>)
    ensures |TilesBytes(tiles, |tiles|)| == 576 * |tiles|
  {
    TileBytesSize(tiles, |tiles|);
    hide TilesBytes;
  }

  lemma TilesRead(data: seq<byte>, o: nat, tiles: seq<Tile>)
    requires At(data, o, TilesBytes(tiles, |tiles|))
    ensures ParseTiles(data, o, |tiles|, []) == Ok((tiles, o + 576 * |tiles|))
  {
    TilesParse(data, o, tiles, 0);
    assert tiles[..0] == [];
    hide ParseTiles, At, TilesBytes;
  }

  lemma PiecesOfBlock(data: seq<byte>, o: nat, block: Block)
    requires At(data, o, BlockBytes(block))
    ensures At(data, o, TilesBytes(block.columns, |block.columns|))
    ensures At(data, o + 576 * |block.columns|, TailBytes(block.deleteMask, block.tail))
  {
    BlockPieces(data, o, block);
    hide At, BlockBytes, TilesBytes, TailBytes;
  }

  lemma BlockCut(rg: RowGroup, b: nat, k: nat)
    requires WellFormed(rg) && b < |rg.blocks| && k <= |File(rg)| && |rg.columnNames| == |rg.columnTypes|
    ensures ParseBlock(File(rg)[..k], BlockEntry(rg, b), |rg.columnNames|)
            == match BlockReason(rg, b, k)
               case None => Ok((rg.blocks[b], BlockEntry(rg, b + 1)))
               case Some(e) => Err(e)
  {
    hide *;
    var data, cut, block, o := File(rg), File(rg)[..k], rg.blocks[b], BlockEntry(rg, b);
    var n := |block.columns|;
    var mid := o + 576 * n;
    BlockReasonIs(rg, b, k);
    BlockThere(rg, b);
    PiecesOfBlock(data, o, block);
    LengthIs(block);
    BlockRefused(cut, o, n);
    TilesCut(data, k, o, block.columns);
    TailCut(data, k, mid, block.deleteMask, block.tail);
    if (n == 0 || mid <= k) && k >= mid + 16 + |block.tail| {
      ParseBlockWhen(cut, o, n, block.columns, mid, block.deleteMask, block.tail, o + BlockLength(block));
      assert Block(block.columns, block.tail, block.deleteMask) == block;
    }
  }

  lemma LengthIs(block: Block)
    ensures BlockLength(block) == 576 * |block.columns| + 16 + |block.tail| + Padding(16 + |block.tail|)
  {
    hide Padding;
  }

  lemma BlockReasonIs(rg: RowGroup, b: nat, k: nat)
    requires b < |rg.blocks| && |rg.columnNames| == |rg.columnTypes|
    ensures var n, tail := |rg.blocks[b].columns|, |rg.blocks[b].tail|;
            var mid := BlockEntry(rg, b) + 576 * n;
            BlockReason(rg, b, k)
            == if n > 0 && k < mid then Some(BAD_TILE) else if k < mid + 8 then Some(BAD_MASK)
               else if k < mid + 16 then Some(BAD_TAIL_SIZE)
               else if k < mid + 16 + tail then Some(if Wrap(mid + 16 + tail) > k then BAD_TAIL else TOO_LONG) else None
  {
    hide BlockEntry, Wrap;
  }

  lemma BlocksRefused(cut: seq<byte>, o: nat, n: nat, columns: nat, blocks: seq<Block>)
    requires n > 0 && ParseBlock(cut, o, columns).Err?
    ensures ParseBlocks(cut, o, n, columns, blocks) == Err(ParseBlock(cut, o, columns).reason)
  {
    hide ParseBlock;
  }

  lemma BlocksReasonIs(rg: RowGroup, b: nat, k: nat)
    requires b < |rg.blocks| && |rg.columnNames| == |rg.columnTypes|
    ensures BlocksReason(rg, b, k) == if BlockReason(rg, b, k).Some? then BlockReason(rg, b, k) else BlocksReason(rg, b + 1, k)
  {
    hide BlockReason;
  }

  lemma NoBlockReason(rg: RowGroup, k: nat)
    requires |rg.columnNames| == |rg.columnTypes|
    ensures BlocksReason(rg, |rg.blocks|, k) == None
  {
  }

  lemma {:induction false} BlocksCut(rg: RowGroup, b: nat, k: nat)
    requires WellFormed(rg) && b <= |rg.blocks| && k <= |File(rg)| && |rg.columnNames| == |rg.columnTypes|
    ensures ParseBlocks(File(rg)[..k], BlockEntry(rg, b), |rg.blocks| - b, |rg.columnNames|, rg.blocks[..b])
            == match BlocksReason(rg, b, k)
               case None => Ok((rg.blocks, BlockEntry(rg, |rg.blocks|)))
               case Some(e) => Err(e)
    decreases |rg.blocks| - b
  {
    hide *;
    var cut, o, n := File(rg)[..k], BlockEntry(rg, b), |rg.columnNames|;
    if b == |rg.blocks| {
      BlocksDone(cut, o, n, rg.blocks);
      NoBlockReason(rg, k);
    } else {
      BlockCut(rg, b, k);
      BlocksReasonIs(rg, b, k);
      if BlockReason(rg, b, k).Some? {
        BlocksRefused(cut, o, |rg.blocks| - b, n, rg.blocks[..b]);
      } else {
        ParseBlocksNext(cut, o, |rg.blocks| - b, n, rg.blocks[..b], rg.blocks[b], BlockEntry(rg, b + 1));
        BlocksNext(rg.blocks, b);
        BlocksCut(rg, b + 1, k);
      }
    }
  }

  lemma CutReasonIs(rg: RowGroup, k: nat)
    requires |rg.columnNames| == |rg.columnTypes|
    ensures CutReason(rg, k) == if k < 64 then Some(TOO_SMALL)
                                else if ColumnsReason(rg, 0, k).Some? then ColumnsReason(rg, 0, k) else BlocksReason(rg, 0, k)
    ensures ColumnEntry(rg, 0) == 64
    ensures BlockEntry(rg, 0) == ColumnEntry(rg, |rg.columnNames|) + Padding(ColumnEntry(rg, |rg.columnNames|))
    ensures rg.columnNames[..0] == [] && rg.columnTypes[..0] == [] && rg.blocks[..0] == []
  {
    hide ColumnsReason, BlocksReason, Padding;
  }

  lemma HeaderSize(rows: nat, columns: nat, blocks: nat)
    ensures |HeaderBytes(rows, columns, blocks)| == 64
  {
    hide HeaderBytes;
  }

  /** Anything without the magic is refused for it, whatever follows. */
  lemma MagicChecked(data: seq<byte>)
    ensures |data| < 64 ==> Parse(data) == Err(TOO_SMALL)
    ensures |data| >= 64 && data[..4] != ['C' as int, 'B' as int, 'S' as int, 'T' as int] ==> Parse(data) == Err(BAD_MAGIC)
  {
    hide ParseColumns, ParseBlocks;
    Magic();
  }

  /** The bounds check on a tail wraps at 64 bits: lengths that wrap past it fail later. */
  lemma TailSizeChecked(data: seq<byte>, o: nat)
    requires o + 16 <= |data| < 0x1_0000_0000_0000_0000
    ensures var end := o + 16 + Decode(data[o + 8..o + 16]);
            && (ParseTail(data, o).Ok? <==> end <= |data|)
            && (ParseTail(data, o) == Err(TOO_LONG) <==> 0x1_0000_0000_0000_0000 <= end <= 0x1_0000_0000_0000_0000 + |data|)
            && (ParseTail(data, o).Err? && ParseTail(data, o) != Err(TOO_LONG) ==> ParseTail(data, o) == Err(BAD_TAIL))
  {
    EightNumber(data, o + 8);
    DecodeBound(data[o + 8..o + 16]);
    Pow256Of8();
    assert |TOO_LONG| != |BAD_TAIL|;
    hide Decode, WordFrom, ReadNumber, Padding;
  }

  /** A file cut off anywhere is refused for the first part that is missing; only
      padding at the end may be missing. */
  lemma CutFile(rg: RowGroup, k: nat)
    requires WellFormed(rg) && k <= |File(rg)| && |rg.columnNames| == |rg.columnTypes|
    ensures Parse(File(rg)[..k]) == match CutReason(rg, k) case None => Ok(rg) case Some(e) => Err(e)
  {
    hide *;
    var cut := File(rg)[..k];
    CutReasonIs(rg, k);
    Unreadable(cut);
    if k >= 64 {
      FileParts(rg);
      var header := HeaderBytes(rg.numRows, |rg.columnNames|, |rg.blocks|);
      HeaderSize(rg.numRows, |rg.columnNames|, |rg.blocks|);
      AtCut(File(rg), k, 0, header);
      HeaderParse(cut, rg.numRows, |rg.columnNames|, |rg.blocks|);
      ColumnsCut(rg, 0, k);
      BlocksCut(rg, 0, k);
      if ColumnsReason(rg, 0, k).None? { Readable(cut, rg.columnNames, rg.columnTypes, ColumnEntry(rg, |rg.columnNames|)); }
    }
  }

  // ----- which cuts are refused

  lemma {:induction false} EntriesGrow(rg: RowGroup, i: nat, j: nat)
    requires i <= j <= |rg.columnNames| == |rg.columnTypes|
    ensures 64 <= ColumnEntry(rg, i) <= ColumnEntry(rg, j) && (i < j ==> ColumnEntry(rg, i) + 8 <= ColumnEntry(rg, j))
  {
    if i < j { EntriesGrow(rg, i, j - 1); } else if i > 0 { EntriesGrow(rg, i - 1, i - 1); }
  }

  lemma {:induction false} ColumnsRefused(rg: RowGroup, i: nat, k: nat)
    requires i <= |rg.columnNames| == |rg.columnTypes|
    ensures k >= ColumnEntry(rg, i) ==> (ColumnsReason(rg, i, k).Some? <==> k < ColumnEntry(rg, |rg.columnNames|))
    decreases |rg.columnNames| - i
  {
    if i < |rg.columnNames| {
      EntriesGrow(rg, i, i + 1);
      EntriesGrow(rg, i, |rg.columnNames|);
      EntriesGrow(rg, i + 1, |rg.columnNames|);
      hide ColumnEntry;
      ColumnsRefused(rg, i + 1, k);
    }
  }

  /** Where the tail of block b ends. */
  function TailEnd(rg: RowGroup, b: nat): nat
    requires b < |rg.blocks| && |rg.columnNames| == |rg.columnTypes|
  {
    BlockEntry(rg, b) + 576 * |rg.blocks[b].columns| + 16 + |rg.blocks[b].tail|
  }

  lemma BlockRefusedWhen(rg: RowGroup, b: nat, k: nat)
    requires b < |rg.blocks| && |rg.columnNames| == |rg.columnTypes|
    ensures BlockReason(rg, b, k).Some? <==> k < TailEnd(rg, b)
    ensures TailEnd(rg, b) <= BlockEntry(rg, b + 1)
  {
    hide Wrap;
  }

  lemma {:induction false} TailsGrow(rg: RowGroup, b: nat, c: nat)
    requires b <= c < |rg.blocks| && |rg.columnNames| == |rg.columnTypes|
    ensures TailEnd(rg, b) <= TailEnd(rg, c) && BlockEntry(rg, 0) <= TailEnd(rg, c)
  {
    if b < c {
      TailsGrow(rg, b, c - 1);
      BlockRefusedWhen(rg, c - 1, 0);
    } else if c > 0 {
      TailsGrow(rg, c - 1, c - 1);
      BlockRefusedWhen(rg, c - 1, 0);
    }
  }

  lemma {:induction false} BlocksRefusedWhen(rg: RowGroup, b: nat, k: nat)
    requires b < |rg.blocks| && |rg.columnNames| == |rg.columnTypes|
    ensures BlocksReason(rg, b, k).Some? <==> k < TailEnd(rg, |rg.blocks| - 1)
    decreases |rg.blocks| - b
  {
    BlockRefusedWhen(rg, b, k);
    TailsGrow(rg, b, |rg.blocks| - 1);
    hide BlockReason, TailEnd;
    if b < |rg.blocks| - 1 { BlocksRefusedWhen(rg, b + 1, k); }
  }

  /** Cut off after k bytes, a file is refused if and only if k lies before the end of
      the last tail, or of the column metadata when there is no block. */
  lemma CutExactly(rg: RowGroup, k: nat)
    requires WellFormed(rg) && k <= |File(rg)|
    ensures |rg.columnNames| == |rg.columnTypes|
    ensures Parse(File(rg)[..k]).Err? <==> k < Needed(rg)
    ensures k >= Needed(rg) ==> Parse(File(rg)[..k]) == Ok(rg)
  {
    Beginnings(rg);
    NeededIs(rg);
    hide *;
    CutFile(rg, k);
    CutReasonIs(rg, k);
    EntriesGrow(rg, 0, |rg.columnNames|);
    ColumnsRefused(rg, 0, k);
    if rg.blocks != [] {
      TailsGrow(rg, 0, |rg.blocks| - 1);
      BlocksRefusedWhen(rg, 0, k);
    } else {
      NoBlockReason(rg, k);
    }
  }

  lemma NeededIs(rg: RowGroup)
    requires |rg.columnNames| == |rg.columnTypes|
    ensures Needed(rg) == if rg.blocks == [] then ColumnEntry(rg, |rg.columnNames|) else TailEnd(rg, |rg.blocks| - 1)
  {
    hide ColumnEntry, BlockEntry;
  }
}
