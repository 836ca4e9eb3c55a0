/**
  The texture converter writes 4x4-pixel tiles (alpha-red half, then green-blue half) through an
  advancing pointer; the pixel functions address the same layout at random.
 */
module Tiler {
  import opened Arith64

  type Byte = bv8

  /** Address of pixel (x, y): two bytes here, two bytes 32 further on. */
  function Offs(x: nat, y: nat, width: nat): nat {
    ((y - y % 4) * 4) * width + (x - x % 4) * 16 + ((y % 4) * 4 + x % 4) * 2
  }

  function U16(hi: Byte, lo: Byte): bv32 { (hi as bv32 << 8) | lo as bv32 }

  /** Reading a pixel; halfwords are stored high byte first. */
  function GetPixel(buf: seq<Byte>, x: nat, y: nat, width: nat): bv32
    requires Offs(x, y, width) + 34 <= |buf|
  {
    var offs := Offs(x, y, width);
    Gather(U16(buf[offs], buf[offs + 1]), U16(buf[offs + 32], buf[offs + 33]))
  }

  function Gather(ar: bv32, gb: bv32): bv32 { (ar << 24) | (gb << 8) | (ar >> 8) }

  /** A pixel as one number, red on top. */
  function Rgba(r: Byte, g: Byte, b: Byte, a: Byte): bv32 {
    (r as bv32 << 24) | (g as bv32 << 16) | (b as bv32 << 8) | a as bv32
  }

  lemma Gathered(a: Byte, r: Byte, g: Byte, b: Byte)
    ensures Gather(U16(a, r), U16(g, b)) == Rgba(r, g, b, a)
  {
  }

  /** Four bytes for every pixel. */
  function ImageSize(width: nat, height: nat): nat { 4 * width * height }

  // ----- The layout is a bijection between bytes and pixel parts -----

  /** Which of a pixel's four bytes, in red, green, blue, alpha order. */
  datatype Owner = Owner(x: nat, y: nat, channel: nat)

  /** The pixel part that byte `k` of a tiled buffer belongs to. */
  function OwnerOf(k: nat, width: nat): Owner
    requires width >= 4
  {
    var tile, within := k / 64, k % 64;
    Owner(4 * (tile % (width / 4)) + within % 8 / 2,
          4 * (tile / (width / 4)) + within % 32 / 8,
          Channel(within / 32, within % 2))
  }

  /** Alpha and red in the first half of a tile, green and blue in the second. */
  function Channel(half: nat, low: nat): nat {
    if half == 0 then (if low == 0 then 3 else 0) else 1 + low
  }

  /** Where a pixel part is stored, relative to the pixel's address. */
  function PartAt(channel: nat): nat
    requires channel < 4
  {
    if channel == 3 then 0 else if channel == 0 then 1 else if channel == 1 then 32 else 33
  }

  function ByteOf(o: Owner, width: nat): nat
    requires o.channel < 4
  {
    Offs(o.x, o.y, width) + PartAt(o.channel)
  }

  predicate InImage(o: Owner, width: nat, height: nat) { o.x < width && o.y < height && o.channel < 4 }

  /** The address in terms of tiles. */
  lemma OffsOfTile(tx: nat, ty: nat, col: nat, row: nat, tilesWide: nat)
    requires col < 4 && row < 4
    ensures Offs(4 * tx + col, 4 * ty + row, 4 * tilesWide) == 64 * (ty * tilesWide + tx) + 8 * row + 2 * col
  {
    WithinFour(tx, col);
    WithinFour(ty, row);
    assert ((4 * ty) * 4) * (4 * tilesWide) == 64 * (ty * tilesWide);
  }

  lemma WithinFour(t: nat, r: nat)
    requires r < 4
    ensures (4 * t + r) % 4 == r && 4 * t + r - r == 4 * t
  {
  }

  lemma OwnerOfTile(tx: nat, ty: nat, row: nat, col: nat, half: nat, low: nat, tilesWide: nat)
    requires tx < tilesWide && row < 4 && col < 4 && half < 2 && low < 2
    ensures OwnerOf(64 * (ty * tilesWide + tx) + 32 * half + 8 * row + 2 * col + low, 4 * tilesWide)
         == Owner(4 * tx + col, 4 * ty + row, Channel(half, low))
  {
    var tile, within := ty * tilesWide + tx, 32 * half + 8 * row + 2 * col + low;
    DivisionUnique(tile, tilesWide, ty, tx);
    DivisionUnique(64 * tile + within, 64, tile, within);
    WithinTile(within, half, row, col, low);
    assert 4 * tilesWide / 4 == tilesWide;
    hide Channel;
  }

  lemma WithinTile(within: nat, half: nat, row: nat, col: nat, low: nat)
    requires row < 4 && col < 4 && half < 2 && low < 2
    requires within == 32 * half + 8 * row + 2 * col + low
    ensures within / 32 == half && within % 32 / 8 == row && within % 8 / 2 == col && within % 2 == low
  {
  }

  /** Every pixel part has its own byte of the buffer, and every byte is some pixel's part. */
  lemma LayoutIsBijective(width: nat, height: nat)
    requires width % 4 == 0 && height % 4 == 0 && width > 0
    ensures forall o: Owner {:trigger ByteOf(o, width)} :: InImage(o, width, height) ==>
      ByteOf(o, width) < ImageSize(width, height) && OwnerOf(ByteOf(o, width), width) == o
    ensures forall k: nat {:trigger OwnerOf(k, width)} :: k < ImageSize(width, height) ==>
      InImage(OwnerOf(k, width), width, height) && ByteOf(OwnerOf(k, width), width) == k
  {
    forall o: Owner | InImage(o, width, height)
      ensures ByteOf(o, width) < ImageSize(width, height) && OwnerOf(ByteOf(o, width), width) == o
    {
      OwnerOfByte(o, width, height);
    }
    forall k: nat | k < ImageSize(width, height)
      ensures InImage(OwnerOf(k, width), width, height) && ByteOf(OwnerOf(k, width), width) == k
    {
      ByteOfOwner(k, width, height);
    }
  }

  lemma OwnerOfByte(o: Owner, width: nat, height: nat)
    requires width % 4 == 0 && height % 4 == 0 && InImage(o, width, height)
    ensures ByteOf(o, width) < ImageSize(width, height) && OwnerOf(ByteOf(o, width), width) == o
  {
    hide Offs, OwnerOf;
    var tx, ty, col, row, wide, high := o.x / 4, o.y / 4, o.x % 4, o.y % 4, width / 4, height / 4;
    var half, low := PartAt(o.channel) / 32, PartAt(o.channel) % 32;
    OffsOfTile(tx, ty, col, row, wide);
    OwnerOfTile(tx, ty, row, col, half, low, wide);
    TileInRange(tx, ty, wide, high);
    ImageBytes(width, height, wide, high);
  }

  lemma ImageBytes(width: nat, height: nat, wide: nat, high: nat)
    requires width == 4 * wide && height == 4 * high
    ensures ImageSize(width, height) == 64 * (wide * high)
  {
  }

  lemma TileInRange(tx: nat, ty: nat, wide: nat, high: nat)
    requires tx < wide && ty < high
    ensures ty * wide + tx + 1 <= wide * high
  {
    Monotone(ty + 1, high, wide, wide);
  }

  lemma ByteOfOwner(k: nat, width: nat, height: nat)
    requires width % 4 == 0 && height % 4 == 0 && k < ImageSize(width, height) && width > 0
    ensures InImage(OwnerOf(k, width), width, height) && ByteOf(OwnerOf(k, width), width) == k
  {
    hide Offs, OwnerOf, ImageSize, PartAt, Channel;
    var wide, high, tile, within := width / 4, height / 4, k / 64, k % 64;
    var tx, ty := tile % wide, tile / wide;
    var half, row, col, low := within / 32, within % 32 / 8, within % 8 / 2, within % 2;
    DivisionIdentity(tile, wide);
    ImageBytes(width, height, wide, high);
    RowsBelow(tile, ty, tx, wide, high);
    PartsOfWithin(within);
    OwnerOfTile(tx, ty, row, col, half, low, wide);
    OffsOfTile(tx, ty, col, row, wide);
    ChannelPlace(half, low);
  }

  lemma ChannelPlace(half: nat, low: nat)
    requires half < 2 && low < 2
    ensures Channel(half, low) < 4 && PartAt(Channel(half, low)) == 32 * half + low
  {
  }

  lemma RowsBelow(tile: nat, ty: nat, tx: nat, wide: nat, high: nat)
    requires tile == ty * wide + tx && tile < wide * high
    ensures ty < high
  {
    if high <= ty {
      Monotone(high, ty, wide, wide);
    }
  }

  lemma PartsOfWithin(within: nat)
    requires within < 64
    ensures within == 32 * (within / 32) + 8 * (within % 32 / 8) + 2 * (within % 8 / 2) + within % 2
    ensures within / 32 < 2 && within % 32 / 8 < 4 && within % 8 / 2 < 4
  {
  }

  // ----- The converter -----

  /** Byte of the source image holding a pixel part. */
  function SourceIndex(o: Owner, width: nat): nat { 4 * (o.y * width + o.x) + o.channel }

  /** The first `upTo` bytes of the tiled buffer are the image's. */
  predicate Tiled(src: seq<Byte>, dst: seq<Byte>, width: nat, upTo: nat) {
    upTo <= |dst| &&
    forall k :: 0 <= k < upTo ==>
      && width >= 4 && SourceIndex(OwnerOf(k, width), width) < |src|
      && dst[k] == src[SourceIndex(OwnerOf(k, width), width)]
  }

  /** Eight bytes at `d` hold two channels of the four pixels that start at `src[b]`. */
  predicate Row(src: seq<Byte>, dst: seq<Byte>, d: nat, b: nat, first: nat, second: nat)
    requires first < 4 && second < 4 && b + 16 <= |src| && d + 8 <= |dst|
  {
    && dst[d] == src[b + first] && dst[d + 1] == src[b + second]
    && dst[d + 2] == src[b + 4 + first] && dst[d + 3] == src[b + 4 + second]
    && dst[d + 4] == src[b + 8 + first] && dst[d + 5] == src[b + 8 + second]
    && dst[d + 6] == src[b + 12 + first] && dst[d + 7] == src[b + 12 + second]
  }

  /** Where tile (tx, ty) starts in the tiled buffer. */
  function TileStart(tx: nat, ty: nat, wide: nat): nat { 64 * (ty * wide + tx) }

  /** Where row `row` of that tile starts in the source image. */
  function RowStart(tx: nat, ty: nat, row: nat, wide: nat): nat { 4 * ((4 * ty + row) * (4 * wide) + 4 * tx) }

  lemma RowTiled(src: seq<Byte>, before: seq<Byte>, after: seq<Byte>, tx: nat, ty: nat, row: nat, half: nat, wide: nat, d: nat)
    requires tx < wide && row < 4 && half < 2 && |before| == |after| && d + 8 <= |after|
    requires d == TileStart(tx, ty, wide) + 32 * half + 8 * row && RowStart(tx, ty, row, wide) + 16 <= |src|
    requires Tiled(src, before, 4 * wide, d) && after[..d] == before[..d]
    requires Row(src, after, d, RowStart(tx, ty, row, wide), Channel(half, 0), Channel(half, 1))
    ensures Tiled(src, after, 4 * wide, d + 8)
  {
    hide OwnerOf, Row;
    forall k | 0 <= k < d + 8
      ensures SourceIndex(OwnerOf(k, 4 * wide), 4 * wide) < |src|
      ensures after[k] == src[SourceIndex(OwnerOf(k, 4 * wide), 4 * wide)]
    {
      if k < d {
        assert after[k] == after[..d][k] == before[..d][k] == before[k];
      } else {
        var col, low := (k - d) / 2, (k - d) % 2;
        OwnerOfTile(tx, ty, row, col, half, low, wide);
        RowByte(src, after, d, RowStart(tx, ty, row, wide), half, col, low);
      }
    }
  }

  lemma RowByte(src: seq<Byte>, dst: seq<Byte>, d: nat, b: nat, half: nat, col: nat, low: nat)
    requires half < 2 && col < 4 && low < 2 && b + 16 <= |src| && d + 8 <= |dst|
    requires Row(src, dst, d, b, Channel(half, 0), Channel(half, 1))
    ensures dst[d + 2 * col + low] == src[b + 4 * col + Channel(half, low)]
  {
  }

  method WriteRow(src: array<Byte>, dst: array<Byte>, d: nat, b: nat, first: nat, second: nat)
    requires src != dst && first < 4 && second < 4 && b + 16 <= src.Length && d + 8 <= dst.Length
    modifies dst
    ensures Row(src[..], dst[..], d, b, first, second)
    ensures dst[..d] == old(dst[..d]) && forall k :: d + 8 <= k < dst.Length ==> dst[k] == old(dst[k])
  {
    dst[d], dst[d + 1] := src[b + first], src[b + second];
    dst[d + 2], dst[d + 3] := src[b + 4 + first], src[b + 4 + second];
    dst[d + 4], dst[d + 5] := src[b + 8 + first], src[b + 8 + second];
    dst[d + 6], dst[d + 7] := src[b + 12 + first], src[b + 12 + second];
  }

  const U32: nat := 0x1_0000_0000

  /** The four pixels of every row of a tile lie inside the image, and its 32 halfwords in the buffer. */
  lemma TileInImage(tx: nat, ty: nat, row: nat, wide: nat, high: nat)
    requires tx < wide && ty < high && row < 4
    ensures RowStart(tx, ty, row, wide) + 16 <= TileStart(0, high, wide)
    ensures TileStart(tx, ty, wide) + 64 <= TileStart(0, high, wide)
  {
    NextRow(4 * ty + row, 4 * wide, high, wide);
    TileInRange(tx, ty, wide, high);
  }

  lemma NextRow(r: nat, width: nat, high: nat, wide: nat)
    requires r < 4 * high && width == 4 * wide
    ensures r * width + width <= 16 * (high * wide)
  {
    Monotone(r + 1, 4 * high, width, width);
    assert (4 * high) * width == 16 * (high * wide);
  }

  lemma NextTile(tx: nat, ty: nat, wide: nat)
    ensures TileStart(tx + 1, ty, wide) == TileStart(tx, ty, wide) + 64
    ensures TileStart(wide, ty, wide) == TileStart(0, ty + 1, wide)
    ensures TileStart(0, 0, wide) == 0
    ensures ImageSize(4 * wide, 4 * ty) == TileStart(0, ty, wide)
  {
  }

  lemma RowAddress(tx: nat, ty: nat, row: nat, wide: nat, block: nat, i: nat, width: nat)
    requires block == 4 * ty && i == 4 * tx && width == 4 * wide && RowStart(tx, ty, row, wide) < U32
    ensures ((((block + row) * width) + i) * 4) % U32 == RowStart(tx, ty, row, wide)
  {
  }

  /** One of the two four-row loops over a tile. */
  method WriteHalf(src: array<Byte>, dst: array<Byte>, ghost tx: nat, ghost ty: nat, ghost wide: nat, ghost high: nat,
                   block: nat, i: nat, width: nat, half: nat, at: nat) returns (d: nat)
    requires src != dst && tx < wide && ty < high && half < 2
    requires block == 4 * ty && i == 4 * tx && width == 4 * wide
    requires TileStart(0, high, wide) <= src.Length < U32 && TileStart(0, high, wide) <= dst.Length
    requires at == TileStart(tx, ty, wide) + 32 * half && Tiled(src[..], dst[..], width, at)
    modifies dst
    ensures d == at + 32 && d <= dst.Length
    ensures Tiled(src[..], dst[..], width, d) && forall k :: d <= k < dst.Length ==> dst[k] == old(dst[k])
  {
    hide Tiled, Row, TileStart, RowStart, Channel;
    d := at;
    TileInImage(tx, ty, 0, wide, high);
    for c := 0 to 4
      invariant d == at + 8 * c && d <= dst.Length
      invariant Tiled(src[..], dst[..], width, d) && forall k :: d <= k < dst.Length ==> dst[k] == old(dst[k])
    {
      ghost var before := dst[..];
      TileInImage(tx, ty, c, wide, high);
      RowAddress(tx, ty, c, wide, block, i, width);
      var blockWid := ((((block + c) * width) + i) * 4) % U32;
      ChannelInPixel(half);
      WriteRow(src, dst, d, blockWid, Channel(half, 0), Channel(half, 1));
      RowTiled(src[..], before, dst[..], tx, ty, c, half, wide, d);
      d := d + 8;
    }
  }

  lemma ChannelInPixel(half: nat)
    requires half < 2
    ensures Channel(half, 0) < 4 && Channel(half, 1) < 4
  {
  }

  lemma NothingTiled(src: seq<Byte>, dst: seq<Byte>, width: nat)
    ensures Tiled(src, dst, width, 0)
  {
  }

  /** The loop counters are 16 bits wide; neither reaches 2^16 because both sides are multiples of 4. */
  method ConvertBufferToRGBA8(src: array<Byte>, dst: array<Byte>, width: nat, height: nat)
    requires src != dst && width < 0x1_0000 && height < 0x1_0000 && width % 4 == 0 && height % 4 == 0
    requires ImageSize(width, height) <= src.Length < U32 && ImageSize(width, height) <= dst.Length
    modifies dst
    ensures Tiled(src[..], dst[..], width, ImageSize(width, height))
    ensures forall k :: ImageSize(width, height) <= k < dst.Length ==> dst[k] == old(dst[k])
  {
    hide Tiled, TileStart, ImageSize;
    ghost var wide, high, tx, ty := width / 4, height / 4, 0, 0;
    NextTile(0, high, wide);
    var d, block := 0, 0;
    NothingTiled(src[..], dst[..], width);
    NextTile(0, 0, wide);
    while block < height
      invariant block == 4 * ty && ty <= high && d == TileStart(0, ty, wide) && d <= dst.Length
      invariant Tiled(src[..], dst[..], width, d) && forall k :: d <= k < dst.Length ==> dst[k] == old(dst[k])
      decreases high - ty
    {
      var i := 0;
      tx := 0;
      while i < width
        invariant i == 4 * tx && tx <= wide && d == TileStart(tx, ty, wide) && d <= dst.Length
        invariant Tiled(src[..], dst[..], width, d) && forall k :: d <= k < dst.Length ==> dst[k] == old(dst[k])
        decreases wide - tx
      {
        NextTile(tx, ty, wide);
        d := WriteHalf(src, dst, tx, ty, wide, high, block, i, width, 0, d);
        d := WriteHalf(src, dst, tx, ty, wide, high, block, i, width, 1, d);
        i := (i + 4) % 0x1_0000;
        tx := tx + 1;
      }
      NextTile(0, ty, wide);
      block := (block + 4) % 0x1_0000;
      ty := ty + 1;
    }
  }

  /**
    Where a pixel's four bytes go: tiles of 64 bytes in reading order, rows of eight in a tile, alpha and
    red in its first half, green and blue at the same place of the second.
   */
  lemma TiledBytes(src: seq<Byte>, dst: seq<Byte>, x: nat, y: nat, width: nat, height: nat)
    requires width % 4 == 0 && height % 4 == 0 && x < width && y < height
    requires Tiled(src, dst, width, ImageSize(width, height))
    ensures
      var at, n := 64 * (y / 4 * (width / 4) + x / 4) + 8 * (y % 4) + 2 * (x % 4), 4 * (y * width + x);
      && at + 33 < |dst| && n + 3 < |src|
      && dst[at] == src[n + 3] && dst[at + 1] == src[n] && dst[at + 32] == src[n + 1] && dst[at + 33] == src[n + 2]
  {
    hide Offs, OwnerOf, ImageSize;
    OffsOfTile(x / 4, y / 4, x % 4, y % 4, width / 4);
    OwnerOfByte(Owner(x, y, 3), width, height);
    OwnerOfByte(Owner(x, y, 0), width, height);
    OwnerOfByte(Owner(x, y, 1), width, height);
    OwnerOfByte(Owner(x, y, 2), width, height);
  }

  // ----- The pixel functions against the converter -----

  /** Pixel `n` of the untiled image. */
  function SourcePixel(src: seq<Byte>, n: nat): bv32
    requires 4 * n + 4 <= |src|
  {
    Rgba(src[4 * n], src[4 * n + 1], src[4 * n + 2], src[4 * n + 3])
  }

  /** Reading the tiled buffer at (x, y) gives pixel `y * width + x` of the image it was made from. */
  lemma PixelRead(src: seq<Byte>, dst: seq<Byte>, x: nat, y: nat, width: nat, height: nat)
    requires width % 4 == 0 && height % 4 == 0 && x < width && y < height
    requires Tiled(src, dst, width, ImageSize(width, height))
    ensures Offs(x, y, width) + 34 <= |dst| && 4 * (y * width + x) + 4 <= |src|
    ensures GetPixel(dst, x, y, width) == SourcePixel(src, y * width + x)
  {
    var offs, n := Offs(x, y, width), y * width + x;
    hide Offs, OwnerOf, ImageSize, Gather, U16, Rgba;
    OwnerOfByte(Owner(x, y, 3), width, height);
    OwnerOfByte(Owner(x, y, 0), width, height);
    OwnerOfByte(Owner(x, y, 1), width, height);
    OwnerOfByte(Owner(x, y, 2), width, height);
    assert dst[offs] == src[4 * n + 3] && dst[offs + 1] == src[4 * n];
    assert dst[offs + 32] == src[4 * n + 1] && dst[offs + 33] == src[4 * n + 2];
    Gathered(dst[offs], dst[offs + 1], dst[offs + 32], dst[offs + 33]);
  }

  function LowByte(x: bv32): Byte { (x & 0xFF) as bv8 }

  function SecondByte(x: bv32): Byte { LowByte(x >> 8) }

  function ThirdByte(x: bv32): Byte { LowByte(x >> 16) }

  function TopByte(x: bv32): Byte { LowByte(x >> 24) }

  lemma Scattered(color: bv32)
    ensures Gather(U16(LowByte(color), TopByte(color)), U16(ThirdByte(color), SecondByte(color))) == color
  {
  }

  /** Storing a halfword, high byte first. */
  method StoreU16(buf: array<Byte>, at: nat, value: bv32)
    requires at + 2 <= buf.Length
    modifies buf
    ensures buf[..] == old(buf[..])[at := SecondByte(value)][at + 1 := LowByte(value)]
  {
    buf[at], buf[at + 1] := SecondByte(value), LowByte(value);
  }

  /** The two halfwords the code cuts out of a colour: alpha and red, green and blue. */
  function AlphaRed(color: bv32): bv32 { (color << 8) | (color >> 24) }

  function GreenBlue(color: bv32): bv32 { color >> 8 }

  lemma Halfwords(color: bv32)
    ensures SecondByte(AlphaRed(color)) == LowByte(color) && LowByte(AlphaRed(color)) == TopByte(color)
    ensures SecondByte(GreenBlue(color)) == ThirdByte(color) && LowByte(GreenBlue(color)) == SecondByte(color)
  {
  }

  predicate Stored(before: seq<Byte>, after: seq<Byte>, offs: nat, color: bv32)
    requires offs + 34 <= |before|
  {
    after == before[offs := LowByte(color)][offs + 1 := TopByte(color)]
                   [offs + 32 := ThirdByte(color)][offs + 33 := SecondByte(color)]
  }

  lemma PixelInImage(x: nat, y: nat, width: nat, height: nat)
    requires width % 4 == 0 && height % 4 == 0 && x < width && y < height
    ensures Offs(x, y, width) + 34 <= ImageSize(width, height)
  {
    hide Offs, ImageSize, OwnerOf;
    OwnerOfByte(Owner(x, y, 2), width, height);
  }

  lemma StoredReads(before: seq<Byte>, after: seq<Byte>, x: nat, y: nat, width: nat, color: bv32)
    requires Offs(x, y, width) + 34 <= |before| && Stored(before, after, Offs(x, y, width), color)
    ensures |after| == |before| && GetPixel(after, x, y, width) == color
  {
    hide Offs, Gather, U16, LowByte, SecondByte, ThirdByte, TopByte;
    Scattered(color);
  }

  lemma StoredElsewhere(before: seq<Byte>, after: seq<Byte>, x: nat, y: nat, x1: nat, y1: nat, width: nat, height: nat, color: bv32)
    requires width % 4 == 0 && height % 4 == 0 && x < width && y < height && x1 < width && y1 < height
    requires ImageSize(width, height) <= |before| && (x1 != x || y1 != y)
    requires Offs(x, y, width) + 34 <= |before| && Stored(before, after, Offs(x, y, width), color)
    ensures Offs(x1, y1, width) + 34 <= |before| == |after|
    ensures GetPixel(after, x1, y1, width) == GetPixel(before, x1, y1, width)
  {
    hide Offs, OwnerOf, ImageSize, Gather, U16, LowByte, SecondByte, ThirdByte, TopByte;
    PixelInImage(x1, y1, width, height);
    forall c1: nat | c1 < 4
      ensures Offs(x1, y1, width) + PartAt(c1) < |before|
      ensures after[Offs(x1, y1, width) + PartAt(c1)] == before[Offs(x1, y1, width) + PartAt(c1)]
    {
      OwnerOfByte(Owner(x1, y1, c1), width, height);
      OwnerOfByte(Owner(x, y, 0), width, height);
      OwnerOfByte(Owner(x, y, 1), width, height);
      OwnerOfByte(Owner(x, y, 2), width, height);
      OwnerOfByte(Owner(x, y, 3), width, height);
    }
    assert PartAt(3) == 0 && PartAt(0) == 1 && PartAt(1) == 32 && PartAt(2) == 33;
  }

  /** What is written is read back, and every other pixel of the image reads as before. */
  method SetPixel(buf: array<Byte>, x: nat, y: nat, width: nat, color: bv32, ghost height: nat)
    requires width % 4 == 0 && height % 4 == 0 && x < width && y < height
    requires ImageSize(width, height) <= buf.Length
    modifies buf
    ensures Offs(x, y, width) + 34 <= buf.Length && GetPixel(buf[..], x, y, width) == color
    ensures forall x1: nat, y1: nat :: x1 < width && y1 < height && (x1 != x || y1 != y) ==>
      Offs(x1, y1, width) + 34 <= buf.Length &&
      GetPixel(buf[..], x1, y1, width) == old(GetPixel(buf[..], x1, y1, width))
  {
    hide Offs, OwnerOf, ImageSize, Gather, U16, LowByte, SecondByte, ThirdByte, TopByte, GetPixel, AlphaRed, GreenBlue;
    var offs := Offs(x, y, width);
    PixelInImage(x, y, width, height);
    StoreU16(buf, offs, AlphaRed(color));
    StoreU16(buf, offs + 32, GreenBlue(color));
    Halfwords(color);
    assert Stored(old(buf[..]), buf[..], offs, color);
    StoredReads(old(buf[..]), buf[..], x, y, width, color);
    forall x1: nat, y1: nat | x1 < width && y1 < height && (x1 != x || y1 != y)
      ensures Offs(x1, y1, width) + 34 <= buf.Length
      ensures GetPixel(buf[..], x1, y1, width) == old(GetPixel(buf[..], x1, y1, width))
    {
      StoredElsewhere(old(buf[..]), buf[..], x, y, x1, y1, width, height, color);
    }
  }
}
