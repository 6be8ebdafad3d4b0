/** The input side of the JPEG front end: an image cut into 8 by 8 tiles, one row of tiles at a time,
    in the order the encoder takes them.

    Memory is little endian.  A word of a bit-packed image is given by its 32 bits, lowest first. */
module JpegInput {
  type byte = x: int | 0 <= x < 0x100
  type Word32 = s: seq<bool> | |s| == 32 witness seq(32, _ => false)

  const MCU_W: nat := 8
  const MCU_H: nat := 8
  const MCU_SIZE: nat := 64

  datatype Image =
    | Grayscale(w: nat, h: nat, lines: seq<seq<byte>>)
    | Binary(w: nat, h: nat, words: seq<seq<Word32>>)
    | Rgb565(w: nat, h: nat)
    | Bayer(w: nat, h: nat)
  {
    /** One of the two formats that can be cut into tiles, with the data its size asks for. */
    ghost predicate Tileable() {
      match this
      case Grayscale(w, h, lines) => |lines| == h && forall y :: 0 <= y < h ==> |lines[y]| == w
      case Binary(w, h, words) => |words| == h && forall y :: 0 <= y < h ==> |words[y]| == (w + 31) / 32
      case _ => false
    }

    /** The sample the encoder is to see: the byte itself, or 0xFF for a set bit. */
    ghost function Pixel(x: nat, y: nat): byte
      requires Tileable() && x < w && y < h
    {
      match this
      case Grayscale(w, h, lines) => lines[y][x]
      case Binary(w, h, words) => Sample(words[y][x / 32][x % 32])
    }

    ghost function Padded(x: nat, y: nat): byte
      requires Tileable()
    {
      if x < w && y < h then Pixel(x, y) else 0
    }
  }

  /** Sizes the code can handle: the byte count of a row of tiles fits 32 bits unsigned, line numbers fit
      32 bits signed. */
  ghost predicate Encodable(img: Image) {
    img.Tileable() && 0 < img.w <= 0x1FFF_FFF8 && 0 < img.h < 0x8000_0000
  }

  function Sample(bit: bool): byte {
    if bit then 0xFF else 0x00
  }

  // ---- Loads, stores and the expansion table ----

  /** The four bytes of a 32-bit value. */
  function Bytes(v: nat): (s: seq<byte>)
    ensures |s| == 4
  {
    [v % 0x100, v / 0x100 % 0x100, v / 0x1_0000 % 0x100, v / 0x100_0000 % 0x100]
  }

  /** A store of one, two or four bytes. */
  method Store(buffer: array<byte>, at: nat, value: seq<byte>)
    requires at + |value| <= buffer.Length
    modifies buffer
    ensures forall i :: 0 <= i < buffer.Length ==>
                          buffer[i] == if at <= i < at + |value| then value[i - at] else old(buffer[i])
  {
    forall i | at <= i < at + |value| {
      buffer[i] := value[i - at];
    }
  }

  const JPEG_EXPAND: seq<nat> := [
    0x0, 0xff, 0xff00, 0xffff, 0xff0000, 0xff00ff, 0xffff00, 0xffffff,
    0xff000000, 0xff0000ff, 0xff00ff00, 0xff00ffff, 0xffff0000, 0xffff00ff, 0xffffff00, 0xffffffff]

  function Nibble(b: seq<bool>): (n: nat)
    requires |b| == 4
    ensures n < |JPEG_EXPAND|
  {
    (if b[0] then 1 else 0) + (if b[1] then 2 else 0) + (if b[2] then 4 else 0) + (if b[3] then 8 else 0)
  }

  lemma BytesOf(b0: byte, b1: byte, b2: byte, b3: byte)
    ensures Bytes(b0 as nat + 0x100 * b1 as nat + 0x1_0000 * b2 as nat + 0x100_0000 * b3 as nat) == [b0, b1, b2, b3]
  {
    var v := b0 as nat + 0x100 * b1 as nat + 0x1_0000 * b2 as nat + 0x100_0000 * b3 as nat;
    assert v / 0x100_0000 == b3 as nat;
    assert v / 0x1_0000 == b2 as nat + 0x100 * b3 as nat;
    assert v / 0x100 == b1 as nat + 0x100 * b2 as nat + 0x1_0000 * b3 as nat;
  }

  /** The table turns four bits into the four samples, lowest bit in the lowest byte. */
  lemma ExpandGivesSamples(b: seq<bool>)
    requires |b| == 4
    ensures Bytes(JPEG_EXPAND[Nibble(b)]) == [Sample(b[0]), Sample(b[1]), Sample(b[2]), Sample(b[3])]
  {
    BytesOf(Sample(b[0]), Sample(b[1]), Sample(b[2]), Sample(b[3]));
  }

  method Expand(b: seq<bool>) returns (v: seq<byte>)
    requires |b| == 4
    ensures |v| == 4 && forall k :: 0 <= k < 4 ==> v[k] == Sample(b[k])
  {
    ExpandGivesSamples(b);
    v := Bytes(JPEG_EXPAND[Nibble(b)]);
  }

  // ---- One line of one tile ----

  /** dx bytes of a grey line, with the widest stores that fit. */
  method GrayscaleLine(line: seq<byte>, xOffset: nat, dx: nat, buffer: array<byte>, at: nat)
    requires 1 <= dx <= MCU_W && xOffset + dx <= |line| && at + MCU_W <= buffer.Length
    modifies buffer
    ensures forall i :: 0 <= i < buffer.Length ==>
                          buffer[i] == if at <= i < at + dx then line[xOffset + (i - at)] else old(buffer[i])
  {
    if dx == MCU_W {
      Store(buffer, at, line[xOffset..xOffset + 4]);
      Store(buffer, at + 4, line[xOffset + 4..xOffset + 8]);
    } else if dx >= 4 {
      Store(buffer, at, line[xOffset..xOffset + 4]);
      if dx >= 6 {
        Store(buffer, at + 4, line[xOffset + 4..xOffset + 6]);
        if dx % 2 == 1 {
          buffer[at + 6] := line[xOffset + 6];
        }
      } else if dx % 2 == 1 {
        buffer[at + 4] := line[xOffset + 4];
      }
    } else if dx >= 2 {
      Store(buffer, at, line[xOffset..xOffset + 2]);
      if dx % 2 == 1 {
        buffer[at + 2] := line[xOffset + 2];
      }
    } else {
      buffer[at] := line[xOffset];
    }
  }

  /** dx samples from eight bits of a bit-packed line, expanded four at a time. */
  method BinaryLine(pixels: seq<bool>, dx: nat, buffer: array<byte>, at: nat)
    requires 1 <= dx <= MCU_W && |pixels| == 8 && at + MCU_W <= buffer.Length
    modifies buffer
    ensures forall i :: 0 <= i < buffer.Length ==>
                          buffer[i] == if at <= i < at + dx then Sample(pixels[i - at]) else old(buffer[i])
  {
    var low := Expand(pixels[..4]);
    var high := Expand(pixels[4..]);
    if dx == MCU_W {
      Store(buffer, at, low);
      Store(buffer, at + 4, high);
    } else if dx >= 4 {
      Store(buffer, at, low);
      if dx >= 6 {
        Store(buffer, at + 4, high[..2]);
        if dx % 2 == 1 {
          buffer[at + 6] := Sample(pixels[6]);
        }
      } else if dx % 2 == 1 {
        buffer[at + 4] := Sample(pixels[4]);
      }
    } else if dx >= 2 {
      var pair := Expand([pixels[0], pixels[1], false, false]);
      Store(buffer, at, pair[..2]);
      if dx % 2 == 1 {
        buffer[at + 2] := Sample(pixels[2]);
      }
    } else {
      buffer[at] := Sample(pixels[0]);
    }
  }

  // ---- One tile ----

  /** Byte i of the tile at (x, y): line by line, padded with zeros past the edges. */
  ghost function TileByte(img: Image, x: nat, y: nat, i: nat): byte
    requires img.Tileable()
  {
    img.Padded(x + i % MCU_W, y + i / MCU_W)
  }

  ghost function Tile(img: Image, x: nat, y: nat): (s: seq<byte>)
    requires img.Tileable()
  {
    seq(MCU_SIZE, i requires 0 <= i => TileByte(img, x, y, i))
  }

  /** One line of jpeg_get_mcu for either format. */
  method McuLine(img: Image, xOffset: nat, y: nat, dx: nat, buffer: array<byte>, at: nat)
    requires img.Tileable() && y < img.h && xOffset % MCU_W == 0
    requires 1 <= dx <= MCU_W && xOffset + dx <= img.w && at + MCU_W <= buffer.Length
    modifies buffer
    ensures forall i :: 0 <= i < buffer.Length ==>
                          buffer[i] == if at <= i < at + dx then img.Pixel(xOffset + (i - at), y) else old(buffer[i])
  {
    match img
    case Grayscale(_, _, lines) =>
      GrayscaleLine(lines[y], xOffset, dx, buffer, at);
    case Binary(_, _, words) =>
      var shift := xOffset % 32;
      BinaryLine(words[y][xOffset / 32][shift..shift + 8], dx, buffer, at);
      forall x | xOffset <= x < xOffset + dx
        ensures img.Pixel(x, y) == Sample(words[y][xOffset / 32][shift..shift + 8][x - xOffset])
      {
        assert x / 32 == xOffset / 32 && x % 32 == shift + (x - xOffset);
      }
  }

  /** jpeg_get_mcu.  The colour formats are refused. */
  method GetMcu(img: Image, xOffset: nat, yOffset: nat, dx: nat, dy: nat, buffer: array<byte>, at: nat)
    returns (ok: bool)
    requires (img.Rgb565? || img.Bayer? || img.Tileable()) && xOffset < img.w && yOffset <= img.h &&
        xOffset % MCU_W == 0
    requires dx == (if img.w - xOffset > MCU_W then MCU_W else img.w - xOffset)
    requires dy == (if img.h - yOffset > MCU_H then MCU_H else img.h - yOffset)
    requires at + MCU_SIZE <= buffer.Length
    modifies buffer
    ensures ok <==> img.Tileable()
    ensures ok ==> buffer[at..at + MCU_SIZE] == Tile(img, xOffset, yOffset)
    ensures !ok ==> buffer[at..at + MCU_SIZE] == old(buffer[at..at + MCU_SIZE])
    ensures buffer[..at] == old(buffer[..at]) && buffer[at + MCU_SIZE..] == old(buffer[at + MCU_SIZE..])
  {
    if img.Rgb565? || img.Bayer? {
      return false;
    }
    if dx != MCU_W || dy != MCU_H {
      forall i | at <= i < at + MCU_SIZE {
        buffer[i] := 0;
      }
    }
    var y := yOffset;
    while y < yOffset + dy
      invariant yOffset <= y <= yOffset + dy
      invariant forall i :: 0 <= i < buffer.Length && !(at <= i < at + MCU_SIZE) ==> buffer[i] == old(buffer[i])
      invariant forall i :: at <= i < at + MCU_W * (y - yOffset) ==>
            buffer[i] == TileByte(img, xOffset, yOffset, i - at)
      invariant dx != MCU_W || dy != MCU_H ==> forall i :: at + MCU_W * (y - yOffset) <= i < at + MCU_SIZE ==>
            buffer[i] == 0
    {
      McuLine(img, xOffset, y, dx, buffer, at + MCU_W * (y - yOffset));
      y := y + 1;
    }
    ok := true;
  }

  // ---- One row of tiles ----

  function Columns(w: nat): nat {
    (w + MCU_W - 1) / MCU_W
  }

  /** The bound on the width is exact: up to it, the 32-bit product that sizes the buffer does not wrap. */
  lemma RowFits(w: nat)
    ensures MCU_SIZE * Columns(w) < 0x1_0000_0000 <==> w <= 0x1FFF_FFF8
  {
  }

  /** The first tiles of the lines from y on, left to right. */
  ghost function Tiles(img: Image, y: nat, count: nat): (s: seq<byte>)
    requires img.Tileable()
    ensures |s| == MCU_SIZE * count
  {
    if count == 0 then [] else Tiles(img, y, count - 1) + Tile(img, MCU_W * (count - 1), y)
  }

  lemma NoTiles(img: Image, y: nat)
    requires img.Tileable()
    ensures Tiles(img, y, 0) == []
  {
  }

  lemma OneTileMore(img: Image, y: nat, count: nat, s: seq<byte>, at: nat)
    requires img.Tileable() && at == MCU_SIZE * count && at + MCU_SIZE <= |s|
    requires s[..at] == Tiles(img, y, count) && s[at..at + MCU_SIZE] == Tile(img, MCU_W * count, y)
    ensures s[..MCU_SIZE * (count + 1)] == Tiles(img, y, count + 1)
  {
    assert s[..at + MCU_SIZE] == s[..at] + s[at..at + MCU_SIZE];
  }

  ghost function TileRow(img: Image, y: nat): (s: seq<byte>)
    requires img.Tileable()
    ensures |s| == MCU_SIZE * Columns(img.w)
  {
    Tiles(img, y, Columns(img.w))
  }

  /** Byte j of tile c. */
  lemma {:induction false} TileInRow(img: Image, y: nat, count: nat, c: nat, j: nat)
    requires img.Tileable() && c < count && j < MCU_SIZE
    ensures MCU_SIZE * c + j < |Tiles(img, y, count)|
    ensures Tiles(img, y, count)[MCU_SIZE * c + j] == TileByte(img, MCU_W * c, y, j)
  {
    if c < count - 1 {
      TileInRow(img, y, count - 1, c, j);
    }
  }

  /** The 32-bit subtraction and the cap that give the number of lines to take. */
  function LinesToTake(h: nat, rowCount: nat): (n: nat)
    ensures rowCount <= h < 0x1_0000_0000 ==> n == if h - rowCount > MCU_H then MCU_H else h - rowCount
  {
    var dy := (h - rowCount) % 0x1_0000_0000;
    if dy > MCU_H then MCU_H else dy
  }

  /** The guard of the callback runs before the row count moves on, so it prepares one buffer after the
      last row of tiles.  That stays inside the image exactly when the height is a multiple of 8; otherwise
      the subtraction wraps and eight lines below the image are taken. */
  lemma OneBufferTooMany(h: nat, rowCount: nat)
    requires rowCount % MCU_H == 0 && rowCount < h <= rowCount + MCU_H && h < 0x1_0000_0000
    ensures rowCount + MCU_H + LinesToTake(h, rowCount + MCU_H) <= h <==> h % MCU_H == 0
    ensures h % MCU_H != 0 ==> LinesToTake(h, rowCount + MCU_H) == MCU_H
  {
    if h < rowCount + MCU_H {
      assert (h - (rowCount + MCU_H)) % 0x1_0000_0000 == h - (rowCount + MCU_H) + 0x1_0000_0000;
    }
  }

  /** With twelve lines, the last row of tiles starts at line 8, and the buffer after it takes lines 16 to 23. */
  lemma TwelveLines()
    ensures var (h, rowCount) := (12, 8);
            rowCount < h <= rowCount + MCU_H && rowCount + MCU_H + LinesToTake(h, rowCount + MCU_H) == 24
  {
    OneBufferTooMany(12, 8);
  }

  class Input {
    const img: Image
    const buffer: array<byte>
    var rowCount: nat
    /** What the encoder was given so far. */
    ghost var submitted: seq<seq<byte>>

    ghost predicate Valid()
      reads this
    {
      && Encodable(img)
      && buffer.Length == MCU_SIZE * Columns(img.w)
    }

    /** Buffer k holds tile row k, and the last one given is the one of the row count. */
    ghost predicate InStep()
      requires Valid()
      reads this
    {
      && MCU_H * |submitted| == rowCount + MCU_H
      && forall k :: 0 <= k < |submitted| ==> submitted[k] == TileRow(img, MCU_H * k)
    }

    /** refresh_input_mcu_buffer */
    method RefreshBuffer()
      requires Valid() && rowCount <= img.h
      modifies buffer
      ensures buffer[..] == TileRow(img, rowCount)
    {
      var dy := LinesToTake(img.h, rowCount);
      hide LinesToTake, Tiles, Tile;
      NoTiles(img, rowCount);
      var xOffset := 0;
      ghost var c := 0;
      while xOffset < img.w
        invariant xOffset == MCU_W * c && c <= Columns(img.w)
        invariant buffer[..MCU_SIZE * c] == Tiles(img, rowCount, c)
      {
        var dx := if img.w - xOffset > MCU_W then MCU_W else img.w - xOffset;
        var at := MCU_SIZE * (xOffset / MCU_W);
        assert at == MCU_SIZE * c;
        var _ := GetMcu(img, xOffset, rowCount, dx, dy, buffer, at);
        OneTileMore(img, rowCount, c, buffer[..], at);
        xOffset := xOffset + MCU_W;
        c := c + 1;
      }
    }

    /** The part of bsp_jpeg_compress that prepares the first row of tiles and starts the encoder. */
    constructor (img: Image)
      requires Encodable(img)
      ensures Valid() && fresh(buffer) && this.img == img
      ensures rowCount == 0 && |submitted| == 1 && InStep()
    {
      this.img := img;
      buffer := new byte[MCU_SIZE * Columns(img.w)];
      rowCount := 0;
      new;
      RefreshBuffer();
      submitted := [buffer[..]];
    }

    /** HAL_JPEG_GetDataCallback.  Below the last row of tiles of an image whose height is not a multiple of
        8 the source reads past the image, so the caller must have stopped by then. */
    method GetDataCallback(decoded: nat)
      requires Valid() && decoded <= buffer.Length
      requires decoded == buffer.Length && rowCount < img.h ==> rowCount + MCU_H <= img.h
      modifies this, buffer
      ensures Valid()
      ensures decoded == buffer.Length && old(rowCount) < img.h ==>
                rowCount == old(rowCount) + MCU_H && submitted == old(submitted) + [TileRow(img, rowCount)]
      ensures decoded == buffer.Length && old(rowCount) >= img.h ==>
                rowCount == old(rowCount) && submitted == old(submitted)
      ensures decoded < buffer.Length ==>
                rowCount == old(rowCount) && submitted == old(submitted) + [old(buffer[decoded..])]
      ensures decoded == buffer.Length && old(InStep()) ==> InStep()
    {
      if decoded == buffer.Length {
        if rowCount < img.h {
          rowCount := rowCount + MCU_H;
          RefreshBuffer();
          submitted := submitted + [buffer[..]];
        }
      } else {
        submitted := submitted + [buffer[decoded..]];
      }
    }
  }

  // ---- A whole run ----

  ghost function TileRows(img: Image): (s: seq<seq<byte>>)
    requires img.Tileable()
  {
    seq((img.h + MCU_H - 1) / MCU_H, k requires 0 <= k => TileRow(img, MCU_H * k))
  }

  lemma AllRowsGiven(input: Input)
    requires input.Valid() && input.InStep() && input.rowCount < input.img.h <= input.rowCount + MCU_H
    ensures input.submitted == TileRows(input.img)
  {
    hide TileRow, Columns;
    assert |input.submitted| == (input.img.h + MCU_H - 1) / MCU_H;
  }

  /** While the encoder reports full consumption of every buffer, what it is given is the rows of tiles. */
  method EncodeAll(img: Image) returns (input: Input)
    requires Encodable(img)
    ensures fresh(input) && input.Valid() && input.img == img && input.submitted == TileRows(img)
    ensures input.rowCount < img.h <= input.rowCount + MCU_H && input.rowCount % MCU_H == 0
  {
    hide TileRow, TileRows, Columns, Image.Tileable;
    input := new Input(img);
    while input.rowCount + MCU_H < img.h
      invariant fresh(input) && fresh(input.buffer) && input.Valid() && input.img == img
      invariant input.InStep() && input.rowCount < img.h
      decreases img.h - input.rowCount
    {
      input.GetDataCallback(input.buffer.Length);
    }
    AllRowsGiven(input);
  }

  /** Where pixel (x, y) stands in its row of tiles. */
  function Place(x: nat, y: nat): nat {
    x / MCU_W * MCU_SIZE + y % MCU_H * MCU_W + x % MCU_W
  }

  lemma PlaceInRow(x: nat, y: nat, w: nat)
    ensures Place(x, y) / MCU_SIZE == x / MCU_W && Place(x, y) % MCU_SIZE == y % MCU_H * MCU_W + x % MCU_W
    ensures x < w ==> Place(x, y) < MCU_SIZE * Columns(w)
  {
  }

  /** Putting the tiles back into lines of the given size. */
  ghost function Untile(w: nat, h: nat, rows: seq<seq<byte>>): seq<seq<byte>>
    requires |rows| == (h + MCU_H - 1) / MCU_H
    requires forall k :: 0 <= k < |rows| ==> |rows[k]| == MCU_SIZE * Columns(w)
  {
    seq(h, y requires 0 <= y < h => UntileLine(w, y, rows[y / MCU_H]))
  }

  ghost function UntileLine(w: nat, y: nat, row: seq<byte>): seq<byte>
    requires |row| == MCU_SIZE * Columns(w)
  {
    seq(w, x requires 0 <= x < w => PlaceInRow(x, y, w); row[Place(x, y)])
  }

  ghost function PixelLine(img: Image, y: nat): seq<byte>
    requires img.Tileable() && y < img.h
  {
    seq(img.w, x requires 0 <= x < img.w => img.Pixel(x, y))
  }

  ghost function PixelLines(img: Image): seq<seq<byte>>
    requires img.Tileable()
  {
    seq(img.h, y requires 0 <= y < img.h => PixelLine(img, y))
  }

  lemma TilePixel(img: Image, x: nat, y: nat)
    requires img.Tileable() && x < img.w && y < img.h
    ensures Place(x, y) < |TileRow(img, MCU_H * (y / MCU_H))|
    ensures TileRow(img, MCU_H * (y / MCU_H))[Place(x, y)] == img.Pixel(x, y)
  {
    PlaceInRow(x, y, img.w);
    var j := y % MCU_H * MCU_W + x % MCU_W;
    TileInRow(img, MCU_H * (y / MCU_H), Columns(img.w), x / MCU_W, j);
    assert j % MCU_W == x % MCU_W && j / MCU_W == y % MCU_H;
  }

  /** Where each sample goes, by its index and from the data of the image: tile row y / 8, tile x / 8, line
      y % 8 of the tile, byte x % 8 of the line. */
  lemma SampleIsAt(img: Image, x: nat, y: nat)
    requires img.Tileable() && x < img.w && y < img.h
    ensures |TileRows(img)| == (img.h + 7) / 8 && y / 8 < |TileRows(img)|
    ensures var row, i := TileRows(img)[y / 8], 64 * (x / 8) + 8 * (y % 8) + x % 8;
            && |row| == 64 * ((img.w + 7) / 8) && i < |row|
            && (img.Grayscale? ==> row[i] == img.lines[y][x])
            && (img.Binary? ==> row[i] == if img.words[y][x / 32][x % 32] then 0xFF else 0x00)
  {
    TilePixel(img, x, y);
  }

  /** Untiling the submitted buffers restores the image exactly: the bytes of a grey image, and every bit of
      a packed one. */
  lemma UntileRestores(img: Image)
    requires img.Tileable()
    ensures Untile(img.w, img.h, TileRows(img)) == PixelLines(img)
    ensures img.Grayscale? ==> PixelLines(img) == img.lines
    ensures img.Binary? ==> forall x, y :: 0 <= x < img.w && 0 <= y < img.h ==>
                              (img.words[y][x / 32][x % 32] <==> PixelLines(img)[y][x] == 0xFF)
  {
    forall y | 0 <= y < img.h
      ensures UntileLine(img.w, y, TileRows(img)[y / MCU_H]) == PixelLine(img, y)
    {
      forall x | 0 <= x < img.w
        ensures UntileLine(img.w, y, TileRows(img)[y / MCU_H])[x] == PixelLine(img, y)[x]
      {
        TilePixel(img, x, y);
      }
    }
    if img.Grayscale? {
      assert forall y :: 0 <= y < img.h ==> PixelLine(img, y) == img.lines[y];
    }
  }

  /** Everything else in the tiles is zero. */
  lemma PaddingIsZero(img: Image, k: nat, c: nat, j: nat)
    requires img.Tileable() && k < |TileRows(img)| && c < Columns(img.w) && j < MCU_SIZE
    requires MCU_W * c + j % MCU_W >= img.w || MCU_H * k + j / MCU_W >= img.h
    ensures MCU_SIZE * c + j < |TileRows(img)[k]| && TileRows(img)[k][MCU_SIZE * c + j] == 0
  {
    TileInRow(img, MCU_H * k, Columns(img.w), c, j);
  }
}
