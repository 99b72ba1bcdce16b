/**
 * The grid cell of src/components/cell.tsx: one pixel of the RGBA snapshot
 * rendered as a coloured two-character cell. The pixel buffer is a
 * `Uint8Array`; reading past its end yields `undefined`, which is `None` here.
 * The random text of a non-black cell is a parameter.
 */

module CellView {
  import opened Options
  import opened HexColor

  /** An element of a `Uint8Array`. */
  type byte = x: int | 0 <= x < 256

  /** Bytes per pixel: red, green, blue, alpha. */
  const BytesPerPixel: nat := 4

  /** The colour string of a black pixel. */
  const Black: string := "#000000"

  /** The text shown in a black cell. */
  const Placeholder: string := "__"

  /** What a cell shows: its background colour and its text. */
  datatype View = View(color: string, text: string)

  // ---------------------------------------------------------------------------
  // Pixel addressing

  /** Size of the buffer `getImageData` allocates for a w x h drawing buffer. */
  function ImageDataSize(w: nat, h: nat): (size: nat)
    ensures size % BytesPerPixel == 0 && size / BytesPerPixel == w * h
  {
    w * h * BytesPerPixel
  }

  /** Offset of the red byte of pixel (x, y) in a row-major buffer w pixels wide. */
  function DataIndex(x: nat, y: nat, w: nat): (i: nat)
    ensures i % BytesPerPixel == 0 && i / BytesPerPixel == y * w + x
  {
    y * w * 4 + x * 4
  }

  /** Reference inverse of `DataIndex`: the pixel whose window holds byte i. */
  function PixelOf(i: nat, w: nat): (p: (nat, nat))
    requires w > 0
    ensures p.0 < w
  {
    ((i / BytesPerPixel) % w, (i / BytesPerPixel) / w)
  }

  /** Division by w is determined by the quotient and remainder. */
  lemma DivModUnique(q: nat, w: nat, y: nat, x: nat)
    requires x < w && q == y * w + x
    ensures q / w == y && q % w == x
  {
    var y', x' := q / w, q % w;
    assert q == y' * w + x';
    if y' < y {
      MulLeq(y' + 1, y, w);
    } else if y' > y {
      MulLeq(y + 1, y', w);
    }
  }

  lemma MulLeq(a: nat, b: nat, c: nat)
    requires a <= b
    ensures a * c <= b * c
  {
  }

  /** An in-grid pixel's window lies inside the allocated buffer: the reads of
      a cell at x < w, y < h never run past the end of a full snapshot. */
  lemma DataIndexInBounds(x: nat, y: nat, w: nat, h: nat)
    requires x < w && y < h
    ensures DataIndex(x, y, w) + 3 < ImageDataSize(w, h)
  {
    assert y * w + w <= h * w by { MulLeq(y + 1, h, w); }
    assert DataIndex(x, y, w) == 4 * (y * w + x);
    assert ImageDataSize(w, h) == 4 * (h * w);
  }

  /** Every byte offset i is byte i % 4 of the window of pixel `PixelOf(i, w)`,
      and offsets inside the buffer belong to in-grid pixels. */
  lemma PixelOfCovers(i: nat, w: nat, h: nat)
    requires w > 0
    ensures var (x, y) := PixelOf(i, w);
      x < w && DataIndex(x, y, w) + i % 4 == i
    ensures i < ImageDataSize(w, h) ==> PixelOf(i, w).1 < h
  {
    var q := i / 4;
    var (x, y) := PixelOf(i, w);
    assert q == y * w + x;
    assert DataIndex(x, y, w) == 4 * (y * w + x);
    if i < ImageDataSize(w, h) && y >= h {
      MulLeq(h, y, w);
    }
  }

  /** Byte c of pixel (x, y)'s window maps back to (x, y). */
  lemma PixelOfDataIndex(x: nat, y: nat, w: nat, c: nat)
    requires x < w && c < 4
    ensures PixelOf(DataIndex(x, y, w) + c, w) == (x, y)
  {
    var i := DataIndex(x, y, w) + c;
    assert i == 4 * (y * w + x) + c;
    assert i / 4 == y * w + x;
    DivModUnique(y * w + x, w, y, x);
  }

  /** Windows of distinct pixels never overlap: if byte c1 of pixel (x1, y1)
      and byte c2 of pixel (x2, y2) are the same offset, the pixels and the
      bytes are the same.  In particular (x, y) -> dataIndex is injective. */
  lemma WindowsDisjoint(x1: nat, y1: nat, c1: nat, x2: nat, y2: nat, c2: nat, w: nat)
    requires x1 < w && x2 < w && c1 < 4 && c2 < 4
    requires DataIndex(x1, y1, w) + c1 == DataIndex(x2, y2, w) + c2
    ensures x1 == x2 && y1 == y2 && c1 == c2
  {
    PixelOfDataIndex(x1, y1, w, c1);
    PixelOfDataIndex(x2, y2, w, c2);
  }

  /** The windows tile the buffer: byte c of in-grid pixel (x, y) is offset
      i exactly when (x, y) is the pixel `PixelOf` gives for i and c is
      i % 4, and for an offset inside the buffer that pixel is in the grid. */
  lemma WindowOwner(i: nat, w: nat, h: nat, x: nat, y: nat, c: nat)
    requires i < ImageDataSize(w, h) && x < w && c < 4
    ensures w > 0 && PixelOf(i, w).1 < h
    ensures DataIndex(x, y, w) + c == i <==> PixelOf(i, w) == (x, y) && c == i % 4
  {
    assert w > 0;
    PixelOfCovers(i, w, h);
    if DataIndex(x, y, w) + c == i {
      PixelOfDataIndex(x, y, w, c);
      assert i == 4 * (y * w + x) + c;
    }
  }

  // ---------------------------------------------------------------------------
  // The cell

  /** `imageData[i]`: the byte at i, or `undefined` past the end. */
  function ReadByte(data: seq<byte>, i: nat): (c: Channel)
    ensures InByteRange(c)
  {
    if i < |data| then
      var v: nat := data[i];
      Some(v)
    else
      None
  }

  /** The three channel reads of pixel (x, y); the alpha byte is not read. */
  function Channels(data: seq<byte>, x: nat, y: nat, w: nat): (c: (Channel, Channel, Channel))
    ensures InByteRange(c.0) && InByteRange(c.1) && InByteRange(c.2)
    ensures var i := DataIndex(x, y, w);
      && (c.0.Some? <==> i < |data|) && (c.1.Some? <==> i + 1 < |data|) && (c.2.Some? <==> i + 2 < |data|)
      && (i < |data| ==> c.0 == Some(data[i] as nat))
      && (i + 1 < |data| ==> c.1 == Some(data[i + 1] as nat))
      && (i + 2 < |data| ==> c.2 == Some(data[i + 2] as nat))
  {
    var i := DataIndex(x, y, w);
    (ReadByte(data, i), ReadByte(data, i + 1), ReadByte(data, i + 2))
  }

  /** The text of a cell with colour `color`: the random text unless the
      colour is black, in which case the placeholder. */
  function CellText(color: string, random: string): (t: string)
    ensures t == random || t == Placeholder
    ensures t == Placeholder <==> color == Black || random == Placeholder
  {
    if color != Black then random else Placeholder
  }

  /** The cell for pixel (x, y) of a buffer w pixels wide, with `random` the
      text a non-black cell draws. */
  function Cell(data: seq<byte>, x: nat, y: nat, w: nat, random: string): (v: View)
    ensures |v.color| == 7 && v.color[0] == '#' && IsHexString(v.color[1..])
    ensures var (r, g, b) := Channels(data, x, y, w);
      DecodeHexColor(v.color) == Some((ChannelValue(r), ChannelValue(g), ChannelValue(b)))
    ensures v.text == Placeholder <==> v.color == Black || random == Placeholder
    ensures v.text != Placeholder ==> v.text == random
  {
    var (r, g, b) := Channels(data, x, y, w);
    var color := RgbToHex(r, g, b);
    RgbToHexRoundTrip(r, g, b);
    View(color, CellText(color, random))
  }

  /** A random text is what `Math.random().toString(36).substring(7, 9)`
      can give: at most two base-36 digits. */
  predicate IsRandomText(t: string)
  {
    |t| <= 2 && forall i :: 0 <= i < |t| ==> ('0' <= t[i] <= '9' || 'a' <= t[i] <= 'z')
  }

  /** With a genuine random text, a cell shows the placeholder exactly when
      its colour is black. */
  lemma PlaceholderIffBlack(data: seq<byte>, x: nat, y: nat, w: nat, random: string)
    requires IsRandomText(random)
    ensures Cell(data, x, y, w, random).text == Placeholder <==> Cell(data, x, y, w, random).color == Black
  {
    assert !IsRandomText(Placeholder) by {
      assert Placeholder[0] == '_';
    }
  }

  /** A channel read is 0 or `undefined`. */
  predicate ReadsZero(data: seq<byte>, i: nat)
  {
    i >= |data| || data[i] == 0
  }

  /** A cell is black exactly when each of its three reads is 0 or past the
      end of the buffer. */
  lemma CellBlackIff(data: seq<byte>, x: nat, y: nat, w: nat, random: string)
    ensures var i := DataIndex(x, y, w);
      Cell(data, x, y, w, random).color == Black <==>
      ReadsZero(data, i) && ReadsZero(data, i + 1) && ReadsZero(data, i + 2)
  {
    var (r, g, b) := Channels(data, x, y, w);
    RgbToHexBlack(r, g, b);
  }

  /** Before the first frame the buffer is empty (or too short for the
      pixel): every read is `undefined`, the colour is black and the text is
      the placeholder. */
  lemma ShortBufferCell(data: seq<byte>, x: nat, y: nat, w: nat, random: string)
    requires |data| <= DataIndex(x, y, w)
    ensures Cell(data, x, y, w, random) == View(Black, Placeholder)
  {
    var (r, g, b) := Channels(data, x, y, w);
    assert r.None? && g.None? && b.None?;
    RgbToHexBlack(r, g, b);
  }

  /** The cell depends only on the red, green and blue bytes of its pixel: two
      buffers that read the same at those three offsets give the same cell,
      whatever the alpha byte or any other pixel holds. */
  lemma CellReadsOnlyItsPixel(data: seq<byte>, data': seq<byte>, x: nat, y: nat, w: nat, random: string)
    requires var i := DataIndex(x, y, w);
      && ReadByte(data, i) == ReadByte(data', i)
      && ReadByte(data, i + 1) == ReadByte(data', i + 1)
      && ReadByte(data, i + 2) == ReadByte(data', i + 2)
    ensures Cell(data, x, y, w, random) == Cell(data', x, y, w, random)
  {
  }

  /** In particular, changing the alpha byte does not change the cell. */
  lemma CellIgnoresAlpha(data: seq<byte>, x: nat, y: nat, w: nat, random: string, alpha: byte)
    requires DataIndex(x, y, w) + 3 < |data|
    ensures Cell(data[DataIndex(x, y, w) + 3 := alpha], x, y, w, random) == Cell(data, x, y, w, random)
  {
    var i := DataIndex(x, y, w);
    CellReadsOnlyItsPixel(data[i + 3 := alpha], data, x, y, w, random);
  }

  /** In a full snapshot every in-grid cell reads real bytes, so its colour
      decodes to exactly the pixel's red, green and blue values. */
  lemma FullSnapshotCell(data: seq<byte>, x: nat, y: nat, w: nat, h: nat, random: string)
    requires |data| == ImageDataSize(w, h) && x < w && y < h
    ensures var i := DataIndex(x, y, w);
      i + 3 < |data| &&
      DecodeHexColor(Cell(data, x, y, w, random).color) == Some((data[i] as nat, data[i + 1] as nat, data[i + 2] as nat))
  {
    DataIndexInBounds(x, y, w, h);
  }
}
