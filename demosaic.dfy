/** The demosaic routines of main.cpp: ExtractBayerY16toRGB8,
    ExtractBayerY16toRGB16 and the depth dispatcher ExtractBayerY16toRGB.

    Each reads raw 16-bit sensor codes, walks the 2x2 tiles from `start`
    two rows and two columns at a time, and writes one decoded value per
    channel into the four pixels of the tile's block, in a 3-channel RGB
    image and a 1-channel IR image, both of the size of `dstRGB`. The byte
    counter `srccnt` grows by 8 per tile and is checked only before each
    row pair. The routines return the `(x, y)` where the loops stopped. */
module Demosaic {
  import opened Image
  import opened Tiles
  import opened Gating
  import opened Frame

  /** The destination pair a variant writes: an RGB Mat of `rgbType` and an
      IR Mat of `irType` with the same rows and columns (both even), in two
      distinct buffers. */
  ghost predicate Destinations(rgb: Mat, ir: Mat, rgbType: int, irType: int)
    reads rgb.data, ir.data
  {
    && Valid(rgb) && Valid(ir)
    && rgb.kind == rgbType && ir.kind == irType
    && ir.rows == rgb.rows && ir.cols == rgb.cols
    && rgb.data != ir.data
    && rgb.rows % 2 == 0 && rgb.cols % 2 == 0
  }

  /** A start position on the tile grid. */
  predicate OnTileGrid(start: Point)
  {
    0 <= start.x && start.x % 2 == 0 && 0 <= start.y && start.y % 2 == 0
  }

  /** The raw buffer holds every row a counted call reads: all rows of the
      row pairs it processes (it reads a whole row pair even when `srcLen`
      ends inside it). */
  predicate RawCoversCounted(raw: seq<u16>, w: int, h: int, srcLen: int, start: Point)
  {
    start.x < w ==> w * (start.y + 2 * CountedPairs(start.x, start.y, w, h, srcLen)) <= |raw|
  }

  /** The element types a variant writes: 16-bit for ExtractBayerY16toRGB16,
      8-bit for the other two. */
  function RgbType(v: Variant): int
  {
    if v == Rgb16 then CV_16UC3 else CV_8UC3
  }

  function IrType(v: Variant): int
  {
    if v == Rgb16 then CV_16UC1 else CV_8UC1
  }

  /** The requirements of ExtractBayerY16toRGB8 (`v == Rgb8`) or
      ExtractBayerY16toRGB16 (`v == Rgb16`). */
  ghost predicate CountedReady(rgb: Mat, ir: Mat, raw: seq<u16>, srcLen: int, start: Point, v: Variant)
    reads rgb.data, ir.data
  {
    && Destinations(rgb, ir, RgbType(v), IrType(v))
    && v != Bayer10
    && OnTileGrid(start)
    && RawCoversCounted(raw, rgb.cols, rgb.rows, srcLen, start)
  }

  /** The layout of a destination pair: row-major buffers of 3 and 1
      samples per pixel, samples of the depth's range, which holds every
      value the variant writes. */
  lemma DestinationLayout(rgb: Mat, ir: Mat, v: Variant)
    requires Destinations(rgb, ir, RgbType(v), IrType(v))
    ensures rgb.data.Length == 3 * rgb.cols * rgb.rows && ir.data.Length == rgb.cols * rgb.rows
    ensures OutMax(v) <= MaxSample(Depth(RgbType(v)))
    ensures SamplesWithin(rgb.data[..], MaxSample(Depth(RgbType(v))))
    ensures SamplesWithin(ir.data[..], MaxSample(Depth(RgbType(v))))
  {
    assert Channels(rgb.kind) == 3 && Channels(ir.kind) == 1;
    assert Depth(ir.kind) == Depth(rgb.kind);
  }

  /** One step of the column loop: the tile whose top-left code is (x, y)
      is read, decoded and stored in its 2x2 block of both images. */
  method DecodeTile(rgb: array<int>, ir: array<int>, raw: array<u16>, width: nat, height: nat,
                    start: Point, x: int, y: int, v: Variant,
                    ghost rgb0: seq<int>, ghost ir0: seq<int>, ghost hi: int)
    requires rgb.Length == 3 * width * height && ir.Length == width * height
    requires start.x <= x && x % 2 == 0 && y % 2 == 0
    requires 0 <= x && x + 1 < width && 0 <= y && y + 2 <= height && width * (y + 2) <= raw.Length
    requires OutMax(v) <= hi
    requires DecodedWithin(rgb[..], ir[..], rgb0, ir0, raw[..], width, height, start.x, start.y, y, x, v, hi)
    modifies rgb, ir
    ensures DecodedWithin(rgb[..], ir[..], rgb0, ir0, raw[..], width, height, start.x, start.y, y, x + 2, v, hi)
  {
    BlockInBuffer(width, x, y, raw.Length);
    var t := RawTile(raw[x + width * y], raw[x + 1 + width * y],
                     raw[x + width * (y + 1)], raw[x + 1 + width * (y + 1)]);
    assert t == TileAt(raw[..], width, x, y);
    var o := TileOut(v, t);
    ghost var rgbMid, irMid := rgb[..], ir[..];
    StoreBlock(rgb, ir, width, height, x, y, o, hi);
    DecodedToStep(rgb[..], ir[..], rgbMid, irMid, rgb0, ir0, raw[..], width, height, start.x, start.y, y, x, v, o);
  }

  /** The column loop of one row pair: `for (x = start.x; x < width; x += 2)`
      with one tile per step, counting 8 bytes a tile. */
  method DecodeRowPair(rgb: array<int>, ir: array<int>, raw: array<u16>, width: nat, height: nat,
                       start: Point, y: int, v: Variant, srccnt0: int,
                       ghost rgb0: seq<int>, ghost ir0: seq<int>, ghost hi: int)
    returns (x: int, srccnt: int)
    requires rgb.Length == 3 * width * height && ir.Length == width * height
    requires OnTileGrid(start) && start.y <= y && y % 2 == 0 && y + 2 <= height && width % 2 == 0
    requires start.x < width ==> width * (y + 2) <= raw.Length
    requires OutMax(v) <= hi
    requires DecodedWithin(rgb[..], ir[..], rgb0, ir0, raw[..], width, height, start.x, start.y, y, start.x, v, hi)
    modifies rgb, ir
    ensures x == InnerEnd(start.x, width)
    ensures srccnt == srccnt0 + BytesPerPair(start.x, width)
    ensures DecodedWithin(rgb[..], ir[..], rgb0, ir0, raw[..], width, height, start.x, start.y, y + 2, start.x, v, hi)
  {
    x := start.x;
    srccnt := srccnt0;
    while x < width
      invariant start.x <= x && x % 2 == 0 && (start.x < width ==> x <= width) && (width <= start.x ==> x == start.x)
      invariant srccnt == srccnt0 + 4 * (x - start.x)
      invariant DecodedWithin(rgb[..], ir[..], rgb0, ir0, raw[..], width, height, start.x, start.y, y, x, v, hi)
      decreases width - x
    {
      DecodeTile(rgb, ir, raw, width, height, start, x, y, v, rgb0, ir0, hi);
      srccnt := srccnt + 8;
      x := x + 2;
    }
    InnerLoopEnd(start.x, width, x);
    DecodedWithinNextRow(rgb[..], ir[..], rgb0, ir0, raw[..], width, height, start.x, start.y, y, x, v, hi);
  }

  /** The row loop `for (y = start.y; y < height; y += 2)` over the sample
      buffers of the two images, stopping before the first row pair at
      which the byte count has reached `srcLen`. */
  method CountedRows(rgb: array<int>, ir: array<int>, raw: array<u16>, width: nat, height: nat,
                     srcLen: int, start: Point, xUnset: int, v: Variant, ghost hi: int)
    returns (last: Point)
    requires rgb.Length == 3 * width * height && ir.Length == width * height
    requires OnTileGrid(start) && width % 2 == 0 && height % 2 == 0
    requires start.x < width ==> width * (start.y + 2 * CountedPairs(start.x, start.y, width, height, srcLen)) <= raw.Length
    requires OutMax(v) <= hi
    requires SamplesWithin(rgb[..], hi) && SamplesWithin(ir[..], hi)
    modifies rgb, ir
    ensures last == Cursor(start.x, start.y, width, xUnset, CountedPairs(start.x, start.y, width, height, srcLen))
    ensures DecodedWithin(rgb[..], ir[..], old(rgb[..]), old(ir[..]), raw[..], width, height, start.x, start.y, last.y, start.x, v, hi)
  {
    ghost var rgb0, ir0 := rgb[..], ir[..];
    var x := xUnset;
    var y := start.y;
    var srccnt := 0;
    ghost var k: nat := 0;
    while y < height
      invariant CountedLoop(start.x, start.y, width, height, srcLen, xUnset, x, y, srccnt, k)
      invariant DecodedWithin(rgb[..], ir[..], rgb0, ir0, raw[..], width, height, start.x, start.y, y, start.x, v, hi)
      decreases height - y
    {
      if srccnt >= srcLen {
        break;
      }
      CountedLoopEnter(start.x, start.y, width, height, srcLen, xUnset, x, y, srccnt, k);
      CountedLoopNext(start.x, start.y, width, height, srcLen, xUnset, x, y, srccnt, k);
      if start.x < width {
        MulMono(width, y + 2, start.y + 2 * CountedPairs(start.x, start.y, width, height, srcLen));
      }
      x, srccnt := DecodeRowPair(rgb, ir, raw, width, height, start, y, v, srccnt, rgb0, ir0, hi);
      y := y + 2;
      k := k + 1;
    }
    CountedLoopExit(start.x, start.y, width, height, srcLen, xUnset, x, y, srccnt, k);
    last := Point(x, y);
  }

  /** The common body of ExtractBayerY16toRGB8 and ExtractBayerY16toRGB16,
      which differ only in the per-tile arithmetic `TileOut(v, _)`.
      `xUnset` stands for the uninitialised `x`, returned when no row pair
      is processed. */
  method DecodeCounted(rgb: Mat, ir: Mat, raw: array<u16>, srcLen: int, start: Point, xUnset: int, v: Variant)
    returns (last: Point)
    requires CountedReady(rgb, ir, raw[..], srcLen, start, v)
    modifies rgb.data, ir.data
    ensures Valid(rgb) && Valid(ir)
    ensures last == Cursor(start.x, start.y, rgb.cols, xUnset, CountedPairs(start.x, start.y, rgb.cols, rgb.rows, srcLen))
    ensures Decoded(rgb.data[..], ir.data[..], old(rgb.data[..]), old(ir.data[..]), raw[..],
                    rgb.cols, rgb.rows, start, last.y, v)
  {
    ghost var hi := MaxSample(Depth(RgbType(v)));
    DestinationLayout(rgb, ir, v);
    last := CountedRows(rgb.data, ir.data, raw, rgb.cols, rgb.rows, srcLen, start, xUnset, v, hi);
    ValidFromSamples(rgb);
    ValidFromSamples(ir);
  }

  /** ExtractBayerY16toRGB8: 8-bit RGB and IR, IR subtracted from every
      colour code. */
  method ExtractBayerY16toRGB8(rgb: Mat, ir: Mat, raw: array<u16>, srcLen: int, start: Point, xUnset: int)
    returns (last: Point)
    requires CountedReady(rgb, ir, raw[..], srcLen, start, Rgb8)
    modifies rgb.data, ir.data
    ensures Valid(rgb) && Valid(ir)
    ensures last == Cursor(start.x, start.y, rgb.cols, xUnset, CountedPairs(start.x, start.y, rgb.cols, rgb.rows, srcLen))
    ensures Decoded(rgb.data[..], ir.data[..], old(rgb.data[..]), old(ir.data[..]), raw[..],
                    rgb.cols, rgb.rows, start, last.y, Rgb8)
  {
    last := DecodeCounted(rgb, ir, raw, srcLen, start, xUnset, Rgb8);
  }

  /** ExtractBayerY16toRGB16: 10-bit values in 16-bit RGB and IR, the IR
      code subtracted unclipped and every value doubled. */
  method ExtractBayerY16toRGB16(rgb: Mat, ir: Mat, raw: array<u16>, srcLen: int, start: Point, xUnset: int)
    returns (last: Point)
    requires CountedReady(rgb, ir, raw[..], srcLen, start, Rgb16)
    modifies rgb.data, ir.data
    ensures Valid(rgb) && Valid(ir)
    ensures last == Cursor(start.x, start.y, rgb.cols, xUnset, CountedPairs(start.x, start.y, rgb.cols, rgb.rows, srcLen))
    ensures Decoded(rgb.data[..], ir.data[..], old(rgb.data[..]), old(ir.data[..]), raw[..],
                    rgb.cols, rgb.rows, start, last.y, Rgb16)
  {
    last := DecodeCounted(rgb, ir, raw, srcLen, start, xUnset, Rgb16);
  }

  /** ExtractBayerY16toRGB: `switch (dstRGB.depth())` routes depth 0 (CV_8U)
      to the 8-bit routine and depth 2 (CV_16U) to the 16-bit one; any other
      depth writes nothing and returns the default-constructed point (0,0). */
  method ExtractBayerY16toRGB(rgb: Mat, ir: Mat, raw: array<u16>, srcLen: int, start: Point, xUnset: int)
    returns (p: Point)
    requires Depth(rgb.kind) == CV_8U ==> CountedReady(rgb, ir, raw[..], srcLen, start, Rgb8)
    requires Depth(rgb.kind) == CV_16U ==> CountedReady(rgb, ir, raw[..], srcLen, start, Rgb16)
    modifies rgb.data, ir.data
    ensures Depth(rgb.kind) == CV_8U || Depth(rgb.kind) == CV_16U ==> Valid(rgb) && Valid(ir)
    ensures Depth(rgb.kind) == CV_8U || Depth(rgb.kind) == CV_16U ==>
      p == Cursor(start.x, start.y, rgb.cols, xUnset, CountedPairs(start.x, start.y, rgb.cols, rgb.rows, srcLen))
    ensures Depth(rgb.kind) == CV_8U ==>
      Decoded(rgb.data[..], ir.data[..], old(rgb.data[..]), old(ir.data[..]), raw[..], rgb.cols, rgb.rows, start, p.y, Rgb8)
    ensures Depth(rgb.kind) == CV_16U ==>
      Decoded(rgb.data[..], ir.data[..], old(rgb.data[..]), old(ir.data[..]), raw[..], rgb.cols, rgb.rows, start, p.y, Rgb16)
    ensures Depth(rgb.kind) != CV_8U && Depth(rgb.kind) != CV_16U ==>
      p == Point(0, 0) && rgb.data[..] == old(rgb.data[..]) && ir.data[..] == old(ir.data[..])
  {
    p := Point(0, 0);
    var depth := Depth(rgb.kind);
    if depth == CV_8U {
      p := ExtractBayerY16toRGB8(rgb, ir, raw, srcLen, start, xUnset);
    } else if depth == CV_16U {
      p := ExtractBayerY16toRGB16(rgb, ir, raw, srcLen, start, xUnset);
    }
  }

  /** The full-frame case: from (0,0), with at least the 2*w*h bytes of a
      frame, the returned y is the height and every pixel of both images
      holds its tile's decoded value. */
  lemma FullFrameDecode(rgb: seq<int>, ir: seq<int>, rgb0: seq<int>, ir0: seq<int>, raw: seq<u16>,
                        w: nat, h: nat, srcLen: int, last: Point, v: Variant, px: int, py: int)
    requires w % 2 == 0 && h % 2 == 0 && 2 * w * h <= srcLen && 0 < srcLen
    requires last.y == 2 * CountedPairs(0, 0, w, h, srcLen)
    requires Decoded(rgb, ir, rgb0, ir0, raw, w, h, Point(0, 0), last.y, v)
    requires 0 <= px < w && 0 <= py < h
    ensures last.y == h
    ensures Pixel(rgb, ir, w, px, py) == Expected(v, raw, w, px, py)
  {
    FullFrameCounted(w, h, srcLen);
    FullDecodeOverwritesAll(rgb, ir, rgb0, ir0, raw, w, h, last.y, v, px, py);
  }

  /** What the capture loop's `do { ... } while (start.y < height)` gets when
      a frame arrives in two deliveries: the second call, started at the
      cursor (w, y1) the first returned, processes no tile yet returns
      y == h, so rows y1 .. h-1 keep their previous contents. */
  lemma SecondChunkIsLost(rgb: seq<int>, ir: seq<int>, rgb0: seq<int>, ir0: seq<int>, raw: seq<u16>,
                          w: nat, h: nat, srcLen: int, start: Point, v: Variant, px: int, py: int)
    requires w % 2 == 0 && h % 2 == 0 && 0 < w && 0 < srcLen
    requires start.x == w && start.y % 2 == 0 && 0 <= start.y < h
    requires Decoded(rgb, ir, rgb0, ir0, raw, w, h, start, start.y + 2 * CountedPairs(start.x, start.y, w, h, srcLen), v)
    requires 0 <= px < w && 0 <= py < h
    ensures start.y + 2 * CountedPairs(start.x, start.y, w, h, srcLen) == h
    ensures Pixel(rgb, ir, w, px, py) == Pixel(rgb0, ir0, w, px, py)
  {
    ResumeAtRowEnd(start.x, start.y, w, h, srcLen);
    ResumedCallWritesNothing(rgb, ir, rgb0, ir0, raw, w, h, start,
                             start.y + 2 * CountedPairs(start.x, start.y, w, h, srcLen), v, px, py);
  }
}
