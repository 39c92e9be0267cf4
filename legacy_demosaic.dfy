/** The legacy demosaic routine of capturev4l2.cpp, ExtractBayer10_Y16.

    It walks the tiles like the routines of main.cpp, but clips each raw
    code to 8 bits on its own (no IR subtraction), its `R` and `B` macros
    address channels 0 and 2 the other way round, and its guard
    `(x + width * y) * 2 >= srcLen` is positional: it reads `x` as left by
    the previous row pair's column loop, and before the first row pair an
    `x` that was never assigned. */
module LegacyDemosaic {
  import opened Image
  import opened Tiles
  import opened Gating
  import opened Frame
  import opened Demosaic

  /** The raw buffer holds every row the call reads. */
  predicate RawCoversPositional(raw: seq<u16>, w: int, h: int, srcLen: int, start: Point, xUnset: int)
  {
    start.x < w ==> w * (start.y + 2 * PositionalPairs(start.x, start.y, w, h, srcLen, xUnset)) <= |raw|
  }

  /** The requirements of ExtractBayer10_Y16: an 8-bit 3-channel RGB Mat and
      an 8-bit 1-channel IR Mat of the same even size, created by the caller
      as the routine's comment asks. */
  ghost predicate LegacyReady(rgb: Mat, ir: Mat, raw: seq<u16>, srcLen: int, start: Point, xUnset: int)
    reads rgb.data, ir.data
  {
    && Destinations(rgb, ir, RgbType(Bayer10), IrType(Bayer10))
    && OnTileGrid(start)
    && RawCoversPositional(raw, rgb.cols, rgb.rows, srcLen, start, xUnset)
  }

  /** The row loop of ExtractBayer10_Y16 over the sample buffers. */
  method PositionalRows(rgb: array<int>, ir: array<int>, raw: array<u16>, width: nat, height: nat,
                        srcLen: int, start: Point, xUnset: int)
    returns (last: Point)
    requires rgb.Length == 3 * width * height && ir.Length == width * height
    requires OnTileGrid(start) && width % 2 == 0 && height % 2 == 0
    requires start.x < width ==>
      width * (start.y + 2 * PositionalPairs(start.x, start.y, width, height, srcLen, xUnset)) <= raw.Length
    requires SamplesWithin(rgb[..], 255) && SamplesWithin(ir[..], 255)
    modifies rgb, ir
    ensures last == Cursor(start.x, start.y, width, xUnset, PositionalPairs(start.x, start.y, width, height, srcLen, xUnset))
    ensures DecodedWithin(rgb[..], ir[..], old(rgb[..]), old(ir[..]), raw[..], width, height,
                          start.x, start.y, last.y, start.x, Bayer10, 255)
  {
    ghost var rgb0, ir0 := rgb[..], ir[..];
    var x := xUnset;
    var y := start.y;
    ghost var k: nat := 0;
    while y < height
      invariant PositionalLoop(start.x, start.y, width, height, srcLen, xUnset, x, y, k)
      invariant DecodedWithin(rgb[..], ir[..], rgb0, ir0, raw[..], width, height, start.x, start.y, y, start.x, Bayer10, 255)
      decreases height - y
    {
      if (x + width * y) * 2 >= srcLen {
        break;
      }
      PositionalLoopEnter(start.x, start.y, width, height, srcLen, xUnset, x, y, k);
      if start.x < width {
        MulMono(width, y + 2, start.y + 2 * PositionalPairs(start.x, start.y, width, height, srcLen, xUnset));
      }
      // The routine keeps no byte count; the count DecodeRowPair returns is dropped.
      var bytes;
      x, bytes := DecodeRowPair(rgb, ir, raw, width, height, start, y, Bayer10, 0, rgb0, ir0, 255);
      y := y + 2;
      k := k + 1;
    }
    PositionalLoopExit(start.x, start.y, width, height, srcLen, xUnset, x, y, k);
    last := Point(x, y);
  }

  /** ExtractBayer10_Y16. `xUnset` stands for the uninitialised `x` that the
      first guard reads and that is returned when no row pair is processed. */
  method ExtractBayer10_Y16(rgb: Mat, ir: Mat, raw: array<u16>, srcLen: int, start: Point, xUnset: int)
    returns (last: Point)
    requires LegacyReady(rgb, ir, raw[..], srcLen, start, xUnset)
    modifies rgb.data, ir.data
    ensures Valid(rgb) && Valid(ir)
    ensures last == Cursor(start.x, start.y, rgb.cols, xUnset, PositionalPairs(start.x, start.y, rgb.cols, rgb.rows, srcLen, xUnset))
    ensures Decoded(rgb.data[..], ir.data[..], old(rgb.data[..]), old(ir.data[..]), raw[..],
                    rgb.cols, rgb.rows, start, last.y, Bayer10)
  {
    DestinationLayout(rgb, ir, Bayer10);
    last := PositionalRows(rgb.data, ir.data, raw, rgb.cols, rgb.rows, srcLen, start, xUnset);
    ValidFromSamples(rgb);
    ValidFromSamples(ir);
  }

  /** A written pixel of the legacy routine: every channel is the 8-bit clip
      of one raw code of its block, with no IR subtraction; channel 2 from
      (tx, ty), channel 1 from (tx+1, ty), channel 0 from (tx+1, ty+1) and
      IR from (tx, ty+1), (tx, ty) being the block's corner. */
  lemma Bayer10WrittenPixel(rgb: seq<int>, ir: seq<int>, rgb0: seq<int>, ir0: seq<int>,
                            raw: seq<u16>, w: int, h: int, start: Point, endY: int, px: int, py: int)
    requires Decoded(rgb, ir, rgb0, ir0, raw, w, h, start, endY, Bayer10)
    requires 0 <= px < w && 0 <= py < h && start.x <= px && start.y <= py < endY
    ensures var tx, ty := px - px % 2, py - py % 2;
      Pixel(rgb, ir, w, px, py) ==
        Px(Saturate.Clip8(RawAt(raw, tx + 1 + w * (ty + 1))),
           Saturate.Clip8(RawAt(raw, tx + 1 + w * ty)),
           Saturate.Clip8(RawAt(raw, tx + w * ty)),
           Saturate.Clip8(RawAt(raw, tx + w * (ty + 1))))
  {
    assert Pixel(rgb, ir, w, px, py) == Expected(Bayer10, raw, w, px, py);
  }

  /** The full-frame case of the legacy routine: from (0,0), when the first
      guard passes and more than the bytes of the first h - 1 rows were
      delivered, the returned y is the height and every pixel holds its
      tile's value. */
  lemma LegacyFullFrame(rgb: seq<int>, ir: seq<int>, rgb0: seq<int>, ir0: seq<int>, raw: seq<u16>,
                        w: nat, h: nat, srcLen: int, xUnset: int, last: Point, px: int, py: int)
    requires w % 2 == 0 && h % 2 == 0
    requires xUnset * 2 < srcLen && 2 * w * (h - 1) < srcLen
    requires last.y == 2 * PositionalPairs(0, 0, w, h, srcLen, xUnset)
    requires Decoded(rgb, ir, rgb0, ir0, raw, w, h, Point(0, 0), last.y, Bayer10)
    requires 0 <= px < w && 0 <= py < h
    ensures last.y == h
    ensures Pixel(rgb, ir, w, px, py) == Expected(Bayer10, raw, w, px, py)
  {
    FullFramePositional(w, h, srcLen, xUnset);
    FullDecodeOverwritesAll(rgb, ir, rgb0, ir0, raw, w, h, last.y, Bayer10, px, py);
  }
}
