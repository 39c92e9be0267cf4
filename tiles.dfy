/** What one 2x2 sensor tile becomes. The sensor delivers its codes in tiles
        B  G
        IR R
    and every decoding routine turns one tile into one value per output
    channel, which it then writes to all four pixels of the tile's block. */
module Tiles {
  import opened Saturate

  /** A 16-bit sensor sample (`unsigned short`). */
  type u16 = x: int | 0 <= x < 0x1_0000

  /** The four raw codes of a tile, named by the sensor layout: `b` at (0,0),
      `g` at (1,0), `ir` at (0,1) and `r` at (1,1) relative to its top-left. */
  datatype RawTile = RawTile(b: u16, g: u16, ir: u16, r: u16)

  /** One decoded pixel: RGB channels 0, 1, 2 of the 3-channel image and the
      sample of the 1-channel IR image. */
  datatype Px = Px(c0: int, c1: int, c2: int, ir: int)

  /** The three decoding routines:
      `Rgb8`    ExtractBayerY16toRGB8 (IR subtracted, 8-bit output),
      `Rgb16`   ExtractBayerY16toRGB16 (IR subtracted, doubled, 10-bit output),
      `Bayer10` ExtractBayer10_Y16 (no subtraction, R and B macros swapped). */
  datatype Variant = Rgb8 | Rgb16 | Bayer10

  /** All four samples of `o` lie in [0, hi]. */
  predicate InRange(o: Px, hi: int)
  {
    0 <= o.c0 <= hi && 0 <= o.c1 <= hi && 0 <= o.c2 <= hi && 0 <= o.ir <= hi
  }

  /** Largest value a variant writes. */
  function OutMax(v: Variant): int
  {
    if v == Rgb16 then 1023 else 255
  }

  /** Assigning an `unsigned short` to a `short`: the same value modulo 2^16,
      read back in the signed 16-bit range. */
  function ToShort(v: u16): (s: int)
    ensures -0x8000 <= s < 0x8000
    ensures (s - v) % 0x1_0000 == 0
  {
    if v < 0x8000 then v else v - 0x1_0000
  }

  /** ExtractBayerY16toRGB8, one tile: the IR code is clipped to 8 bits and
      subtracted (with unit gain) from each colour code before that is
      clipped; B goes to channel 0, G to 1, R to 2. */
  function Rgb8Tile(t: RawTile): (o: Px)
    ensures InRange(o, 255)
    ensures o.ir == Clip8(t.ir)
  {
    var irVal := Clip8(t.ir);
    Px(Clip8(t.b - irVal), Clip8(t.g - irVal), Clip8(t.r - irVal), Clip8(irVal))
  }

  /** ExtractBayerY16toRGB16, one tile: the IR code is held in a `short`,
      subtracted unclipped (unit gain) from each colour code, and the
      difference doubled before clipping to 10 bits; the IR output is the
      doubled IR value clipped to 10 bits. */
  function Rgb16Tile(t: RawTile): (o: Px)
    ensures InRange(o, 1023)
  {
    var irVal := ToShort(t.ir);
    Px(Clip10(2 * (t.b - irVal)), Clip10(2 * (t.g - irVal)), Clip10(2 * (t.r - irVal)), Clip10(2 * irVal))
  }

  /** ExtractBayer10_Y16, one tile: every code clipped to 8 bits on its own.
      Its `R` macro addresses channel 0 and its `B` macro channel 2, so the
      code at (0,0) lands in channel 2 and the code at (1,1) in channel 0. */
  function Bayer10Tile(t: RawTile): (o: Px)
    ensures InRange(o, 255)
  {
    Px(Clip8(t.r), Clip8(t.g), Clip8(t.b), Clip8(t.ir))
  }

  function TileOut(v: Variant, t: RawTile): (o: Px)
    ensures InRange(o, OutMax(v))
  {
    match v
    case Rgb8 => Rgb8Tile(t)
    case Rgb16 => Rgb16Tile(t)
    case Bayer10 => Bayer10Tile(t)
  }

  // ---------------------------------------------------------------------
  // Properties of the per-tile arithmetic
  // ---------------------------------------------------------------------

  /** 8-bit path, worked example: codes (B, G, IR, R) = (100, 150, 20, 200)
      give (B, G, R) = (80, 130, 180) and IR = 20. */
  lemma Rgb8Example()
    ensures Rgb8Tile(RawTile(100, 150, 20, 200)) == Px(80, 130, 180, 20)
  {
  }

  /** 8-bit path: a colour channel is exactly its code minus the (clipped)
      IR code when that difference fits 8 bits, and it is black exactly when
      the code does not exceed the IR output. */
  lemma Rgb8Subtraction(t: RawTile)
    ensures var o := Rgb8Tile(t);
      && (o.ir <= t.b <= o.ir + 255 ==> o.c0 == t.b - o.ir)
      && (o.ir <= t.g <= o.ir + 255 ==> o.c1 == t.g - o.ir)
      && (o.ir <= t.r <= o.ir + 255 ==> o.c2 == t.r - o.ir)
      && (o.c0 == 0 <==> t.b <= o.ir)
      && (o.c1 == 0 <==> t.g <= o.ir)
      && (o.c2 == 0 <==> t.r <= o.ir)
  {
  }

  /** 16-bit path on sensor codes that fit a `short` (every 10-bit code
      does): colour = clip10(2 * (code - IR code)), IR = clip10(2 * IR code). */
  lemma Rgb16OnShortCodes(t: RawTile)
    requires t.ir < 0x8000
    ensures Rgb16Tile(t) == Px(Clip10(2 * (t.b - t.ir)), Clip10(2 * (t.g - t.ir)),
                               Clip10(2 * (t.r - t.ir)), Clip10(2 * t.ir))
  {
  }

  /** 16-bit path on 10-bit codes: each colour channel is exactly twice its
      excess over the IR code while that fits 10 bits and 0 when the code
      does not exceed the IR code; the IR output is twice the IR code except
      where that reaches 1023. */
  lemma Rgb16OnSensorCodes(t: RawTile)
    requires t.b < 1024 && t.g < 1024 && t.ir < 1024 && t.r < 1024
    ensures var o := Rgb16Tile(t);
      && (t.ir <= t.b && 2 * (t.b - t.ir) <= 1023 ==> o.c0 == 2 * (t.b - t.ir))
      && (t.b <= t.ir ==> o.c0 == 0)
      && (t.ir <= t.g && 2 * (t.g - t.ir) <= 1023 ==> o.c1 == 2 * (t.g - t.ir))
      && (t.g <= t.ir ==> o.c1 == 0)
      && (t.ir <= t.r && 2 * (t.r - t.ir) <= 1023 ==> o.c2 == 2 * (t.r - t.ir))
      && (t.r <= t.ir ==> o.c2 == 0)
      && (t.ir < 512 ==> o.ir == 2 * t.ir)
      && (512 <= t.ir ==> o.ir == 1023)
  {
  }

  /** Legacy path: every output is the 8-bit clip of one raw code, with no IR
      subtraction, and the mapping is (0,0) to channel 2, (1,0) to channel 1,
      (1,1) to channel 0, (0,1) to IR. */
  lemma Bayer10Mapping(t: RawTile)
    ensures Bayer10Tile(t).c2 == Clip8(t.b) && Bayer10Tile(t).c1 == Clip8(t.g)
    ensures Bayer10Tile(t).c0 == Clip8(t.r) && Bayer10Tile(t).ir == Clip8(t.ir)
    ensures t.b <= 255 && t.g <= 255 && t.ir <= 255 && t.r <= 255 ==>
      Bayer10Tile(t) == Px(t.r, t.g, t.b, t.ir)
  {
  }
}
