/** The decoded image pair seen pixel by pixel, and what a decoding call
    promises about it.

    The destination RGB image holds 3 interleaved samples per pixel and the
    IR image 1, both row-major with row width w: sample c of pixel (px, py)
    is `rgb[c + 3 * (px + w * py)]` and its IR sample `ir[px + w * py]`
    (the source's `B`/`G`/`R`/`IR` macros applied to `Mat::ptr(y)`). Raw
    sensor codes are row-major too, `raw[x + w * y]` (the `BAY` macro). */
module Frame {
  import opened Image
  import opened Tiles

  /** Sample i of s, or 0 outside s. */
  function At(s: seq<int>, i: int): int
  {
    if 0 <= i < |s| then s[i] else 0
  }

  function RawAt(raw: seq<u16>, i: int): u16
  {
    if 0 <= i < |raw| then raw[i] else 0
  }

  /** The three RGB samples and the IR sample of pixel (px, py). */
  function Pixel(rgb: seq<int>, ir: seq<int>, w: int, px: int, py: int): Px
  {
    var p := px + w * py;
    Px(At(rgb, 3 * p), At(rgb, 3 * p + 1), At(rgb, 3 * p + 2), At(ir, p))
  }

  /** In a w-by-h image pair every pixel's four samples lie inside the two
      buffers, so the macros never read past them. */
  lemma PixelInBuffer(rgb: seq<int>, ir: seq<int>, w: nat, h: nat, px: int, py: int)
    requires |rgb| == 3 * w * h && |ir| == w * h
    requires 0 <= px < w && 0 <= py < h
    ensures var p := px + w * py;
      0 <= p && 3 * p + 2 < |rgb| && p < |ir| &&
      Pixel(rgb, ir, w, px, py) == Px(rgb[3 * p], rgb[3 * p + 1], rgb[3 * p + 2], ir[p])
  {
    InRaster(w, h, px, py);
  }

  /** The raw tile whose top-left code is at (tx, ty). */
  function TileAt(raw: seq<u16>, w: int, tx: int, ty: int): (t: RawTile)
    ensures 0 <= tx && tx + 1 < w && 0 <= ty && w * (ty + 2) <= |raw| ==>
      0 <= tx + w * ty && tx + 1 + w * (ty + 1) < |raw| &&
      t == RawTile(raw[tx + w * ty], raw[tx + 1 + w * ty], raw[tx + w * (ty + 1)], raw[tx + 1 + w * (ty + 1)])
  {
    var t := RawTile(RawAt(raw, tx + w * ty), RawAt(raw, tx + 1 + w * ty),
                     RawAt(raw, tx + w * (ty + 1)), RawAt(raw, tx + 1 + w * (ty + 1)));
    if 0 <= tx && tx + 1 < w && 0 <= ty && w * (ty + 2) <= |raw| then BlockInBuffer(w, tx, ty, |raw|); t else t
  }

  /** What a variant writes to pixel (px, py): the decoded value of the tile
      of its 2x2 block, whose top-left is the even pixel at or before it. */
  function Expected(v: Variant, raw: seq<u16>, w: int, px: int, py: int): (o: Px)
    ensures InRange(o, OutMax(v))
  {
    TileOut(v, TileAt(raw, w, px - px % 2, py - py % 2))
  }

  /** Pixels a call starting at (sx, sy) has written once the row loop has
      reached row y and, within row pair y, the column loop has reached x. */
  predicate Written(sx: int, sy: int, y: int, x: int, px: int, py: int)
  {
    (sy <= py < y && sx <= px) || (y <= py < y + 2 && sx <= px < x)
  }

  /** Every pixel of the w-by-h pair (rgb, ir) is the decoded value of its
      tile where written, and its sample in (rgb0, ir0) elsewhere. */
  ghost predicate DecodedTo(rgb: seq<int>, ir: seq<int>, rgb0: seq<int>, ir0: seq<int>,
                            raw: seq<u16>, w: int, h: int, sx: int, sy: int, y: int, x: int, v: Variant)
  {
    forall px, py | 0 <= px < w && 0 <= py < h ::
      Pixel(rgb, ir, w, px, py) ==
        if Written(sx, sy, y, x, px, py) then Expected(v, raw, w, px, py)
        else Pixel(rgb0, ir0, w, px, py)
  }

  /** DecodedTo, with every sample of both images in [0, hi]. */
  ghost predicate DecodedWithin(rgb: seq<int>, ir: seq<int>, rgb0: seq<int>, ir0: seq<int>,
                                raw: seq<u16>, w: int, h: int, sx: int, sy: int, y: int, x: int, v: Variant, hi: int)
  {
    SamplesWithin(rgb, hi) && SamplesWithin(ir, hi) && DecodedTo(rgb, ir, rgb0, ir0, raw, w, h, sx, sy, y, x, v)
  }

  /** The state after a decoding call that started at `start` and stopped at
      row `endY`: columns `start.x ..` of rows `start.y .. endY - 1` hold the
      decoded tiles; every other pixel is as it was. */
  ghost predicate Decoded(rgb: seq<int>, ir: seq<int>, rgb0: seq<int>, ir0: seq<int>,
                          raw: seq<u16>, w: int, h: int, start: Point, endY: int, v: Variant)
  {
    DecodedTo(rgb, ir, rgb0, ir0, raw, w, h, start.x, start.y, endY, start.x, v)
  }

  /** Storing the four samples of pixel (px, py) changes that pixel and no
      other: row-major addressing is one-to-one. */
  lemma PixelAfterStore(rgb: seq<int>, ir: seq<int>, w: nat, h: nat, px: int, py: int, o: Px, qx: int, qy: int)
    requires |rgb| == 3 * w * h && |ir| == w * h
    requires 0 <= px < w && 0 <= py < h && 0 <= qx < w && 0 <= qy < h
    ensures 0 <= 3 * (px + w * py) && 3 * (px + w * py) + 2 < |rgb| && px + w * py < |ir|
    ensures var p := px + w * py;
      Pixel(rgb[3 * p := o.c0][3 * p + 1 := o.c1][3 * p + 2 := o.c2], ir[p := o.ir], w, qx, qy) ==
        if qx == px && qy == py then o else Pixel(rgb, ir, w, qx, qy)
  {
    InRaster(w, h, px, py);
    InRaster(w, h, qx, qy);
    if qx + w * qy == px + w * py {
      RowMajorInjective(w, qx, qy, px, py);
    }
  }

  /** Writes `o` to pixel (px, py) of both images. */
  method StorePixel(rgb: array<int>, ir: array<int>, w: nat, h: nat, px: int, py: int, o: Px, ghost hi: int)
    requires rgb.Length == 3 * w * h && ir.Length == w * h
    requires 0 <= px < w && 0 <= py < h
    requires InRange(o, hi) && SamplesWithin(rgb[..], hi) && SamplesWithin(ir[..], hi)
    modifies rgb, ir
    ensures forall qx, qy | 0 <= qx < w && 0 <= qy < h ::
      Pixel(rgb[..], ir[..], w, qx, qy) ==
        if qx == px && qy == py then o else Pixel(old(rgb[..]), old(ir[..]), w, qx, qy)
    ensures SamplesWithin(rgb[..], hi) && SamplesWithin(ir[..], hi)
  {
    var p := px + w * py;
    PixelAfterStore(rgb[..], ir[..], w, h, px, py, o, px, py);
    ghost var rgb0, ir0 := rgb[..], ir[..];
    rgb[3 * p] := o.c0;
    rgb[3 * p + 1] := o.c1;
    rgb[3 * p + 2] := o.c2;
    ir[p] := o.ir;
    assert rgb[..] == rgb0[3 * p := o.c0][3 * p + 1 := o.c1][3 * p + 2 := o.c2];
    assert ir[..] == ir0[p := o.ir];
    SamplesWithinUpdate(rgb0, 3 * p, o.c0, hi);
    SamplesWithinUpdate(rgb0[3 * p := o.c0], 3 * p + 1, o.c1, hi);
    SamplesWithinUpdate(rgb0[3 * p := o.c0][3 * p + 1 := o.c1], 3 * p + 2, o.c2, hi);
    SamplesWithinUpdate(ir0, p, o.ir, hi);
    forall qx, qy | 0 <= qx < w && 0 <= qy < h
      ensures Pixel(rgb[..], ir[..], w, qx, qy) ==
        if qx == px && qy == py then o else Pixel(rgb0, ir0, w, qx, qy)
    {
      PixelAfterStore(rgb0, ir0, w, h, px, py, o, qx, qy);
    }
  }

  /** Writes `o` to all four pixels of the 2x2 block whose top-left is
      (x, y), in both images: the chained assignments of the source. */
  method StoreBlock(rgb: array<int>, ir: array<int>, w: nat, h: nat, x: int, y: int, o: Px, ghost hi: int)
    requires rgb.Length == 3 * w * h && ir.Length == w * h
    requires 0 <= x && x + 1 < w && 0 <= y && y + 1 < h
    requires InRange(o, hi) && SamplesWithin(rgb[..], hi) && SamplesWithin(ir[..], hi)
    modifies rgb, ir
    ensures forall qx, qy | 0 <= qx < w && 0 <= qy < h ::
      Pixel(rgb[..], ir[..], w, qx, qy) ==
        if x <= qx <= x + 1 && y <= qy <= y + 1 then o else Pixel(old(rgb[..]), old(ir[..]), w, qx, qy)
    ensures SamplesWithin(rgb[..], hi) && SamplesWithin(ir[..], hi)
  {
    StorePixel(rgb, ir, w, h, x, y, o, hi);
    StorePixel(rgb, ir, w, h, x + 1, y, o, hi);
    StorePixel(rgb, ir, w, h, x, y + 1, o, hi);
    StorePixel(rgb, ir, w, h, x + 1, y + 1, o, hi);
  }

  /** One tile step of the column loop: storing the decoded tile (x, y) in
      its block extends the written region of row pair y by two columns. */
  lemma DecodedToStep(rgb: seq<int>, ir: seq<int>, rgbMid: seq<int>, irMid: seq<int>, rgb0: seq<int>, ir0: seq<int>,
                      raw: seq<u16>, w: int, h: int, sx: int, sy: int, y: int, x: int, v: Variant, o: Px)
    requires DecodedTo(rgbMid, irMid, rgb0, ir0, raw, w, h, sx, sy, y, x, v)
    requires x % 2 == 0 && y % 2 == 0 && sx <= x
    requires o == TileOut(v, TileAt(raw, w, x, y))
    requires forall qx, qy | 0 <= qx < w && 0 <= qy < h ::
      Pixel(rgb, ir, w, qx, qy) ==
        if x <= qx <= x + 1 && y <= qy <= y + 1 then o
        else Pixel(rgbMid, irMid, w, qx, qy)
    ensures DecodedTo(rgb, ir, rgb0, ir0, raw, w, h, sx, sy, y, x + 2, v)
  {
    forall qx, qy | 0 <= qx < w && 0 <= qy < h
      ensures Pixel(rgb, ir, w, qx, qy) ==
        if Written(sx, sy, y, x + 2, qx, qy) then Expected(v, raw, w, qx, qy)
        else Pixel(rgb0, ir0, w, qx, qy)
    {
      if x <= qx <= x + 1 && y <= qy <= y + 1 {
        EvenCorner(x, qx);
        EvenCorner(y, qy);
        assert Pixel(rgb, ir, w, qx, qy) == o;
        assert Written(sx, sy, y, x + 2, qx, qy);
      } else {
        assert Pixel(rgb, ir, w, qx, qy) == Pixel(rgbMid, irMid, w, qx, qy);
        assert Written(sx, sy, y, x + 2, qx, qy) == Written(sx, sy, y, x, qx, qy);
      }
    }
  }

  /** The even corner at or before q is c when q is c or c + 1. */
  lemma EvenCorner(c: int, q: int)
    requires c % 2 == 0 && c <= q <= c + 1
    ensures q - q % 2 == c
  {
  }

  /** The end of the column loop: a row pair written up to the right edge
      joins the rows above it. */
  lemma DecodedToNextRow(rgb: seq<int>, ir: seq<int>, rgb0: seq<int>, ir0: seq<int>,
                         raw: seq<u16>, w: int, h: int, sx: int, sy: int, y: int, x: int, v: Variant)
    requires DecodedTo(rgb, ir, rgb0, ir0, raw, w, h, sx, sy, y, x, v)
    requires sy <= y && w <= x
    ensures DecodedTo(rgb, ir, rgb0, ir0, raw, w, h, sx, sy, y + 2, sx, v)
  {
    forall qx, qy | 0 <= qx < w && 0 <= qy < h
      ensures Written(sx, sy, y + 2, sx, qx, qy) == Written(sx, sy, y, x, qx, qy)
    {
    }
  }

  /** DecodedToNextRow, keeping the sample bounds. */
  lemma DecodedWithinNextRow(rgb: seq<int>, ir: seq<int>, rgb0: seq<int>, ir0: seq<int>,
                             raw: seq<u16>, w: int, h: int, sx: int, sy: int, y: int, x: int, v: Variant, hi: int)
    requires DecodedWithin(rgb, ir, rgb0, ir0, raw, w, h, sx, sy, y, x, v, hi)
    requires sy <= y && w <= x
    ensures DecodedWithin(rgb, ir, rgb0, ir0, raw, w, h, sx, sy, y + 2, sx, v, hi)
  {
    DecodedToNextRow(rgb, ir, rgb0, ir0, raw, w, h, sx, sy, y, x, v);
  }

  // ---------------------------------------------------------------------
  // What a decoded image pair satisfies
  // ---------------------------------------------------------------------

  /** Block replication: the four pixels of a written 2x2 block carry one
      and the same value, in both images. */
  lemma WrittenBlockIsUniform(rgb: seq<int>, ir: seq<int>, rgb0: seq<int>, ir0: seq<int>,
                              raw: seq<u16>, w: int, h: int, start: Point, endY: int, v: Variant, px: int, py: int)
    requires Decoded(rgb, ir, rgb0, ir0, raw, w, h, start, endY, v)
    requires start.x % 2 == 0 && start.y % 2 == 0 && endY % 2 == 0
    requires px % 2 == 0 && py % 2 == 0 && 0 <= px && px + 1 < w && 0 <= py && py + 1 < h
    requires start.x <= px && start.y <= py < endY
    ensures Pixel(rgb, ir, w, px + 1, py) == Pixel(rgb, ir, w, px, py)
    ensures Pixel(rgb, ir, w, px, py + 1) == Pixel(rgb, ir, w, px, py)
    ensures Pixel(rgb, ir, w, px + 1, py + 1) == Pixel(rgb, ir, w, px, py)
  {
    assert Pixel(rgb, ir, w, px, py) == Expected(v, raw, w, px, py);
    assert Pixel(rgb, ir, w, px + 1, py) == Expected(v, raw, w, px + 1, py);
    assert Pixel(rgb, ir, w, px, py + 1) == Expected(v, raw, w, px, py + 1);
    assert Pixel(rgb, ir, w, px + 1, py + 1) == Expected(v, raw, w, px + 1, py + 1);
  }

  /** Channel mapping of a written pixel of the IR-subtracting 8-bit path:
      channel 0 from raw (tx, ty), channel 1 from (tx+1, ty), channel 2 from
      (tx+1, ty+1) and IR from (tx, ty+1), (tx, ty) being its block's corner. */
  lemma Rgb8WrittenPixel(rgb: seq<int>, ir: seq<int>, rgb0: seq<int>, ir0: seq<int>,
                         raw: seq<u16>, w: int, h: int, start: Point, endY: int, px: int, py: int)
    requires Decoded(rgb, ir, rgb0, ir0, raw, w, h, start, endY, Rgb8)
    requires 0 <= px < w && 0 <= py < h && start.x <= px && start.y <= py < endY
    ensures var tx, ty := px - px % 2, py - py % 2;
      var irVal := Saturate.Clip8(RawAt(raw, tx + w * (ty + 1)));
      Pixel(rgb, ir, w, px, py) ==
        Px(Saturate.Clip8(RawAt(raw, tx + w * ty) - irVal),
           Saturate.Clip8(RawAt(raw, tx + 1 + w * ty) - irVal),
           Saturate.Clip8(RawAt(raw, tx + 1 + w * (ty + 1)) - irVal),
           irVal)
  {
    assert Pixel(rgb, ir, w, px, py) == Expected(Rgb8, raw, w, px, py);
  }

  /** Nothing else changes: pixels left of the start column, above the start
      row, or at or below the returned row are as they were. */
  lemma UnwrittenPixelUnchanged(rgb: seq<int>, ir: seq<int>, rgb0: seq<int>, ir0: seq<int>,
                                raw: seq<u16>, w: int, h: int, start: Point, endY: int, v: Variant, px: int, py: int)
    requires Decoded(rgb, ir, rgb0, ir0, raw, w, h, start, endY, v)
    requires 0 <= px < w && 0 <= py < h
    requires px < start.x || py < start.y || endY <= py
    ensures Pixel(rgb, ir, w, px, py) == Pixel(rgb0, ir0, w, px, py)
  {
    assert !Written(start.x, start.y, endY, start.x, px, py);
  }

  /** A call from (0,0) that returns y == h has overwritten every pixel of
      both images: what they held before no longer shows. */
  lemma FullDecodeOverwritesAll(rgb: seq<int>, ir: seq<int>, rgb0: seq<int>, ir0: seq<int>,
                                raw: seq<u16>, w: int, h: int, endY: int, v: Variant, px: int, py: int)
    requires Decoded(rgb, ir, rgb0, ir0, raw, w, h, Point(0, 0), endY, v)
    requires h <= endY
    requires 0 <= px < w && 0 <= py < h
    ensures Pixel(rgb, ir, w, px, py) == Expected(v, raw, w, px, py)
  {
    assert Written(0, 0, endY, 0, px, py);
  }

  /** Every sample of a decoded pair stays within the variant's output range
      when the previous contents did. */
  lemma DecodedInRange(rgb: seq<int>, ir: seq<int>, rgb0: seq<int>, ir0: seq<int>,
                       raw: seq<u16>, w: int, h: int, start: Point, endY: int, v: Variant, px: int, py: int)
    requires Decoded(rgb, ir, rgb0, ir0, raw, w, h, start, endY, v)
    requires 0 <= px < w && 0 <= py < h
    requires InRange(Pixel(rgb0, ir0, w, px, py), OutMax(v))
    ensures InRange(Pixel(rgb, ir, w, px, py), OutMax(v))
  {
    assert Pixel(rgb, ir, w, px, py) == Expected(v, raw, w, px, py) ||
           Pixel(rgb, ir, w, px, py) == Pixel(rgb0, ir0, w, px, py);
  }

  /** Chunked decoding as the capture loop drives it does not resume: a call
      that continues from a cursor at the end of a row (x == w, as every call
      that processed a row pair returns) writes no pixel at all, whatever row
      it stops at. */
  lemma ResumedCallWritesNothing(rgb: seq<int>, ir: seq<int>, rgb0: seq<int>, ir0: seq<int>,
                                 raw: seq<u16>, w: int, h: int, start: Point, endY: int, v: Variant, px: int, py: int)
    requires Decoded(rgb, ir, rgb0, ir0, raw, w, h, start, endY, v)
    requires w <= start.x
    requires 0 <= px < w && 0 <= py < h
    ensures Pixel(rgb, ir, w, px, py) == Pixel(rgb0, ir0, w, px, py)
  {
    assert !Written(start.x, start.y, endY, start.x, px, py);
  }
}
