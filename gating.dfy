/** Which row pairs a decoding call processes, and the cursor it returns.

    Every routine walks `for (y = start.y; y < height; y += 2)` and, inside,
    `for (x = start.x; x < width; x += 2)`. Before each row pair a guard may
    `break` out of the row loop; a row pair that passes the guard is always
    finished. The guard differs:
    - ExtractBayerY16toRGB8/16 count 8 bytes per tile in `srccnt`, starting
      from 0 in each call, and stop once `srccnt >= srcLen`;
    - ExtractBayer10_Y16 stops once `(x + width * y) * 2 >= srcLen`, where
      `x` is whatever the previous inner loop left behind (and is not yet
      initialised on the first row pair).
    Row pair number j of a call is the one at `y == start.y + 2 * j`. */
module Gating {
  import opened Image

  /** The value of `x` once `for (x = sx; x < w; x += 2)` has finished. */
  function InnerEnd(sx: int, w: int): (x: int)
    ensures sx < w ==> w <= x < w + 2
    ensures sx < w && sx % 2 == w % 2 ==> x == w
    ensures w <= sx ==> x == sx
    decreases w - sx
  {
    if sx < w then InnerEnd(sx + 2, w) else sx
  }

  /** The loop `for (x = sx; x < w; x += 2)` with both bounds even ends at
      `InnerEnd(sx, w)`: at w when it runs, at sx when it does not. */
  lemma InnerLoopEnd(sx: int, w: int, x: int)
    requires sx % 2 == 0 && w % 2 == 0 && sx <= x && w <= x
    requires sx < w ==> x <= w
    requires w <= sx ==> x == sx
    ensures x == InnerEnd(sx, w)
  {
  }

  /** Bytes `srccnt` grows by over one row pair: 8 per tile. */
  function BytesPerPair(sx: int, w: int): (n: nat)
    ensures sx < w && sx % 2 == w % 2 ==> n == 4 * (w - sx)
    ensures w <= sx ==> n == 0
  {
    4 * (InnerEnd(sx, w) - sx)
  }

  // ---------------------------------------------------------------------
  // ExtractBayerY16toRGB8 / ExtractBayerY16toRGB16
  // ---------------------------------------------------------------------

  /** Row pair j passes the byte-count guard: it lies above the bottom and
      the bytes counted before it are still fewer than `srcLen`. */
  predicate PairStartsCounted(sy: int, h: int, perPair: nat, srcLen: int, j: nat)
  {
    sy + 2 * j < h && perPair * j < srcLen
  }

  /** The row loop from row pair k on: the number of the row pair at which
      it stops (the first one that fails the guard). */
  function PairsCounted(sy: int, h: int, perPair: nat, srcLen: int, k: nat): (n: nat)
    ensures k <= n
    ensures forall j :: k <= j < n ==> PairStartsCounted(sy, h, perPair, srcLen, j)
    ensures !PairStartsCounted(sy, h, perPair, srcLen, n)
    decreases h - sy - 2 * k
  {
    if !PairStartsCounted(sy, h, perPair, srcLen, k) then k
    else PairsCounted(sy, h, perPair, srcLen, k + 1)
  }

  /** The guard's first failure decides the count: if row pairs k .. m-1
      pass and m fails, the row loop started at k stops at m. */
  lemma {:induction false} CountedStopsAtFirstFailure(sy: int, h: int, perPair: nat, srcLen: int, k: nat, m: nat)
    requires k <= m
    requires forall j :: k <= j < m ==> PairStartsCounted(sy, h, perPair, srcLen, j)
    requires !PairStartsCounted(sy, h, perPair, srcLen, m)
    ensures PairsCounted(sy, h, perPair, srcLen, k) == m
    decreases m - k
  {
    if k < m {
      assert PairStartsCounted(sy, h, perPair, srcLen, k);
      CountedStopsAtFirstFailure(sy, h, perPair, srcLen, k + 1, m);
    }
  }

  /** One step of the row loop: a row pair that passes the guard is counted
      and the loop goes on with the next; one that fails ends the count. */
  lemma CountedStep(sy: int, h: int, perPair: nat, srcLen: int, k: nat)
    ensures PairStartsCounted(sy, h, perPair, srcLen, k) ==>
      k < PairsCounted(sy, h, perPair, srcLen, k) &&
      PairsCounted(sy, h, perPair, srcLen, k + 1) == PairsCounted(sy, h, perPair, srcLen, k)
    ensures !PairStartsCounted(sy, h, perPair, srcLen, k) ==> PairsCounted(sy, h, perPair, srcLen, k) == k
  {
  }

  /** Number of row pairs one call of ExtractBayerY16toRGB8/16 processes. */
  function CountedPairs(sx: int, sy: int, w: int, h: int, srcLen: int): (n: nat)
    ensures forall j :: 0 <= j < n ==> PairStartsCounted(sy, h, BytesPerPair(sx, w), srcLen, j)
    ensures !PairStartsCounted(sy, h, BytesPerPair(sx, w), srcLen, n)
  {
    PairsCounted(sy, h, BytesPerPair(sx, w), srcLen, 0)
  }

  /** `last`: the cursor a routine returns after processing n row pairs.
      `x` holds the end of the last inner loop, or, when no row pair was
      processed, the value it had before the loop (`xUnset`; uninitialised
      in the source). */
  function Cursor(sx: int, sy: int, w: int, xUnset: int, n: nat): (p: Point)
    ensures p.y == sy + 2 * n
    ensures n == 0 ==> p.x == xUnset
    ensures 0 < n && sx < w && sx % 2 == w % 2 ==> p.x == w
  {
    Point(if n > 0 then InnerEnd(sx, w) else xUnset, sy + 2 * n)
  }

  /** A full frame from (0,0), delivered with at least the 2*w*h bytes of a
      whole frame, is decoded to the bottom: the call processes all h/2 row
      pairs, so the returned y is h. */
  lemma {:induction false} FullFrameCounted(w: nat, h: nat, srcLen: int)
    requires w % 2 == 0 && h % 2 == 0
    requires 2 * w * h <= srcLen && 0 < srcLen
    ensures CountedPairs(0, 0, w, h, srcLen) == h / 2
  {
    var perPair := BytesPerPair(0, w);
    assert perPair == 4 * w;
    forall j | 0 <= j < h / 2
      ensures PairStartsCounted(0, h, perPair, srcLen, j)
    {
      MulMono(4 * w, j, h / 2 - 1);
      assert 4 * w * (h / 2 - 1) == 2 * w * h - 4 * w;
    }
    CountedStopsAtFirstFailure(0, h, perPair, srcLen, 0, h / 2);
  }

  /** Resuming at the end of a row, as the returned cursor does (x == w):
      no inner loop processes a tile, `srccnt` stays 0, so every remaining
      row pair passes the guard and the call returns y == h. */
  lemma {:induction false} ResumeAtRowEnd(sx: int, sy: int, w: int, h: int, srcLen: int)
    requires w <= sx && 0 < srcLen
    requires sy <= h && (h - sy) % 2 == 0
    ensures sy + 2 * CountedPairs(sx, sy, w, h, srcLen) == h
  {
    assert BytesPerPair(sx, w) == 0;
    CountedStopsAtFirstFailure(sy, h, 0, srcLen, 0, (h - sy) / 2);
  }

  /** The state of the row loop of ExtractBayerY16toRGB8/16 before row pair
      k: `y` at that row pair, `srccnt` holding the bytes of the k tiles rows
      counted so far, `x` the end of the last inner loop (`xUnset` before
      the first), and k not past the row pair the loop stops at. */
  predicate CountedLoop(sx: int, sy: int, w: int, h: int, srcLen: int, xUnset: int,
                        x: int, y: int, srccnt: int, k: nat)
  {
    var perPair := BytesPerPair(sx, w);
    && y == sy + 2 * k && y % 2 == 0
    && srccnt == perPair * k
    && PairsCounted(sy, h, perPair, srcLen, k) == CountedPairs(sx, sy, w, h, srcLen)
    && x == (if k == 0 then xUnset else InnerEnd(sx, w))
  }

  /** Entering row pair k: it passes the guard, so it lies inside the frame
      and below the last row pair the call reads. */
  lemma CountedLoopEnter(sx: int, sy: int, w: int, h: int, srcLen: int, xUnset: int,
                         x: int, y: int, srccnt: int, k: nat)
    requires CountedLoop(sx, sy, w, h, srcLen, xUnset, x, y, srccnt, k)
    requires h % 2 == 0 && y < h && srccnt < srcLen
    ensures sy <= y && y + 2 <= h
    ensures sy + 2 * k + 2 <= sy + 2 * CountedPairs(sx, sy, w, h, srcLen)
  {
    CountedStep(sy, h, BytesPerPair(sx, w), srcLen, k);
  }

  /** After row pair k has been processed the loop state is that of k + 1. */
  lemma CountedLoopNext(sx: int, sy: int, w: int, h: int, srcLen: int, xUnset: int,
                        x: int, y: int, srccnt: int, k: nat)
    requires CountedLoop(sx, sy, w, h, srcLen, xUnset, x, y, srccnt, k)
    requires y < h && srccnt < srcLen
    ensures CountedLoop(sx, sy, w, h, srcLen, xUnset, InnerEnd(sx, w), y + 2, srccnt + BytesPerPair(sx, w), k + 1)
  {
    CountedStep(sy, h, BytesPerPair(sx, w), srcLen, k);
    MulSucc(BytesPerPair(sx, w), k);
  }

  /** Leaving the row loop, by the guard or at the bottom: k is the number
      of row pairs processed and (x, y) the cursor. */
  lemma CountedLoopExit(sx: int, sy: int, w: int, h: int, srcLen: int, xUnset: int,
                        x: int, y: int, srccnt: int, k: nat)
    requires CountedLoop(sx, sy, w, h, srcLen, xUnset, x, y, srccnt, k)
    requires h <= y || srcLen <= srccnt
    ensures Point(x, y) == Cursor(sx, sy, w, xUnset, CountedPairs(sx, sy, w, h, srcLen))
  {
    CountedStep(sy, h, BytesPerPair(sx, w), srcLen, k);
  }

  /** When the rows run out before the bytes do, the returned y is the first
      value at or past the bottom reached from sy in steps of 2. */
  lemma CountedStopsAtFirstRowPastBottom(sx: int, sy: int, w: int, h: int, srcLen: int)
    requires sy < h
    requires h <= sy + 2 * CountedPairs(sx, sy, w, h, srcLen)
    ensures sy + 2 * CountedPairs(sx, sy, w, h, srcLen) < h + 2
  {
    var n := CountedPairs(sx, sy, w, h, srcLen);
    assert PairStartsCounted(sy, h, BytesPerPair(sx, w), srcLen, n - 1);
  }

  // ---------------------------------------------------------------------
  // ExtractBayer10_Y16
  // ---------------------------------------------------------------------

  /** The `x` the guard of row pair j reads: the uninitialised value on the
      first row pair, the end of the previous inner loop afterwards. */
  function XBefore(j: nat, sx: int, w: int, xUnset: int): (x: int)
    ensures j == 0 ==> x == xUnset
    ensures 0 < j && sx <= w && sx % 2 == w % 2 ==> x == w
    ensures 0 < j && w <= sx ==> x == sx
  {
    if j == 0 then xUnset else InnerEnd(sx, w)
  }

  /** Row pair j passes the positional guard `(x + w * y) * 2 < srcLen`. */
  predicate PairStartsPositional(sx: int, sy: int, w: int, h: int, srcLen: int, xUnset: int, j: nat)
  {
    var y := sy + 2 * j;
    y < h && (XBefore(j, sx, w, xUnset) + w * y) * 2 < srcLen
  }

  /** The row loop of ExtractBayer10_Y16 from row pair k on: the number of
      the row pair at which it stops. */
  function PairsPositional(sx: int, sy: int, w: int, h: int, srcLen: int, xUnset: int, k: nat): (n: nat)
    ensures k <= n
    ensures forall j :: k <= j < n ==> PairStartsPositional(sx, sy, w, h, srcLen, xUnset, j)
    ensures !PairStartsPositional(sx, sy, w, h, srcLen, xUnset, n)
    decreases h - sy - 2 * k
  {
    if !PairStartsPositional(sx, sy, w, h, srcLen, xUnset, k) then k
    else PairsPositional(sx, sy, w, h, srcLen, xUnset, k + 1)
  }

  /** As for the counted guard, the first failure decides the count. */
  lemma {:induction false} PositionalStopsAtFirstFailure(sx: int, sy: int, w: int, h: int, srcLen: int, xUnset: int, k: nat, m: nat)
    requires k <= m
    requires forall j :: k <= j < m ==> PairStartsPositional(sx, sy, w, h, srcLen, xUnset, j)
    requires !PairStartsPositional(sx, sy, w, h, srcLen, xUnset, m)
    ensures PairsPositional(sx, sy, w, h, srcLen, xUnset, k) == m
    decreases m - k
  {
    if k < m {
      assert PairStartsPositional(sx, sy, w, h, srcLen, xUnset, k);
      PositionalStopsAtFirstFailure(sx, sy, w, h, srcLen, xUnset, k + 1, m);
    }
  }

  /** One step of the positional row loop, as CountedStep. */
  lemma PositionalStep(sx: int, sy: int, w: int, h: int, srcLen: int, xUnset: int, k: nat)
    ensures PairStartsPositional(sx, sy, w, h, srcLen, xUnset, k) ==>
      k < PairsPositional(sx, sy, w, h, srcLen, xUnset, k) &&
      PairsPositional(sx, sy, w, h, srcLen, xUnset, k + 1) == PairsPositional(sx, sy, w, h, srcLen, xUnset, k)
    ensures !PairStartsPositional(sx, sy, w, h, srcLen, xUnset, k) ==>
      PairsPositional(sx, sy, w, h, srcLen, xUnset, k) == k
  {
  }

  /** Number of row pairs one call of ExtractBayer10_Y16 processes. */
  function PositionalPairs(sx: int, sy: int, w: int, h: int, srcLen: int, xUnset: int): (n: nat)
    ensures forall j :: 0 <= j < n ==> PairStartsPositional(sx, sy, w, h, srcLen, xUnset, j)
    ensures !PairStartsPositional(sx, sy, w, h, srcLen, xUnset, n)
  {
    PairsPositional(sx, sy, w, h, srcLen, xUnset, 0)
  }

  /** The state of the row loop of ExtractBayer10_Y16 before row pair k: `y`
      at that row pair, `x` what the guard reads, and k not past the row
      pair the loop stops at. */
  predicate PositionalLoop(sx: int, sy: int, w: int, h: int, srcLen: int, xUnset: int, x: int, y: int, k: nat)
  {
    && y == sy + 2 * k && y % 2 == 0
    && PairsPositional(sx, sy, w, h, srcLen, xUnset, k) == PositionalPairs(sx, sy, w, h, srcLen, xUnset)
    && x == XBefore(k, sx, w, xUnset)
  }

  /** Entering row pair k: the guard `(x + w * y) * 2 >= srcLen` has not
      fired, so the pair lies inside the frame and below the last row pair
      the call reads. */
  lemma PositionalLoopEnter(sx: int, sy: int, w: int, h: int, srcLen: int, xUnset: int, x: int, y: int, k: nat)
    requires PositionalLoop(sx, sy, w, h, srcLen, xUnset, x, y, k)
    requires h % 2 == 0 && y < h && (x + w * y) * 2 < srcLen
    ensures sy <= y && y + 2 <= h
    ensures sy + 2 * k + 2 <= sy + 2 * PositionalPairs(sx, sy, w, h, srcLen, xUnset)
    ensures PositionalLoop(sx, sy, w, h, srcLen, xUnset, InnerEnd(sx, w), y + 2, k + 1)
  {
    PositionalStep(sx, sy, w, h, srcLen, xUnset, k);
  }

  /** Leaving the row loop, by the guard or at the bottom: k is the number
      of row pairs processed and (x, y) the cursor. */
  lemma PositionalLoopExit(sx: int, sy: int, w: int, h: int, srcLen: int, xUnset: int, x: int, y: int, k: nat)
    requires PositionalLoop(sx, sy, w, h, srcLen, xUnset, x, y, k)
    requires h <= y || srcLen <= (x + w * y) * 2
    ensures Point(x, y) == Cursor(sx, sy, w, xUnset, PositionalPairs(sx, sy, w, h, srcLen, xUnset))
  {
    PositionalStep(sx, sy, w, h, srcLen, xUnset, k);
  }

  /** After the first row pair the positional guard reads x == w, so row
      pair j >= 1 (at row y) starts exactly when the 2*w*(y+1) bytes of rows
      0 .. y are fewer than srcLen: it needs the bytes of row y + 1 only in
      part, though it reads all of them. */
  lemma PositionalGateAfterFirstPair(sx: int, sy: int, w: int, h: int, srcLen: int, xUnset: int, j: nat)
    requires 0 < j && sx <= w && sx % 2 == w % 2
    ensures PairStartsPositional(sx, sy, w, h, srcLen, xUnset, j) <==>
      sy + 2 * j < h && 2 * w * (sy + 2 * j + 1) < srcLen
  {
    var y := sy + 2 * j;
    assert InnerEnd(sx, w) == w;
    assert (w + w * y) * 2 == 2 * w * (y + 1);
  }

  /** When the rows run out before the guard fires, the returned y is the
      first value at or past the bottom reached from sy in steps of 2. */
  lemma PositionalStopsAtFirstRowPastBottom(sx: int, sy: int, w: int, h: int, srcLen: int, xUnset: int)
    requires sy < h
    requires h <= sy + 2 * PositionalPairs(sx, sy, w, h, srcLen, xUnset)
    ensures sy + 2 * PositionalPairs(sx, sy, w, h, srcLen, xUnset) < h + 2
  {
    var n := PositionalPairs(sx, sy, w, h, srcLen, xUnset);
    assert PairStartsPositional(sx, sy, w, h, srcLen, xUnset, n - 1);
  }

  /** A full frame from (0,0): whenever the first guard passes (it reads the
      uninitialised x) and the delivery holds more than the bytes of the first
      h - 1 rows, all h/2 row pairs are processed. */
  lemma {:induction false} FullFramePositional(w: nat, h: nat, srcLen: int, xUnset: int)
    requires w % 2 == 0 && h % 2 == 0
    requires xUnset * 2 < srcLen
    requires 2 * w * (h - 1) < srcLen
    ensures PositionalPairs(0, 0, w, h, srcLen, xUnset) == h / 2
  {
    forall j | 0 <= j < h / 2
      ensures PairStartsPositional(0, 0, w, h, srcLen, xUnset, j)
    {
      if 0 < j {
        PositionalGateAfterFirstPair(0, 0, w, h, srcLen, xUnset, j);
        MulMono(2 * w, 2 * j + 1, h - 1);
      }
    }
    PositionalStopsAtFirstFailure(0, 0, w, h, srcLen, xUnset, 0, h / 2);
  }

  /** The positional guard lets a row pair start without its bytes: with
      width 2, height 4, a 13-byte delivery and x == 0 at the first guard,
      both row pairs are processed although they take 16 bytes. */
  lemma PositionalGateOverruns()
    ensures PositionalPairs(0, 0, 2, 4, 13, 0) == 2
    ensures 13 < 2 * 2 * 4
  {
    assert PairStartsPositional(0, 0, 2, 4, 13, 0, 0);
    assert PairStartsPositional(0, 0, 2, 4, 13, 0, 1);
    assert !PairStartsPositional(0, 0, 2, 4, 13, 0, 2);
  }
}
