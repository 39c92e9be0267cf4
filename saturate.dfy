/** The saturating clamps of the camera code: `CLIP`/`CLIP8` into [0,255],
    `CLIP10` into [0,1023] and `CLIP16` into [0,65535]. Each is the macro
    `x < 0 ? 0 : (x >= hi ? hi : x)` for its own `hi`. */
module Saturate {

  /** The clamp shared by all four macros. */
  function Clip(x: int, hi: nat): (r: int)
    ensures 0 <= r <= hi
    ensures 0 <= x <= hi ==> r == x
  {
    if x < 0 then 0 else if x >= hi then hi else x
  }

  function Clip8(x: int): (r: int)
    ensures 0 <= r <= 255
    ensures 0 <= x <= 255 ==> r == x
  {
    Clip(x, 255)
  }

  function Clip10(x: int): (r: int)
    ensures 0 <= r <= 1023
    ensures 0 <= x <= 1023 ==> r == x
  {
    Clip(x, 1023)
  }

  function Clip16(x: int): (r: int)
    ensures 0 <= r <= 65535
    ensures 0 <= x <= 65535 ==> r == x
  {
    Clip(x, 65535)
  }

  function Dist(a: int, b: int): nat
  {
    if a < b then b - a else a - b
  }

  /** The clamp picks the point of [0,hi] nearest to `x`: it is the
      saturation of `x`, not some other value inside the range. */
  lemma ClipIsNearest(x: int, hi: nat, y: int)
    requires 0 <= y <= hi
    ensures Dist(Clip(x, hi), x) <= Dist(y, x)
  {
  }

  /** Clamping twice is clamping once (so `CLIP(IRVal)` of an already
      clipped `IRVal` changes nothing). */
  lemma ClipIdempotent(x: int, hi: nat)
    ensures Clip(Clip(x, hi), hi) == Clip(x, hi)
  {
  }
}
