/** The image containers the camera code works on: OpenCV's `cv::Point2i`
    and `cv::Mat`, reduced to what the pixel routines use (a row count, a
    column count, a type code and a continuous row-major sample buffer),
    with the index arithmetic of row-major addressing. */
module Image {

  /** `cv::Point2i`; its default constructor gives (0,0). */
  datatype Point = Point(x: int, y: int)

  /** OpenCV type codes: `CV_MAKETYPE(depth, cn) == depth + 8 * (cn - 1)`. */
  const CV_8U: int := 0
  const CV_16U: int := 2
  const CV_8UC1: int := 0
  const CV_16UC1: int := 2
  const CV_8UC3: int := 16
  const CV_16UC3: int := 18

  /** `Mat::depth()` and `Mat::channels()` of a type code. */
  function Depth(t: int): (d: int)
    ensures 0 <= d < 8
  {
    t % 8
  }

  function Channels(t: int): (cn: int)
    requires 0 <= t
    ensures 1 <= cn
    ensures t < 4096 ==> cn <= 512
  {
    t / 8 + 1
  }

  /** A continuous `cv::Mat`: `rows` by `cols` pixels of `Channels(kind)`
      interleaved samples each, row after row. Samples are held as integers;
      the element type of the depth bounds them (see `Valid`). */
  datatype Mat = Mat(rows: nat, cols: nat, kind: int, data: array<int>)

  /** Largest sample of an unsigned depth: `unsigned char` or `unsigned short`. */
  function MaxSample(depth: int): int
  {
    if depth == CV_8U then 255 else 65535
  }

  /** A well-formed Mat: a type code OpenCV can form, a buffer of exactly one
      sample per channel per pixel, and, for the two unsigned depths the
      camera uses, samples that fit the element type. */
  ghost predicate Valid(m: Mat)
    reads m.data
  {
    && 0 <= m.kind < 4096
    && m.data.Length == m.rows * m.cols * Channels(m.kind)
    && ((Depth(m.kind) == CV_8U || Depth(m.kind) == CV_16U) ==>
          forall i | 0 <= i < m.data.Length :: 0 <= m.data[i] <= MaxSample(Depth(m.kind)))
  }

  /** Sample i of s. Bounds on whole buffers are stated through it, so that
      they apply only where a proof asks for a sample by this name and not
      at every index of the buffer. */
  ghost function SampleAt(s: seq<int>, i: int): int
    requires 0 <= i < |s|
  {
    s[i]
  }

  /** All samples of s lie in [0, hi]. */
  ghost predicate SamplesWithin(s: seq<int>, hi: int)
  {
    forall i | 0 <= i < |s| :: 0 <= SampleAt(s, i) <= hi
  }

  /** A Mat whose samples fit its depth is valid. */
  lemma ValidFromSamples(m: Mat)
    requires 0 <= m.kind < 4096 && m.data.Length == m.rows * m.cols * Channels(m.kind)
    requires SamplesWithin(m.data[..], MaxSample(Depth(m.kind)))
    ensures Valid(m)
  {
    forall i | 0 <= i < m.data.Length
      ensures 0 <= m.data[i] <= MaxSample(Depth(m.kind))
    {
      assert SampleAt(m.data[..], i) == m.data[i];
    }
  }

  /** Storing a value of [0, hi] keeps every sample in [0, hi]. */
  lemma SamplesWithinUpdate(s: seq<int>, i: int, x: int, hi: int)
    requires SamplesWithin(s, hi) && 0 <= i < |s| && 0 <= x <= hi
    ensures SamplesWithin(s[i := x], hi)
  {
    var t := s[i := x];
    forall k | 0 <= k < |t|
      ensures 0 <= SampleAt(t, k) <= hi
    {
      if k != i {
        assert SampleAt(t, k) == SampleAt(s, k);
      }
    }
  }

  /** Every sample of `m` is below `bound`. */
  ghost predicate SamplesBelow(m: Mat, bound: int)
    reads m.data
  {
    forall i | 0 <= i < m.data.Length :: 0 <= m.data[i] < bound
  }

  /** `Mat::create(rows, cols, type)`: a Mat that already has this header is
      kept (buffer and contents); otherwise a new buffer is allocated, whose
      contents OpenCV leaves unspecified (the model zero-fills it). */
  method Create(m: Mat, rows: nat, cols: nat, kind: int) returns (r: Mat)
    requires Valid(m)
    requires 0 <= kind < 4096
    ensures Valid(r)
    ensures r.rows == rows && r.cols == cols && r.kind == kind
    ensures m.rows == rows && m.cols == cols && m.kind == kind ==> r == m
    ensures !(m.rows == rows && m.cols == cols && m.kind == kind) ==> fresh(r.data)
  {
    if m.rows == rows && m.cols == cols && m.kind == kind {
      r := m;
    } else {
      var data := new int[rows * cols * Channels(kind)](_ => 0);
      r := Mat(rows, cols, kind, data);
    }
  }

  // ---------------------------------------------------------------------
  // Row-major index arithmetic
  // ---------------------------------------------------------------------

  lemma MulMono(a: int, b: int, c: int)
    requires 0 <= a && b <= c
    ensures a * b <= a * c
  {
    var d := c - b;
    assert a * c == a * b + a * d;
  }

  lemma MulSucc(a: int, k: int)
    ensures a * (k + 1) == a * k + a
  {
  }

  /** A non-zero multiple of `a` is at least `a` away from zero. */
  lemma MulSign(a: int, d: int)
    requires 0 <= a
    ensures 1 <= d ==> a <= a * d
    ensures d <= -1 ==> a * d <= -a
  {
    if 1 <= d {
      MulMono(a, 1, d);
    } else if d <= -1 {
      MulMono(a, d, -1);
    }
  }

  /** Pixel (px, py) of a w-by-h row-major raster has a flat index inside
      the raster. */
  lemma InRaster(w: int, h: int, px: int, py: int)
    requires 0 <= px < w && 0 <= py < h
    ensures 0 <= px + w * py < w * h
  {
    MulMono(w, py, h - 1);
    assert w * (h - 1) == w * h - w;
    MulMono(w, 0, py);
  }

  /** Row-major addressing is one-to-one: two pixels of one row width share
      a flat index only if they are the same pixel. */
  lemma RowMajorInjective(w: int, px: int, py: int, qx: int, qy: int)
    requires 0 <= px < w && 0 <= qx < w
    requires px + w * py == qx + w * qy
    ensures px == qx && py == qy
  {
    var d := qy - py;
    assert w * qy == w * py + w * d;
    MulSign(w, d);
  }

  /** The four samples of the 2x2 block whose top-left is (x, y) lie inside
      a row-major buffer that holds rows 0 .. y+1 in full. */
  lemma BlockInBuffer(w: int, x: int, y: int, len: int)
    requires 0 <= x && x + 1 < w && 0 <= y
    requires w * (y + 2) <= len
    ensures 0 <= x + w * y
    ensures x + 1 + w * (y + 1) < len
  {
    MulMono(w, 0, y);
    assert w * (y + 2) == w * (y + 1) + w;
  }
}
