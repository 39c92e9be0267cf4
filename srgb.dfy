/** The sRGB look-up tables of CameraV4L2.cpp and their application.

    The camera class holds two 1024-entry tables, `sRGBVal8` of 8-bit and
    `sRGBVal16` of 16-bit entries, which every constructor call fills with
    the clamped integer value of the transfer curve at every index. In the
    C++ they are static members shared by all cameras; here each object
    holds its own pair.
    `ConvertTosRGB` replaces every sample of an 8- or 16-bit, 1- or
    3-channel image by its table entry. The floating-point curve is not
    modelled: the constructor takes the pre-clamp integers as parameters. */
module SRGB {
  import opened Saturate
  import opened Image

  /** Number of entries of each table. */
  const TableSize: int := 1024

  /** Every sample of s indexes the table t. */
  ghost predicate Indexes(t: seq<int>, s: seq<int>)
  {
    forall k | 0 <= k < |s| :: 0 <= s[k] < |t|
  }

  /** Every element of s replaced by its entry in t. */
  function Lookup(t: seq<int>, s: seq<int>): (r: seq<int>)
    requires Indexes(t, s)
    ensures |r| == |s|
    decreases |s|
  {
    if |s| == 0 then [] else Lookup(t, s[..|s| - 1]) + [t[s[|s| - 1]]]
  }

  /** Element k of a lookup is the entry of sample k. */
  lemma {:induction false} LookupAt(t: seq<int>, s: seq<int>, k: int)
    requires Indexes(t, s) && 0 <= k < |s|
    ensures Lookup(t, s)[k] == t[s[k]]
    decreases |s|
  {
    if k < |s| - 1 {
      LookupAt(t, s[..|s| - 1], k);
    }
  }

  /** A lookup is decided element by element: a sequence holding the entry
      of every sample is the lookup. */
  lemma LookupUnique(t: seq<int>, s: seq<int>, r: seq<int>)
    requires Indexes(t, s) && |r| == |s|
    requires forall k | 0 <= k < |s| :: r[k] == t[s[k]]
    ensures r == Lookup(t, s)
  {
    forall k | 0 <= k < |s|
      ensures r[k] == Lookup(t, s)[k]
    {
      LookupAt(t, s, k);
    }
  }

  /** Looking up row after row is looking up the whole buffer. */
  lemma LookupRows(t: seq<int>, a: seq<int>, b: seq<int>)
    requires Indexes(t, a) && Indexes(t, b)
    ensures Indexes(t, a + b)
    ensures Lookup(t, a + b) == Lookup(t, a) + Lookup(t, b)
  {
    var r := Lookup(t, a) + Lookup(t, b);
    forall k | 0 <= k < |a + b|
      ensures r[k] == t[(a + b)[k]]
    {
      if k < |a| {
        LookupAt(t, a, k);
      } else {
        LookupAt(t, b, k - |a|);
      }
    }
    LookupUnique(t, a + b, r);
  }

  /** The result of a lookup stays within the range of the table. */
  lemma LookupWithin(t: seq<int>, s: seq<int>, lo: int, hi: int)
    requires Indexes(t, s)
    requires forall i | 0 <= i < |t| :: lo <= t[i] <= hi
    ensures forall k | 0 <= k < |s| :: lo <= Lookup(t, s)[k] <= hi
  {
    forall k | 0 <= k < |s|
      ensures lo <= Lookup(t, s)[k] <= hi
    {
      LookupAt(t, s, k);
    }
  }

  /** The four image types ConvertTosRGB handles. */
  predicate Converted(kind: int): (b: bool)
    ensures b ==> 0 <= kind && (Depth(kind) == CV_8U || Depth(kind) == CV_16U) && (Channels(kind) == 1 || Channels(kind) == 3)
  {
    kind == CV_8UC3 || kind == CV_16UC3 || kind == CV_8UC1 || kind == CV_16UC1
  }

  /** The samples of a convertible image index a 1024-entry table: 8-bit
      samples by their type, 16-bit ones when they are below 1024. */
  lemma SamplesIndexTable(src: Mat, t: seq<int>)
    requires Valid(src) && Converted(src.kind) && |t| == TableSize
    requires Depth(src.kind) == CV_16U ==> SamplesBelow(src, TableSize)
    ensures Indexes(t, src.data[..])
  {
  }

  /** Elements of one row the conversion loop covers: `width * 3` for the
      3-channel types, `width` for the 1-channel types. */
  function RowLength(kind: int, cols: nat): (n: nat)
    requires Converted(kind)
    ensures n == cols * Channels(kind)
  {
    if kind == CV_8UC3 || kind == CV_16UC3 then cols * 3 else cols
  }

  /** `for (i = 0; i < height; i++) for (j = 0; j < rowLen; j++)
      dst[i][j] = table[src[i][j]]` over row-major buffers. `src` may be
      `dst` itself: every element is read before it is written. */
  method ApplyTable(dst: array<int>, src: array<int>, table: array<int>, rows: nat, rowLen: nat)
    requires dst.Length == rows * rowLen && src.Length == dst.Length
    requires dst != table
    requires Indexes(table[..], src[..])
    modifies dst
    ensures dst[..] == Lookup(table[..], old(src[..]))
  {
    ghost var s0 := src[..];
    ghost var t := table[..];
    var i := 0;
    var base := 0;
    while i < rows
      invariant 0 <= i <= rows && base == i * rowLen
      invariant base <= dst.Length
      invariant forall k | 0 <= k < base :: dst[k] == t[s0[k]]
      invariant forall k | base <= k < src.Length :: src[k] == s0[k]
      decreases rows - i
    {
      MulMono(rowLen, i + 1, rows);
      MulSucc(rowLen, i);
      var j := 0;
      while j < rowLen
        invariant 0 <= j <= rowLen
        invariant forall k | 0 <= k < base + j :: dst[k] == t[s0[k]]
        invariant forall k | base + j <= k < src.Length :: src[k] == s0[k]
        decreases rowLen - j
      {
        dst[base + j] := table[src[base + j]];
        j := j + 1;
      }
      i := i + 1;
      base := base + rowLen;
    }
    MulMono(rowLen, rows, rows);
    LookupUnique(t, s0, dst[..]);
  }

  /** The camera object, reduced to its sRGB tables (held per object here,
      where the C++ shares one static pair among all cameras). */
  class CameraV4L2 {
    const sRGBVal8: array<int>
    const sRGBVal16: array<int>

    /** Both tables hold 1024 entries, clamped to their element types. */
    ghost predicate Filled()
      reads sRGBVal8, sRGBVal16
    {
      && sRGBVal8.Length == TableSize && sRGBVal16.Length == TableSize
      && sRGBVal8 != sRGBVal16
      && (forall i | 0 <= i < TableSize :: 0 <= sRGBVal8[i] <= 255)
      && (forall i | 0 <= i < TableSize :: 0 <= sRGBVal16[i] <= 65535)
    }

    /** The table fill of the constructor: at every index i of 0 .. 1023 the
        16-bit entry is `CLIP16(pre16[i])` and the 8-bit one `CLIP8(pre8[i])`,
        `pre16[i]` and `pre8[i]` standing for the integers
        `(int)(65536 * rangeVal)` and `(int)(256 * rangeVal)` of the curve. */
    constructor(pre8: seq<int>, pre16: seq<int>)
      requires |pre8| == TableSize && |pre16| == TableSize
      ensures Filled()
      ensures fresh(sRGBVal8) && fresh(sRGBVal16)
      ensures forall i | 0 <= i < TableSize :: sRGBVal8[i] == Clip8(pre8[i]) && sRGBVal16[i] == Clip16(pre16[i])
    {
      var val8 := new int[TableSize];
      var val16 := new int[TableSize];
      var i := 0;
      while i < TableSize
        invariant 0 <= i <= TableSize
        invariant forall k | 0 <= k < i :: val8[k] == Clip8(pre8[k]) && val16[k] == Clip16(pre16[k])
        decreases TableSize - i
      {
        val16[i] := Clip16(pre16[i]);
        val8[i] := Clip8(pre8[i]);
        i := i + 1;
      }
      sRGBVal8 := val8;
      sRGBVal16 := val16;
    }

    /** ConvertTosRGB: `dst.create(src.size(), src.type())`, then, by type,
        every element of every row of `dst` is the 8-bit (CV_8UC3, CV_8UC1)
        or 16-bit (CV_16UC3, CV_16UC1) table entry of the same element of
        `src`; any other type writes nothing. A 16-bit lookup stays inside
        the table only when every sample is below 1024, which callers must
        ensure; 8-bit samples always do. */
    method ConvertTosRGB(src: Mat, dst: Mat) returns (out: Mat)
      requires Filled()
      requires Valid(src) && Valid(dst)
      requires dst.data != sRGBVal8 && dst.data != sRGBVal16
      requires src.kind == CV_16UC3 || src.kind == CV_16UC1 ==> SamplesBelow(src, TableSize)
      modifies dst.data
      ensures Valid(out) && Filled()
      ensures out.rows == src.rows && out.cols == src.cols && out.kind == src.kind
      ensures out.data == dst.data || fresh(out.data)
      ensures dst.rows == src.rows && dst.cols == src.cols && dst.kind == src.kind ==> out == dst
      ensures out.data != src.data ==> src.data[..] == old(src.data[..])
      ensures src.kind == CV_8UC3 || src.kind == CV_8UC1 ==>
        out.data[..] == Lookup(sRGBVal8[..], old(src.data[..]))
      ensures src.kind == CV_16UC3 || src.kind == CV_16UC1 ==>
        out.data[..] == Lookup(sRGBVal16[..], old(src.data[..]))
      ensures !Converted(src.kind) && out.data == dst.data ==> out.data[..] == old(dst.data[..])
    {
      out := Create(dst, src.rows, src.cols, src.kind);
      if Converted(src.kind) {
        var rowLen := RowLength(src.kind, src.cols);
        var table := if Depth(src.kind) == CV_8U then sRGBVal8 else sRGBVal16;
        SamplesIndexTable(src, table[..]);
        ApplyTable(out.data, src.data, table, src.rows, rowLen);
        LookupWithin(table[..], old(src.data[..]), 0, MaxSample(Depth(src.kind)));
        ValidFromSamples(out);
      }
    }
  }
}
