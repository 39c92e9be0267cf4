# CapV4L2 demosaic and sRGB tables, modelled in Dafny

CapV4L2 captures frames from a V4L2 camera whose sensor delivers 16-bit
codes in 2x2 tiles laid out as

    B  G
    IR R

It turns them into a 3-channel RGB image and a 1-channel IR image, and may
then gamma-encode them through sRGB look-up tables. This project models
the pixel core of that pipeline:

- the demosaic routines of `main.cpp`:
  - `ExtractBayerY16toRGB8`: 8-bit output, with the IR code subtracted;
  - `ExtractBayerY16toRGB16`: 10-bit output in 16-bit samples, with the IR
    code subtracted and the result doubled;
  - the depth dispatcher `ExtractBayerY16toRGB`;
- the legacy routine `ExtractBayer10_Y16` of `capturev4l2.cpp`, which has
  no IR subtraction, swaps its R and B macros and uses a positional
  end-of-data guard;
- the 1024-entry tables `sRGBVal8`/`sRGBVal16` of `CameraV4L2`: the
  constructor's table fill with its `CLIP8`/`CLIP16` clamps, and
  `ConvertTosRGB`.

Modules, one per file:

| file | module | contents |
|---|---|---|
| `saturate.dfy` | `Saturate` | the clamp macros `CLIP`, `CLIP8`, `CLIP10`, `CLIP16` |
| `image.dfy` | `Image` | `cv::Point2i`; `cv::Mat` as rows, columns, a type code and a row-major `array<int>`; `Mat::create`; index arithmetic |
| `tiles.dfy` | `Tiles` | what one raw tile becomes in each of the three routines |
| `gating.dfy` | `Gating` | which row pairs a call processes under each guard, and the cursor it returns |
| `frame.dfy` | `Frame` | the images seen pixel by pixel; `Decoded`, the state a call leaves; the block store |
| `demosaic.dfy` | `Demosaic` | the routines of `main.cpp`, as methods with loops over the Mat buffers |
| `legacy_demosaic.dfy` | `LegacyDemosaic` | `ExtractBayer10_Y16` |
| `srgb.dfy` | `SRGB` | the `CameraV4L2` class holding the two tables: its constructor and `ConvertTosRGB` |

Each routine is a method whose loops mirror the C++ loops:

- a row loop `for (y = start.y; y < height; y += 2)`;
- the routine's guard before each row pair;
- a column loop over the tiles, which stores one decoded value in the four
  pixels of each tile's block.

Each method's `ensures` ties its result, and the new contents of both
images, to specification functions:

- `Gating.CountedPairs` or `Gating.PositionalPairs`: the number of row
  pairs processed;
- `Gating.Cursor`: the point returned;
- `Frame.Decoded`: every pixel is its tile's decoded value where it was
  written, and its old value elsewhere.

The lemmas then prove the properties the routines are meant to have about
those functions.

Raw codes are modelled as 16-bit unsigned values (`Tiles.u16`) and are NOT
restricted to the sensor's 10 bits. `ExtractBayerY16toRGB16` stores the IR
code in a `short`, so codes of 0x8000 and above wrap. `Tiles.ToShort`
writes that wrap out.

The uninitialised `x` that the routines read or return when no row pair is
processed is the parameter `xUnset`.

The capture loop at main.cpp:158-162 treats the returned point as a
resume cursor: it calls the dispatcher again with that point and the next
delivery until `start.y >= height`. The routines as written fall short of
that use, and the model states what they do:

- **Resuming does not work.** On even bounds, every call that processes a
  row pair from a `start.x <= width` returns `x == width` (main.cpp:52 and
  62). With an odd width it returns `width + 1`, and from a
  `start.x > width` it returns `start.x` (`Gating.InnerEnd`). Either way the
  next call starts its column loops at `x >= width`, so it processes no
  tile. Its `srccnt` stays 0, so when the next delivery has `srcLen > 0`
  it runs on to the bottom and returns `y == height`, and the rest of the
  frame keeps its old contents. A failed delivery (`srcLen` of -1,
  CameraV4L2.cpp:228, 239, 243) instead breaks at once and returns
  `(xUnset, start.y)`. See
  `Gating.ResumeAtRowEnd`, `Frame.ResumedCallWritesNothing` and
  `Demosaic.SecondChunkIsLost`.
- **The byte guard is checked once per row pair, not per tile**
  (main.cpp:48). A row pair that starts is always finished, so a call
  reads (and `Demosaic.RawCoversCounted` requires) whole row pairs even
  when `srcLen` ends inside one.
- **A call that processes nothing does not return its start cursor.** It
  returns `(xUnset, start.y)`, the never-assigned `x` of main.cpp:41 and 62.
- **The legacy positional guard can let a row pair start without its
  bytes** (capturev4l2.cpp:207). See `Gating.PositionalGateOverruns`.

## Model

| member | source | states |
|---|---|---|
| Saturate.Clip | main.cpp:29-30 | the shared clamp macro: the result lies in [0, hi] and equals x whenever x already does |
| Saturate.Clip8 | CameraV4L2.cpp:7 | `CLIP8`/`CLIP`: result in [0,255], identity on [0,255] |
| Saturate.Clip10 | main.cpp:30 | `CLIP10`: result in [0,1023], identity on [0,1023] |
| Saturate.Clip16 | CameraV4L2.cpp:8 | `CLIP16`: result in [0,65535], identity on [0,65535] |
| Saturate.ClipIsNearest | main.cpp:29-30 | the clamp gives the point of [0, hi] nearest to x, i.e. it saturates |
| Saturate.ClipIdempotent | main.cpp:54-55 | clamping twice is clamping once, so `CLIP(IRVal)` of the clipped `IRVal` is `IRVal` |
| Image.Depth | main.cpp:105 | `Mat::depth()`: the depth code of a type lies in 0 .. 7 |
| Image.Channels | CameraV4L2.cpp:282-311 | `Mat::channels()`: at least one channel, at most 512 for any OpenCV type code |
| Image.Create | CameraV4L2.cpp:268 | `Mat::create`: the result has the requested header; a Mat that already has it is kept, buffer and all; otherwise the buffer is new |
| Tiles.ToShort | main.cpp:76-91 | storing an `unsigned short` in a `short`: the result is in the signed 16-bit range and congruent to the code modulo 2^16 |
| Tiles.Rgb8Tile | main.cpp:54-58 | every output of the 8-bit path is in [0,255], and IR is the clipped IR code |
| Tiles.Rgb16Tile | main.cpp:91-95 | every output of the 16-bit path is in [0,1023] |
| Tiles.Bayer10Tile | capturev4l2.cpp:213-216 | every output of the legacy path is in [0,255] |
| Tiles.TileOut | main.cpp:54-58 | each variant's outputs lie in [0, OutMax(v)]: 1023 for the 16-bit path, 255 otherwise |
| Tiles.Rgb8Example | main.cpp:54-58 | codes (B,G,IR,R) = (100,150,20,200) give (B,G,R) = (80,130,180) and IR = 20 |
| Tiles.Rgb8Subtraction | main.cpp:54-58 | each colour equals its code minus the clipped IR code when that fits 8 bits, and it is 0 exactly when the code does not exceed the IR output |
| Tiles.Rgb16OnShortCodes | main.cpp:91-95 | when the IR code fits a `short`: colour = clip10(2 * (code - IR)) and IR = clip10(2 * IR) |
| Tiles.Rgb16OnSensorCodes | main.cpp:91-95 | on 10-bit codes a colour is exactly 2 * (code - IR) when that is in [0,1023], and 0 when code <= IR; IR output is 2 * IR below 512, and 1023 from 512 on |
| Tiles.Bayer10Mapping | capturev4l2.cpp:187-192 | legacy mapping: (0,0) goes to channel 2, (1,0) to 1, (1,1) to 0 and (0,1) to IR, each only clipped, with no subtraction; identity on 8-bit codes |
| Gating.InnerEnd | main.cpp:52 | the `x` a finished column loop leaves: in [w, w+2) when it ran, exactly w on even bounds, sx when it did not run |
| Gating.BytesPerPair | main.cpp:59 | `srccnt` grows by 4 * (w - sx) per row pair (8 bytes per tile), and by 0 when sx >= w |
| Gating.PairStartsCounted | main.cpp:46-49 | row pair j enters the body: `y = sy + 2j < height` and the `8 * tiles` bytes counted before it are fewer than `srcLen` |
| Gating.CountedPairs | main.cpp:46-49 | the number n of row pairs one call processes: row pairs 0 .. n-1 pass the guard and row pair n fails it |
| Gating.PairsCounted | main.cpp:46-49 | the row loop stops at the first row pair that fails `y < height && srccnt < srcLen`, and every earlier one passes |
| Gating.CountedStopsAtFirstFailure | main.cpp:46-49 | if row pairs k..m-1 pass the guard and m fails, the loop stops at m |
| Gating.Cursor | main.cpp:62 | the returned point has y = sy + 2n; its x is `xUnset` when n = 0, and w after a row pair on even bounds |
| Gating.FullFrameCounted | main.cpp:46-61 | from (0,0), with at least 2*w*h bytes, all h/2 row pairs are processed |
| Gating.ResumeAtRowEnd | main.cpp:46-61 | starting at x >= w, the call runs to y == h |
| Gating.CountedStopsAtFirstRowPastBottom | main.cpp:46 | when the rows run out first, the returned y is below h + 2 |
| Gating.XBefore | capturev4l2.cpp:202-211 | the `x` the guard of row pair j reads: `xUnset` for j = 0, afterwards w (or sx when sx >= w) as the previous column loop left it |
| Gating.PairStartsPositional | capturev4l2.cpp:205-207 | row pair j enters the body: `y < height` and `(x + width * y) * 2 < srcLen` with that `x` |
| Gating.PositionalPairs | capturev4l2.cpp:205-208 | the number n of row pairs one legacy call processes: row pairs 0 .. n-1 pass the guard and row pair n fails it |
| Gating.PairsPositional | capturev4l2.cpp:205-208 | the legacy loop stops at the first row pair failing `y < height && (x + width*y)*2 < srcLen`, and every earlier one passes |
| Gating.PositionalStopsAtFirstFailure | capturev4l2.cpp:205-208 | the first failure of the positional guard decides where the loop stops |
| Gating.PositionalGateAfterFirstPair | capturev4l2.cpp:207 | after the first row pair the guard reads x == w, so a row pair at row y starts exactly when 2*w*(y+1) < srcLen |
| Gating.PositionalStopsAtFirstRowPastBottom | capturev4l2.cpp:205 | when the rows run out first, the returned y is below h + 2 |
| Gating.FullFramePositional | capturev4l2.cpp:205-218 | from (0,0), if the first guard passes and more than 2*w*(h-1) bytes arrived, all h/2 row pairs are processed |
| Gating.PositionalGateOverruns | capturev4l2.cpp:207-208 | width 2, height 4, 13 bytes: both row pairs (16 bytes) are processed |
| Frame.Pixel | main.cpp:24-27 | the `B`/`G`/`R`/`IR` macros (channels 0, 1, 2 of `3 * (x + w*y)` and sample `x + w*y` of the IR buffer), with 0 outside the buffers |
| Frame.PixelInBuffer | main.cpp:24-27 | inside a w-by-h pair those four samples are inside both buffers, so `Pixel` reads them directly |
| Frame.TileAt | main.cpp:28 | `BAY`: the tile at (tx, ty) is the four row-major raw codes of its block, read inside the buffer when it holds rows ty and ty+1 |
| Frame.Expected | main.cpp:54-58 | what a routine writes to a pixel: its block's tile decoded by the variant, within the variant's output range |
| Frame.Decoded | main.cpp:46-61 | the state a call leaves: columns start.x .. of rows start.y .. endY-1 hold `Expected`, every other pixel its old value |
| Frame.PixelAfterStore | main.cpp:24-27 | storing one pixel's four samples changes that pixel and no other |
| Frame.StorePixel | main.cpp:55-58 | the stored pixel holds o, every other pixel is unchanged, and samples stay in [0, hi] |
| Frame.StoreBlock | main.cpp:55-58 | the chained assignments: the 2x2 block holds o, the rest is unchanged, and samples stay in [0, hi] |
| Frame.DecodedToStep | main.cpp:52-60 | storing tile (x,y) extends the written part of row pair y by two columns |
| Frame.DecodedToNextRow | main.cpp:52-60 | a row pair written to the right edge joins the rows above it |
| Frame.DecodedWithinNextRow | main.cpp:52-60 | the same, keeping every sample in [0, hi] |
| Frame.WrittenBlockIsUniform | main.cpp:55-58 | block replication: the four pixels of a written block are equal in both images |
| Frame.Rgb8WrittenPixel | main.cpp:54-58 | a written pixel of the 8-bit path is (clip8(B - IRc), clip8(G - IRc), clip8(R - IRc), IRc) of its block's tile, where IRc = clip8(IR code) |
| Frame.UnwrittenPixelUnchanged | main.cpp:46-61 | pixels left of start.x, above start.y, or at and below the returned y are untouched |
| Frame.FullDecodeOverwritesAll | main.cpp:46-61 | a call from (0,0) that returns y >= h has overwritten every pixel |
| Frame.DecodedInRange | main.cpp:54-58 | a decoded pixel is in the variant's range whenever its old value was |
| Frame.ResumedCallWritesNothing | main.cpp:52 | a call that starts at x >= w writes no pixel |
| Demosaic.DestinationLayout | main.cpp:42 | both destinations are row-major with 3 and 1 samples per pixel, and their depth holds every value the variant writes |
| Demosaic.DecodeTile | main.cpp:53-60 | one column-loop step: reads the tile at (x,y) and extends the decoded region by that block, keeping samples in range |
| Demosaic.DecodeRowPair | main.cpp:52-60 | the column loop: ends at x == InnerEnd, adds BytesPerPair to `srccnt`, and leaves the whole row pair decoded |
| Demosaic.CountedRows | main.cpp:46-63 | the row loop: returns Cursor(CountedPairs), and those row pairs are decoded while nothing else changes |
| Demosaic.DecodeCounted | main.cpp:35-101 | the common body of both routines: valid Mats, cursor from CountedPairs, and `Decoded` up to the returned y |
| Demosaic.ExtractBayerY16toRGB8 | main.cpp:35-64 | 8-bit routine: cursor from CountedPairs; pixels written with Rgb8Tile; nothing else changes |
| Demosaic.ExtractBayerY16toRGB16 | main.cpp:67-101 | 16-bit routine: cursor from CountedPairs; pixels written with Rgb16Tile; nothing else changes |
| Demosaic.ExtractBayerY16toRGB | main.cpp:102-118 | depth 0 routes to the 8-bit routine and depth 2 to the 16-bit one; any other depth returns (0,0) and leaves both images unchanged |
| Demosaic.FullFrameDecode | main.cpp:35-101 | from (0,0), with at least 2*w*h bytes, the returned y is h and every pixel holds its tile's value |
| Demosaic.SecondChunkIsLost | main.cpp:158-162 | a second call from the returned cursor (w, y1) returns y == h and leaves every pixel as it was |
| LegacyDemosaic.PositionalRows | capturev4l2.cpp:205-220 | the legacy row loop: returns Cursor(PositionalPairs), and those row pairs are decoded with Bayer10Tile while nothing else changes |
| LegacyDemosaic.ExtractBayer10_Y16 | capturev4l2.cpp:196-221 | valid Mats, cursor from PositionalPairs, `Decoded` with Bayer10Tile up to the returned y |
| LegacyDemosaic.Bayer10WrittenPixel | capturev4l2.cpp:187-192 | a written legacy pixel is (clip8(R), clip8(G), clip8(B), clip8(IR)) of its tile: channels swapped, no subtraction |
| LegacyDemosaic.LegacyFullFrame | capturev4l2.cpp:205-218 | from (0,0), when the first guard passes and more than 2*w*(h-1) bytes arrived, y == h and every pixel holds its tile's value |
| SRGB.Lookup | CameraV4L2.cpp:282-283 | the table lookup of a sample buffer has the buffer's length |
| SRGB.LookupAt | CameraV4L2.cpp:283 | element k of the lookup is `table[src[k]]` |
| SRGB.LookupUnique | CameraV4L2.cpp:282-283 | any buffer holding `table[src[k]]` at every k is the lookup |
| SRGB.LookupRows | CameraV4L2.cpp:278-284 | looking up row after row is looking up the whole buffer |
| SRGB.LookupWithin | CameraV4L2.cpp:4-5 | every lookup result lies in the table's range |
| SRGB.Converted | CameraV4L2.cpp:275-316 | the four `case`s CV_8UC3, CV_16UC3, CV_8UC1, CV_16UC1: each has depth 8U or 16U and 1 or 3 channels |
| SRGB.SamplesIndexTable | CameraV4L2.cpp:283-313 | 8-bit samples always index a 1024-entry table; 16-bit ones do when they are below 1024 |
| SRGB.RowLength | CameraV4L2.cpp:282-302 | row length is `width*3` for 3-channel types and `width` for 1-channel types, i.e. cols * channels |
| SRGB.ApplyTable | CameraV4L2.cpp:278-284 | the nested row/column loop: dst equals the lookup of the old src, even when src and dst are one buffer |
| SRGB.CameraV4L2.constructor | CameraV4L2.cpp:27-43 | both tables hold 1024 entries; entry i is CLIP8(pre8[i]) and CLIP16(pre16[i]), so it lies in [0,255] and [0,65535] |
| SRGB.CameraV4L2.ConvertTosRGB | CameraV4L2.cpp:266-320 | dst gets src's size and type; a dst that already has them is returned as is, buffer and all; for CV_8UC3/CV_8UC1 every sample is `sRGBVal8[src]`, for CV_16UC3/CV_16UC1 `sRGBVal16[src]`; other types write nothing into a kept buffer; src is unchanged unless it is dst |

## Left out

- V4L2 device handling is not modelled: opening, format negotiation,
  buffer mmap and queue/dequeue, `select` timeouts, the ERR return codes. It
  is I/O with the kernel.
- The floating-point sRGB curve (`pow`, `12.92 * fI`, the float-to-int
  casts) is not modelled. The constructor takes the pre-clamp integers
  `(int)(65536 * rangeVal)` and `(int)(256 * rangeVal)` as the parameters
  `pre16` and `pre8`, and the model covers only the integer clamp and the
  table fill.
- The viewer side of `main.cpp` is not modelled: windows, key handling,
  video writing and the choice of 8 or 16 bits. Only the capture loop's
  repeated call, as stated in `Demosaic.SecondChunkIsLost`, is covered.
- IR gains are fixed at 1.0, as `IRGain` is in the source. `1.0f * IRVal`
  is then exact, so the float multiply is the integer itself.
- `int` overflow of `srccnt`, of `srcLen` arithmetic and of the index
  expressions is not modelled. Integers are unbounded and frame sizes are
  far below 2^31.
- Only continuous Mats are modelled. The row pointers `Mat::ptr(y)` are
  the row-major offsets `y * cols * channels`.
- `Image.Create`: a newly allocated buffer is zero-filled. OpenCV leaves
  its contents unspecified.
- `SRGB.CameraV4L2`: in the C++ `sRGBVal8` and `sRGBVal16` are static
  members (camerav4l2.h:60-61, CameraV4L2.cpp:4-5). Every constructor
  refills them, so the last camera built decides the tables of all cameras.
  The model gives each object its own pair of arrays, so it does not show
  one construction overwriting another camera's tables. The program builds
  a single camera (main.cpp:231).
- `SRGB.CameraV4L2.ConvertTosRGB`: for an unconverted type, that nothing is
  written is stated only when `dst` keeps its buffer, which it does when it
  already has src's rows, columns and type. A freshly created buffer's
  contents are unspecified.
- `SRGB.CameraV4L2.ConvertTosRGB`: `ERR` has no return statement in the
  source, so no return value is modelled.
- `SRGB.CameraV4L2.ConvertTosRGB`: the caller must keep 16-bit samples below
  1024. The source indexes the table with them unchecked.
- `Demosaic.ExtractBayerY16toRGB`: the routines assume the destination Mats
  were created with the right types and sizes, and otherwise write past
  them or scramble the layout (the dispatcher checks only `dstRGB.depth()`,
  main.cpp:105), so the model requires that (`Demosaic.CountedReady`).
- `LegacyDemosaic.ExtractBayer10_Y16`: the routines assume the destination
  Mats were created with the right types and sizes, and otherwise write
  past them or scramble the layout, so the model requires that
  (`LegacyDemosaic.LegacyReady`).
- `Demosaic.Destinations` requires an even number of rows and columns, and
  `Demosaic.OnTileGrid` an even, non-negative start. The source accepts any
  size the user gives (main.cpp:229, 251-252). With an odd size the last
  row pair writes pixel index `width * height`, past both buffers, and that
  overrun is not modelled. Both predicates apply to all three routines.
- `LegacyDemosaic.ExtractBayer10_Y16`: the C++ default argument
  `start = cv::Point2i(0,0)` (capturev4l2.cpp:196) is not modelled; callers
  pass the start explicitly, and `LegacyDemosaic.LegacyFullFrame` covers the
  (0,0) case.
- The raw buffer must hold every row the call reads
  (`Demosaic.RawCoversCounted`, `LegacyDemosaic.RawCoversPositional`). The
  C++ reads past it otherwise.
- An uninitialised `x` is undefined behaviour in C++. It is modelled as an
  arbitrary caller-supplied value, `xUnset`.
- `LegacyDemosaic.PositionalRows`: it calls the same column loop as the
  counted routines and discards the byte count, which `ExtractBayer10_Y16`
  does not keep.
