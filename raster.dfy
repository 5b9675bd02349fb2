/** The pixel conversion the PDF path of `parseFile` in `src/lib/converter.ts`
    applies to a decoded PDF image before painting it on a canvas: a 1-bit
    grayscale image is unpacked and a 24-bit RGB image widened, both to RGBA
    with full alpha; other images are passed on as they are. Bytes are `bv8`.

    Products of sizes are written as the sums they stand for (`Area`,
    `RowStart`), and lemmas equate those sums with the products. */
module Raster {
  import opened Wrappers

  /** The image kinds pdf.js reports. */
  datatype ImageKind = Grayscale1bpp | Rgb24bpp | Rgba32bpp

  const Black: bv8 := 0
  const White: bv8 := 255
  const Opaque: bv8 := 255

  /** `width * rows`, as `rows` rows of `width` pixels. */
  function Area(width: nat, rows: nat): nat {
    if rows == 0 then 0 else Area(width, rows - 1) + width
  }

  lemma {:induction false} AreaIsProduct(width: nat, rows: nat)
    ensures Area(width, rows) == width * rows
    decreases rows
  {
    if rows > 0 {
      AreaIsProduct(width, rows - 1);
      assert width * rows == width * (rows - 1) + width;
    }
  }

  /** `(width + 7) >> 3`: bytes per row of a 1-bit image, rows padded to a
      whole byte. */
  function RowBytes(width: nat): nat {
    (width + 7) / 8
  }

  /** `j * dataBytes`: the first byte of row `j` of a 1-bit image. */
  function RowStart(width: nat, j: nat): nat {
    Area(RowBytes(width), j)
  }

  /** `img.data[i]`; a read past the end yields `undefined`, which the shift
      that follows turns into 0. */
  function ByteAt(data: seq<bv8>, i: nat): bv8 {
    if i < |data| then data[i] else 0
  }

  /** Pixel `bit` of row `j` is bit `7 - (bit & 7)` of byte
      `j * dataBytes + (bit >> 3)`: the most significant bit first. */
  predicate BitSet(data: seq<bv8>, width: nat, j: nat, bit: nat) {
    (ByteAt(data, RowStart(width, j) + bit / 8) >> (7 - bit % 8)) & 1 == 1
  }

  /** A set bit paints black, a clear one white. */
  function Gray1Value(data: seq<bv8>, width: nat, j: nat, bit: nat): bv8 {
    if BitSet(data, width, j, bit) then Black else White
  }

  /** The gray value is the one the source's expression gives, read at byte
      `j * ((width + 7) >> 3) + (bit >> 3)`. */
  lemma Gray1ValueFormula(data: seq<bv8>, width: nat, j: nat, bit: nat)
    ensures Gray1Value(data, width, j, bit)
            == if (ByteAt(data, j * ((width + 7) / 8) + bit / 8) >> (7 - bit % 8)) & 1 == 1 then Black else White
  {
    AreaIsProduct(RowBytes(width), j);
  }

  /** One RGBA pixel of gray value `v`. */
  function Pixel(v: bv8): seq<bv8> {
    [v, v, v, Opaque]
  }

  /** The gray value of every pixel of a 1-bit image. */
  function Gray1Shade(data: seq<bv8>, width: nat): (nat, nat) -> bv8 {
    (j: nat, bit: nat) => Gray1Value(data, width, j, bit)
  }

  /** The first `n` pixels of row `j` of a gray image, as RGBA. */
  function GrayRow(shade: (nat, nat) -> bv8, j: nat, n: nat): seq<bv8> {
    if n == 0 then [] else GrayRow(shade, j, n - 1) + Pixel(shade(j, n - 1))
  }

  /** The first `rows` rows of a gray image `width` pixels wide, as RGBA. */
  function GrayRows(shade: (nat, nat) -> bv8, width: nat, rows: nat): seq<bv8> {
    if rows == 0 then [] else GrayRows(shade, width, rows - 1) + GrayRow(shade, rows - 1, width)
  }

  /** A 1-bit image unpacked, row after row. */
  function Gray1Image(data: seq<bv8>, width: nat, height: nat): seq<bv8> {
    GrayRows(Gray1Shade(data, width), width, height)
  }

  lemma {:induction false} GrayRowLength(shade: (nat, nat) -> bv8, j: nat, n: nat)
    ensures |GrayRow(shade, j, n)| == 4 * n
    decreases n
  {
    if n > 0 {
      GrayRowLength(shade, j, n - 1);
    }
  }

  lemma {:induction false} GrayRowAt(shade: (nat, nat) -> bv8, j: nat, n: nat, bit: nat)
    requires bit < n
    ensures |GrayRow(shade, j, n)| == 4 * n
    ensures GrayRow(shade, j, n)[4 * bit..4 * bit + 4] == Pixel(shade(j, bit))
    decreases n
  {
    GrayRowLength(shade, j, n);
    GrayRowLength(shade, j, n - 1);
    if bit < n - 1 {
      GrayRowAt(shade, j, n - 1, bit);
      Concat4(GrayRow(shade, j, n - 1), Pixel(shade(j, n - 1)), 4 * bit);
    }
  }

  /** A gray image takes exactly four bytes per pixel. */
  lemma {:induction false} GrayRowsLength(shade: (nat, nat) -> bv8, width: nat, rows: nat)
    ensures |GrayRows(shade, width, rows)| == 4 * Area(width, rows)
    decreases rows
  {
    if rows > 0 {
      GrayRowsLength(shade, width, rows - 1);
      GrayRowLength(shade, rows - 1, width);
    }
  }

  /** The first `i` rows are a prefix of the first `rows` rows. */
  lemma {:induction false} GrayPrefix(shade: (nat, nat) -> bv8, width: nat, rows: nat, i: nat)
    requires i <= rows
    ensures |GrayRows(shade, width, i)| <= |GrayRows(shade, width, rows)|
    ensures GrayRows(shade, width, rows)[..|GrayRows(shade, width, i)|] == GrayRows(shade, width, i)
    decreases rows
  {
    if i < rows {
      GrayPrefix(shade, width, rows - 1, i);
      PrefixOfConcat(GrayRows(shade, width, rows - 1), GrayRow(shade, rows - 1, width), |GrayRows(shade, width, i)|);
    }
  }

  lemma PrefixOfConcat(a: seq<bv8>, b: seq<bv8>, n: nat)
    requires n <= |a|
    ensures (a + b)[..n] == a[..n]
  {
  }

  lemma Concat4(a: seq<bv8>, b: seq<bv8>, p: nat)
    requires p + 4 <= |a|
    ensures (a + b)[p..p + 4] == a[p..p + 4]
  {
  }

  lemma Concat4Right(a: seq<bv8>, b: seq<bv8>, q: nat)
    requires q + 4 <= |b|
    ensures (a + b)[|a| + q..|a| + q + 4] == b[q..q + 4]
  {
  }

  lemma SliceOfPrefix(all: seq<bv8>, pre: seq<bv8>, p: nat)
    requires |pre| <= |all| && all[..|pre|] == pre && p + 4 <= |pre|
    ensures all[p..p + 4] == pre[p..p + 4]
  {
    assert all[p..p + 4] == all[..|pre|][p..p + 4];
  }

  /** Pixel `(j, bit)` sits right after the `j` rows above it and the `bit`
      pixels to its left. */
  lemma GrayPixelRel(shade: (nat, nat) -> bv8, width: nat, height: nat, j: nat, bit: nat)
    requires j < height && bit < width
    ensures var p := |GrayRows(shade, width, j)| + 4 * bit;
            && p + 4 <= |GrayRows(shade, width, height)|
            && GrayRows(shade, width, height)[p..p + 4] == Pixel(shade(j, bit))
  {
    GrayPrefix(shade, width, height, j + 1);
    GrayRowAt(shade, j, width, bit);
    SliceOfPrefixRight(GrayRows(shade, width, height), GrayRows(shade, width, j), GrayRow(shade, j, width), 4 * bit);
  }

  /** Four bytes inside the second half of a prefix `a + r` of `all`. */
  lemma SliceOfPrefixRight(all: seq<bv8>, a: seq<bv8>, r: seq<bv8>, q: nat)
    requires |a + r| <= |all| && all[..|a + r|] == a + r && q + 4 <= |r|
    ensures |a| + q + 4 <= |all| && all[|a| + q..|a| + q + 4] == r[q..q + 4]
  {
    SliceOfPrefix(all, a + r, |a| + q);
    Concat4Right(a, r, q);
  }

  /** Pixel `(j, bit)` of a 1-bit image lands at bytes `4 * (j * width + bit)`
      onwards: black when its bit is set, white when not, then full alpha; the
      whole image is `4 * width * height` bytes. */
  lemma Gray1PixelAt(data: seq<bv8>, width: nat, height: nat, j: nat, bit: nat)
    requires j < height && bit < width
    ensures |Gray1Image(data, width, height)| == 4 * (width * height)
    ensures 4 * (width * j + bit) + 4 <= 4 * (width * height)
    ensures var p := 4 * (width * j + bit);
            Gray1Image(data, width, height)[p..p + 4] == Pixel(Gray1Value(data, width, j, bit))
  {
    var shade := Gray1Shade(data, width);
    var all := GrayRows(shade, width, height);
    GrayPixelRel(shade, width, height, j, bit);
    GrayRowsLength(shade, width, height);
    GrayRowsLength(shade, width, j);
    AreaIsProduct(width, height);
    AreaIsProduct(width, j);
    var p := |GrayRows(shade, width, j)| + 4 * bit;
    assert p == 4 * (width * j + bit);
    assert all[p..p + 4] == Pixel(shade(j, bit));
  }

  /** The first `n` pixels of an RGB image, widened to RGBA. */
  function RgbImage(data: seq<bv8>, n: nat): seq<bv8>
    requires 3 * n <= |data|
  {
    if n == 0 then []
    else
      var i := 3 * (n - 1);
      RgbImage(data, n - 1) + [data[i], data[i + 1], data[i + 2], Opaque]
  }

  lemma {:induction false} RgbLength(data: seq<bv8>, n: nat)
    requires 3 * n <= |data|
    ensures |RgbImage(data, n)| == 4 * n
    decreases n
  {
    if n > 0 {
      RgbLength(data, n - 1);
    }
  }

  /** RGB pixel `i` copies its three bytes `3 * i..3 * i + 3` to bytes
      `4 * i..4 * i + 3`, followed by full alpha. */
  lemma {:induction false} RgbPixelAt(data: seq<bv8>, n: nat, i: nat)
    requires 3 * n <= |data| && i < n
    ensures |RgbImage(data, n)| == 4 * n
    ensures RgbImage(data, n)[4 * i..4 * i + 4] == [data[3 * i], data[3 * i + 1], data[3 * i + 2], Opaque]
    decreases n
  {
    RgbLength(data, n);
    RgbLength(data, n - 1);
    if i < n - 1 {
      RgbPixelAt(data, n - 1, i);
      var m := 3 * (n - 1);
      Concat4(RgbImage(data, n - 1), [data[m], data[m + 1], data[m + 2], Opaque], 4 * i);
    }
  }

  /** The `data` the code hands to `imgData.data.set`. */
  function Normalized(kind: ImageKind, data: seq<bv8>, width: nat, height: nat): seq<bv8> {
    if kind == Grayscale1bpp then Gray1Image(data, width, height)
    else if |data| == 3 * Area(width, height) then RgbImage(data, Area(width, height))
    else data
  }

  function Zeros(n: nat): (z: seq<bv8>)
    ensures |z| == n && forall i :: 0 <= i < n ==> z[i] == 0
  {
    seq(n, i => 0)
  }

  /** The canvas's pixel buffer after `createImageData` (all zero) and
      `set(data)`. `createImageData` throws for a zero width or height and
      `set` throws on data longer than the buffer; either error drops the
      image. */
  function ImageData(kind: ImageKind, data: seq<bv8>, width: nat, height: nat): Option<seq<bv8>> {
    if width == 0 || height == 0 then None
    else
      var d := Normalized(kind, data, width, height);
      var size := 4 * Area(width, height);
      if |d| <= size then Some(d + Zeros(size - |d|)) else None
  }

  /** An image with no pixels is dropped, whatever its kind and data. */
  lemma EmptyImageDropped(kind: ImageKind, data: seq<bv8>, width: nat, height: nat)
    requires width * height == 0
    ensures ImageData(kind, data, width, height).None?
  {
  }

  /** A 1-bit image with pixels always becomes a full RGBA buffer of `4 * width * height`
      bytes whose pixel `(j, bit)` is black or white as its bit says, with
      full alpha. */
  lemma Gray1Converted(data: seq<bv8>, width: nat, height: nat, j: nat, bit: nat)
    requires j < height && bit < width
    ensures ImageData(Grayscale1bpp, data, width, height).Some?
    ensures |ImageData(Grayscale1bpp, data, width, height).value| == 4 * (width * height)
    ensures 4 * (width * j + bit) + 4 <= 4 * (width * height)
    ensures var p := 4 * (width * j + bit);
            ImageData(Grayscale1bpp, data, width, height).value[p..p + 4] == Pixel(Gray1Value(data, width, j, bit))
  {
    Gray1PixelAt(data, width, height, j, bit);
    AreaIsProduct(width, height);
    var d := Gray1Image(data, width, height);
    assert d + Zeros(0) == d;
  }

  /** An RGB image of exactly three bytes per pixel becomes a full RGBA
      buffer with its bytes copied and full alpha. */
  lemma RgbConverted(kind: ImageKind, data: seq<bv8>, width: nat, height: nat, i: nat)
    requires kind != Grayscale1bpp && |data| == width * height * 3 && i < width * height
    ensures ImageData(kind, data, width, height).Some?
    ensures |ImageData(kind, data, width, height).value| == 4 * (width * height)
    ensures ImageData(kind, data, width, height).value[4 * i..4 * i + 4]
            == [data[3 * i], data[3 * i + 1], data[3 * i + 2], Opaque]
  {
    AreaIsProduct(width, height);
    var n := Area(width, height);
    RgbPixelAt(data, n, i);
    var d := RgbImage(data, n);
    assert d + Zeros(0) == d;
  }

  /** Any other image is copied unchanged to the front of the buffer, the rest
      left zero, or dropped when it does not fit. */
  lemma OtherPassedThrough(kind: ImageKind, data: seq<bv8>, width: nat, height: nat)
    requires kind != Grayscale1bpp && |data| != width * height * 3
    ensures ImageData(kind, data, width, height).Some? <==> width > 0 && height > 0 && |data| <= 4 * (width * height)
    ensures ImageData(kind, data, width, height).Some? ==>
              var buf := ImageData(kind, data, width, height).value;
              && |buf| == 4 * (width * height)
              && buf[..|data|] == data
              && forall i :: |data| <= i < |buf| ==> buf[i] == 0
  {
    AreaIsProduct(width, height);
  }

  /** Four `data[k++] = ...` writes: one RGBA pixel at the cursor. */
  method WritePixel(rgba: array<bv8>, k: nat, r: bv8, g: bv8, b: bv8, alpha: bv8)
    requires k + 4 <= rgba.Length
    modifies rgba
    ensures rgba[..k + 4] == old(rgba[..k]) + [r, g, b, alpha]
    ensures rgba[k + 4..] == old(rgba[k + 4..])
  {
    rgba[k] := r;
    rgba[k + 1] := g;
    rgba[k + 2] := b;
    rgba[k + 3] := alpha;
  }

  /** The inner loop of the 1-bit unpacking: row `j`, written from cursor
      `k` on, each pixel's gray value given by `shade`. */
  method ExpandRow(shade: (nat, nat) -> bv8, width: nat, j: nat, rgba: array<bv8>, k: nat)
    requires k + 4 * width <= rgba.Length
    modifies rgba
    ensures rgba[..k + 4 * width] == old(rgba[..k]) + GrayRow(shade, j, width)
    ensures rgba[k + 4 * width..] == old(rgba[k + 4 * width..])
  {
    ghost var start := rgba[..k];
    var cursor := k;
    for bit := 0 to width
      invariant cursor == k + 4 * bit
      invariant rgba[..cursor] == start + GrayRow(shade, j, bit)
      invariant rgba[k + 4 * width..] == old(rgba[k + 4 * width..])
    {
      GrayRowLength(shade, j, bit);
      var val := shade(j, bit);
      WritePixel(rgba, cursor, val, val, val, Opaque);
      cursor := cursor + 4;
    }
  }

  /** The 1-bit unpacking loop over the rows, with its `k++` cursor; the
      gray value of pixel `(j, bit)` is `shade(j, bit)`, which for a 1-bit
      image is `Gray1Shade(data, width)`. */
  method ExpandGray(shade: (nat, nat) -> bv8, width: nat, height: nat) returns (rgba: array<bv8>)
    ensures fresh(rgba)
    ensures rgba[..] == GrayRows(shade, width, height)
  {
    rgba := new bv8[4 * Area(width, height)](_ => 0);
    GrayRowsLength(shade, width, height);
    var k := 0;
    for j := 0 to height
      invariant k == |GrayRows(shade, width, j)| && k <= rgba.Length
      invariant rgba[..k] == GrayRows(shade, width, j)
    {
      GrayPrefix(shade, width, height, j + 1);
      GrayRowLength(shade, j, width);
      ExpandRow(shade, width, j, rgba, k);
      k := k + 4 * width;
    }
    assert rgba[..] == rgba[..k];
  }

  /** The RGB widening loop, with its two cursors. */
  method ExpandRgb(data: seq<bv8>, pixels: nat) returns (rgba: array<bv8>)
    requires |data| == 3 * pixels
    ensures fresh(rgba)
    ensures rgba[..] == RgbImage(data, pixels)
  {
    rgba := new bv8[4 * pixels](_ => 0);
    var j, k := 0, 0;
    ghost var n := 0;
    while j < |data|
      invariant j == 3 * n && k == 4 * n && n <= pixels
      invariant rgba[..k] == RgbImage(data, n)
      decreases |data| - j
    {
      WritePixel(rgba, k, data[j], data[j + 1], data[j + 2], Opaque);
      j, k, n := j + 3, k + 4, n + 1;
    }
    assert rgba[..] == rgba[..k];
  }

  /** Copies `d` into the front of an all-zero buffer: `TypedArray.set`. */
  method SetData(imgData: array<bv8>, d: seq<bv8>)
    requires |d| <= imgData.Length
    requires forall m :: 0 <= m < imgData.Length ==> imgData[m] == 0
    modifies imgData
    ensures imgData[..] == d + Zeros(imgData.Length - |d|)
  {
    for i := 0 to |d|
      invariant imgData[..i] == d[..i]
      invariant forall m :: i <= m < imgData.Length ==> imgData[m] == 0
    {
      imgData[i] := d[i];
    }
    assert imgData[..] == d + Zeros(imgData.Length - |d|);
  }

  /** The conversion as a whole: expand if the kind calls for it, then copy
      into a fresh, all-zero RGBA buffer of `4 * width * height` bytes. */
  method ConvertPixels(kind: ImageKind, data: seq<bv8>, width: nat, height: nat) returns (r: Option<seq<bv8>>)
    ensures r == ImageData(kind, data, width, height)
  {
    if width == 0 || height == 0 {
      return None;
    }
    var pixels := Area(width, height);
    var imgData := new bv8[4 * pixels](_ => 0);
    var d := data;
    if kind == Grayscale1bpp {
      var a := ExpandGray(Gray1Shade(data, width), width, height);
      d := a[..];
    } else if |data| == 3 * pixels {
      var a := ExpandRgb(data, pixels);
      d := a[..];
    }
    assert d == Normalized(kind, data, width, height);
    if |d| > imgData.Length {
      return None;
    }
    SetData(imgData, d);
    return Some(imgData[..]);
  }
}
