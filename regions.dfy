/**
 * The pixel array and the numpy operations `analyze_face` applies to it
 * (app/main.py:100, 105-106, 113-115): two-dimensional slicing with Python's
 * clamping of out-of-range bounds, flattening into a list of pixels, and the
 * per-channel mean of that list.
 */
module Regions {
  import Colors

  type Channel = c: int | 0 <= c <= 255

  /** One RGB pixel of a decoded image (numpy uint8 per channel). */
  datatype Pixel = Pixel(r: Channel, g: Channel, b: Channel)

  /** A raster image as a list of rows; `width` is the length of every row. */
  datatype Image = Image(rows: seq<seq<Pixel>>, width: nat)

  predicate WellFormed(img: Image) {
    forall i :: 0 <= i < |img.rows| ==> |img.rows[i]| == img.width
  }

  function Height(img: Image): nat {
    |img.rows|
  }

  /** Half-open slice bounds `[lo:hi]`; every bound in the source is non-negative. */
  datatype Span = Span(lo: nat, hi: nat)

  function Min(a: int, b: int): int {
    if a <= b then a else b
  }

  function Max(a: int, b: int): int {
    if a >= b then a else b
  }

  /** How many elements `s[lo:hi]` has when `|s| == n`. */
  function SliceLen(n: nat, span: Span): (k: nat)
    ensures k <= n && k <= Max(0, span.hi - span.lo)
    ensures k > 0 <==> span.lo < span.hi && span.lo < n
    ensures span.hi <= n ==> k == Max(0, span.hi - span.lo)
  {
    Max(0, Min(span.hi, n) - Min(span.lo, n))
  }

  /** Python's `s[lo:hi]` for non-negative bounds: clamped, and empty when `lo >= hi`. */
  function Slice<T>(s: seq<T>, span: Span): (r: seq<T>)
    ensures |r| == SliceLen(|s|, span)
    ensures forall i :: 0 <= i < |r| ==> r[i] == s[span.lo + i]
  {
    var a := Min(span.lo, |s|);
    var b := Max(a, Min(span.hi, |s|));
    s[a..b]
  }

  /** `img[rows.lo:rows.hi, cols.lo:cols.hi]`. */
  function Crop(img: Image, rows: Span, cols: Span): (c: Image)
    requires WellFormed(img)
    ensures WellFormed(c)
    ensures Height(c) == SliceLen(Height(img), rows)
    ensures c.width == SliceLen(img.width, cols)
    ensures forall i, j :: 0 <= i < Height(c) && 0 <= j < c.width ==>
      c.rows[i][j] == img.rows[rows.lo + i][cols.lo + j]
  {
    var rs := Slice(img.rows, rows);
    Image(seq(|rs|, i requires 0 <= i < |rs| => Slice(rs[i], cols)), SliceLen(img.width, cols))
  }

  /** `reshape(-1, 3)`: the pixels row by row. */
  function Flatten(rows: seq<seq<Pixel>>): (ps: seq<Pixel>)
    ensures forall p :: p in ps <==> exists i :: 0 <= i < |rows| && p in rows[i]
  {
    if rows == [] then [] else rows[0] + Flatten(rows[1..])
  }

  lemma {:induction false} FlattenLength(rows: seq<seq<Pixel>>, width: nat)
    requires forall i :: 0 <= i < |rows| ==> |rows[i]| == width
    ensures |Flatten(rows)| == |rows| * width
  {
    if rows != [] {
      FlattenLength(rows[1..], width);
    }
  }

  /**
   * For rows of equal width the flattened list is row-major: every pixel
   * appears exactly once, pixel (i, j) at position i * width + j.
   */
  lemma FlattenRowMajor(rows: seq<seq<Pixel>>, width: nat)
    requires forall i :: 0 <= i < |rows| ==> |rows[i]| == width
    ensures |Flatten(rows)| == |rows| * width
    ensures forall i, j :: 0 <= i < |rows| && 0 <= j < width ==>
      Position(i, j, width) < |Flatten(rows)| && Flatten(rows)[Position(i, j, width)] == rows[i][j]
  {
    FlattenLength(rows, width);
    forall i, j | 0 <= i < |rows| && 0 <= j < width
      ensures Position(i, j, width) < |Flatten(rows)| && Flatten(rows)[Position(i, j, width)] == rows[i][j]
    {
      FlattenAt(rows, width, i, j);
    }
  }

  lemma {:induction false} FlattenAt(rows: seq<seq<Pixel>>, width: nat, i: nat, j: nat)
    requires forall k :: 0 <= k < |rows| ==> |rows[k]| == width
    requires i < |rows| && j < width
    ensures Position(i, j, width) < |Flatten(rows)| && Flatten(rows)[Position(i, j, width)] == rows[i][j]
  {
    assert Flatten(rows) == rows[0] + Flatten(rows[1..]);
    if i > 0 {
      FlattenAt(rows[1..], width, i - 1, j);
      NextRowOffset(i, width, j);
    }
  }

  lemma NextRowOffset(i: nat, width: nat, j: nat)
    requires i > 0
    ensures Position(i, j, width) == width + Position(i - 1, j, width)
  {
  }

  /** Where `reshape(-1, 3)` puts pixel (i, j) of rows `width` wide. */
  function Position(i: nat, j: nat, width: nat): nat {
    i * width + j
  }

  /** The number of pixels in a well-formed image: what numpy's `size` counts, divided by 3. */
  lemma PixelCount(img: Image)
    requires WellFormed(img)
    ensures |Flatten(img.rows)| == Height(img) * img.width
    ensures |Flatten(img.rows)| > 0 <==> Height(img) > 0 && img.width > 0
  {
    FlattenLength(img.rows, img.width);
    ProductPositive(Height(img), img.width);
  }

  lemma ProductPositive(a: nat, b: nat)
    ensures a * b > 0 <==> a > 0 && b > 0
  {
    if a > 0 && b > 0 {
      assert a * b >= b;
    }
  }

  function ChannelOf(p: Pixel, k: nat): Channel
    requires k < 3
  {
    if k == 0 then p.r else if k == 1 then p.g else p.b
  }

  /** The sum of channel `k` over a list of pixels. */
  function Sum(ps: seq<Pixel>, k: nat): (t: nat)
    requires k < 3
    ensures t <= 255 * |ps|
  {
    if ps == [] then 0 else ChannelOf(ps[0], k) + Sum(ps[1..], k)
  }

  /** `np.mean(..., axis=0).astype(int)` over a non-empty list, read as floor(sum / count). */
  function Mean(ps: seq<Pixel>): (c: Colors.Rgb)
    requires |ps| > 0
    ensures 0 <= c.r <= 255 && 0 <= c.g <= 255 && 0 <= c.b <= 255
  {
    Colors.Rgb(ChannelMean(ps, 0), ChannelMean(ps, 1), ChannelMean(ps, 2))
  }

  /** The mean of one channel stays within the channel's range. */
  function ChannelMean(ps: seq<Pixel>, k: nat): (m: int)
    requires k < 3 && |ps| > 0
    ensures 0 <= m <= 255
  {
    DivAtMost(Sum(ps, k), |ps|, 255);
    Sum(ps, k) / |ps|
  }

  lemma DivAtMost(t: nat, n: nat, m: nat)
    requires n > 0 && t <= m * n
    ensures t / n <= m
  {
    var q, r := t / n, t % n;
    assert (q - m) * n == t - r - m * n;
    NonZeroMultiple(q - m, n);
  }


  lemma {:induction false} MulDivCancel(c: nat, n: nat)
    requires n > 0
    ensures (c * n) / n == c
  {
    if c > 0 {
      MulDivCancel(c - 1, n);
      var t := (c - 1) * n;
      assert c * n == t + n;
      AddDivisor(t, n);
    }
  }

  lemma AddDivisor(t: nat, n: nat)
    requires n > 0
    ensures (t + n) / n == t / n + 1
  {
    var q, r := t / n, t % n;
    assert t + n == (q + 1) * n + r;
    DivUnique(t + n, n, q + 1, r);
  }

  /** Division is determined by quotient and remainder. */
  lemma DivUnique(t: int, n: int, q: int, r: int)
    requires n > 0 && 0 <= r < n && t == q * n + r
    ensures t / n == q
  {
    var q', r' := t / n, t % n;
    assert (q - q') * n == r' - r;
    NonZeroMultiple(q - q', n);
  }

  lemma NonZeroMultiple(d: int, n: int)
    requires n > 0
    ensures d > 0 ==> d * n >= n
    ensures d < 0 ==> d * n <= -n
  {
    if d > 0 {
      MultipleAtLeast(d, n);
    } else if d < 0 {
      MultipleAtLeast(-d, n);
      assert d * n == -((-d) * n);
    }
  }

  lemma {:induction false} MultipleAtLeast(d: nat, n: nat)
    requires d >= 1
    ensures d * n >= n
  {
    if d > 1 {
      MultipleAtLeast(d - 1, n);
      assert d * n == (d - 1) * n + n;
    }
  }

  lemma {:induction false} UniformSum(ps: seq<Pixel>, p: Pixel, k: nat)
    requires k < 3
    requires forall i :: 0 <= i < |ps| ==> ps[i] == p
    ensures Sum(ps, k) == ChannelOf(p, k) * |ps|
  {
    if ps != [] {
      UniformSum(ps[1..], p, k);
    }
  }

  /** A region of one colour has that colour as its mean. */
  lemma UniformMean(ps: seq<Pixel>, p: Pixel)
    requires |ps| > 0
    requires forall i :: 0 <= i < |ps| ==> ps[i] == p
    ensures Mean(ps) == Colors.Rgb(p.r, p.g, p.b)
  {
    UniformSum(ps, p, 0);
    UniformSum(ps, p, 1);
    UniformSum(ps, p, 2);
    MulDivCancel(p.r, |ps|);
    MulDivCancel(p.g, |ps|);
    MulDivCancel(p.b, |ps|);
  }

}
