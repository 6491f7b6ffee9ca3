/** scripts/remove-watermark.py: three ways of hiding the generator's star
    mark in the bottom-right corner of an image already converted to RGB. */
module Watermark {
  import opened Raster
  import opened Wrappers

  datatype Method = CropMethod | FillMethod | CloneMethod

  /** Command-line options after argparse: `--size` and `--method`. */
  datatype Options = Options(size: nat, how: Method)

  /** Defaults of the argument parser (the usage text says 40, the parser 60). */
  const DefaultOptions: Options := Options(60, CropMethod)

  /** Padding of an RGB crop that reaches past the border. */
  const OpaqueBlack: Pixel := Pixel(0, 0, 0, 255)

  /** Side of the square sampled for the fill colour. */
  const SampleSide: nat := 20

  datatype WatermarkError = InvertedCropBox

  /** `convert('RGB')` of an RGBA image: the alpha channel is dropped, which
      here means every pixel becomes opaque. */
  function ToRgb(img: Image): (r: Image)
    ensures |r| == |img| && forall y :: 0 <= y < |img| ==> |r[y]| == |img[y]|
    ensures forall y, x :: 0 <= y < |img| && 0 <= x < |img[y]| ==>
      r[y][x].a == 255 && r[y][x].r == img[y][x].r && r[y][x].g == img[y][x].g && r[y][x].b == img[y][x].b
  {
    MapPixels(img, (p: Pixel) => Pixel(p.r, p.g, p.b, 255))
  }

  /** The output path is the second positional argument when it is non-empty,
      otherwise the input is overwritten. */
  function OutputPath(input: string, output: Option<string>): (path: string)
    ensures output.Some? && output.value != [] ==> path == output.value
    ensures output.None? || output.value == [] ==> path == input
  {
    if output.Some? && output.value != [] then output.value else input
  }

  // ----- crop -----

  /** `remove_watermark_crop`: keep the top-left (width-margin) by
      (height-margin) part and stretch it back to the original size. */
  function CropMethodRemove(img: Image, margin: nat, resample: Resampler): (r: Result<Image, WatermarkError>)
    requires Rectangular(img)
    ensures r.Failure? <==> margin > Width(img) || margin > Height(img)
    ensures r.Success? ==> IsRect(r.value, Width(img), Height(img))
  {
    if margin > Width(img) || margin > Height(img) then Failure(InvertedCropBox)
    else Success(resample(Crop(img, Box(0, 0, Width(img) - margin, Height(img) - margin)), Width(img), Height(img)))
  }

  /** The stretched result never looks at the band of width `margin` along the
      right and bottom edges, where the mark sits. */
  lemma CropIgnoresCornerBand(a: Image, b: Image, margin: nat, resample: Resampler)
    requires Rectangular(a) && Rectangular(b) && Width(a) == Width(b) && Height(a) == Height(b)
    requires margin <= Width(a) && margin <= Height(a)
    requires forall y, x :: 0 <= y < Height(a) - margin && 0 <= x < Width(a) - margin ==> a[y][x] == b[y][x]
    ensures CropMethodRemove(a, margin, resample) == CropMethodRemove(b, margin, resample)
  {
    var box := Box(0, 0, Width(a) - margin, Height(a) - margin);
    var ca := Crop(a, box);
    var cb := Crop(b, box);
    assert |ca| == |cb|;
    forall j | 0 <= j < |ca| ensures ca[j] == cb[j] {
      assert |ca[j]| == |cb[j]|;
    }
    assert ca == cb;
  }

  // ----- fill -----

  /** The 20x20 square just above and left of the corner, in `getdata` order. */
  function SampleRegion(img: Image, size: nat): (ps: seq<Pixel>)
    ensures |ps| == SampleSide * SampleSide
    ensures forall i :: 0 <= i < |ps| ==>
      ps[i] == PixelOr(img, Width(img) - size - SampleSide + i % SampleSide,
                           Height(img) - size - SampleSide + i / SampleSide, OpaqueBlack)
  {
    seq(SampleSide * SampleSide, i =>
      PixelOr(img, Width(img) - size - SampleSide + i % SampleSide,
                   Height(img) - size - SampleSide + i / SampleSide, OpaqueBlack))
  }

  function SumChannel(ps: seq<Pixel>, ch: Pixel -> int): int {
    if ps == [] then 0 else SumChannel(ps[..|ps| - 1], ch) + ch(ps[|ps| - 1])
  }

  /** Floor mean of one channel, as `sum(...) // len(pixels)`. */
  function Average(ps: seq<Pixel>, ch: Pixel -> int): int
    requires ps != []
  {
    SumChannel(ps, ch) / |ps|
  }

  lemma {:induction false} SumBounds(ps: seq<Pixel>, ch: Pixel -> int, lo: int, hi: int)
    requires forall i :: 0 <= i < |ps| ==> lo <= ch(ps[i]) <= hi
    ensures |ps| * lo <= SumChannel(ps, ch) <= |ps| * hi
  {
    if ps != [] {
      SumBounds(ps[..|ps| - 1], ch, lo, hi);
    }
  }

  lemma {:induction false} SumUniform(ps: seq<Pixel>, ch: Pixel -> int, c: int)
    requires forall i :: 0 <= i < |ps| ==> ch(ps[i]) == c
    ensures SumChannel(ps, ch) == |ps| * c
  {
    if ps != [] {
      SumUniform(ps[..|ps| - 1], ch, c);
    }
  }

  /** The mean of channel values in [0, 255] is in [0, 255]. */
  lemma AverageIsChannel(ps: seq<Pixel>, ch: Pixel -> int)
    requires ps != []
    requires forall i :: 0 <= i < |ps| ==> IsChannel(ch(ps[i]))
    ensures IsChannel(Average(ps, ch))
  {
    SumBounds(ps, ch, 0, 255);
  }

  /** A uniformly coloured sample averages to that colour. */
  lemma AverageOfUniform(ps: seq<Pixel>, ch: Pixel -> int, c: int)
    requires ps != []
    requires forall i :: 0 <= i < |ps| ==> ch(ps[i]) == c
    ensures Average(ps, ch) == c
  {
    SumUniform(ps, ch, c);
    MulDivCancel(|ps|, c);
  }

  lemma MulDivCancel(n: int, c: int)
    requires n > 0
    ensures (n * c) / n == c
  {
    var q := (n * c) / n;
    var m := (n * c) % n;
    assert n * c == n * q + m && 0 <= m < n;
    assert n * (c - q) == m;
    MulSign(n, c - q);
  }

  lemma MulSign(n: int, k: int)
    requires n > 0
    ensures k >= 1 ==> n * k >= n
    ensures k <= -1 ==> n * k <= -n
  {
  }

  /** The colour blended into the corner. */
  function FillColour(img: Image, size: nat): Pixel {
    var ps := SampleRegion(img, size);
    Pixel(Average(ps, (p: Pixel) => p.r), Average(ps, (p: Pixel) => p.g), Average(ps, (p: Pixel) => p.b), 255)
  }

  /** Blend factor min(1, (dx + dy) / (1.5 size)): 0 at the corner's
      top-left pixel, growing towards the bottom-right. */
  function BlendFactor(dx: nat, dy: nat, size: nat): (t: real)
    requires size > 0
    ensures 0.0 <= t <= 1.0
  {
    MinReal(1.0, (dx + dy) as real / (size as real * 1.5))
  }

  /** `int(o * (1 - t) + a * t)` for non-negative channels. */
  function Mix(o: int, a: int, t: real): int {
    (o as real * (1.0 - t) + a as real * t).Floor
  }

  lemma MixBetween(o: int, a: int, t: real)
    requires 0.0 <= t <= 1.0
    ensures o <= a ==> o <= Mix(o, a, t) <= a
    ensures a <= o ==> a <= Mix(o, a, t) <= o
    ensures t == 0.0 ==> Mix(o, a, t) == o
    ensures t == 1.0 ==> Mix(o, a, t) == a
  {
    var v := o as real * (1.0 - t) + a as real * t;
    assert v == o as real + (a - o) as real * t;
    if o <= a {
      assert 0.0 <= (a - o) as real * t <= (a - o) as real;
    } else {
      assert (o - a) as real * t <= (o - a) as real;
    }
  }

  function FillPixel(o: Pixel, avg: Pixel, t: real): Pixel {
    Pixel(Mix(o.r, avg.r, t), Mix(o.g, avg.g, t), Mix(o.b, avg.b, t), o.a)
  }

  predicate InCorner(img: Image, size: nat, x: int, y: int) {
    Height(img) - size <= y < Height(img) && Width(img) - size <= x < Width(img)
  }

  /** `remove_watermark_fill`: the size-by-size corner is blended towards the
      average of the square above-left of it; everything else is untouched. */
  function FillMethodRemove(img: Image, size: nat): (r: Image)
    requires Rectangular(img) && size <= Width(img) && size <= Height(img)
    ensures IsRect(r, Width(img), Height(img))
    ensures forall y, x :: 0 <= y < Height(img) && 0 <= x < Width(img) && !InCorner(img, size, x, y) ==>
      r[y][x] == img[y][x]
    ensures forall y, x :: 0 <= y < Height(img) && 0 <= x < Width(img) && InCorner(img, size, x, y) ==>
      r[y][x] == FillPixel(img[y][x], FillColour(img, size),
                           BlendFactor(x - (Width(img) - size), y - (Height(img) - size), size))
  {
    var avg := FillColour(img, size);
    var w := Width(img);
    var h := Height(img);
    seq(h, y requires 0 <= y < h => seq(w, x requires 0 <= x < w =>
      if InCorner(img, size, x, y) then FillPixel(img[y][x], avg, BlendFactor(x - (w - size), y - (h - size), size))
      else img[y][x]))
  }

  /** Every blended channel lies between the original and the fill colour, so
      a valid image stays valid. */
  lemma FillKeepsChannels(img: Image, size: nat)
    requires Rectangular(img) && ValidImage(img) && size <= Width(img) && size <= Height(img)
    ensures ValidImage(FillMethodRemove(img, size))
  {
    var r := FillMethodRemove(img, size);
    var avg := FillColour(img, size);
    var ps := SampleRegion(img, size);
    forall i | 0 <= i < |ps| ensures ValidPixel(ps[i]) {
      assert ps[i] == PixelOr(img, Width(img) - size - SampleSide + i % SampleSide,
                                   Height(img) - size - SampleSide + i / SampleSide, OpaqueBlack);
    }
    AverageIsChannel(ps, (p: Pixel) => p.r);
    AverageIsChannel(ps, (p: Pixel) => p.g);
    AverageIsChannel(ps, (p: Pixel) => p.b);
    forall y, x | 0 <= y < |r| && 0 <= x < |r[y]| ensures ValidPixel(r[y][x]) {
      if InCorner(img, size, x, y) {
        var t := BlendFactor(x - (Width(img) - size), y - (Height(img) - size), size);
        MixBetween(img[y][x].r, avg.r, t);
        MixBetween(img[y][x].g, avg.g, t);
        MixBetween(img[y][x].b, avg.b, t);
      }
    }
  }

  /** The corner's top-left pixel keeps its colour, and from size 4 up the
      bottom-right pixel becomes exactly the fill colour. */
  lemma FillCornerEnds(img: Image, size: nat)
    requires Rectangular(img) && 0 < size <= Width(img) && size <= Height(img)
    ensures var r := FillMethodRemove(img, size);
      var x0 := Width(img) - size; var y0 := Height(img) - size;
      r[y0][x0] == img[y0][x0]
    ensures size >= 4 ==> var r := FillMethodRemove(img, size);
      var avg := FillColour(img, size);
      var p := img[Height(img) - 1][Width(img) - 1];
      r[Height(img) - 1][Width(img) - 1] == Pixel(avg.r, avg.g, avg.b, p.a)
  {
    FillCornerStart(img, size);
    if size >= 4 {
      FillCornerEnd(img, size);
    }
  }

  lemma FillCornerStart(img: Image, size: nat)
    requires Rectangular(img) && 0 < size <= Width(img) && size <= Height(img)
    ensures var x0 := Width(img) - size; var y0 := Height(img) - size;
      FillMethodRemove(img, size)[y0][x0] == img[y0][x0]
  {
    var avg := FillColour(img, size);
    var x0 := Width(img) - size;
    var y0 := Height(img) - size;
    var o := img[y0][x0];
    assert InCorner(img, size, x0, y0);
    assert FillMethodRemove(img, size)[y0][x0] == FillPixel(o, avg, BlendFactor(0, 0, size));
    assert BlendFactor(0, 0, size) == 0.0;
    MixBetween(o.r, avg.r, 0.0);
    MixBetween(o.g, avg.g, 0.0);
    MixBetween(o.b, avg.b, 0.0);
  }

  lemma FillCornerEnd(img: Image, size: nat)
    requires Rectangular(img) && 4 <= size <= Width(img) && size <= Height(img)
    ensures var avg := FillColour(img, size);
      var p := img[Height(img) - 1][Width(img) - 1];
      FillMethodRemove(img, size)[Height(img) - 1][Width(img) - 1] == Pixel(avg.r, avg.g, avg.b, p.a)
  {
    var avg := FillColour(img, size);
    var d := size - 1;
    var p := img[Height(img) - 1][Width(img) - 1];
    assert InCorner(img, size, Width(img) - 1, Height(img) - 1);
    assert FillMethodRemove(img, size)[Height(img) - 1][Width(img) - 1] == FillPixel(p, avg, BlendFactor(d, d, size));
    assert (d + d) as real >= size as real * 1.5;
    RatioAtLeastOne((d + d) as real, size as real * 1.5);
    assert BlendFactor(d, d, size) == 1.0;
    MixBetween(p.r, avg.r, 1.0);
    MixBetween(p.g, avg.g, 1.0);
    MixBetween(p.b, avg.b, 1.0);
  }

  lemma RatioAtLeastOne(a: real, b: real)
    requires 0.0 < b <= a
    ensures a / b >= 1.0
  {
    assert (a / b) * b == a;
  }

  /** With a uniformly coloured sample square the fill colour is that colour. */
  lemma FillColourOfUniformSample(img: Image, size: nat, c: Pixel)
    requires forall i :: 0 <= i < SampleSide * SampleSide ==> SampleRegion(img, size)[i] == c
    ensures FillColour(img, size) == Pixel(c.r, c.g, c.b, 255)
  {
    var ps := SampleRegion(img, size);
    AverageOfUniform(ps, (p: Pixel) => p.r, c.r);
    AverageOfUniform(ps, (p: Pixel) => p.g, c.g);
    AverageOfUniform(ps, (p: Pixel) => p.b, c.b);
  }

  // ----- clone -----

  /** `remove_watermark_clone`: the corner is overwritten by the square
      2*size pixels above it (black where that square leaves the image). */
  function CloneMethodRemove(img: Image, size: nat): (r: Image)
    requires Rectangular(img)
    ensures IsRect(r, Width(img), Height(img))
    ensures forall y, x :: 0 <= y < Height(img) && 0 <= x < Width(img) ==>
      r[y][x] == if InCorner(img, size, x, y) then PixelOr(img, x, y - 2 * size, OpaqueBlack) else img[y][x]
  {
    var w := Width(img);
    var h := Height(img);
    seq(h, y requires 0 <= y < h => seq(w, x requires 0 <= x < w =>
      if InCorner(img, size, x, y) then PixelOr(img, x, y - 2 * size, OpaqueBlack) else img[y][x]))
  }

  /** On an image at least three corners tall the cloned corner is an exact
      copy of real pixels, and applying the clone twice changes nothing more. */
  lemma CloneIdempotent(img: Image, size: nat)
    requires Rectangular(img) && 3 * size <= Height(img)
    ensures CloneMethodRemove(CloneMethodRemove(img, size), size) == CloneMethodRemove(img, size)
  {
    var r := CloneMethodRemove(img, size);
    var rr := CloneMethodRemove(r, size);
    RectDims(r, Width(img), Height(img));
    RectDims(rr, Width(img), Height(img));
    forall y | 0 <= y < |rr| ensures rr[y] == r[y] {
      forall x | 0 <= x < Width(img) ensures rr[y][x] == r[y][x] {
        if InCorner(img, size, x, y) {
          assert !InCorner(img, size, x, y - 2 * size);
        }
      }
    }
  }

  /** `main`: convert to RGB, then run the chosen method. */
  function RemoveWatermark(img: Image, opts: Options, resample: Resampler): (r: Result<Image, WatermarkError>)
    requires Rectangular(img)
    requires opts.how == FillMethod ==> opts.size <= Width(img) && opts.size <= Height(img)
    ensures r.Success? ==> IsRect(r.value, Width(img), Height(img))
    ensures r.Failure? <==> opts.how == CropMethod && (opts.size > Width(img) || opts.size > Height(img))
  {
    var rgb := ToRgb(img);
    RectDims(rgb, Width(img), Height(img));
    match opts.how
    case CropMethod => CropMethodRemove(rgb, opts.size, resample)
    case FillMethod => Success(FillMethodRemove(rgb, opts.size))
    case CloneMethod => Success(CloneMethodRemove(rgb, opts.size))
  }
}
