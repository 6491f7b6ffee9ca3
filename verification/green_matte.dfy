/** Green-dominant chroma-key matting: `remove_green_background` in
    scripts/build-spritesheet.py, repeated verbatim (behind a numpy check) in
    scripts/ingest-image.py. The numpy float32 arithmetic is modelled in `real`
    and every `astype(np.uint8)` as Floor. */
module GreenMatte {
  import opened Raster

  // Thresholds of the green-screen test, as written in both scripts.
  const DominantBlueMax: int := 100
  const BackgroundGreenMin: int := 150
  const StrongGreenMin: int := 180
  const StrongRedMargin: int := 30
  const StrongBlueMargin: int := 100
  const EdgeAlphaMax: int := 240

  /** Green is the strictly highest channel and blue is low. */
  predicate GreenDominant(p: Pixel) {
    p.g > p.r && p.g > p.b && p.b < DominantBlueMax
  }

  /** Bright green-dominant pixels are definite background. */
  predicate DefiniteBackground(p: Pixel) {
    GreenDominant(p) && p.g > BackgroundGreenMin
  }

  /** Saturated green that the ratio test may miss. */
  predicate StrongGreen(p: Pixel) {
    p.g > StrongGreenMin && p.g > p.r + StrongRedMargin && p.g > p.b + StrongBlueMargin
  }

  /** Forced to alpha 0 by one of the two background tests. */
  predicate Keyed(p: Pixel) { DefiniteBackground(p) || StrongGreen(p) }

  /** g / (r + b + 1), and 0 when there is no green at all. */
  function GreenRatio(p: Pixel): real
    requires ValidPixel(p)
  {
    if p.g > 0 then p.g as real / (p.r + p.b + 1) as real else 0.0
  }

  /** Position of the ratio inside the soft band 0.8 .. 1.5, clipped to [0, 1]. */
  function EdgeGreenness(p: Pixel): real
    requires ValidPixel(p)
  {
    ClampReal((GreenRatio(p) - 0.8) / 0.7, 0.0, 1.0)
  }

  function AlphaFactor(p: Pixel): real
    requires ValidPixel(p)
  {
    if StrongGreen(p) then 0.0
    else if DefiniteBackground(p) then 0.0
    else 1.0 - EdgeGreenness(p) * 0.8
  }

  function MatteAlpha(p: Pixel): int
    requires ValidPixel(p)
  {
    ToByte(AlphaFactor(p) * 255.0)
  }

  /** A soft edge pixel: partially transparent but below the defringe cut-off. */
  predicate SoftEdge(alpha: int) { 0 < alpha < EdgeAlphaMax }

  /** Output of matting one pixel: red and blue copied, alpha computed from
      r, g, b only, green capped on soft edges. */
  function MattePixel(p: Pixel): (q: Pixel)
    requires ValidPixel(p)
    ensures ValidPixel(q)
    ensures q.r == p.r && q.b == p.b
    ensures q.a == 0 <==> Keyed(p)
    ensures !Keyed(p) ==> q.a >= 51
    ensures !Keyed(p) && GreenRatio(p) <= 0.8 ==> q.a == 255
    ensures SoftEdge(q.a) ==> q.g <= p.g && q.g as real <= (p.r + p.b) as real / 2.0 * 1.2
    ensures !SoftEdge(q.a) ==> q.g == p.g
  {
    var alpha := MatteAlpha(p);
    var green := if SoftEdge(alpha)
      then ToByte(MinReal(p.g as real, (p.r + p.b) as real / 2.0 * 1.2))
      else p.g;
    Pixel(p.r, green, p.b, alpha)
  }

  /** The whole-image matte: same size, every pixel matted independently. */
  function Matte(img: Image): (r: Image)
    requires ValidImage(img)
    ensures |r| == |img| && forall y :: 0 <= y < |img| ==> |r[y]| == |img[y]|
    ensures ValidImage(r)
    ensures forall y, x :: 0 <= y < |img| && 0 <= x < |img[y]| ==>
      r[y][x].r == img[y][x].r && r[y][x].b == img[y][x].b
    ensures forall y, x :: 0 <= y < |img| && 0 <= x < |img[y]| ==>
      (r[y][x].a == 0 <==> Keyed(img[y][x]))
  {
    seq(|img|, y requires 0 <= y < |img| =>
      seq(|img[y]|, x requires 0 <= x < |img[y]| => MattePixel(img[y][x])))
  }

  /** The input alpha channel plays no part: matting a pixel gives the same
      result whatever its alpha was. */
  lemma MatteIgnoresInputAlpha(p: Pixel, alpha: int)
    requires ValidPixel(p) && IsChannel(alpha)
    ensures MattePixel(p.(a := alpha)) == MattePixel(p)
  {
  }

  /** Re-matting is a no-op on every pixel that was not a soft edge: keyed
      pixels stay at alpha 0 and opaque ones are unchanged. */
  lemma MatteStableOffEdges(p: Pixel)
    requires ValidPixel(p)
    requires !SoftEdge(MattePixel(p).a)
    ensures MattePixel(MattePixel(p)) == MattePixel(p)
  {
    var q := MattePixel(p);
    assert q.r == p.r && q.g == p.g && q.b == p.b;
    MatteIgnoresInputAlpha(p, q.a);
    assert q == p.(a := q.a);
  }

  /** A 10x10 image of pure green (0,255,0) comes out fully transparent. */
  lemma PureGreenIsRemoved()
    ensures var out := Matte(Blank(10, 10, Pixel(0, 255, 0, 255)));
      forall y, x :: 0 <= y < 10 && 0 <= x < 10 ==> out[y][x].a == 0
  {
  }

  /** A 10x10 near-black (10,10,10) image keeps full opacity and its colours. */
  lemma NearBlackIsKept()
    ensures var out := Matte(Blank(10, 10, Pixel(10, 10, 10, 255)));
      forall y, x :: 0 <= y < 10 && 0 <= x < 10 ==> out[y][x] == Pixel(10, 10, 10, 255)
  {
    var p := Pixel(10, 10, 10, 255);
    assert GreenRatio(p) == 10.0 / 21.0;
    assert MattePixel(p) == p;
  }
}
