/** scripts/generate-color-variants.py: tint the white body of the clown
    sprite sheet while keeping its shading. */
module Recolor {
  import opened Raster

  datatype Rgb = Rgb(r: int, g: int, b: int)

  predicate ValidRgb(c: Rgb) { IsChannel(c.r) && IsChannel(c.g) && IsChannel(c.b) }

  /** The variant table in its declaration order. */
  const Variants: seq<(string, Rgb)> := [
    ("white", Rgb(255, 255, 255)),
    ("garnet", Rgb(128, 0, 32)),
    ("blue", Rgb(100, 149, 237)),
    ("pink", Rgb(255, 182, 193)),
    ("green", Rgb(144, 238, 144)),
    ("yellow", Rgb(255, 255, 150)),
    ("purple", Rgb(186, 135, 206)),
    ("orange", Rgb(255, 200, 100))
  ]

  const GrayTolerance: int := 40
  /** The outline cut-off: mean brightness above 60, i.e. channel sum above 180. */
  const DarkSumLimit: int := 180

  function Diff(a: int, b: int): nat { if a < b then b - a else a - b }

  /** R, G and B pairwise closer than 40. */
  predicate Grayish(p: Pixel) {
    Diff(p.r, p.g) < GrayTolerance && Diff(p.g, p.b) < GrayTolerance && Diff(p.r, p.b) < GrayTolerance
  }

  /** Three times the mean brightness; comparisons on the mean are made on this sum. */
  function BrightnessSum(p: Pixel): int { p.r + p.g + p.b }

  /** The red-nose test: high red, low green and blue. */
  predicate Reddish(p: Pixel) { p.r > 150 && p.g < 100 && p.b < 100 }

  /** Pixels that get tinted: grayish, brighter than the outline, visible, not the nose. */
  predicate RecolorMask(p: Pixel) {
    Grayish(p) && BrightnessSum(p) > DarkSumLimit && p.a > 0 && !Reddish(p)
  }

  /** One target channel scaled by the pixel's brightness on a 0..1 scale,
      mean/255 * t, truncated to an integer: (sum * t) / 765 exactly. */
  function Tint(p: Pixel, t: int): int { (BrightnessSum(p) * t) / 765 }

  /** v is (sum/765)·t rounded down: the largest v with 765·v <= sum·t. */
  predicate FlooredShare(v: int, sum: int, t: int) {
    765 * v <= sum * t < 765 * (v + 1)
  }

  function RecolorPixel(p: Pixel, target: Rgb): (q: Pixel)
    requires ValidPixel(p) && ValidRgb(target)
    ensures ValidPixel(q)
    ensures q.a == p.a
    ensures !RecolorMask(p) ==> q == p
    ensures RecolorMask(p) ==> q.r <= target.r && q.g <= target.g && q.b <= target.b
    ensures RecolorMask(p) ==> (FlooredShare(q.r, BrightnessSum(p), target.r)
      && FlooredShare(q.g, BrightnessSum(p), target.g) && FlooredShare(q.b, BrightnessSum(p), target.b))
  {
    TintBounds(p, target.r);
    TintBounds(p, target.g);
    TintBounds(p, target.b);
    if RecolorMask(p) then Pixel(Tint(p, target.r), Tint(p, target.g), Tint(p, target.b), p.a)
    else p
  }

  /** The scaled channel never leaves 0..t, so the source's clip to 0..255 never binds. */
  lemma TintBounds(p: Pixel, t: int)
    requires ValidPixel(p) && IsChannel(t)
    ensures 0 <= Tint(p, t) <= t
  {
    MulMono(BrightnessSum(p), 765, t);
  }

  lemma MulMono(u: int, v: int, k: int)
    requires 0 <= u <= v && 0 <= k
    ensures 0 <= u * k <= v * k
  {
  }

  /** `replace_white_with_color`, pixel by pixel; geometry and alpha kept. */
  function ReplaceWhiteWithColor(img: Image, target: Rgb): (r: Image)
    requires ValidImage(img) && ValidRgb(target)
    ensures |r| == |img| && forall y :: 0 <= y < |img| ==> |r[y]| == |img[y]|
    ensures ValidImage(r)
    ensures forall y, x :: 0 <= y < |img| && 0 <= x < |img[y]| ==>
      r[y][x].a == img[y][x].a && (RecolorMask(img[y][x]) || r[y][x] == img[y][x])
    ensures forall y, x :: 0 <= y < |img| && 0 <= x < |img[y]| ==> r[y][x] == RecolorPixel(img[y][x], target)
  {
    seq(|img|, y requires 0 <= y < |img| =>
      seq(|img[y]|, x requires 0 <= x < |img[y]| => RecolorPixel(img[y][x], target)))
  }

  /** The recolour is local: recolouring the rows of a and then b is
      recolouring a and then b. */
  lemma ReplaceStacks(a: Image, b: Image, target: Rgb)
    requires ValidImage(a) && ValidImage(b) && ValidRgb(target)
    ensures ValidImage(a + b)
    ensures ReplaceWhiteWithColor(a + b, target) == ReplaceWhiteWithColor(a, target) + ReplaceWhiteWithColor(b, target)
  {
    var ab := a + b;
    assert ValidImage(ab) by {
      forall y, x | 0 <= y < |ab| && 0 <= x < |ab[y]| ensures ValidPixel(ab[y][x]) {
        if y < |a| { assert ab[y] == a[y]; } else { assert ab[y] == b[y - |a|]; }
      }
    }
    var lhs := ReplaceWhiteWithColor(ab, target);
    var rhs := ReplaceWhiteWithColor(a, target) + ReplaceWhiteWithColor(b, target);
    forall y | 0 <= y < |ab| ensures lhs[y] == rhs[y] {
      if y < |a| { assert ab[y] == a[y]; } else { assert ab[y] == b[y - |a|]; }
    }
  }

  /** The nose test is implied away: a grayish pixel is never reddish, so the
      mask is just grayish, bright and visible. */
  lemma NoseExclusionRedundant(p: Pixel)
    ensures RecolorMask(p) <==> Grayish(p) && BrightnessSum(p) > DarkSumLimit && p.a > 0
  {
  }

  /** Pure white becomes exactly the target colour. */
  lemma WhiteBecomesTarget(a: int, target: Rgb)
    requires IsChannel(a) && a > 0 && ValidRgb(target)
    ensures RecolorPixel(Pixel(255, 255, 255, a), target) == Pixel(target.r, target.g, target.b, a)
  {
  }

  /** Shading survives: of two recoloured pixels, the brighter one gets
      channels at least as large. */
  lemma TintMonotone(p: Pixel, q: Pixel, target: Rgb)
    requires ValidPixel(p) && ValidPixel(q) && ValidRgb(target)
    requires RecolorMask(p) && RecolorMask(q) && BrightnessSum(p) <= BrightnessSum(q)
    ensures RecolorPixel(p, target).r <= RecolorPixel(q, target).r
    ensures RecolorPixel(p, target).g <= RecolorPixel(q, target).g
    ensures RecolorPixel(p, target).b <= RecolorPixel(q, target).b
  {
    MulMono(BrightnessSum(p), BrightnessSum(q), target.r);
    MulMono(BrightnessSum(p), BrightnessSum(q), target.g);
    MulMono(BrightnessSum(p), BrightnessSum(q), target.b);
  }

  /** A true gray recoloured with white comes back as itself (exact arithmetic). */
  lemma GrayWithWhiteIsIdentity(v: int, a: int)
    requires 60 < v <= 255 && 0 < a <= 255
    ensures RecolorPixel(Pixel(v, v, v, a), Rgb(255, 255, 255)) == Pixel(v, v, v, a)
  {
    var p := Pixel(v, v, v, a);
    assert BrightnessSum(p) * 255 == 765 * v;
  }

  /** Tinting with white is not the identity: it flattens a grayish pixel to
      its brightness, which is why the white variant is a plain copy. */
  lemma WhiteTintIsNotIdentity()
    ensures RecolorPixel(Pixel(200, 210, 220, 255), Rgb(255, 255, 255)) == Pixel(210, 210, 210, 255)
  {
  }

  function OutputName(name: string): string { "clown-" + name + ".png" }

  /** `generate_variants`: one output per table entry, in table order; the
      white entry is a copy of the source, every other entry a recolouring. */
  function GenerateVariants(img: Image): (out: seq<(string, Image)>)
    requires ValidImage(img)
    ensures |out| == |Variants|
    ensures forall i :: 0 <= i < |out| ==> out[i].0 == OutputName(Variants[i].0)
    ensures forall i :: 0 <= i < |out| ==>
      out[i].1 == if Variants[i].0 == "white" then img else ReplaceWhiteWithColor(img, Variants[i].1)
  {
    seq(|Variants|, i requires 0 <= i < |Variants| =>
      (OutputName(Variants[i].0),
       if Variants[i].0 == "white" then img else ReplaceWhiteWithColor(img, Variants[i].1)))
  }
}
