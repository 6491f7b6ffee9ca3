/** Raster images as the offline Python image scripts see them after
    `convert("RGBA")`: a rectangular grid of pixels with four 8-bit channels.
    Rows are indexed by y (top to bottom), columns by x (left to right). */
module Raster {

  datatype Pixel = Pixel(r: int, g: int, b: int, a: int)

  type Image = seq<seq<Pixel>>

  predicate IsChannel(v: int) { 0 <= v <= 255 }

  predicate ValidPixel(p: Pixel) {
    IsChannel(p.r) && IsChannel(p.g) && IsChannel(p.b) && IsChannel(p.a)
  }

  /** `img` is exactly `w` pixels wide and `h` pixels high. */
  predicate IsRect(img: Image, w: nat, h: nat) {
    |img| == h && forall y :: 0 <= y < h ==> |img[y]| == w
  }

  /** Every channel of every pixel is in 0..255. */
  predicate ValidImage(img: Image) {
    forall y, x :: 0 <= y < |img| && 0 <= x < |img[y]| ==> ValidPixel(img[y][x])
  }

  function Height(img: Image): nat { |img| }

  function Width(img: Image): nat { if |img| == 0 then 0 else |img[0]| }

  predicate Rectangular(img: Image) { IsRect(img, Width(img), Height(img)) }

  /** A non-empty grid of known shape reports that shape. */
  lemma RectDims(img: Image, w: nat, h: nat)
    requires IsRect(img, w, h)
    ensures Rectangular(img) && Height(img) == h
    ensures h > 0 ==> Width(img) == w
  {
  }

  const Transparent: Pixel := Pixel(0, 0, 0, 0)

  /** A w-by-h image filled with one colour (PIL's `Image.new`). */
  function Blank(w: nat, h: nat, fill: Pixel): (r: Image)
    ensures IsRect(r, w, h)
    ensures forall y, x :: 0 <= y < h && 0 <= x < w ==> r[y][x] == fill
  {
    seq(h, _ => seq(w, _ => fill))
  }

  /** Apply a per-pixel transform everywhere; geometry is untouched. */
  function MapPixels(img: Image, f: Pixel -> Pixel): (r: Image)
    ensures |r| == |img|
    ensures forall y :: 0 <= y < |img| ==> |r[y]| == |img[y]|
    ensures forall y, x :: 0 <= y < |img| && 0 <= x < |img[y]| ==> r[y][x] == f(img[y][x])
  {
    seq(|img|, y requires 0 <= y < |img| => seq(|img[y]|, x requires 0 <= x < |img[y]| => f(img[y][x])))
  }

  /** A crop box: columns [x0, x1) and rows [y0, y1). */
  datatype Box = Box(x0: nat, y0: nat, x1: nat, y1: nat)

  /** The sub-image inside `box`. */
  function Crop(img: Image, box: Box): (r: Image)
    requires Rectangular(img) && box.x0 <= box.x1 <= Width(img) && box.y0 <= box.y1 <= Height(img)
    ensures IsRect(r, box.x1 - box.x0, box.y1 - box.y0)
    ensures forall j, i :: 0 <= j < box.y1 - box.y0 && 0 <= i < box.x1 - box.x0 ==>
      r[j][i] == img[box.y0 + j][box.x0 + i]
  {
    seq(box.y1 - box.y0, j requires 0 <= j < box.y1 - box.y0 => img[box.y0 + j][box.x0 .. box.x1])
  }

  /** The pixel at (x, y), or transparent black outside the image: what PIL's
      `crop` yields for a box that reaches past the image border. */
  function PixelOrBlack(img: Image, x: int, y: int): Pixel {
    PixelOr(img, x, y, Transparent)
  }

  /** The pixel at (x, y), or `fill` outside the image. */
  function PixelOr(img: Image, x: int, y: int, fill: Pixel): Pixel {
    if 0 <= y < |img| && 0 <= x < |img[y]| then img[y][x] else fill
  }

  /** numpy's `astype(np.uint8)` on a value already inside [0, 255]. */
  function ToByte(v: real): int { v.Floor }

  function MinReal(a: real, b: real): real { if a <= b then a else b }

  function ClampReal(v: real, lo: real, hi: real): real
    requires lo <= hi
  {
    if v < lo then lo else if v > hi then hi else v
  }

  /** An opaque resampling filter (PIL's LANCZOS `resize`): only the size of its
      output is known, which is all the scripts rely on. */
  type Resampler = f: (Image, nat, nat) -> Image | forall img, w, h :: IsRect(f(img, w, h), w, h)
    witness (img: Image, w: nat, h: nat) => Blank(w, h, Transparent)
}
