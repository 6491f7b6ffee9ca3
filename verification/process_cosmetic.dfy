/** scripts/process-cosmetic.py: sampled-colour matting, crop to content,
    fit-resize, and the default output naming of `process_cosmetic`. */
module Cosmetic {
  import opened Raster
  import opened Wrappers

  const DefaultTolerance: int := 30
  const DefaultMaxSize: nat := 64
  /** The backdrop colour is read from row 5, column 5. */
  const SampleRow: nat := 5
  const SampleCol: nat := 5

  datatype CosmeticError =
    | SampleOutOfRange   // `data[5, 5]` raises IndexError on a smaller image
    | EmptyImage         // `max_size / width` divides by zero
    | ZeroSide           // PIL's `resize` raises ValueError for a side of 0

  function Abs(v: int): nat { if v < 0 then -v else v }

  /** Each of R, G, B lies strictly within `tolerance` of the sampled colour. */
  predicate NearColour(p: Pixel, bg: Pixel, tolerance: int) {
    Abs(p.r - bg.r) < tolerance && Abs(p.g - bg.g) < tolerance && Abs(p.b - bg.b) < tolerance
  }

  function KeyPixel(p: Pixel, bg: Pixel, tolerance: int): Pixel {
    if NearColour(p, bg, tolerance) then Transparent else p
  }

  /** Hard mask against the colour sampled at (5, 5): close pixels become
      (0,0,0,0), all others keep all four channels. */
  function SampledMatte(img: Image, tolerance: int): (r: Result<Image, CosmeticError>)
    requires Rectangular(img)
    ensures r.Failure? <==> Height(img) <= SampleRow || Width(img) <= SampleCol
    ensures r.Success? ==> IsRect(r.value, Width(img), Height(img))
    ensures r.Success? ==> KeyedAgainst(img, r.value, img[SampleRow][SampleCol], tolerance)
  {
    if Height(img) <= SampleRow || Width(img) <= SampleCol then Failure(SampleOutOfRange)
    else
      var bg := img[SampleRow][SampleCol];
      Success(MapPixels(img, p => KeyPixel(p, bg, tolerance)))
  }

  /** r is img with every pixel near bg made transparent and the rest kept. */
  predicate KeyedAgainst(img: Image, r: Image, bg: Pixel, tolerance: int)
    requires Rectangular(img) && IsRect(r, Width(img), Height(img))
  {
    forall y, x :: 0 <= y < Height(img) && 0 <= x < Width(img) ==>
      if NearColour(img[y][x], bg, tolerance) then r[y][x] == Transparent else r[y][x] == img[y][x]
  }

  /** With a positive tolerance the sampled pixel itself is always keyed out. */
  lemma SampleIsKeyed(img: Image, tolerance: int)
    requires Rectangular(img) && Height(img) > SampleRow && Width(img) > SampleCol
    requires tolerance > 0
    ensures SampledMatte(img, tolerance).value[SampleRow][SampleCol] == Transparent
  {
    var r := SampledMatte(img, tolerance).value;
    assert KeyedAgainst(img, r, img[SampleRow][SampleCol], tolerance);
  }

  // ----- crop_to_content: bounding box of the non-transparent pixels -----

  predicate HasContent(p: Pixel) { p.a != 0 }

  predicate RowHasContent(row: seq<Pixel>) {
    exists x :: 0 <= x < |row| && HasContent(row[x])
  }

  predicate ColHasContent(img: Image, x: nat)
    requires Rectangular(img) && x < Width(img)
  {
    exists y :: 0 <= y < Height(img) && HasContent(img[y][x])
  }

  predicate AnyContent(img: Image) {
    exists y :: 0 <= y < |img| && RowHasContent(img[y])
  }

  /** First row at or after `i` holding content, or |img|. */
  function FirstRow(img: Image, i: nat): (k: nat)
    requires i <= |img|
    ensures i <= k <= |img|
    ensures forall y :: i <= y < k ==> !RowHasContent(img[y])
    ensures k < |img| ==> RowHasContent(img[k])
    decreases |img| - i
  {
    if i == |img| then i
    else if RowHasContent(img[i]) then i
    else FirstRow(img, i + 1)
  }

  /** One past the last row below `j` holding content, or 0. */
  function EndRow(img: Image, j: nat): (k: nat)
    requires j <= |img|
    ensures k <= j
    ensures forall y :: k <= y < j ==> !RowHasContent(img[y])
    ensures k > 0 ==> RowHasContent(img[k - 1])
  {
    if j == 0 then 0
    else if RowHasContent(img[j - 1]) then j
    else EndRow(img, j - 1)
  }

  function FirstCol(img: Image, i: nat): (k: nat)
    requires Rectangular(img) && i <= Width(img)
    ensures i <= k <= Width(img)
    ensures forall x :: i <= x < k ==> !ColHasContent(img, x)
    ensures k < Width(img) ==> ColHasContent(img, k)
    decreases Width(img) - i
  {
    if i == Width(img) then i
    else if ColHasContent(img, i) then i
    else FirstCol(img, i + 1)
  }

  function EndCol(img: Image, j: nat): (k: nat)
    requires Rectangular(img) && j <= Width(img)
    ensures k <= j
    ensures forall x :: k <= x < j ==> !ColHasContent(img, x)
    ensures k > 0 ==> ColHasContent(img, k - 1)
  {
    if j == 0 then 0
    else if ColHasContent(img, j - 1) then j
    else EndCol(img, j - 1)
  }

  lemma ContentInBox(img: Image, y: nat, x: nat)
    requires Rectangular(img) && y < Height(img) && x < Width(img) && HasContent(img[y][x])
    ensures FirstRow(img, 0) <= y < EndRow(img, |img|)
    ensures FirstCol(img, 0) <= x < EndCol(img, Width(img))
  {
    assert RowHasContent(img[y]);
    assert ColHasContent(img, x);
  }

  lemma AllContentInBox(img: Image)
    requires Rectangular(img)
    ensures forall y, x :: 0 <= y < Height(img) && 0 <= x < Width(img) && HasContent(img[y][x]) ==>
      FirstRow(img, 0) <= y < EndRow(img, |img|) && FirstCol(img, 0) <= x < EndCol(img, Width(img))
  {
    forall y, x | 0 <= y < Height(img) && 0 <= x < Width(img) && HasContent(img[y][x])
      ensures FirstRow(img, 0) <= y < EndRow(img, |img|) && FirstCol(img, 0) <= x < EndCol(img, Width(img))
    {
      ContentInBox(img, y, x);
    }
  }

  /** PIL's `getbbox()` on an RGBA image: the tight box around pixels with
      non-zero alpha, or None when there are none. */
  function ContentBox(img: Image): (box: Option<Box>)
    requires Rectangular(img)
    ensures box.None? <==> !AnyContent(img)
    ensures box.Some? ==> box.value.x0 < box.value.x1 <= Width(img) && box.value.y0 < box.value.y1 <= Height(img)
    ensures box.Some? ==> HoldsContent(img, box.value)
    ensures box.Some? ==> Tight(img, box.value)
  {
    var y0 := FirstRow(img, 0);
    if y0 == |img| then None
    else
      assert RowHasContent(img[y0]);
      var xa :| 0 <= xa < |img[y0]| && HasContent(img[y0][xa]);
      BoxAround(img, y0, xa);
      AllContentInBox(img);
      var b := Box(FirstCol(img, 0), y0, EndCol(img, Width(img)), EndRow(img, |img|));
      assert HoldsContent(img, b);
      Some(b)
  }

  /** Every pixel of img with content lies inside box. */
  predicate HoldsContent(img: Image, box: Box)
    requires Rectangular(img)
  {
    forall y, x :: 0 <= y < Height(img) && 0 <= x < Width(img) && HasContent(img[y][x]) ==>
      box.x0 <= x < box.x1 && box.y0 <= y < box.y1
  }

  /** Around any content pixel the rows and columns found form a non-empty,
      tight box. */
  lemma BoxAround(img: Image, y: nat, x: nat)
    requires Rectangular(img) && y < Height(img) && x < Width(img) && HasContent(img[y][x])
    ensures var b := Box(FirstCol(img, 0), FirstRow(img, 0), EndCol(img, Width(img)), EndRow(img, |img|));
      b.x0 < b.x1 <= Width(img) && b.y0 < b.y1 <= Height(img) && Tight(img, b)
  {
    ContentInBox(img, y, x);
    var x0, y0, x1, y1 := FirstCol(img, 0), FirstRow(img, 0), EndCol(img, Width(img)), EndRow(img, |img|);
    assert y0 < |img| && 0 < y1;
    assert x0 < Width(img) && 0 < x1;
  }

  /** Each border row and column of the box holds content, so no smaller box
      contains all of it. */
  predicate Tight(img: Image, box: Box)
    requires Rectangular(img) && box.x0 < box.x1 <= Width(img) && box.y0 < box.y1 <= Height(img)
  {
    && RowHasContent(img[box.y0]) && RowHasContent(img[box.y1 - 1])
    && ColHasContent(img, box.x0) && ColHasContent(img, box.x1 - 1)
  }

  /** r is img cropped to box: of the box's size, and every pixel of img with
      content lies in the box and sits in r shifted to the corner. */
  predicate CroppedTo(img: Image, r: Image, box: Box)
    requires Rectangular(img) && box.x0 <= box.x1 && box.y0 <= box.y1
  {
    && IsRect(r, box.x1 - box.x0, box.y1 - box.y0)
    && forall y, x :: 0 <= y < Height(img) && 0 <= x < Width(img) && HasContent(img[y][x]) ==>
         && box.y0 <= y < box.y1 && box.x0 <= x < box.x1
         && r[y - box.y0][x - box.x0] == img[y][x]
  }

  /** `crop_to_content`: unchanged when fully transparent, otherwise the crop
      to the content box, which keeps every non-transparent pixel. */
  function CropToContent(img: Image): (r: Image)
    requires Rectangular(img)
    ensures !AnyContent(img) ==> r == img
    ensures AnyContent(img) ==> IsCropOf(img, r, ContentBox(img).value)
  {
    match ContentBox(img)
    case None => img
    case Some(box) => Crop(img, box)
  }

  /** The crop keeps every pixel with content, at its place in the box. */
  lemma CropKeepsContent(img: Image)
    requires Rectangular(img) && AnyContent(img)
    ensures CroppedTo(img, CropToContent(img), ContentBox(img).value)
  {
    CropKeepsBoxed(img, ContentBox(img).value);
  }

  /** r is exactly the part of img inside box, moved to the corner. */
  predicate IsCropOf(img: Image, r: Image, box: Box)
    requires Rectangular(img) && box.x0 <= box.x1 <= Width(img) && box.y0 <= box.y1 <= Height(img)
  {
    && IsRect(r, box.x1 - box.x0, box.y1 - box.y0)
    && forall j, i :: 0 <= j < box.y1 - box.y0 && 0 <= i < box.x1 - box.x0 ==> r[j][i] == img[box.y0 + j][box.x0 + i]
  }

  /** Cropping to a box that holds all the content keeps every content pixel. */
  lemma CropKeepsBoxed(img: Image, box: Box)
    requires Rectangular(img) && box.x0 <= box.x1 <= Width(img) && box.y0 <= box.y1 <= Height(img)
    requires HoldsContent(img, box)
    ensures CroppedTo(img, Crop(img, box), box)
    ensures IsCropOf(img, Crop(img, box), box)
  {
    var r := Crop(img, box);
    forall y, x | 0 <= y < Height(img) && 0 <= x < Width(img) && HasContent(img[y][x])
      ensures r[y - box.y0][x - box.x0] == img[y][x]
    {
      var j, i := y - box.y0, x - box.x0;
      assert r[j][i] == img[box.y0 + j][box.x0 + i];
    }
  }

  // ----- resize_to_fit -----

  /** Scale factor min(max/width, max/height) of `resize_to_fit`. */
  function FitScale(w: nat, h: nat, maxSize: nat): real
    requires w > 0 && h > 0
  {
    MinReal(maxSize as real / w as real, maxSize as real / h as real)
  }

  /** Target size of `resize_to_fit`: unchanged when the scale is at least 1,
      otherwise both sides scaled by the same factor and truncated. */
  function FitSize(w: nat, h: nat, maxSize: nat): (r: Result<(nat, nat), CosmeticError>)
    ensures r.Failure? <==> w == 0 || h == 0
    ensures r.Success? && w <= maxSize && h <= maxSize ==> r.value == (w, h)
    ensures r.Success? ==> r.value.0 <= w && r.value.1 <= h
    ensures r.Success? && (w > maxSize || h > maxSize) ==> r.value.0 <= maxSize && r.value.1 <= maxSize
  {
    if w == 0 || h == 0 then Failure(EmptyImage)
    else
      var s := FitScale(w, h, maxSize);
      FitScaleBelowOne(w, h, maxSize);
      if s < 1.0 then
        Success((ScaledSide(w, s, maxSize), ScaledSide(h, s, maxSize)))
      else
        Success((w, h))
  }

  /** One side scaled by the fit factor, truncated to a whole pixel count. */
  function ScaledSide(w: nat, s: real, maxSize: nat): (r: nat)
    requires w > 0 && 0.0 <= s < 1.0 && s <= maxSize as real / w as real
    ensures r <= w && r <= maxSize
  {
    ScaledSideWithin(w, s, maxSize);
    FloorWithin(w as real * s, MinInt(w, maxSize));
    (w as real * s).Floor
  }

  function MinInt(a: int, b: int): int { if a <= b then a else b }

  lemma FloorWithin(v: real, bound: int)
    requires 0.0 <= v <= bound as real
    ensures 0 <= v.Floor <= bound
  {
  }

  lemma FitScaleBelowOne(w: nat, h: nat, maxSize: nat)
    requires w > 0 && h > 0
    ensures FitScale(w, h, maxSize) < 1.0 <==> w > maxSize || h > maxSize
  {
    RatioBelowOne(maxSize, w);
    RatioBelowOne(maxSize, h);
  }

  lemma FitBound(w: nat, h: nat, maxSize: nat)
    requires w > 0 && h > 0 && FitScale(w, h, maxSize) < 1.0
    ensures var s := FitScale(w, h, maxSize);
      0.0 <= w as real * s <= MinInt(w, maxSize) as real && 0.0 <= h as real * s <= MinInt(h, maxSize) as real
  {
    var s := FitScale(w, h, maxSize);
    RatioCancels(maxSize, w);
    RatioCancels(maxSize, h);
    assert 0.0 <= s <= maxSize as real / w as real && s <= maxSize as real / h as real;
    ScaledSideWithin(w, s, maxSize);
    ScaledSideWithin(h, s, maxSize);
  }

  /** One side scaled by a factor below 1 and below max/side. */
  lemma ScaledSideWithin(w: nat, s: real, maxSize: nat)
    requires w > 0 && 0.0 <= s < 1.0 && s <= maxSize as real / w as real
    ensures 0.0 <= w as real * s <= MinInt(w, maxSize) as real
  {
    RatioCancels(maxSize, w);
    MulMono(w as real, s, maxSize as real / w as real);
    MulMono(w as real, s, 1.0);
  }

  lemma RatioCancels(m: nat, w: nat)
    requires w > 0
    ensures w as real * (m as real / w as real) == m as real
    ensures m as real / w as real >= 0.0
  {
  }

  lemma RatioBelowOne(m: nat, w: nat)
    requires w > 0
    ensures m as real / w as real < 1.0 <==> w > m
  {
    var a := m as real / w as real;
    RatioCancels(m, w);
    if a < 1.0 {
      MulStrict(w as real, a, 1.0);
    } else {
      MulMono(w as real, 1.0, a);
    }
  }

  lemma MulMono(k: real, u: real, v: real)
    requires 0.0 <= k && 0.0 <= u <= v
    ensures 0.0 <= k * u <= k * v
  {
  }

  lemma MulStrict(k: real, u: real, v: real)
    requires 0.0 < k && u < v
    ensures k * u < k * v
  {
  }

  /** `resize_to_fit` with the opaque LANCZOS filter: the image itself when it
      already fits, otherwise a resampled image of the fitted size, which PIL
      refuses when a side truncates to 0. */
  function ResizeToFit(img: Image, maxSize: nat, resample: Resampler): (r: Result<Image, CosmeticError>)
    requires Rectangular(img)
    ensures r.Failure? <==> Width(img) == 0 || Height(img) == 0 || ZeroFitted(Width(img), Height(img), maxSize)
    ensures 0 < Width(img) <= maxSize && 0 < Height(img) <= maxSize ==> r == Success(img)
    ensures r.Success? ==> Rectangular(r.value) && 0 < Width(r.value) <= maxSize && 0 < Height(r.value) <= maxSize
    ensures r.Success? && r.value != img ==>
      IsRect(r.value, FitSize(Width(img), Height(img), maxSize).value.0, FitSize(Width(img), Height(img), maxSize).value.1)
  {
    match FitSize(Width(img), Height(img), maxSize)
    case Failure(e) => Failure(e)
    case Success(size) =>
      if size == (Width(img), Height(img)) then Success(img)
      else if size.0 == 0 || size.1 == 0 then Failure(ZeroSide)
      else
        var out := resample(img, size.0, size.1);
        RectDims(out, size.0, size.1);
        Success(out)
  }

  /** The fitted size has a side of 0. */
  predicate ZeroFitted(w: nat, h: nat, maxSize: nat) {
    FitSize(w, h, maxSize).Success? && (FitSize(w, h, maxSize).value.0 == 0 || FitSize(w, h, maxSize).value.1 == 0)
  }

  /** An image much wider than tall shrinks to a height of 0, which PIL's
      `resize` rejects: 1000×1 at 64 is an error. */
  lemma TooThinFails(img: Image, maxSize: nat, resample: Resampler)
    requires Rectangular(img) && Width(img) > maxSize && Height(img) > 0
    requires Height(img) * maxSize < Width(img)
    ensures ResizeToFit(img, maxSize, resample) == Failure(ZeroSide)
  {
    var w, h := Width(img), Height(img);
    var s := FitScale(w, h, maxSize);
    FitScaleBelowOne(w, h, maxSize);
    assert s <= maxSize as real / w as real;
    ThinSideBelowOne(w, h, maxSize, s);
  }

  lemma ThinSideBelowOne(w: nat, h: nat, maxSize: nat, s: real)
    requires w > 0 && h > 0 && h * maxSize < w
    requires 0.0 <= s <= maxSize as real / w as real
    ensures (h as real * s).Floor == 0
  {
    var hr, wr, mr := h as real, w as real, maxSize as real;
    var q := mr / wr;
    RatioCancels(maxSize, w);
    MulMono(hr, s, q);
    ScaleBack(hr, mr, wr);
    IntProductBelow(h, maxSize, w);
    var v := hr * q;
    assert 0.0 <= hr * s <= v;
    BelowOneWhenTimesBelow(v, wr, hr * mr);
    assert 0.0 <= hr * s < 1.0;
  }

  lemma ScaleBack(hr: real, mr: real, wr: real)
    requires wr > 0.0
    ensures (hr * (mr / wr)) * wr == hr * mr
  {
    assert (mr / wr) * wr == mr;
  }

  lemma IntProductBelow(h: nat, m: nat, w: nat)
    requires h * m < w
    ensures h as real * m as real < w as real
  {
    assert h as real * m as real == (h * m) as real;
  }

  lemma BelowOneWhenTimesBelow(v: real, w: real, p: real)
    requires w > 0.0 && v >= 0.0 && v * w == p && p < w
    ensures v < 1.0
  {
    if v >= 1.0 {
      MulMono(w, 1.0, v);
    }
  }

  // ----- process_cosmetic -----

  /** Python's `os.path.splitext` on a POSIX path: the extension starts at the
      last '.' of the final component, unless that component is all leading dots. */
  function SplitExt(path: string): (r: (string, string))
    ensures r.0 + r.1 == path
    ensures r.1 == [] || r.1[0] == '.'
    ensures forall i :: 0 <= i < |r.1| ==> r.1[i] != '/'
  {
    var sep := LastIndex(path, '/');
    var dot := LastIndex(path, '.');
    if dot > sep && exists k :: sep + 1 <= k < dot && path[k] != '.' then
      (path[..dot], path[dot..])
    else
      (path, [])
  }

  /** Index of the last occurrence of `c`, or -1. */
  function LastIndex(s: string, c: char): (i: int)
    ensures -1 <= i < |s|
    ensures i >= 0 ==> s[i] == c
    ensures forall k :: i < k < |s| ==> s[k] != c
  {
    if |s| == 0 then -1
    else if s[|s| - 1] == c then |s| - 1
    else LastIndex(s[..|s| - 1], c)
  }

  /** Default output path: "-clean" inserted before the extension. */
  function DefaultOutputPath(input: string): (out: string)
    ensures var (base, ext) := SplitExt(input); out == base + "-clean" + ext
  {
    var (base, ext) := SplitExt(input);
    base + "-clean" + ext
  }

  /** A ".png" name whose stem has neither '.' nor '/' gets "-clean" just
      before the extension, whatever directory precedes it. */
  lemma DefaultOutputOfPng(dir: string, stem: string)
    requires |stem| > 0
    requires forall i :: 0 <= i < |stem| ==> stem[i] != '.' && stem[i] != '/'
    ensures DefaultOutputPath(dir + stem + ".png") == dir + stem + "-clean.png"
  {
    var path := dir + stem + ".png";
    var p := |dir + stem|;
    assert path[p] == '.';
    assert path[p + 1..] == "png";
    var dot := LastIndex(path, '.');
    assert dot == p;
    var sep := LastIndex(path, '/');
    assert forall k :: |dir| <= k < |path| ==> path[k] != '/' by {
      forall k | |dir| <= k < |path| ensures path[k] != '/' {
        if k < p { assert path[k] == stem[k - |dir|]; }
      }
    }
    assert sep < |dir|;
    assert path[|dir|] == stem[0] != '.';
    assert path[..dot] == dir + stem;
    assert path[dot..] == ".png";
  }

  /** `process_cosmetic` under the fallback import, where `HAS_LAMA` is
      false and the watermark step never runs: sampled matting, crop to
      content and fit-resize, one after the other. */
  function ProcessCosmetic(img: Image, size: nat, resample: Resampler): (r: Result<Image, CosmeticError>)
    requires Rectangular(img)
    ensures Height(img) <= SampleRow || Width(img) <= SampleCol ==> r == Failure(SampleOutOfRange)
    ensures SampledMatte(img, DefaultTolerance).Success? ==>
      r == ResizeToFit(CropToContent(SampledMatte(img, DefaultTolerance).value), size, resample)
    ensures r.Success? ==> Rectangular(r.value) && 0 < Width(r.value) <= size && 0 < Height(r.value) <= size
  {
    match SampledMatte(img, DefaultTolerance)
    case Failure(e) => Failure(e)
    case Success(keyed) =>
      RectDims(keyed, Width(img), Height(img));
      CroppedNonEmpty(keyed);
      ResizeToFit(CropToContent(keyed), size, resample)
  }

  /** A cosmetic whose content already fits comes out as exactly that
      content: every pixel that is neither keyed out nor transparent keeps its
      colour, moved to its place in the content box. */
  lemma SmallCosmeticKeepsContent(img: Image, size: nat, resample: Resampler, keyed: Image, b: Box, y: nat, x: nat)
    requires Rectangular(img) && SampledMatte(img, DefaultTolerance) == Success(keyed)
    requires Rectangular(keyed) && ContentBox(keyed) == Some(b)
    requires b.x1 - b.x0 <= size && b.y1 - b.y0 <= size
    requires Kept(img, y, x)
    ensures ProcessCosmetic(img, size, resample) == Success(CropToContent(keyed))
    ensures b.y0 <= y < b.y1 && b.x0 <= x < b.x1
    ensures IsRect(CropToContent(keyed), b.x1 - b.x0, b.y1 - b.y0)
    ensures CropToContent(keyed)[y - b.y0][x - b.x0] == img[y][x]
  {
    KeyedKeepsPixel(img, keyed, y, x);
    CropKeepsPixel(keyed, b, y, x);
    FittingCropUnchanged(keyed, b, size, resample);
  }

  /** The pixel at (y, x) is not transparent and not near the sampled colour,
      so keying leaves it as it is. */
  predicate Kept(img: Image, y: nat, x: nat)
    requires Rectangular(img)
  {
    && SampleRow < Height(img) && SampleCol < Width(img)
    && y < Height(img) && x < Width(img) && HasContent(img[y][x])
    && !NearColour(img[y][x], img[SampleRow][SampleCol], DefaultTolerance)
  }

  lemma KeyedKeepsPixel(img: Image, keyed: Image, y: nat, x: nat)
    requires Rectangular(img) && SampledMatte(img, DefaultTolerance) == Success(keyed)
    requires Kept(img, y, x)
    ensures y < |keyed| && x < |keyed[y]| && keyed[y][x] == img[y][x]
  {
    assert KeyedAgainst(img, keyed, img[SampleRow][SampleCol], DefaultTolerance);
  }

  lemma CropKeepsPixel(keyed: Image, b: Box, y: nat, x: nat)
    requires Rectangular(keyed) && ContentBox(keyed) == Some(b)
    requires y < Height(keyed) && x < Width(keyed) && HasContent(keyed[y][x])
    ensures b.y0 <= y < b.y1 && b.x0 <= x < b.x1
    ensures IsRect(CropToContent(keyed), b.x1 - b.x0, b.y1 - b.y0)
    ensures CropToContent(keyed)[y - b.y0][x - b.x0] == keyed[y][x]
  {
    assert AnyContent(keyed) by { assert RowHasContent(keyed[y]); }
    PixelInBox(keyed, b, y, x);
    PixelOfCrop(keyed, CropToContent(keyed), b, y, x);
  }

  lemma PixelInBox(img: Image, b: Box, y: nat, x: nat)
    requires Rectangular(img) && HoldsContent(img, b)
    requires y < Height(img) && x < Width(img) && HasContent(img[y][x])
    ensures b.y0 <= y < b.y1 && b.x0 <= x < b.x1
  {
  }

  lemma PixelOfCrop(img: Image, c: Image, b: Box, y: nat, x: nat)
    requires Rectangular(img) && b.x0 <= b.x1 <= Width(img) && b.y0 <= b.y1 <= Height(img)
    requires IsCropOf(img, c, b) && b.y0 <= y < b.y1 && b.x0 <= x < b.x1
    ensures IsRect(c, b.x1 - b.x0, b.y1 - b.y0)
    ensures c[y - b.y0][x - b.x0] == img[y][x]
  {
    assert c[y - b.y0][x - b.x0] == img[b.y0 + (y - b.y0)][b.x0 + (x - b.x0)];
  }

  lemma FittingCropUnchanged(keyed: Image, b: Box, size: nat, resample: Resampler)
    requires Rectangular(keyed) && ContentBox(keyed) == Some(b)
    requires b.x1 - b.x0 <= size && b.y1 - b.y0 <= size
    ensures ResizeToFit(CropToContent(keyed), size, resample) == Success(CropToContent(keyed))
  {
    var c := CropToContent(keyed);
    assert IsCropOf(keyed, c, b);
    RectDims(c, b.x1 - b.x0, b.y1 - b.y0);
  }

  lemma CroppedNonEmpty(img: Image)
    requires Rectangular(img) && Width(img) > 0 && Height(img) > 0
    ensures var c := CropToContent(img); Rectangular(c) && Width(c) > 0 && Height(c) > 0
  {
    if AnyContent(img) {
      var box := ContentBox(img).value;
      var c := CropToContent(img);
      assert IsCropOf(img, c, box);
      RectDims(c, box.x1 - box.x0, box.y1 - box.y0);
    }
  }
}
