/** scripts/build-spritesheet.py: six matted, centred 256px frames plus four
    mirrored copies assembled into a 3-column, 4-row clown sprite sheet. */
module SpriteSheet {
  import opened Raster
  import opened Wrappers
  import GreenMatte

  const FrameSize: nat := 256
  const Cols: nat := 3
  const Rows: nat := 4

  /** The six source frames of the frame table. */
  datatype Frame = FrontIdle | FrontWalk | SideIdle | SideWalk | BackIdle | BackWalk

  /** A frame as loaded, or its horizontal mirror. */
  datatype SheetKey = Plain(frame: Frame) | Flipped(source: Frame)

  function FrameName(f: Frame): string {
    match f
    case FrontIdle => "front-idle"
    case FrontWalk => "front-walk"
    case SideIdle => "side-idle"
    case SideWalk => "side-walk"
    case BackIdle => "back-idle"
    case BackWalk => "back-walk"
  }

  /** Key names used in the script's `processed` dictionary. */
  function KeyName(k: SheetKey): string {
    match k
    case Plain(f) => FrameName(f)
    case Flipped(f) => FrameName(f) + "-flip"
  }

  /** The frames that get a mirrored copy, in the order the copies are made. */
  const FlipSources: seq<Frame> := [FrontWalk, SideIdle, SideWalk, BackWalk]

  lemma InFlipSources()
    ensures forall f :: f in FlipSources <==> f == FrontWalk || f == SideIdle || f == SideWalk || f == BackWalk
  {
  }

  /** Sheet layout, row by row. */
  const Layout: seq<seq<SheetKey>> := [
    [Plain(FrontIdle), Plain(FrontWalk), Flipped(FrontWalk)],
    [Plain(SideIdle), Plain(SideWalk), Plain(SideIdle)],
    [Flipped(SideIdle), Flipped(SideWalk), Flipped(SideIdle)],
    [Plain(BackIdle), Plain(BackWalk), Flipped(BackWalk)]
  ]

  /** PIL's `thumbnail`: an opaque LANCZOS shrink that fits the image inside a
      square of the given side. */
  type Thumbnailer = f: (Image, nat) -> Image |
    forall img, n :: Rectangular(f(img, n)) && Width(f(img, n)) <= n && Height(f(img, n)) <= n
    witness (img: Image, n: nat) => []

  /** PIL's masked `paste` of one pixel over another, using the source's own
      alpha as mask: alpha 0 keeps the destination, alpha 255 copies the source;
      the blend in between is not modelled. */
  type Compositor = f: (Pixel, Pixel) -> Pixel |
    forall s: Pixel, d: Pixel :: (s.a == 0 ==> f(s, d) == d) && (s.a == 255 ==> f(s, d) == s)
    witness (s: Pixel, d: Pixel) => if s.a == 255 then s else d

  /** `paste(src, (x0, y0), src)`: the source is laid over `dst` at the offset,
      clipped to `dst`; pixels outside the source's footprint are kept. */
  function Paste(dst: Image, src: Image, x0: nat, y0: nat, comp: Compositor): (r: Image)
    requires Rectangular(dst) && Rectangular(src)
    ensures IsRect(r, Width(dst), Height(dst))
    ensures forall y, x :: 0 <= y < Height(dst) && 0 <= x < Width(dst) ==>
      r[y][x] == if y0 <= y < y0 + Height(src) && x0 <= x < x0 + Width(src)
                 then comp(src[y - y0][x - x0], dst[y][x]) else dst[y][x]
  {
    seq(Height(dst), y requires 0 <= y < Height(dst) => seq(Width(dst), x requires 0 <= x < Width(dst) =>
      if y0 <= y < y0 + Height(src) && x0 <= x < x0 + Width(src)
      then comp(src[y - y0][x - x0], dst[y][x]) else dst[y][x]))
  }

  /** `resize_frame`: shrink into a size-by-size square and centre it on a
      transparent canvas; the margins differ by at most one pixel. */
  function ResizeFrame(img: Image, size: nat, thumb: Thumbnailer, comp: Compositor): (r: Image)
    ensures IsRect(r, size, size)
    ensures var t := thumb(img, size);
      var x0 := (size - Width(t)) / 2; var y0 := (size - Height(t)) / 2;
      && x0 <= size - Width(t) - x0 <= x0 + 1
      && y0 <= size - Height(t) - y0 <= y0 + 1
      && forall y, x :: 0 <= y < size && 0 <= x < size ==>
           r[y][x] == if y0 <= y < y0 + Height(t) && x0 <= x < x0 + Width(t)
                      then comp(t[y - y0][x - x0], Transparent) else Transparent
  {
    var t := thumb(img, size);
    var canvas := Blank(size, size, Transparent);
    RectDims(canvas, size, size);
    Paste(canvas, t, (size - Width(t)) / 2, (size - Height(t)) / 2, comp)
  }

  /** `flip_horizontal`: each row reversed. */
  function Flip(img: Image): (r: Image)
    ensures |r| == |img| && forall y :: 0 <= y < |img| ==> |r[y]| == |img[y]|
    ensures forall y, x :: 0 <= y < |img| && 0 <= x < |img[y]| ==> r[y][x] == img[y][|img[y]| - 1 - x]
  {
    seq(|img|, y requires 0 <= y < |img| =>
      seq(|img[y]|, x requires 0 <= x < |img[y]| => img[y][|img[y]| - 1 - x]))
  }

  /** Mirroring twice gives the original frame back. */
  lemma FlipInvolution(img: Image)
    ensures Flip(Flip(img)) == img
  {
    var r := Flip(Flip(img));
    assert |r| == |img|;
    forall y | 0 <= y < |img| ensures r[y] == img[y] {
      assert |r[y]| == |img[y]|;
    }
  }

  /** Matte, then fit into a 256px frame. */
  function ProcessFrame(img: Image, thumb: Thumbnailer, comp: Compositor): (r: Image)
    requires ValidImage(img)
    ensures IsRect(r, FrameSize, FrameSize)
  {
    ResizeFrame(GreenMatte.Matte(img), FrameSize, thumb, comp)
  }

  /** A processed frame: exactly FrameSize pixels square. */
  type FrameImage = img: Image | IsRect(img, FrameSize, FrameSize)
    witness Blank(FrameSize, FrameSize, Transparent)

  /** Every file that exists is processed; missing files are skipped. */
  function ProcessAll(loaded: map<Frame, Image>, thumb: Thumbnailer, comp: Compositor): (processed: map<SheetKey, FrameImage>)
    requires forall f :: f in loaded ==> ValidImage(loaded[f])
    ensures forall k :: k in processed <==> k.Plain? && k.frame in loaded
    ensures forall f :: f in loaded ==> processed[Plain(f)] == ProcessFrame(loaded[f], thumb, comp)
  {
    map k | k in (set f | f in loaded :: Plain(f)) :: ProcessFrame(loaded[k.frame], thumb, comp)
  }

  function AddFlipOf(m: map<SheetKey, FrameImage>, f: Frame): (r: map<SheetKey, FrameImage>)
    ensures forall k :: k in r <==> k in m || (Plain(f) in m && k == Flipped(f))
    ensures forall k :: k in m && k != Flipped(f) ==> r[k] == m[k]
    ensures Plain(f) in m ==> r[Flipped(f)] == Flip(m[Plain(f)])
  {
    if Plain(f) in m then
      var flipped: FrameImage := Flip(m[Plain(f)]);
      m[Flipped(f) := flipped]
    else m
  }

  /** Only loaded frames, no mirrors yet. */
  predicate OnlyPlain(m: map<SheetKey, FrameImage>) {
    forall k :: k in m ==> k.Plain?
  }

  /** Mirrored copies of each listed source that is present, in list order. */
  function AddFlipsFrom(m: map<SheetKey, FrameImage>, srcs: seq<Frame>): (r: map<SheetKey, FrameImage>)
    requires forall i, j :: 0 <= i < j < |srcs| ==> srcs[i] != srcs[j]
    requires forall k :: k in m && k.Flipped? ==> k.source !in srcs
    ensures forall k :: k in m ==> k in r && r[k] == m[k]
    ensures forall k :: k in r ==> k in m || (k.Flipped? && k.source in srcs && Plain(k.source) in m)
    ensures forall f :: f in srcs && Plain(f) in m ==> Flipped(f) in r && r[Flipped(f)] == Flip(m[Plain(f)])
    decreases |srcs|
  {
    if |srcs| == 0 then m
    else
      var m1 := AddFlipOf(m, srcs[0]);
      assert forall f :: f in srcs[1..] ==> f != srcs[0];
      AddFlipsFrom(m1, srcs[1..])
  }

  /** The mirrored copies as evidently intended: a copy is made of each source
      that is present, so a missing source only leaves its copy missing. */
  function AddFlips(processed: map<SheetKey, FrameImage>): (r: map<SheetKey, FrameImage>)
    requires OnlyPlain(processed)
    ensures forall k :: k in processed ==> k in r && r[k] == processed[k]
    ensures forall k :: k in r && k.Plain? ==> k in processed
    ensures forall f :: Flipped(f) in r <==> f in FlipSources && Plain(f) in processed
    ensures forall f :: f in FlipSources && Plain(f) in processed ==> r[Flipped(f)] == Flip(processed[Plain(f)])
  {
    AddFlipsFrom(processed, FlipSources)
  }

  /** The first listed source that was not processed, looking them up in order. */
  function FirstMissing(processed: map<SheetKey, FrameImage>, srcs: seq<Frame>): (r: Option<Frame>)
    ensures r.None? <==> forall i :: 0 <= i < |srcs| ==> Plain(srcs[i]) in processed
    ensures r.Some? ==> exists i :: FirstMissingAt(processed, srcs, r.value, i)
    decreases |srcs|
  {
    if |srcs| == 0 then None
    else if Plain(srcs[0]) !in processed then
      assert FirstMissingAt(processed, srcs, srcs[0], 0);
      Some(srcs[0])
    else
      var r := FirstMissing(processed, srcs[1..]);
      if r.Some? then MissingAfterFirst(processed, srcs, r.value); r else r
  }

  /** Source i of the list is f, it was not processed, and every earlier one was. */
  predicate FirstMissingAt(processed: map<SheetKey, FrameImage>, srcs: seq<Frame>, f: Frame, i: int) {
    0 <= i < |srcs| && srcs[i] == f && Plain(f) !in processed
    && forall j :: 0 <= j < i ==> Plain(srcs[j]) in processed
  }

  /** A source first missing after a present head is first missing in the whole list. */
  lemma MissingAfterFirst(processed: map<SheetKey, FrameImage>, srcs: seq<Frame>, f: Frame)
    requires |srcs| > 0 && Plain(srcs[0]) in processed
    requires exists i :: FirstMissingAt(processed, srcs[1..], f, i)
    ensures exists i :: FirstMissingAt(processed, srcs, f, i)
  {
    var i :| FirstMissingAt(processed, srcs[1..], f, i);
    assert FirstMissingAt(processed, srcs, f, i + 1);
  }

  /** The mirrored copies as written: each source is looked up unconditionally,
      so the first missing one (in FlipSources order) raises KeyError. */
  function AddFlipsAsWritten(processed: map<SheetKey, FrameImage>): (r: Result<map<SheetKey, FrameImage>, Frame>)
    requires OnlyPlain(processed)
    ensures r.Failure? <==> exists f :: f in FlipSources && Plain(f) !in processed
    ensures r.Failure? ==> exists i :: FirstMissingAt(processed, FlipSources, r.error, i)
    ensures r.Success? ==> r.value == AddFlips(processed)
  {
    match FirstMissing(processed, FlipSources)
    case Some(f) => Failure(f)
    case None => Success(AddFlips(processed))
  }

  /** Which cell of the sheet a pixel falls in, counted row-major. */
  function CellOf(y: nat, x: nat): nat { (y / FrameSize) * Cols + x / FrameSize }

  function CellName(i: nat): SheetKey
    requires i < Rows * Cols
  {
    Layout[i / Cols][i % Cols]
  }

  /** Cell c pasted onto the sheet: its frame over what was there when the
      frame exists; no other pixel changes. */
  function PasteCell(prev: Image, frames: map<SheetKey, FrameImage>, c: nat, comp: Compositor): (r: Image)
    requires IsRect(prev, Cols * FrameSize, Rows * FrameSize) && c < Rows * Cols
    ensures IsRect(r, Cols * FrameSize, Rows * FrameSize)
    ensures forall y, x :: 0 <= y < Rows * FrameSize && 0 <= x < Cols * FrameSize ==>
      r[y][x] == if CellOf(y, x) == c && CellName(c) in frames
                 then comp(frames[CellName(c)][y % FrameSize][x % FrameSize], prev[y][x]) else prev[y][x]
  {
    var name := CellName(c);
    RectDims(prev, Cols * FrameSize, Rows * FrameSize);
    if name in frames then
      RectDims(frames[name], FrameSize, FrameSize);
      var r := Paste(prev, frames[name], (c % Cols) * FrameSize, (c / Cols) * FrameSize, comp);
      assert forall y, x :: 0 <= y < Rows * FrameSize && 0 <= x < Cols * FrameSize ==>
        r[y][x] == if CellOf(y, x) == c then comp(frames[name][y % FrameSize][x % FrameSize], prev[y][x]) else prev[y][x]
      by {
        forall y, x | 0 <= y < Rows * FrameSize && 0 <= x < Cols * FrameSize
          ensures r[y][x] == if CellOf(y, x) == c then comp(frames[name][y % FrameSize][x % FrameSize], prev[y][x]) else prev[y][x]
        {
          PasteCellPixel(prev, frames[name], c, comp, y, x);
        }
      }
      r
    else prev
  }

  /** The sheet with the first k cells pasted in layout order. */
  function PasteCells(frames: map<SheetKey, FrameImage>, k: nat, comp: Compositor): (r: Image)
    requires k <= Rows * Cols
    ensures IsRect(r, Cols * FrameSize, Rows * FrameSize)
  {
    if k == 0 then Blank(Cols * FrameSize, Rows * FrameSize, Transparent)
    else PasteCell(PasteCells(frames, k - 1, comp), frames, k - 1, comp)
  }

  /** What a finished sheet holds at (x, y): the cell's frame laid over
      transparency, or transparency when the cell's frame is missing. */
  function SheetPixel(frames: map<SheetKey, FrameImage>, y: nat, x: nat, comp: Compositor): Pixel
    requires y < Rows * FrameSize && x < Cols * FrameSize
  {
    var name := CellName(CellOf(y, x));
    if name in frames then comp(frames[name][y % FrameSize][x % FrameSize], Transparent) else Transparent
  }

  lemma CellFootprint(k: nat, y: nat, x: nat)
    requires k < Rows * Cols && y < Rows * FrameSize && x < Cols * FrameSize
    ensures ((k % Cols) * FrameSize <= x < (k % Cols) * FrameSize + FrameSize
             && (k / Cols) * FrameSize <= y < (k / Cols) * FrameSize + FrameSize) <==> CellOf(y, x) == k
    ensures CellOf(y, x) < Rows * Cols
    ensures CellOf(y, x) == k ==>
      y - (k / Cols) * FrameSize == y % FrameSize && x - (k % Cols) * FrameSize == x % FrameSize
  {
  }

  /** Pasting a frame into cell c of the sheet: the pixels of cell c show the
      frame over what was there, every other pixel is kept. */
  lemma PasteCellPixel(prev: Image, src: Image, c: nat, comp: Compositor, y: nat, x: nat)
    requires IsRect(prev, Cols * FrameSize, Rows * FrameSize) && IsRect(src, FrameSize, FrameSize)
    requires c < Rows * Cols && y < Rows * FrameSize && x < Cols * FrameSize
    ensures Rectangular(prev) && Rectangular(src)
    ensures Paste(prev, src, (c % Cols) * FrameSize, (c / Cols) * FrameSize, comp)[y][x] ==
      if CellOf(y, x) == c then comp(src[y % FrameSize][x % FrameSize], prev[y][x]) else prev[y][x]
  {
    RectDims(prev, Cols * FrameSize, Rows * FrameSize);
    RectDims(src, FrameSize, FrameSize);
    CellFootprint(c, y, x);
  }

  /** After pasting k cells, a pixel shows its cell's frame exactly when its
      cell is among the first k; otherwise it is clear. */
  lemma {:induction false} PasteCellsAt(frames: map<SheetKey, FrameImage>, k: nat, comp: Compositor, y: nat, x: nat)
    requires k <= Rows * Cols
    requires y < Rows * FrameSize && x < Cols * FrameSize
    ensures PasteCells(frames, k, comp)[y][x] ==
      if CellOf(y, x) < k then SheetPixel(frames, y, x, comp) else Transparent
  {
    if k > 0 {
      PasteCellsAt(frames, k - 1, comp, y, x);
      if CellOf(y, x) == k - 1 {
        assert CellName(CellOf(y, x)) == CellName(k - 1);
      }
    }
  }

  /** The assembled sheet: 768 by 1024, every cell its layout frame or clear. */
  function AssembleSheet(frames: map<SheetKey, FrameImage>, comp: Compositor): (sheet: Image)
    ensures IsRect(sheet, Cols * FrameSize, Rows * FrameSize)
    ensures forall y, x :: 0 <= y < Rows * FrameSize && 0 <= x < Cols * FrameSize ==>
      sheet[y][x] == SheetPixel(frames, y, x, comp)
  {
    var sheet := PasteCells(frames, Rows * Cols, comp);
    forall y, x | 0 <= y < Rows * FrameSize && 0 <= x < Cols * FrameSize
      ensures sheet[y][x] == SheetPixel(frames, y, x, comp)
    {
      CellFootprint(0, y, x);
      PasteCellsAt(frames, Rows * Cols, comp, y, x);
    }
    sheet
  }

  /** `build_spritesheet` as written: fails with the first missing mirror source. */
  function BuildSpritesheetAsWritten(loaded: map<Frame, Image>, thumb: Thumbnailer, comp: Compositor): (r: Result<Image, Frame>)
    requires forall f :: f in loaded ==> ValidImage(loaded[f])
    ensures r.Failure? <==> exists f :: f in FlipSources && f !in loaded
  {
    var processed := ProcessAll(loaded, thumb, comp);
    var flips := AddFlipsAsWritten(processed);
    assert flips.Failure? <==> exists f :: f in FlipSources && f !in loaded by {
      assert forall f :: Plain(f) in processed <==> f in loaded;
    }
    match flips
    case Failure(e) => Failure(e)
    case Success(frames) => Success(AssembleSheet(frames, comp))
  }

  /** Without the side-walk frame the script stops before assembling any
      sheet, although it was written to report missing frames and carry on. */
  lemma MissingSideWalkAborts(loaded: map<Frame, Image>, thumb: Thumbnailer, comp: Compositor)
    requires forall f :: f in loaded ==> ValidImage(loaded[f])
    requires SideWalk !in loaded
    ensures BuildSpritesheetAsWritten(loaded, thumb, comp).Failure?
  {
    assert SideWalk in FlipSources;
  }

  /** `build_spritesheet` with mirrored copies only of the frames present:
      never fails, and the sheet is the layout with missing cells left clear. */
  function BuildSpritesheet(loaded: map<Frame, Image>, thumb: Thumbnailer, comp: Compositor): (sheet: Image)
    requires forall f :: f in loaded ==> ValidImage(loaded[f])
    ensures IsRect(sheet, Cols * FrameSize, Rows * FrameSize)
    ensures var frames := AddFlips(ProcessAll(loaded, thumb, comp));
      forall y, x :: 0 <= y < Rows * FrameSize && 0 <= x < Cols * FrameSize ==>
        sheet[y][x] == SheetPixel(frames, y, x, comp)
  {
    AssembleSheet(AddFlips(ProcessAll(loaded, thumb, comp)), comp)
  }

  /** The two versions agree exactly when the four mirror sources are
      present, whichever of the other frames are missing. */
  lemma AsWrittenAgreesWhenComplete(loaded: map<Frame, Image>, thumb: Thumbnailer, comp: Compositor)
    requires forall f :: f in loaded ==> ValidImage(loaded[f])
    ensures BuildSpritesheetAsWritten(loaded, thumb, comp).Success? <==> forall f :: f in FlipSources ==> f in loaded
    ensures (forall f :: f in FlipSources ==> f in loaded) ==>
      BuildSpritesheetAsWritten(loaded, thumb, comp) == Success(BuildSpritesheet(loaded, thumb, comp))
  {
  }

  /** A cell whose frame (or mirror source) is missing stays clear in the
      corrected sheet; the others show their frame. */
  lemma MissingCellIsClear(loaded: map<Frame, Image>, thumb: Thumbnailer, comp: Compositor, y: nat, x: nat)
    requires forall f :: f in loaded ==> ValidImage(loaded[f])
    requires y < Rows * FrameSize && x < Cols * FrameSize
    ensures var key := CellName(CellOf(y, x));
      var src := if key.Plain? then key.frame else key.source;
      src !in loaded ==> BuildSpritesheet(loaded, thumb, comp)[y][x] == Transparent
  {
    CellFootprint(0, y, x);
    var key := CellName(CellOf(y, x));
    assert key in Layout[CellOf(y, x) / Cols];
    assert key.Flipped? ==> key.source in FlipSources;
  }
}
