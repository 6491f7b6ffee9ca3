/** scripts/ingest-image.py: naming, step plan, image processing and
    manifest record of the asset ingestion pipeline. File copies, the clock
    and the optional libraries are parameters. */
module Ingest {
  import opened Raster
  import opened Wrappers
  import Text
  import GreenMatte
  import Seqs

  /** Which optional imports succeeded. The watermark module never imports
      (its file name has a hyphen), so the watermark step is the fallback. */
  datatype Capabilities = Capabilities(hasNumpy: bool, hasRembg: bool)

  datatype IngestError =
    | MissingThemeOrZone   // "--theme and --zone required for theme assets"
    | BadResize            // `map(int, ...)` or the tuple unpacking fails

  /** Zones that watch mode recognises as a file-name prefix. */
  const Zones: seq<string> := ["lobby", "arcade", "records"]

  /** Extensions the batch mode accepts (compared lower-cased). */
  const ImageSuffixes: seq<string> := [".png", ".jpg", ".jpeg", ".webp"]

  // ----- path names -----

  /** Last path component (pathlib's `name`), without normalisation. */
  function BaseName(path: string): (name: string)
    ensures '/' !in name
    ensures Text.EndsWith(path, name)
    decreases |path|
  {
    if |path| == 0 then []
    else if path[|path| - 1] == '/' then []
    else BaseName(path[..|path| - 1]) + [path[|path| - 1]]
  }

  /** Index of the last '.' of `name`, or -1. */
  function LastDot(name: string): (i: int)
    ensures -1 <= i < |name|
    ensures i >= 0 ==> name[i] == '.'
    ensures forall k :: i < k < |name| ==> name[k] != '.'
  {
    if |name| == 0 then -1
    else if name[|name| - 1] == '.' then |name| - 1
    else LastDot(name[..|name| - 1])
  }

  /** pathlib's `suffix`: from the last dot, unless the dot is first or last. */
  function Suffix(path: string): (s: string)
    ensures s == [] || s[0] == '.'
  {
    var name := BaseName(path);
    var i := LastDot(name);
    if 0 < i < |name| - 1 then name[i..] else []
  }

  /** pathlib's `stem`: the name without its suffix. */
  function Stem(path: string): (s: string)
    ensures s + Suffix(path) == BaseName(path)
  {
    var name := BaseName(path);
    var i := LastDot(name);
    if 0 < i < |name| - 1 then name[..i] else name
  }

  /** A non-empty name without '/' or '.' is the stem of itself plus ".png". */
  lemma StemOfPng(n: string)
    requires |n| > 0 && '/' !in n && '.' !in n
    ensures Stem(n + ".png") == n
    ensures Suffix(n + ".png") == ".png"
  {
    var path := n + ".png";
    BaseNameNoSlash(path);
    assert path[|n|] == '.';
    assert forall k :: |n| < k < |path| ==> path[k] != '.';
    var i := LastDot(path);
    assert i == |n|;
    assert path[..i] == n;
  }

  lemma BaseNameNoSlash(path: string)
    requires '/' !in path
    ensures BaseName(path) == path
    decreases |path|
  {
    if |path| > 0 {
      assert '/' !in path[..|path| - 1];
      BaseNameNoSlash(path[..|path| - 1]);
    }
  }

  /** Batch mode skips files whose lower-cased suffix is not an image type. */
  predicate AcceptedImage(path: string) {
    Text.Lower(Suffix(path)) in ImageSuffixes
  }

  /** Output file name: `--name` with ".png" appended unless already present,
      or the input's own file name. */
  function FinalName(inputPath: string, outputName: Option<string>): (name: string)
    ensures outputName.Some? && outputName.value != [] ==> Text.EndsWith(name, ".png")
    ensures outputName.None? || outputName.value == [] ==> name == BaseName(inputPath)
  {
    if outputName.Some? && outputName.value != [] then
      var n := outputName.value;
      if Text.EndsWith(n, ".png") then n else n + ".png"
    else BaseName(inputPath)
  }

  /** Naming twice changes nothing more. */
  lemma FinalNameIdempotent(inputPath: string, n: string)
    requires n != []
    ensures FinalName(inputPath, Some(FinalName(inputPath, Some(n)))) == FinalName(inputPath, Some(n))
  {
    var m := FinalName(inputPath, Some(n));
    if !Text.EndsWith(n, ".png") {
      assert m[|m| - 4..] == ".png";
    }
  }

  /** Archive name `{stem}_{timestamp}.png`; the timestamp is an input. */
  function OriginalName(finalName: string, timestamp: string): string {
    Stem(finalName) + "_" + timestamp + ".png"
  }

  // ----- zone inference in watch mode -----

  /** Zone and output name for a watched file: an explicit zone wins;
      otherwise the stem must read `{zone}-{rest}` with a known zone,
      and None means the file is skipped. */
  function InferZone(stem: string, zone: Option<string>): (r: Option<(string, string)>)
    ensures zone.Some? && zone.value != [] ==> r == Some((zone.value, stem))
    ensures r.Some? && (zone.None? || zone.value == []) ==>
      r.value.0 in Zones && stem == r.value.0 + "-" + r.value.1
  {
    if zone.Some? && zone.value != [] then Some((zone.value, stem))
    else
      var parts := Text.SplitOnce(stem, '-');
      if |parts| == 2 && parts[0] in Zones then Some((parts[0], parts[1])) else None
  }

  /** `{zone}-{rest}` is always recognised and split back into its parts. */
  lemma InferZoneRoundTrip(z: string, rest: string)
    requires z in Zones
    ensures InferZone(z + "-" + rest, None) == Some((z, rest))
  {
    var stem := z + "-" + rest;
    assert '-' !in z;
    Text.IndexOfAfter(z, '-', rest);
    assert stem == z + ['-'] + rest;
    assert stem[..|z|] == z;
    assert stem[|z| + 1..] == rest;
  }

  // ----- resize argument -----

  /** A run of decimal digits in which single underscores may separate two
      digits, as Python's `int()` allows ("8_00"). */
  predicate DigitGroups(s: string) {
    |s| > 0 && '0' <= s[0] <= '9' && forall i :: 0 <= i < |s| ==> GroupChar(s, i)
  }

  /** Position i holds a digit, or an underscore followed by a digit. */
  predicate GroupChar(s: string, i: int)
    requires 0 <= i < |s|
  {
    '0' <= s[i] <= '9' || (s[i] == '_' && i + 1 < |s| && '0' <= s[i + 1] <= '9')
  }

  lemma GroupChars(s: string)
    requires DigitGroups(s)
    ensures forall i :: 0 <= i < |s| ==> Text.IsDigit(s[i]) || s[i] == '_'
  {
    forall i | 0 <= i < |s| ensures Text.IsDigit(s[i]) || s[i] == '_' {
      assert GroupChar(s, i);
    }
  }

  /** s with its underscores dropped. */
  function DropUnderscores(s: string): (d: string)
    ensures (forall i :: 0 <= i < |s| ==> Text.IsDigit(s[i]) || s[i] == '_') ==> Text.AllDigits(d)
    ensures Text.AllDigits(s) ==> d == s
  {
    if s == [] then []
    else (if s[0] == '_' then [] else [s[0]]) + DropUnderscores(s[1..])
  }

  /** The text after an optional leading sign. */
  function Unsigned(t: string): string {
    if |t| > 0 && (t[0] == '+' || t[0] == '-') then t[1..] else t
  }

  /** Python's `int()` on text: white space around it is ignored, then an
      optional sign and digits that single underscores may separate. */
  function ParseInt(s: string): (r: Option<int>)
    ensures r.Some? <==> DigitGroups(Unsigned(Text.Trim(s)))
  {
    var t := Text.Trim(s);
    var body := Unsigned(t);
    if DigitGroups(body) then
      GroupChars(body);
      var v := Text.DigitsValue(DropUnderscores(body)) as int;
      Some(if |t| > 0 && t[0] == '-' then -v else v)
    else None
  }

  /** On a plain run of digits `int()` agrees with decimal parsing. */
  lemma ParseIntOfDigits(s: string)
    requires Text.ParseNat(s).Some?
    ensures ParseInt(s) == Some(Text.ParseNat(s).value as int)
  {
    Text.TrimAround("", s, "");
    assert "" + s + "" == s;
  }

  /** A printed number with an optional minus sign and white space on either
      side reads back as that number. */
  lemma ParseIntPadded(pre: string, n: nat, negative: bool, post: string)
    requires forall k :: 0 <= k < |pre| ==> Text.IsSpace(pre[k])
    requires forall k :: 0 <= k < |post| ==> Text.IsSpace(post[k])
    ensures ParseInt(pre + (if negative then "-" else "") + Text.NatToString(n) + post)
         == Some(if negative then -(n as int) else n as int)
  {
    var digits := Text.NatToString(n);
    var x := (if negative then "-" else "") + digits;
    assert x[|x| - 1] == digits[|digits| - 1];
    assert pre + (if negative then "-" else "") + digits + post == pre + x + post;
    Text.TrimAround(pre, x, post);
    if negative {
      NegativeDigits(pre + x + post, n);
    } else {
      assert x == digits;
      PositiveDigits(pre + x + post, n);
    }
  }

  lemma NegativeDigits(s: string, n: nat)
    requires Text.Trim(s) == "-" + Text.NatToString(n)
    ensures ParseInt(s) == Some(-(n as int))
  {
    var t := Text.Trim(s);
    var digits := Text.NatToString(n);
    assert t[0] == '-' && t[1..] == digits;
    PlainDigits(digits);
    Text.DigitsValueOfNatToString(n);
  }

  lemma PositiveDigits(s: string, n: nat)
    requires Text.Trim(s) == Text.NatToString(n)
    ensures ParseInt(s) == Some(n as int)
  {
    var digits := Text.NatToString(n);
    PlainDigits(digits);
    Text.DigitsValueOfNatToString(n);
  }

  lemma PlainDigits(d: string)
    requires |d| > 0 && Text.AllDigits(d)
    ensures DigitGroups(d) && Unsigned(d) == d && DropUnderscores(d) == d
  {
    assert Text.IsDigit(d[0]);
    forall i | 0 <= i < |d| ensures GroupChar(d, i) {
      assert Text.IsDigit(d[i]);
    }
  }

  lemma UnsignedOfDigit(t: string)
    requires |t| > 0 && '0' <= t[0] <= '9'
    ensures Unsigned(t) == t
  {
  }

  /** Two digit runs joined by one underscore read as the digits together. */
  lemma ParseIntGroupedValue(a: string, b: string)
    requires |a| > 0 && |b| > 0 && Text.AllDigits(a) && Text.AllDigits(b)
    ensures Text.AllDigits(a + b)
    ensures ParseInt(a + "_" + b) == Some(Text.DigitsValue(a + b) as int)
  {
    var t := a + "_" + b;
    assert t[0] == a[0] && t[|t| - 1] == b[|b| - 1];
    Text.TrimAround("", t, "");
    assert "" + t + "" == t;
    UnderscoreJoinGroups(a, b);
    var tail := "_" + b;
    Seqs.ConcatAssoc(a, "_", b);
    DropDigitsPrefix(a, tail);
    assert tail[0] == '_' && tail[1..] == b;
    PlainDigits(b);
    assert DropUnderscores(tail) == DropUnderscores(b) == b;
    assert DropUnderscores(t) == a + b;
    ParseIntOfGroups(t);
  }

  lemma UnderscoreJoinGroups(a: string, b: string)
    requires |a| > 0 && |b| > 0 && Text.AllDigits(a) && Text.AllDigits(b)
    ensures DigitGroups(a + "_" + b)
  {
    var t := a + "_" + b;
    assert Text.IsDigit(a[0]);
    forall i | 0 <= i < |t| ensures GroupChar(t, i) {
      if i < |a| {
        assert t[i] == a[i] && Text.IsDigit(a[i]);
      } else if i == |a| {
        assert t[i] == '_' && t[i + 1] == b[0] && Text.IsDigit(b[0]);
      } else {
        assert t[i] == b[i - |a| - 1] && Text.IsDigit(b[i - |a| - 1]);
      }
    }
  }

  /** Already-trimmed unsigned digit groups read as their digits. */
  lemma ParseIntOfGroups(t: string)
    requires Text.Trim(t) == t && DigitGroups(t)
    ensures Text.AllDigits(DropUnderscores(t))
    ensures ParseInt(t) == Some(Text.DigitsValue(DropUnderscores(t)) as int)
  {
    UnsignedOfDigit(t);
    GroupChars(t);
  }

  lemma {:induction false} DropDigitsPrefix(a: string, rest: string)
    requires Text.AllDigits(a)
    ensures DropUnderscores(a + rest) == a + DropUnderscores(rest)
    decreases |a|
  {
    if a != [] {
      var s := a + rest;
      assert s[0] == a[0] && s[0] != '_';
      assert s[1..] == a[1..] + rest;
      assert DropUnderscores(s) == [a[0]] + DropUnderscores(s[1..]);
      DropDigitsPrefix(a[1..], rest);
      Seqs.ConcatAssoc([a[0]], a[1..], DropUnderscores(rest));
      assert a == [a[0]] + a[1..];
    } else {
      assert a + rest == rest;
    }
  }

  /** A doubled underscore is rejected. */
  lemma ParseIntDoubleUnderscore()
    ensures ParseInt("8__00").None?
  {
    var t := "8__00";
    Text.TrimAround("", t, "");
    assert "" + t + "" == t;
    assert t[0] == '8';
    UnsignedOfDigit(t);
    assert t[1] == '_' && t[2] == '_';
    assert !GroupChar(t, 1);
  }

  /** "WxH" (any case of x): exactly two parts, both integers. */
  function ParseSize(spec: string): (r: Option<(int, int)>)
  {
    var parts := Text.Split(Text.Lower(spec), 'x');
    if |parts| != 2 then None
    else match (ParseInt(parts[0]), ParseInt(parts[1]))
      case (Some(w), Some(h)) => Some((w, h))
      case _ => None
  }

  /** A printed size reads back, whichever case the separator has. */
  lemma ParseSizeRoundTrip(w: nat, h: nat, sep: char)
    requires sep == 'x' || sep == 'X'
    ensures ParseSize(Text.NatToString(w) + [sep] + Text.NatToString(h)) == Some((w, h))
  {
    var a := Text.NatToString(w);
    var b := Text.NatToString(h);
    Text.LowerConcat(a + [sep], b);
    Text.LowerConcat(a, [sep]);
    Text.LowerDigits(a);
    Text.LowerDigits(b);
    assert Text.Lower([sep]) == ['x'];
    assert 'x' !in a && 'x' !in b;
    Text.SplitAround(a, 'x', b);
    Text.ParseNatToString(w);
    Text.ParseNatToString(h);
    ParseIntOfDigits(a);
    ParseIntOfDigits(b);
    assert a[0] != '+' && a[0] != '-';
    assert b[0] != '+' && b[0] != '-';
  }

  /** `resize_image`: LANCZOS to the parsed size. PIL's `resize` raises
      ValueError unless both sides are positive. */
  function ResizeImage(img: Image, spec: string, resample: Resampler): (r: Result<Image, IngestError>)
    ensures r.Success? <==> ParseSize(spec).Some? && ParseSize(spec).value.0 > 0 && ParseSize(spec).value.1 > 0
    ensures r.Success? ==> IsRect(r.value, ParseSize(spec).value.0, ParseSize(spec).value.1)
    ensures r.Failure? ==> r.error == BadResize
  {
    match ParseSize(spec)
    case Some((w, h)) =>
      if w <= 0 || h <= 0 then Failure(BadResize)
      else Success(resample(img, w, h))
    case None => Failure(BadResize)
  }

  /** A printed size with positive sides resizes to exactly that size, and a
      zero side is refused. */
  lemma ResizeToPrintedSize(img: Image, w: nat, h: nat, resample: Resampler)
    ensures var r := ResizeImage(img, Text.NatToString(w) + "x" + Text.NatToString(h), resample);
      (r.Success? <==> w > 0 && h > 0) && (r.Success? ==> IsRect(r.value, w, h))
  {
    ParseSizeRoundTrip(w, h, 'x');
  }

  // ----- processing -----

  /** Options of `process_image` that shape the result. */
  datatype Request = Request(
    theme: string, zone: string, outputName: Option<string>, resize: Option<string>,
    skipWatermark: bool, greenBg: bool, removeBg: bool)

  /** Steps shown in the progress lines: 4 with a background step, else 3. */
  function TotalSteps(greenBg: bool, removeBg: bool): (n: nat)
    ensures n == 4 <==> greenBg || removeBg
    ensures n == 3 || n == 4
  {
    if greenBg || removeBg then 4 else 3
  }

  /** The fallback watermark step: the image comes back unchanged. */
  function RemoveWatermark(img: Image, size: int): (r: Image)
    ensures r == img
  {
    img
  }

  /** `remove_green_background`: the matte when numpy imported, else a no-op. */
  function RemoveGreenBackground(caps: Capabilities, img: Image): (r: Image)
    requires ValidImage(img)
    ensures !caps.hasNumpy ==> r == img
    ensures caps.hasNumpy ==> |r| == |img| && forall y, x :: 0 <= y < |img| && 0 <= x < |img[y]| ==>
      x < |r[y]| && (r[y][x].a == 0 <==> GreenMatte.Keyed(img[y][x]))
  {
    if caps.hasNumpy then GreenMatte.Matte(img) else img
  }

  /** `remove_background_ai`: the model is opaque; without rembg a no-op. */
  function RemoveBackgroundAi(caps: Capabilities, img: Image, rembg: Image -> Image): (r: Image)
    ensures !caps.hasRembg ==> r == img
  {
    if caps.hasRembg then rembg(img) else img
  }

  /** `convert("RGB")` of a loaded image: every pixel opaque. */
  function ToRgb(img: Image): (r: Image)
    ensures |r| == |img| && forall y :: 0 <= y < |img| ==> |r[y]| == |img[y]|
    ensures forall y, x :: 0 <= y < |img| && 0 <= x < |img[y]| ==>
      r[y][x] == img[y][x].(a := 255)
  {
    MapPixels(img, (p: Pixel) => p.(a := 255))
  }

  /** "green", "ai" or nothing, with the green screen taking precedence. */
  function BackgroundRemoved(greenBg: bool, removeBg: bool): (r: Option<string>)
    ensures r == Some("green") <==> greenBg
    ensures r == Some("ai") <==> !greenBg && removeBg
    ensures r.None? <==> !greenBg && !removeBg
  {
    if greenBg then Some("green") else if removeBg then Some("ai") else None
  }

  /** The record written to the manifest under the final name. */
  datatype ManifestEntry = ManifestEntry(
    original: string, processed: string, final: string,
    originalSize: string, finalSize: string,
    watermarkRemoved: bool, backgroundRemoved: Option<string>,
    prompt: Option<string>, notes: Option<string>)

  /** Outcome of `process_image`: the image saved to `_processed`, the one
      saved to the final folder, and the manifest record. */
  datatype Outcome = Outcome(processed: Image, final: Image, entry: ManifestEntry)

  function SizeText(img: Image): string {
    Text.NatToString(Width(img)) + "x" + Text.NatToString(Height(img))
  }

  /** The image after the watermark and background steps. */
  function Prepared(caps: Capabilities, req: Request, img: Image, rembg: Image -> Image): (r: Image)
    requires ValidImage(img)
  {
    var rgb := ToRgb(img);
    var unmarked := if req.skipWatermark then rgb else RemoveWatermark(rgb, 60);
    if req.greenBg then RemoveGreenBackground(caps, unmarked)
    else if req.removeBg then RemoveBackgroundAi(caps, unmarked, rembg)
    else unmarked
  }

  /** `process_image` for a theme asset. */
  function ProcessImage(
    caps: Capabilities, req: Request, inputPath: string, img: Image, timestamp: string,
    resample: Resampler, rembg: Image -> Image, prompt: Option<string>, notes: Option<string>)
    : (r: Result<Outcome, IngestError>)
    requires ValidImage(img)
    ensures req.theme == [] || req.zone == [] ==> r == Failure(MissingThemeOrZone)
    ensures r.Success? ==> r.value.processed == Prepared(caps, req, img, rembg)
    ensures r.Success? && (req.resize.None? || req.resize.value == []) ==> r.value.final == r.value.processed
    ensures r.Success? ==> r.value.entry.watermarkRemoved == !req.skipWatermark
    ensures r.Success? ==> r.value.entry.backgroundRemoved == BackgroundRemoved(req.greenBg, req.removeBg)
    ensures r.Success? ==> var name := FinalName(inputPath, req.outputName);
      && r.value.entry.processed == req.theme + "/" + req.zone + "/" + name
      && r.value.entry.final == r.value.entry.processed
      && r.value.entry.original == OriginalName(name, timestamp)
  {
    if req.theme == [] || req.zone == [] then Failure(MissingThemeOrZone)
    else
      var name := FinalName(inputPath, req.outputName);
      var subPath := req.theme + "/" + req.zone;
      var processed := Prepared(caps, req, img, rembg);
      var final :=
        if req.resize.Some? && req.resize.value != [] then ResizeImage(processed, req.resize.value, resample)
        else Success(processed);
      match final
      case Failure(e) => Failure(e)
      case Success(out) =>
        Success(Outcome(processed, out, ManifestEntry(
          OriginalName(name, timestamp), subPath + "/" + name, subPath + "/" + name,
          SizeText(img), SizeText(out), !req.skipWatermark,
          BackgroundRemoved(req.greenBg, req.removeBg), prompt, notes)))
  }

  /** Without numpy, rembg or a watermark remover, and with no resize, the
      pipeline only drops the alpha channel. */
  lemma BarePipelineOnlyConverts(req: Request, inputPath: string, img: Image, timestamp: string,
                                 resample: Resampler, rembg: Image -> Image)
    requires ValidImage(img) && req.theme != [] && req.zone != [] && req.resize.None?
    ensures var r := ProcessImage(Capabilities(false, false), req, inputPath, img, timestamp, resample, rembg, None, None);
      r.Success? && r.value.final == ToRgb(img)
  {
  }

  /** Recording an asset replaces only its own manifest entry. */
  function RecordAsset(assets: map<string, ManifestEntry>, name: string, entry: ManifestEntry)
    : (r: map<string, ManifestEntry>)
    ensures name in r && r[name] == entry
    ensures r.Keys == assets.Keys + {name}
    ensures forall k :: k in assets && k != name ==> r[k] == assets[k]
  {
    assets[name := entry]
  }
}
