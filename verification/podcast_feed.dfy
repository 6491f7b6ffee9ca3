/** The RSS feed route (app/api/podcast/feed/route.ts): XML escaping,
    iTunes duration formatting and the per-episode item fields. */
module PodcastFeed {
  import opened Wrappers
  import opened Text

  // ---------------------------------------------------------------------
  // escapeXml
  // ---------------------------------------------------------------------

  /** `text.replace(/c/g, rep)`. */
  function ReplaceAll(s: string, c: char, rep: string): (r: string)
    ensures c !in rep ==> c !in r
  {
    if |s| == 0 then [] else (if s[0] == c then rep else [s[0]]) + ReplaceAll(s[1..], c, rep)
  }

  lemma {:induction false} ReplaceAllAppend(a: string, b: string, c: char, rep: string)
    ensures ReplaceAll(a + b, c, rep) == ReplaceAll(a, c, rep) + ReplaceAll(b, c, rep)
  {
    if |a| > 0 {
      assert (a + b)[1..] == a[1..] + b;
      ReplaceAllAppend(a[1..], b, c, rep);
    } else {
      assert a + b == b;
    }
  }

  /** `escapeXml`: the five global replacements, ampersand first. */
  function EscapeXml(text: string): string {
    ReplaceAll(ReplaceAll(ReplaceAll(ReplaceAll(ReplaceAll(text, '&', "&amp;"), '<', "&lt;"), '>', "&gt;"), '"', "&quot;"), '\'', "&apos;")
  }

  /** The entity a character escapes to, or the character itself. */
  function EscapeChar(c: char): string {
    match c
    case '&' => "&amp;"
    case '<' => "&lt;"
    case '>' => "&gt;"
    case '"' => "&quot;"
    case '\'' => "&apos;"
    case _ => [c]
  }

  /** Character-by-character escaping. */
  function EscapeEach(s: string): string {
    if |s| == 0 then [] else EscapeChar(s[0]) + EscapeEach(s[1..])
  }

  lemma ReplaceAbsent(s: string, c: char, rep: string)
    requires c !in s
    ensures ReplaceAll(s, c, rep) == s
  {
    if |s| > 0 {
      ReplaceAbsent(s[1..], c, rep);
      assert s == [s[0]] + s[1..];
    }
  }

  /** A replacement never introduces a character its text does not hold. */
  lemma ReplaceKeepsAbsent(s: string, c: char, rep: string, d: char)
    requires d !in s && d !in rep
    ensures d !in ReplaceAll(s, c, rep)
  {
    if |s| > 0 {
      ReplaceKeepsAbsent(s[1..], c, rep, d);
    }
  }

  lemma ReplaceOne(c: char, d: char, rep: string)
    ensures ReplaceAll([c], d, rep) == if c == d then rep else [c]
  {
    assert [c][1..] == [];
  }

  /** The last four replacements leave text without their characters alone. */
  lemma TailAbsent(e: string)
    requires '<' !in e && '>' !in e && '"' !in e && '\'' !in e
    ensures ReplaceAll(ReplaceAll(ReplaceAll(ReplaceAll(e, '<', "&lt;"), '>', "&gt;"), '"', "&quot;"), '\'', "&apos;") == e
  {
    ReplaceAbsent(e, '<', "&lt;");
    ReplaceAbsent(e, '>', "&gt;");
    ReplaceAbsent(e, '"', "&quot;");
    ReplaceAbsent(e, '\'', "&apos;");
  }

  /** Escaping one character through the chain gives its entity. */
  lemma EscapeOne(c: char)
    ensures EscapeXml([c]) == EscapeChar(c)
  {
    ReplaceOne(c, '&', "&amp;");
    if c == '&' {
      TailAbsent("&amp;");
    } else if c == '<' {
      EscapeLt();
    } else if c == '>' {
      EscapeGt();
    } else if c == '"' {
      EscapeQuot();
    } else if c == '\'' {
      EscapeApos();
    } else {
      ReplaceOne(c, '<', "&lt;");
      ReplaceOne(c, '>', "&gt;");
      ReplaceOne(c, '"', "&quot;");
      ReplaceOne(c, '\'', "&apos;");
    }
  }

  /** The last three replacements leave text without their characters alone. */
  lemma LastThreeAbsent(e: string)
    requires '>' !in e && '"' !in e && '\'' !in e
    ensures ReplaceAll(ReplaceAll(ReplaceAll(e, '>', "&gt;"), '"', "&quot;"), '\'', "&apos;") == e
  {
    ReplaceAbsent(e, '>', "&gt;");
    ReplaceAbsent(e, '"', "&quot;");
    ReplaceAbsent(e, '\'', "&apos;");
  }

  lemma EscapeLt()
    ensures EscapeXml("<") == "&lt;"
  {
    var lt := "&lt;";
    ReplaceOne('<', '&', "&amp;");
    assert ReplaceAll("<", '&', "&amp;") == "<";
    ReplaceOne('<', '<', lt);
    assert ReplaceAll("<", '<', lt) == lt;
    assert lt == ['&', 'l', 't', ';'];
    LastThreeAbsent(lt);
  }

  lemma EscapeGt()
    ensures EscapeXml(">") == "&gt;"
  {
    ReplaceOne('>', '&', "&amp;");
    ReplaceOne('>', '<', "&lt;");
    ReplaceOne('>', '>', "&gt;");
    ReplaceAbsent("&gt;", '"', "&quot;");
    ReplaceAbsent("&gt;", '\'', "&apos;");
  }

  lemma EscapeQuot()
    ensures EscapeXml("\"") == "&quot;"
  {
    ReplaceOne('"', '&', "&amp;");
    ReplaceOne('"', '<', "&lt;");
    ReplaceOne('"', '>', "&gt;");
    ReplaceOne('"', '"', "&quot;");
    ReplaceAbsent("&quot;", '\'', "&apos;");
  }

  lemma EscapeApos()
    ensures EscapeXml("'") == "&apos;"
  {
    ReplaceOne('\'', '&', "&amp;");
    ReplaceOne('\'', '<', "&lt;");
    ReplaceOne('\'', '>', "&gt;");
    ReplaceOne('\'', '"', "&quot;");
    ReplaceOne('\'', '\'', "&apos;");
  }

  /** Because '&' is replaced first, the chain of replacements escapes each
      character independently: no entity is escaped a second time. */
  lemma {:induction false} EscapeXmlIsPerChar(s: string)
    ensures EscapeXml(s) == EscapeEach(s)
  {
    if |s| > 0 {
      EscapeXmlIsPerChar(s[1..]);
      var head := [s[0]];
      assert s == head + s[1..];
      var a1 := ReplaceAll(head, '&', "&amp;");
      var b1 := ReplaceAll(s[1..], '&', "&amp;");
      ReplaceAllAppend(head, s[1..], '&', "&amp;");
      var a2 := ReplaceAll(a1, '<', "&lt;");
      var b2 := ReplaceAll(b1, '<', "&lt;");
      ReplaceAllAppend(a1, b1, '<', "&lt;");
      var a3 := ReplaceAll(a2, '>', "&gt;");
      var b3 := ReplaceAll(b2, '>', "&gt;");
      ReplaceAllAppend(a2, b2, '>', "&gt;");
      var a4 := ReplaceAll(a3, '"', "&quot;");
      var b4 := ReplaceAll(b3, '"', "&quot;");
      ReplaceAllAppend(a3, b3, '"', "&quot;");
      ReplaceAllAppend(a4, b4, '\'', "&apos;");
      EscapeOne(s[0]);
    }
  }

  /** The escaped text holds none of `<`, `>`, `"`, `'`. */
  lemma EscapeXmlHasNoMarkup(s: string)
    ensures '<' !in EscapeXml(s) && '>' !in EscapeXml(s) && '"' !in EscapeXml(s) && '\'' !in EscapeXml(s)
  {
    var s1 := ReplaceAll(s, '&', "&amp;");
    var s2 := ReplaceAll(s1, '<', "&lt;");
    var s3 := ReplaceAll(s2, '>', "&gt;");
    var s4 := ReplaceAll(s3, '"', "&quot;");
    ReplaceKeepsAbsent(s2, '>', "&gt;", '<');
    ReplaceKeepsAbsent(s3, '"', "&quot;", '<');
    ReplaceKeepsAbsent(s4, '\'', "&apos;", '<');
    ReplaceKeepsAbsent(s3, '"', "&quot;", '>');
    ReplaceKeepsAbsent(s4, '\'', "&apos;", '>');
    ReplaceKeepsAbsent(s4, '\'', "&apos;", '"');
  }

  /** Decoding of the five entities; any other character is kept. */
  function Unescape(t: string): string
    decreases |t|
  {
    if |t| == 0 then []
    else if |t| >= 5 && t[..5] == "&amp;" then "&" + Unescape(t[5..])
    else if |t| >= 4 && t[..4] == "&lt;" then "<" + Unescape(t[4..])
    else if |t| >= 4 && t[..4] == "&gt;" then ">" + Unescape(t[4..])
    else if |t| >= 6 && t[..6] == "&quot;" then "\"" + Unescape(t[6..])
    else if |t| >= 6 && t[..6] == "&apos;" then "'" + Unescape(t[6..])
    else [t[0]] + Unescape(t[1..])
  }

  /** Unescaping the output of `escapeXml` gives back the input. */
  lemma {:induction false} UnescapeEscapeXml(s: string)
    ensures Unescape(EscapeXml(s)) == s
  {
    EscapeXmlIsPerChar(s);
    UnescapeEach(s);
  }

  lemma {:induction false} UnescapeEach(s: string)
    ensures Unescape(EscapeEach(s)) == s
  {
    if |s| > 0 {
      UnescapeEach(s[1..]);
      UnescapeHead(s[0], EscapeEach(s[1..]));
      assert s == [s[0]] + s[1..];
    }
  }

  /** Decoding strips exactly the entity (or character) one character escaped to. */
  lemma UnescapeHead(c: char, rest: string)
    ensures Unescape(EscapeChar(c) + rest) == [c] + Unescape(rest)
  {
    match c
    case '&' => UnescapeAmp(rest);
    case '<' => UnescapeLtGt("&lt;", rest);
    case '>' => UnescapeLtGt("&gt;", rest);
    case '"' => UnescapeQuotApos("&quot;", rest);
    case '\'' => UnescapeQuotApos("&apos;", rest);
    case _ => UnescapePlain(c, rest);
  }

  lemma UnescapeAmp(rest: string)
    ensures Unescape("&amp;" + rest) == "&" + Unescape(rest)
  {
    var t := "&amp;" + rest;
    assert t[..5] == "&amp;" && t[5..] == rest;
  }

  lemma UnescapeLtGt(e: string, rest: string)
    requires e == "&lt;" || e == "&gt;"
    ensures Unescape(e + rest) == (if e == "&lt;" then "<" else ">") + Unescape(rest)
  {
    var t := e + rest;
    assert t[..4] == e && t[4..] == rest;
    assert t[1] == e[1];
    if |t| >= 5 { assert t[..5][1] == t[1]; }
  }

  lemma UnescapeQuotApos(e: string, rest: string)
    requires e == "&quot;" || e == "&apos;"
    ensures Unescape(e + rest) == (if e == "&quot;" then "\"" else "'") + Unescape(rest)
  {
    var t := e + rest;
    assert t[..6] == e && t[6..] == rest;
    assert t[1] == e[1];
    assert t[..6][1] == t[..5][1] == t[..4][1] == t[1];
    if e == "&quot;" {
      assert t[1] == 'q';
    } else {
      assert t[1] == 'a' && t[2] == e[2] == 'p';
      assert t[..5][2] == t[2];
    }
  }

  lemma UnescapePlain(c: char, rest: string)
    requires c !in "&<>\"'"
    ensures Unescape([c] + rest) == [c] + Unescape(rest)
  {
    var t := [c] + rest;
    assert t[0] == c && t[1..] == rest;
    if |t| >= 4 { assert t[..4][0] == c; }
    if |t| >= 5 { assert t[..5][0] == c; }
    if |t| >= 6 { assert t[..6][0] == c; }
  }

  /** Every ampersand in the output begins one of the five entities. */
  predicate EntityAt(t: string, i: nat) {
    (i + 5 <= |t| && t[i..i + 5] == "&amp;") || (i + 4 <= |t| && t[i..i + 4] == "&lt;")
    || (i + 4 <= |t| && t[i..i + 4] == "&gt;") || (i + 6 <= |t| && t[i..i + 6] == "&quot;")
    || (i + 6 <= |t| && t[i..i + 6] == "&apos;")
  }

  lemma {:induction false} AmpersandsStartEntities(s: string)
    ensures forall i :: 0 <= i < |EscapeEach(s)| && EscapeEach(s)[i] == '&' ==> EntityAt(EscapeEach(s), i)
  {
    if |s| > 0 {
      AmpersandsStartEntities(s[1..]);
      var e := EscapeChar(s[0]);
      var rest := EscapeEach(s[1..]);
      var t := e + rest;
      forall i | 0 <= i < |t| && t[i] == '&' ensures EntityAt(t, i) {
        if i < |e| {
          EntityHead(s[0], rest);
        } else {
          EntityShift(e, rest, i - |e|);
        }
      }
    }
  }

  /** An escaped ampersand-producing character starts with its entity. */
  lemma EntityHead(c: char, rest: string)
    requires c == '&' || c == '<' || c == '>' || c == '"' || c == '\''
    ensures EntityAt(EscapeChar(c) + rest, 0)
  {
    var e := EscapeChar(c);
    assert (e + rest)[0..|e|] == e;
  }

  lemma EntityShift(e: string, rest: string, j: nat)
    requires j < |rest| && EntityAt(rest, j)
    ensures EntityAt(e + rest, |e| + j)
  {
    if j + 4 <= |rest| { SliceShift(e, rest, j, 4); }
    if j + 5 <= |rest| { SliceShift(e, rest, j, 5); }
    if j + 6 <= |rest| { SliceShift(e, rest, j, 6); }
  }

  lemma SliceShift(e: string, rest: string, j: nat, len: nat)
    requires j + len <= |rest|
    ensures (e + rest)[|e| + j..|e| + j + len] == rest[j..j + len]
  {
  }

  /** In the output of `escapeXml`, every '&' begins one of the five entities. */
  lemma EscapeXmlAmpersands(s: string)
    ensures forall i :: 0 <= i < |EscapeXml(s)| && EscapeXml(s)[i] == '&' ==> EntityAt(EscapeXml(s), i)
  {
    EscapeXmlIsPerChar(s);
    AmpersandsStartEntities(s);
  }

  // ---------------------------------------------------------------------
  // formatDuration
  // ---------------------------------------------------------------------

  /** `formatDuration(seconds)`: `h:mm:ss` from one hour up, else `m:ss`. */
  function FormatDuration(seconds: int): string {
    var h := seconds / 3600;
    var m := JsRem(seconds, 3600) / 60;
    var s := JsRem(seconds, 60);
    if h > 0 then IntToString(h) + ":" + Pad2(m) + ":" + Pad2(s)
    else IntToString(m) + ":" + Pad2(s)
  }

  /** Reads `m:ss` or `h:mm:ss` back into seconds. */
  function ParseDuration(t: string): Option<int> {
    var parts := Split(t, ':');
    if |parts| == 2 && ParseNat(parts[0]).Some? && ParseNat(parts[1]).Some? then
      Some(ParseNat(parts[0]).value * 60 + ParseNat(parts[1]).value)
    else if |parts| == 3 && ParseNat(parts[0]).Some? && ParseNat(parts[1]).Some? && ParseNat(parts[2]).Some? then
      Some(ParseNat(parts[0]).value * 3600 + ParseNat(parts[1]).value * 60 + ParseNat(parts[2]).value)
    else None
  }

  /** A two-digit field below 60 spells its value. */
  lemma DurationFields(n: nat)
    ensures n % 3600 / 60 < 60 && n % 60 < 60
    ensures n == (n / 3600) * 3600 + (n % 3600 / 60) * 60 + n % 60
    ensures n / 3600 == 0 ==> n == (n % 3600 / 60) * 60 + n % 60
  {
    var r := n % 3600;
    assert n == (n / 3600) * 3600 + r;
    assert r == (r / 60) * 60 + r % 60;
    assert r % 60 == n % 60;
  }

  lemma ParseMinutes(m: nat, s: nat, n: nat)
    requires s < 60 && n == m * 60 + s
    ensures ParseDuration(NatToString(m) + ":" + Pad2(s)) == Some(n)
  {
    var a, b := NatToString(m), Pad2(s);
    Pad2Value(s);
    ParseNatToString(m);
    NoColonInNumber(m);
    SplitAround(a, ':', b);
    assert a + ":" + b == a + [':'] + b;
    ReadFields(a + ":" + b, [a, b], [m, s], n);
  }

  /** `ParseDuration` on text whose fields are already read. */
  lemma ReadFields(t: string, parts: seq<string>, values: seq<nat>, n: nat)
    requires Split(t, ':') == parts && |parts| == |values|
    requires forall k :: 0 <= k < |parts| ==> ParseNat(parts[k]) == Some(values[k])
    requires |parts| == 2 ==> n == values[0] * 60 + values[1]
    requires |parts| == 3 ==> n == values[0] * 3600 + values[1] * 60 + values[2]
    requires |parts| == 2 || |parts| == 3
    ensures ParseDuration(t) == Some(n)
  {
  }

  lemma SplitThree(a: string, b: string, c: string)
    requires ':' !in a && ':' !in b && ':' !in c
    ensures Split(a + ":" + b + ":" + c, ':') == [a, b, c]
  {
    var tail := b + [':'] + c;
    assert a + ":" + b + ":" + c == a + [':'] + tail;
    SplitCons(a, ':', tail);
    SplitAround(b, ':', c);
  }

  lemma ParseHours(h: nat, m: nat, s: nat, n: nat)
    requires m < 60 && s < 60 && n == h * 3600 + m * 60 + s
    ensures ParseDuration(NatToString(h) + ":" + Pad2(m) + ":" + Pad2(s)) == Some(n)
  {
    var a, b, c := NatToString(h), Pad2(m), Pad2(s);
    Pad2Value(m);
    Pad2Value(s);
    NoColonInNumber(h);
    SplitThree(a, b, c);
    ParseNatToString(h);
    ReadFields(a + ":" + b + ":" + c, [a, b, c], [h, m, s], n);
  }

  lemma FormatDurationNat(n: nat)
    ensures n / 3600 > 0 ==> FormatDuration(n) == NatToString(n / 3600) + ":" + Pad2(n % 3600 / 60) + ":" + Pad2(n % 60)
    ensures n / 3600 == 0 ==> FormatDuration(n) == NatToString(n % 3600 / 60) + ":" + Pad2(n % 60)
  {
    assert JsRem(n, 3600) == n % 3600;
    assert JsRem(n, 60) == n % 60;
  }

  /** The fields of a duration of at least an hour, and the text printed for it. */
  lemma HoursFields(n: nat) returns (h: nat, m: nat, s: nat)
    requires n >= 3600
    ensures m < 60 && s < 60 && h * 3600 + m * 60 + s == n
    ensures FormatDuration(n) == NatToString(h) + ":" + Pad2(m) + ":" + Pad2(s)
  {
    DurationFields(n);
    FormatDurationNat(n);
    h, m, s := n / 3600, n % 3600 / 60, n % 60;
  }

  /** The fields of a duration under an hour, and the text printed for it. */
  lemma MinutesFields(n: nat) returns (m: nat, s: nat)
    requires n < 3600
    ensures s < 60 && m * 60 + s == n
    ensures FormatDuration(n) == NatToString(m) + ":" + Pad2(s)
  {
    DurationFields(n);
    FormatDurationNat(n);
    m, s := n % 3600 / 60, n % 60;
  }

  lemma RoundTripHours(n: nat)
    requires n >= 3600
    ensures ParseDuration(FormatDuration(n)) == Some(n)
  {
    var h, m, s := HoursFields(n);
    ParseHours(h, m, s, n);
  }

  lemma RoundTripMinutes(n: nat)
    requires n < 3600
    ensures ParseDuration(FormatDuration(n)) == Some(n)
  {
    var m, s := MinutesFields(n);
    ParseMinutes(m, s, n);
  }

  /** Reading the printed duration back gives the number of seconds. */
  lemma FormatDurationRoundTrip(n: nat)
    ensures ParseDuration(FormatDuration(n)) == Some(n)
  {
    if n >= 3600 {
      RoundTripHours(n);
    } else {
      RoundTripMinutes(n);
    }
  }

  /** `h:mm:ss` from one hour up, `m:ss` below; every field after the first has two digits. */
  lemma FormatDurationShape(n: nat)
    ensures var parts := Split(FormatDuration(n), ':');
      (|parts| == 3 <==> n >= 3600) && (|parts| == 2 <==> n < 3600)
      && forall k :: 1 <= k < |parts| ==> |parts[k]| == 2
  {
    if n >= 3600 {
      var h, m, s := HoursFields(n);
      Pad2Value(m);
      Pad2Value(s);
      NoColonInNumber(h);
      SplitThree(NatToString(h), Pad2(m), Pad2(s));
    } else {
      var m, s := MinutesFields(n);
      Pad2Value(s);
      NoColonInNumber(m);
      SplitAround(NatToString(m), ':', Pad2(s));
    }
  }

  // ---------------------------------------------------------------------
  // Items
  // ---------------------------------------------------------------------

  /** A database row; nullable columns are options. */
  datatype Episode = Episode(
    id: string,
    title: string,
    description: Option<string>,
    audioUrl: string,
    duration: int,
    fileSize: Option<int>,
    episodeNumber: Option<int>,
    season: int,
    publishedAt: string,
    aiGenerated: bool,
    aiDisclosure: Option<string>)

  const DefaultAiNote: string := "This episode was generated with AI assistance using NotebookLM."

  /** JavaScript truthiness of a nullable string / number. */
  predicate TruthyText(s: Option<string>) { s.Some? && s.value != "" }
  predicate TruthyNum(n: Option<int>) { n.Some? && n.value != 0 }

  /** The description text of an item: the episode description or, failing
      that, the title; for AI episodes the disclosure follows after a blank line. */
  function FullDescription(ep: Episode): (r: string)
    ensures var base := if TruthyText(ep.description) then ep.description.value else ep.title;
      (!ep.aiGenerated ==> r == base)
      && (ep.aiGenerated ==> exists note :: (note != "" && r == base + "\n\n" + note
                                               && (TruthyText(ep.aiDisclosure) ==> note == ep.aiDisclosure.value)))
  {
    var description := if TruthyText(ep.description) then ep.description.value else ep.title;
    var aiNote := if ep.aiGenerated then (if TruthyText(ep.aiDisclosure) then ep.aiDisclosure.value else DefaultAiNote) else "";
    if aiNote != "" then description + "\n\n" + aiNote else description
  }

  /** The fields of one `<item>`. */
  datatype Item = Item(
    title: string,
    description: string,
    enclosureUrl: string,
    enclosureLength: int,
    guid: string,
    pubDate: string,
    duration: string,
    episode: Option<int>,
    season: Option<int>)

  /** One `<item>`. `utc` stands for `new Date(t).toUTCString()`, which the
      model does not compute. */
  function ItemOf(ep: Episode, utc: string -> string): (r: Item)
    ensures Unescape(r.title) == ep.title && Unescape(r.enclosureUrl) == ep.audioUrl
    ensures r.description == FullDescription(ep) && r.guid == ep.id && r.pubDate == utc(ep.publishedAt)
    ensures r.enclosureLength == if ep.fileSize.Some? then ep.fileSize.value else 0
    ensures ep.duration >= 0 ==> ParseDuration(r.duration) == Some(ep.duration)
    ensures r.episode.Some? <==> TruthyNum(ep.episodeNumber)
    ensures r.episode.Some? ==> r.episode == ep.episodeNumber
    ensures r.season.Some? <==> ep.season != 0
    ensures r.season.Some? ==> r.season.value == ep.season
  {
    UnescapeEscapeXml(ep.title);
    UnescapeEscapeXml(ep.audioUrl);
    assert ep.duration >= 0 ==> ParseDuration(FormatDuration(ep.duration)) == Some(ep.duration) by {
      if ep.duration >= 0 { FormatDurationRoundTrip(ep.duration); }
    }
    Item(EscapeXml(ep.title), FullDescription(ep), EscapeXml(ep.audioUrl),
         if TruthyNum(ep.fileSize) then ep.fileSize.value else 0,
         ep.id, utc(ep.publishedAt), FormatDuration(ep.duration),
         if TruthyNum(ep.episodeNumber) then ep.episodeNumber else None,
         if ep.season != 0 then Some(ep.season) else None)
  }

  /** `<lastBuildDate>`: the newest episode's date, or the current time
      `now` for an empty feed, both through `toUTCString`. */
  function LastBuildDate(episodes: seq<Episode>, now: string, utc: string -> string): (r: string)
    ensures |episodes| == 0 ==> r == utc(now)
  {
    if |episodes| > 0 then utc(episodes[0].publishedAt) else utc(now)
  }

  function Items(episodes: seq<Episode>, utc: string -> string): (r: seq<Item>)
    ensures |r| == |episodes| && forall i :: 0 <= i < |episodes| ==> r[i] == ItemOf(episodes[i], utc)
  {
    seq(|episodes|, i requires 0 <= i < |episodes| => ItemOf(episodes[i], utc))
  }

  /** The channel is dated like its first item, the newest episode. */
  lemma BuildDateIsFirstItem(episodes: seq<Episode>, now: string, utc: string -> string)
    requires |episodes| > 0
    ensures LastBuildDate(episodes, now, utc) == Items(episodes, utc)[0].pubDate
  {
  }
}
