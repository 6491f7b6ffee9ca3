/** Pieces shared by the podcast and commits API routes: the bearer-token
    check, `parseInt`-based paging parameters, and the numbered `$n`
    placeholders of a multi-row INSERT. */
module ApiCommon {
  import opened Wrappers
  import opened Text

  /** A value bound to a `$n` placeholder; `NaN` is what `parseInt` yields
      when no digits are found. */
  datatype SqlValue = SqlText(s: string) | SqlInt(i: int) | SqlBool(b: bool) | SqlNull | NaN

  /** `!expectedToken || authHeader !== \`Bearer ${expectedToken}\`` fails. */
  predicate Authorized(header: Option<string>, secret: Option<string>) {
    secret.Some? && secret.value != "" && header == Some("Bearer " + secret.value)
  }

  lemma AuthorizedNeedsSecret(header: Option<string>, secret: Option<string>)
    ensures Authorized(header, secret) <==> exists t :: t != "" && secret == Some(t) && header == Some("Bearer " + t)
  {
    if Authorized(header, secret) {
      assert secret.value != "" && secret == Some(secret.value);
    }
  }

  // ---------------------------------------------------------------------
  // parseInt
  // ---------------------------------------------------------------------

  /** Length of the longest all-digit prefix. */
  function DigitPrefix(s: string): (n: nat)
    ensures n <= |s| && AllDigits(s[..n])
    ensures n < |s| ==> !IsDigit(s[n])
  {
    if |s| == 0 || !IsDigit(s[0]) then 0
    else
      var n := 1 + DigitPrefix(s[1..]);
      assert s[..n] == [s[0]] + s[1..][..n - 1];
      n
  }

  predicate IsHexDigit(c: char) { IsDigit(c) || 'a' <= c <= 'f' || 'A' <= c <= 'F' }

  predicate AllHex(s: string) { forall i :: 0 <= i < |s| ==> IsHexDigit(s[i]) }

  function HexDigitValue(c: char): (v: nat)
    requires IsHexDigit(c)
    ensures v < 16
  {
    if IsDigit(c) then DigitValue(c)
    else if 'a' <= c <= 'f' then (c - 'a') as nat + 10
    else (c - 'A') as nat + 10
  }

  /** Value of a string of hexadecimal digits (0 for the empty string). */
  function HexValue(s: string): nat
    requires AllHex(s)
  {
    if s == [] then 0 else HexValue(s[..|s| - 1]) * 16 + HexDigitValue(s[|s| - 1])
  }

  /** Length of the longest hexadecimal-digit prefix. */
  function HexPrefix(s: string): (n: nat)
    ensures n <= |s| && AllHex(s[..n])
    ensures n < |s| ==> !IsHexDigit(s[n])
  {
    if |s| == 0 || !IsHexDigit(s[0]) then 0
    else
      var n := 1 + HexPrefix(s[1..]);
      assert s[..n] == [s[0]] + s[1..][..n - 1];
      n
  }

  /** "0x" or "0X" at the front, which switches `parseInt` to radix 16. */
  predicate HexMarked(u: string) { |u| >= 2 && u[0] == '0' && (u[1] == 'x' || u[1] == 'X') }

  /** The unsigned value: the longest run of hexadecimal digits after a "0x"
      marker, else the longest run of decimal digits; None when the run is empty. */
  function UnsignedPrefix(u: string): (r: Option<nat>)
    ensures !HexMarked(u) && AllDigits(u) && |u| > 0 ==> r == Some(DigitsValue(u))
    ensures HexMarked(u) && AllHex(u[2..]) && |u| > 2 ==> r == Some(HexValue(u[2..]))
  {
    if HexMarked(u) then
      var h := u[2..];
      var n := HexPrefix(h);
      assert AllHex(h) && |h| > 0 ==> n == |h| && h[..n] == h;
      if n == 0 then None else Some(HexValue(h[..n]))
    else
      var n := DigitPrefix(u);
      assert AllDigits(u) && |u| > 0 ==> n == |u| && u[..n] == u;
      if n == 0 then None else Some(DigitsValue(u[..n]))
  }

  /** `parseInt(s)` with no radix: leading white space, an optional sign,
      then either "0x" and the longest run of hexadecimal digits or the
      longest run of decimal digits; None stands for NaN. */
  function ParseInt(s: string): (r: Option<int>)
    ensures AllDigits(s) && |s| > 0 ==> r == Some(DigitsValue(s))
    ensures r.None? <==> UnsignedPrefix(Unsigned(TrimStart(s))).None?
    ensures r.Some? ==> r.value == (if Negative(TrimStart(s)) then -1 else 1) * UnsignedPrefix(Unsigned(TrimStart(s))).value
  {
    var t := TrimStart(s);
    assert AllDigits(s) && |s| > 0 ==> t == s && Unsigned(t) == s && !HexMarked(s);
    match UnsignedPrefix(Unsigned(t))
    case None => None
    case Some(v) => Some(if Negative(t) then -(v as int) else v)
  }

  predicate Negative(t: string) { |t| > 0 && t[0] == '-' }

  /** The text after an optional sign. */
  function Unsigned(t: string): string {
    if |t| > 0 && (t[0] == '-' || t[0] == '+') then t[1..] else t
  }

  /** "0x" followed by hexadecimal digits reads in radix 16 ("0x20" is 32). */
  lemma ParseIntOfHex(d: string)
    requires |d| > 0 && AllHex(d)
    ensures ParseInt("0x" + d) == Some(HexValue(d))
  {
    var s := "0x" + d;
    assert s[0] == '0' && s[1] == 'x' && s[2..] == d;
    assert !IsSpace(s[0]);
    assert TrimStart(s) == s;
    assert Unsigned(s) == s;
    assert !Negative(s);
    assert UnsignedPrefix(s) == Some(HexValue(d));
  }

  lemma HexValueOf20()
    ensures AllHex("20") && HexValue("20") == 32
  {
    assert "20"[..1] == "2" && "2"[..0] == [];
    assert HexDigitValue('2') == 2 && HexDigitValue('0') == 0;
    assert HexValue("2") == 2;
  }

  lemma ParseIntHexLiteral()
    ensures ParseInt("0x20") == Some(32)
  {
    HexValueOf20();
    ParseIntOfHex("20");
    assert "0x" + "20" == "0x20";
  }

  /** A printed number parses back. */
  lemma ParseIntOfNat(n: nat)
    ensures ParseInt(NatToString(n)) == Some(n)
  {
    DigitsValueOfNatToString(n);
  }

  lemma ParseIntLiteral()
    ensures ParseInt("50") == Some(50) && ParseInt("0") == Some(0)
  {
    assert AllDigits("50") && AllDigits("0");
    assert "50"[..1] == "5" && "5"[..0] == [] && "0"[..0] == [];
    assert DigitsValue("5") == 5;
    assert DigitsValue("50") == 50;
    assert DigitsValue("0") == 0;
  }

  /** `searchParams.get(name) || fallback`: a missing or empty parameter uses the fallback. */
  function ParamOr(p: Option<string>, fallback: string): (r: string)
    ensures p.Some? && p.value != "" ==> r == p.value
    ensures (p.None? || p.value == "") ==> r == fallback
  {
    if p.Some? && p.value != "" then p.value else fallback
  }

  /** `Math.min(parseInt(limit || '50'), 100)`; NaN stays NaN. */
  function PageLimit(p: Option<string>): (r: Option<int>)
    ensures (p.None? || p.value == "") ==> r == Some(50)
    ensures r.Some? ==> r.value <= 100
    ensures ParseInt(ParamOr(p, "50")).Some? ==> r.Some? && (r.value == 100 || r.value == ParseInt(ParamOr(p, "50")).value)
  {
    ParseIntLiteral();
    match ParseInt(ParamOr(p, "50"))
    case None => None
    case Some(v) => Some(if v < 100 then v else 100)
  }

  /** `parseInt(offset || '0')`. */
  function PageOffset(p: Option<string>): (r: Option<int>)
    ensures (p.None? || p.value == "") ==> r == Some(0)
    ensures p.Some? && p.value != "" ==> r == ParseInt(p.value)
  {
    ParseIntLiteral();
    ParseInt(ParamOr(p, "0"))
  }

  function AsSql(v: Option<int>): SqlValue {
    if v.Some? then SqlInt(v.value) else NaN
  }

  // ---------------------------------------------------------------------
  // Multi-row INSERT placeholders
  // ---------------------------------------------------------------------

  /** `$n`. */
  function Param(n: nat): string { "$" + NatToString(n) }

  /** The placeholder numbers of row i in a batch of `width` columns: w·i+1 .. w·i+w. */
  function RowIndices(width: nat, i: nat): (r: seq<nat>)
    ensures |r| == width && forall k :: 0 <= k < width ==> r[k] == width * i + k + 1
  {
    seq(width, k requires 0 <= k < width => width * i + k + 1)
  }

  /** `($a, $b, …)` for one row. */
  function RowPlaceholder(width: nat, i: nat): string {
    var idx := RowIndices(width, i);
    "(" + Join(seq(width, k requires 0 <= k < width => Param(idx[k])), ", ") + ")"
  }

  /** `placeholders.join(', ')` over n rows. */
  function Placeholders(width: nat, n: nat): string {
    Join(seq(n, i requires 0 <= i < n => RowPlaceholder(width, i)), ", ")
  }

  /** The `values` array: every row's values, row after row. */
  function Flatten(rows: seq<seq<SqlValue>>): seq<SqlValue> {
    if |rows| == 0 then [] else Flatten(rows[..|rows| - 1]) + rows[|rows| - 1]
  }

  predicate Uniform(rows: seq<seq<SqlValue>>, width: nat) {
    forall i :: 0 <= i < |rows| ==> |rows[i]| == width
  }

  lemma MulStep(width: nat, i: nat, n: nat)
    requires i < n
    ensures width * i + width <= width * n
  {
    MulLe(width, i + 1, n);
  }

  lemma MulLe(width: nat, a: nat, b: nat)
    requires a <= b
    ensures width * a <= width * b
  {
  }

  /** Rows of equal width flatten to width·n values. */
  lemma {:induction false} FlattenLength(rows: seq<seq<SqlValue>>, width: nat)
    requires Uniform(rows, width)
    ensures |Flatten(rows)| == width * |rows|
  {
    var n := |rows|;
    if n > 0 {
      FlattenLength(rows[..n - 1], width);
      assert width * n == width * (n - 1) + width;
    }
  }

  /** Value width·i + k of the flattened rows is column k of row i: the
      placeholder `$(width·i + k + 1)` is bound to it. */
  lemma {:induction false} FlattenAt(rows: seq<seq<SqlValue>>, width: nat, i: nat, k: nat)
    requires Uniform(rows, width) && i < |rows| && k < width
    ensures width * i + k < |Flatten(rows)| && Flatten(rows)[width * i + k] == rows[i][k]
  {
    var n := |rows|;
    var init := rows[..n - 1];
    var front := Flatten(init);
    assert Flatten(rows) == front + rows[n - 1];
    FlattenLength(init, width);
    FlattenLength(rows, width);
    if i < n - 1 {
      FlattenAt(init, width, i, k);
      MulStep(width, i, n - 1);
      assert init[i] == rows[i];
    } else {
      assert width * i + k == |front| + k;
    }
  }
}
