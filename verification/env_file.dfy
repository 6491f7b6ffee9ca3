/** The `.env.local` reader shared, line for line, by the backfill and
    migration scripts: `KEY=value` lines, `#` comments, one quote stripped
    from each end of the value, and variables already set are never
    overridden. */
module EnvFile {
  import opened Wrappers
  import opened Text

  /** `process.env`: names to values. */
  type Env = map<string, string>

  predicate IsQuote(c: char) { c == '"' || c == '\'' }

  /** `value.replace(/^["']|["']$/g, '')`: at most one quote character
      removed from the front and at most one from the back. */
  function StripQuotes(v: string): (r: string)
    ensures |v| - 2 <= |r| <= |v|
    ensures (|v| > 0 && IsQuote(v[0])) || (|v| > 0 && IsQuote(v[|v| - 1])) || r == v
    ensures |v| >= 2 && IsQuote(v[0]) && IsQuote(v[|v| - 1]) ==> r == v[1..|v| - 1]
    ensures |v| > 0 && !IsQuote(v[0]) ==> StartsWith(v, r)
  {
    var front := if |v| > 0 && IsQuote(v[0]) then v[1..] else v;
    if |front| > 0 && IsQuote(front[|front| - 1]) then front[..|front| - 1] else front
  }

  /** One line of the file: None for a blank line, a `#` comment or a line
      without `=`; otherwise the text before the first `=` and the
      unquoted rest. */
  function ParseLine(line: string): (r: Option<(string, string)>)
    ensures r.None? <==> var t := Trim(line); t == "" || t[0] == '#' || '=' !in t
    ensures r.Some? ==> ('=' !in r.value.0 && |r.value.0| < |Trim(line)|
      && Trim(line) == r.value.0 + "=" + Trim(line)[|r.value.0| + 1..]
      && r.value.1 == StripQuotes(Trim(line)[|r.value.0| + 1..]))
  {
    ParseTrimmed(Trim(line))
  }

  /** ParseLine on the trimmed line. */
  function ParseTrimmed(t: string): (r: Option<(string, string)>)
    ensures r.None? <==> t == "" || t[0] == '#' || '=' !in t
    ensures r.Some? ==> ('=' !in r.value.0 && |r.value.0| < |t|
      && t == r.value.0 + "=" + t[|r.value.0| + 1..]
      && r.value.1 == StripQuotes(t[|r.value.0| + 1..]))
  {
    if t == "" then None
    else if StartsWith(t, "#") then
      assert t[0] == '#' by { assert t[..1][0] == t[0]; }
      None
    else
      assert t[0] != '#' by { assert t[..1] == [t[0]]; }
      var eq := IndexOf(t, '=');
      if eq == |t| then
        None
      else
        var key := t[..eq];
        var rest := t[eq + 1..];
        assert t == key + "=" + rest by {
          assert t == t[..eq] + [t[eq]] + t[eq + 1..];
        }
        assert '=' !in key by {
          assert forall k :: 0 <= k < |key| ==> key[k] == t[k];
        }
        Some((key, StripQuotes(rest)))
  }

  /** `if (!process.env[key]) process.env[key] = value`: a missing or
      empty variable takes the file's value. */
  function Assign(env: Env, line: string): (r: Env)
    ensures r.Keys >= env.Keys
    ensures forall k :: k in env && env[k] != "" ==> k in r && r[k] == env[k]
  {
    match ParseLine(line)
    case None => env
    case Some((k, v)) => if k in env && env[k] != "" then env else env[k := v]
  }

  /** Every line in file order. */
  function AssignAll(env: Env, lines: seq<string>): (r: Env)
    ensures r.Keys >= env.Keys
    ensures forall k :: k in env && env[k] != "" ==> k in r && r[k] == env[k]
    decreases |lines|
  {
    if |lines| == 0 then env else AssignAll(Assign(env, lines[0]), lines[1..])
  }

  /** `loadEnv` of the backfill script: a missing file (None) changes nothing. */
  function LoadEnvLenient(env: Env, content: Option<string>): (r: Env)
    ensures content.None? ==> r == env
    ensures forall k :: k in env && env[k] != "" ==> k in r && r[k] == env[k]
  {
    if content.None? then env else AssignAll(env, Split(content.value, '\n'))
  }

  const MissingFile := "ERROR: .env.local not found"

  /** `loadEnv` of the migration script: a missing file ends the process. */
  function LoadEnvStrict(env: Env, content: Option<string>): (r: Result<Env, string>)
    ensures r.Failure? <==> content.None?
    ensures r.Failure? ==> r.error == MissingFile
    ensures r.Success? ==> r.value == LoadEnvLenient(env, content)
  {
    if content.None? then Failure(MissingFile) else Success(LoadEnvLenient(env, content))
  }

  /** A `KEY=value` line sets an unset KEY to the value. */
  lemma AssignLine(env: Env, key: string, value: string)
    requires key != "" && key[0] != '#' && '=' !in key
    requires !IsSpace(key[0]) && (value == [] || !IsSpace(value[|value| - 1]))
    requires key !in env
    ensures Assign(env, key + "=" + value) == env[key := StripQuotes(value)]
  {
    var line := key + "=" + value;
    assert line[0] == key[0] && line[|line| - 1] == (if value == [] then '=' else value[|value| - 1]);
    TrimOfUnspaced(line);
    IndexOfAfter(key, '=', value);
    assert line[..|key|] == key && line[|key| + 1..] == value;
    assert !StartsWith(line, "#") by { assert line[..1] == [key[0]]; }
    assert ParseLine(line) == Some((key, StripQuotes(value)));
  }

  /** A line with no white space at either end is its own trim. */
  lemma TrimOfUnspaced(s: string)
    requires s != [] && !IsSpace(s[0]) && !IsSpace(s[|s| - 1])
    ensures Trim(s) == s
  {
  }

  /** The first of two lines for the same unset KEY wins, unless its value is empty. */
  lemma FirstLineWins(env: Env, key: string, v1: string, v2: string)
    requires key != "" && key[0] != '#' && '=' !in key && !IsSpace(key[0])
    requires v1 != [] && !IsSpace(v1[|v1| - 1]) && StripQuotes(v1) != ""
    requires v2 == [] || !IsSpace(v2[|v2| - 1])
    requires key !in env
    ensures var r := AssignAll(env, [key + "=" + v1, key + "=" + v2]);
      key in r && r[key] == StripQuotes(v1)
  {
    AssignLine(env, key, v1);
    var e1 := env[key := StripQuotes(v1)];
    assert [key + "=" + v1, key + "=" + v2][1..] == [key + "=" + v2];
  }
}
