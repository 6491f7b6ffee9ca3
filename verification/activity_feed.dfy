/** The homepage activity list (components/ActivityFeed.tsx): relative
    dates, one-line commit messages, and the five-by-two display limits.
    Dates are milliseconds since the epoch and `now` is a parameter. */
module ActivityFeed {
  import opened Wrappers
  import opened Text

  const DayMs: nat := 1000 * 60 * 60 * 24

  /** `Math.floor(diffMs / DayMs)`; Dafny's division by a positive divisor is floor division. */
  function DiffDays(now: int, date: int): int {
    (now - date) / DayMs
  }

  /** The relative phrase for a whole number of elapsed days. */
  function DaysPhrase(days: int): (r: string)
    ensures days == 0 <==> r == "today"
    ensures days == 1 <==> r == "yesterday"
    ensures days < 7 && days != 0 && days != 1 ==> r == IntToString(days) + " days ago"
    ensures 7 <= days < 30 ==> r == IntToString(days / 7) + " weeks ago"
    ensures days >= 30 ==> r == IntToString(days / 30) + " months ago"
  {
    if days == 0 then "today"
    else if days == 1 then "yesterday"
    else if days < 7 then IntToString(days) + " days ago"
    else if days < 30 then IntToString(days / 7) + " weeks ago"
    else IntToString(days / 30) + " months ago"
  }

  /** `formatDate(dateStr)` at time `now`: anything within the last day is
      "today", and a date at least a day ahead reads as a negative number
      of days ago. */
  function FormatDate(now: int, date: int): (r: string)
    ensures 0 <= now - date < DayMs ==> r == "today"
    ensures DayMs <= now - date < 2 * DayMs ==> r == "yesterday"
    ensures date - now >= DayMs ==> r == "-" + NatToString(-DiffDays(now, date)) + " days ago"
  {
    DaysPhrase(DiffDays(now, date))
  }

  const MaxLength: nat := 80

  /** line is the text of msg before its first newline (all of msg when it
      has none). */
  predicate IsFirstLine(msg: string, line: string) {
    StartsWith(msg, line) && '\n' !in line && (|line| == |msg| || msg[|line|] == '\n')
  }

  /** The first line of msg is longer than MaxLength. */
  predicate LongFirstLine(msg: string) {
    |msg| > MaxLength && '\n' !in msg[..MaxLength + 1]
  }

  /** `shortMessage`: the first line, cut to 77 characters plus "..." when
      it is longer than 80. */
  function ShortMessage(msg: string): (r: string)
    ensures |r| <= MaxLength && '\n' !in r
    ensures !LongFirstLine(msg) ==> IsFirstLine(msg, r)
    ensures LongFirstLine(msg) ==> r == msg[..77] + "..."
  {
    var first := Split(msg, '\n')[0];
    FirstLineIsPrefix(msg);
    if |first| > MaxLength then
      assert first[..77] == msg[..77];
      assert msg[..MaxLength + 1] == first[..MaxLength + 1];
      first[..77] + "..."
    else
      assert |msg| > MaxLength ==> msg[..MaxLength + 1][|first|] == '\n';
      first
  }

  /** The first line is what comes before the first newline. */
  lemma FirstLineIsPrefix(msg: string)
    ensures Split(msg, '\n')[0] == msg[..IndexOf(msg, '\n')]
    ensures IsFirstLine(msg, Split(msg, '\n')[0])
  {
  }

  /** A shortened message is its own short form: it is one line of at most
      80 characters. */
  lemma {:induction false} ShortMessageIdempotent(msg: string)
    ensures ShortMessage(ShortMessage(msg)) == ShortMessage(msg)
  {
    var r := ShortMessage(msg);
    assert !LongFirstLine(r);
    var rr := ShortMessage(r);
    assert IsFirstLine(r, rr);
  }

  datatype CommitLine = CommitLine(message: string, sha: string, url: Option<string>)
  datatype ActivityItem = ActivityItem(repo: string, date: int, commits: seq<CommitLine>)

  /** One rendered entry: the repository's short name (`repo.split('/')[1]`,
      absent without a slash), its relative date, and its commit lines. */
  datatype Entry = Entry(name: Option<string>, when: string, lines: seq<string>)

  const MaxItems: nat := 5
  const MaxCommits: nat := 2

  function Min(a: nat, b: nat): nat { if a < b then a else b }

  function RenderItem(now: int, item: ActivityItem): (e: Entry)
    ensures |e.lines| == Min(|item.commits|, MaxCommits)
    ensures forall j :: 0 <= j < |e.lines| ==> e.lines[j] == ShortMessage(item.commits[j].message)
  {
    var parts := Split(item.repo, '/');
    var shown := item.commits[..Min(|item.commits|, MaxCommits)];
    Entry(if |parts| > 1 then Some(parts[1]) else None,
          FormatDate(now, item.date),
          seq(|shown|, j requires 0 <= j < |shown| => ShortMessage(shown[j].message)))
  }

  /** The feed: nothing for an empty list, else the first five items. */
  function Render(now: int, activity: seq<ActivityItem>): (r: Option<seq<Entry>>)
    ensures r.None? <==> |activity| == 0
    ensures r.Some? ==> (|r.value| == Min(|activity|, MaxItems)
      && forall i :: 0 <= i < |r.value| ==> r.value[i] == RenderItem(now, activity[i]) && |r.value[i].lines| <= MaxCommits)
  {
    if |activity| == 0 then None
    else
      var shown := activity[..Min(|activity|, MaxItems)];
      Some(seq(|shown|, i requires 0 <= i < |shown| => RenderItem(now, shown[i])))
  }

  /** `owner/name` shows as name. */
  lemma RepoShortName(owner: string, name: string)
    requires '/' !in owner && '/' !in name
    ensures RenderItem(0, ActivityItem(owner + "/" + name, 0, [])).name == Some(name)
  {
    SplitAround(owner, '/', name);
  }
}
