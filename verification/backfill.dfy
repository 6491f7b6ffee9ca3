/** The commit backfill script (scripts/backfill-commits.ts): command-line
    defaults, GitHub remote parsing, `git log` line parsing, the public-repo
    filter, the newest-first ordering and the batches of 100 posted to the
    commits route. Git output, the public-repo list and date parsing are
    parameters. */
module Backfill {
  import opened Wrappers
  import opened Text
  import opened CommitsApi

  // ---------------------------------------------------------------------
  // Command line
  // ---------------------------------------------------------------------

  const DefaultSince := "2024-07-01"
  const DefaultProjectsPath := "C:\\Users\\musse\\Projects"

  datatype Args = Args(dryRun: bool, since: string, projectsPath: string)

  /** `args.find(a => a.startsWith(prefix))`. */
  function FindPrefixed(args: seq<string>, prefix: string): (r: Option<string>)
    ensures r.Some? ==> r.value in args && StartsWith(r.value, prefix)
    ensures r.None? <==> forall a :: a in args ==> !StartsWith(a, prefix)
  {
    if |args| == 0 then None
    else if StartsWith(args[0], prefix) then Some(args[0])
    else FindPrefixed(args[1..], prefix)
  }

  /** `?.split('=')[1] || fallback`: the text between the first and second `=`. */
  function FlagValue(args: seq<string>, prefix: string, fallback: string): string {
    match FindPrefixed(args, prefix)
    case None => fallback
    case Some(a) =>
      var parts := Split(a, '=');
      if |parts| > 1 && parts[1] != "" then parts[1] else fallback
  }

  function ParseArgs(args: seq<string>): (r: Args)
    ensures r.dryRun <==> "--dry-run" in args
    ensures (forall a :: a in args ==> !StartsWith(a, "--since=")) ==> r.since == DefaultSince
    ensures (forall a :: a in args ==> !StartsWith(a, "--projects=")) ==> r.projectsPath == DefaultProjectsPath
  {
    Args("--dry-run" in args,
         FlagValue(args, "--since=", DefaultSince),
         FlagValue(args, "--projects=", DefaultProjectsPath))
  }

  /** `--since=D` with a plain date sets since to D. */
  lemma SinceFlag(d: string)
    requires d != "" && '=' !in d
    ensures ParseArgs(["--since=" + d]).since == d
  {
    var a := "--since=" + d;
    assert StartsWith(a, "--since=");
    assert a == "--since" + ['='] + d;
    SplitAround("--since", '=', d);
  }

  lemma NoArgsDefaults()
    ensures ParseArgs([]) == Args(false, DefaultSince, DefaultProjectsPath)
  {
  }

  // ---------------------------------------------------------------------
  // Remote URL → owner/name
  // ---------------------------------------------------------------------

  const Host := "github.com"

  /** `github\.com[:/]` at position i. */
  predicate HostAt(url: string, i: nat) {
    OccursAt(url, Host, i) && i + 10 < |url| && (url[i + 10] == ':' || url[i + 10] == '/')
  }

  /** `([^/]+\/[^/]+?)(?:\.git)?$` against the text after the host: two
      non-empty slash-free parts, and one trailing ".git" dropped when
      something is left before it. */
  function RepoOfRest(rest: string): (r: Option<string>)
    ensures r.Some? ==> exists a, b :: a != "" && b != "" && '/' !in a && '/' !in b && r.value == a + "/" + b
  {
    var parts := Split(rest, '/');
    if |parts| == 2 && parts[0] != "" && parts[1] != "" then
      var c := parts[1];
      var b := if EndsWith(c, ".git") && |c| > 4 then c[..|c| - 4] else c;
      assert '/' !in b by { assert forall k :: 0 <= k < |b| ==> b[k] == c[k]; }
      Some(parts[0] + "/" + b)
    else None
  }

  /** The leftmost match at or after position i. */
  function ExtractFrom(url: string, i: nat): (r: Option<string>)
    ensures r.Some? ==> exists j :: i <= j && HostAt(url, j) && r == RepoOfRest(url[j + 11..])
    ensures r.None? ==> forall j :: i <= j && HostAt(url, j) ==> RepoOfRest(url[j + 11..]).None?
    decreases |url| - i
  {
    if i + 11 > |url| then None
    else if HostAt(url, i) && RepoOfRest(url[i + 11..]).Some? then RepoOfRest(url[i + 11..])
    else ExtractFrom(url, i + 1)
  }

  /** `extractRepoName`: "owner/name" from an SSH or HTTPS GitHub remote, else None. */
  function ExtractRepoName(url: string): (r: Option<string>)
    ensures r.Some? ==> exists a, b :: a != "" && b != "" && '/' !in a && '/' !in b && r.value == a + "/" + b
    ensures r.None? <==> forall j :: HostAt(url, j) ==> RepoOfRest(url[j + 11..]).None?
  {
    ExtractFrom(url, 0)
  }

  predicate Slug(s: string) { s != "" && '/' !in s }

  /** The text after the host, with and without the ".git" suffix. */
  lemma RestOfRemote(owner: string, name: string, suffix: string)
    requires Slug(owner) && Slug(name) && !EndsWith(name, ".git") && (suffix == "" || suffix == ".git")
    ensures RepoOfRest(owner + "/" + name + suffix) == Some(owner + "/" + name)
  {
    var c := name + suffix;
    assert '/' !in c by { assert forall k :: 0 <= k < |c| ==> c[k] == if k < |name| then name[k] else suffix[k - |name|]; }
    assert owner + "/" + name + suffix == owner + ['/'] + c;
    SplitAround(owner, '/', c);
    if suffix == ".git" {
      assert c[..|c| - 4] == name;
    } else {
      assert c == name;
    }
  }

  /** Positions before the first host occurrence do not match. */
  lemma {:induction false} SkipTo(url: string, i: nat, k: nat)
    requires i <= k && forall j :: i <= j < k ==> !HostAt(url, j)
    ensures ExtractFrom(url, i) == ExtractFrom(url, k)
    decreases k - i
  {
    if i < k {
      assert !HostAt(url, i);
      assert ExtractFrom(url, i) == ExtractFrom(url, i + 1);
      SkipTo(url, i + 1, k);
    }
  }

  /** Slicing inside the first part of a concatenation. */
  lemma PrefixSlice(p: string, rest: string, i: nat, j: nat)
    requires i <= j <= |p|
    ensures (p + rest)[i..j] == p[i..j]
  {
    assert forall k :: i <= k < j ==> (p + rest)[k] == p[k];
  }

  /** A remote written as a fixed prefix, whose host sits at position h and
      is its only occurrence, then "owner/name" and an optional ".git". */
  lemma PrefixedRemote(p: string, h: nat, owner: string, name: string, suffix: string)
    requires h + 11 == |p| && p[h..h + 10] == Host && (p[h + 10] == ':' || p[h + 10] == '/')
    requires forall j :: 0 <= j < h ==> !OccursAt(p, Host, j)
    requires Slug(owner) && Slug(name) && !EndsWith(name, ".git") && (suffix == "" || suffix == ".git")
    ensures ExtractRepoName(p + owner + "/" + name + suffix) == Some(owner + "/" + name)
  {
    var rest := owner + "/" + name + suffix;
    var url := p + rest;
    assert p + owner + "/" + name + suffix == url;
    NoEarlierHost(p, rest, h);
    SkipTo(url, 0, h);
    HostAtEnd(p, rest, h);
    RestOfRemote(owner, name, suffix);
    assert ExtractFrom(url, h) == Some(owner + "/" + name);
  }

  /** A prefix free of the host before position h gives no match there. */
  lemma NoEarlierHost(p: string, rest: string, h: nat)
    requires h + 10 <= |p| && forall j :: 0 <= j < h ==> !OccursAt(p, Host, j)
    ensures forall j :: 0 <= j < h ==> !HostAt(p + rest, j)
  {
    forall j | 0 <= j < h ensures !HostAt(p + rest, j) {
      PrefixSlice(p, rest, j, j + 10);
      assert !OccursAt(p, Host, j);
    }
  }

  /** A prefix ending in the host and its separator matches there, and
      what follows is the rest. */
  lemma HostAtEnd(p: string, rest: string, h: nat)
    requires h + 11 == |p| && p[h..h + 10] == Host && (p[h + 10] == ':' || p[h + 10] == '/')
    ensures HostAt(p + rest, h) && (p + rest)[h + 11..] == rest
  {
    PrefixSlice(p, rest, h, h + 10);
    assert (p + rest)[h + 10] == p[h + 10];
  }

  /** `git@github.com:owner/name.git` gives "owner/name". */
  lemma SshRemote(owner: string, name: string)
    requires Slug(owner) && Slug(name) && !EndsWith(name, ".git")
    ensures ExtractRepoName("git@github.com:" + owner + "/" + name + ".git") == Some(owner + "/" + name)
  {
    var p := "git@github.com:";
    assert !OccursAt(p, Host, 0) by { assert p[3] != Host[3]; }
    forall j | 1 <= j < 4 ensures !OccursAt(p, Host, j) {
      assert p[j..j + 10][0] == p[j] != Host[0];
    }
    assert p[4..14] == Host && p[14] == ':';
    PrefixedRemote(p, 4, owner, name, ".git");
  }

  /** `https://github.com/owner/name` gives "owner/name", with or without ".git". */
  lemma HttpsRemote(owner: string, name: string, suffix: string)
    requires Slug(owner) && Slug(name) && (suffix == "" || suffix == ".git") && !EndsWith(name, ".git")
    ensures ExtractRepoName("https://github.com/" + owner + "/" + name + suffix) == Some(owner + "/" + name)
  {
    var p := "https://github.com/";
    assert forall j :: 0 <= j < 8 ==> p[j] != Host[0];
    PrefixedRemote(p, 8, owner, name, suffix);
  }

  // ---------------------------------------------------------------------
  // git log lines
  // ---------------------------------------------------------------------

  function CommitUrl(repo: string, sha: string): string {
    "https://github.com/" + repo + "/commit/" + sha
  }

  /** `const [sha, committed_at, ...messageParts] = line.split('|')`, kept
      only when all three are non-empty. */
  function ParseCommitLine(line: string, repo: string): (r: Option<CommitPayload>)
    ensures var f := Split(line, '|');
      r.Some? <==> (|f| >= 3 && f[0] != "" && f[1] != "" && Join(f[2..], "|") != "")
    ensures r.Some? ==> (r.value.repo == repo && r.value.url == Some(CommitUrl(repo, r.value.sha))
      && '|' !in r.value.sha && '|' !in r.value.committedAt)
  {
    var fields := Split(line, '|');
    var sha := fields[0];
    var date := if |fields| > 1 then fields[1] else "";
    var message := if |fields| > 2 then Join(fields[2..], "|") else "";
    if sha != "" && date != "" && message != "" then
      Some(CommitPayload(sha, repo, message, date, Some(CommitUrl(repo, sha))))
    else None
  }

  /** A message containing '|' survives: only the first two separators split. */
  lemma ParseCommitLineRoundTrip(sha: string, date: string, message: string, repo: string)
    requires sha != "" && date != "" && message != ""
    requires '|' !in sha && '|' !in date
    ensures ParseCommitLine(sha + "|" + date + "|" + message, repo)
      == Some(CommitPayload(sha, repo, message, date, Some(CommitUrl(repo, sha))))
  {
    var line := sha + "|" + date + "|" + message;
    assert line == sha + ['|'] + (date + ['|'] + message);
    SplitCons(sha, '|', date + ['|'] + message);
    SplitCons(date, '|', message);
    var f := Split(line, '|');
    assert f == [sha, date] + Split(message, '|');
    assert f[2..] == Split(message, '|');
  }

  /** c is what one of the lines parses to. */
  predicate ParsedFrom(lines: seq<string>, repo: string, c: CommitPayload) {
    exists i :: 0 <= i < |lines| && ParseCommitLine(lines[i], repo) == Some(c)
  }

  /** Every line of the trimmed output, in order, dropping the lines that do
      not parse; a failed `git log` (None) gives nothing. */
  function ParseLines(lines: seq<string>, repo: string): (r: seq<CommitPayload>)
    ensures |r| <= |lines|
    ensures forall k :: 0 <= k < |r| ==> r[k].repo == repo && r[k].url == Some(CommitUrl(repo, r[k].sha))
  {
    if |lines| == 0 then []
    else
      var head := ParseCommitLine(lines[0], repo);
      (if head.Some? then [head.value] else []) + ParseLines(lines[1..], repo)
  }

  /** Nothing but the lines' parses comes out. */
  lemma {:induction false} ParsedLinesOnly(lines: seq<string>, repo: string)
    ensures forall k :: 0 <= k < |ParseLines(lines, repo)| ==> ParsedFrom(lines, repo, ParseLines(lines, repo)[k])
  {
    if |lines| > 0 {
      ParsedLinesOnly(lines[1..], repo);
      var head := ParseCommitLine(lines[0], repo);
      var rest := ParseLines(lines[1..], repo);
      var r := ParseLines(lines, repo);
      assert r == (if head.Some? then [head.value] else []) + rest;
      forall k | 0 <= k < |r| ensures ParsedFrom(lines, repo, r[k]) {
        if head.Some? && k == 0 {
          assert ParseCommitLine(lines[0], repo) == Some(r[k]);
        } else {
          var k' := if head.Some? then k - 1 else k;
          assert r[k] == rest[k'];
          assert ParsedFrom(lines[1..], repo, rest[k']);
          var i :| 0 <= i < |lines| - 1 && ParseCommitLine(lines[1..][i], repo) == Some(rest[k']);
          assert ParseCommitLine(lines[i + 1], repo) == Some(r[k]);
        }
      }
    }
  }

  /** Every line that parses contributes its commit. */
  lemma {:induction false} ParseLinesKeepsEvery(lines: seq<string>, repo: string, i: nat)
    requires i < |lines| && ParseCommitLine(lines[i], repo).Some?
    ensures ParseCommitLine(lines[i], repo).value in ParseLines(lines, repo)
  {
    var head := ParseCommitLine(lines[0], repo);
    assert ParseLines(lines, repo) == (if head.Some? then [head.value] else []) + ParseLines(lines[1..], repo);
    if i > 0 {
      assert lines[1..][i - 1] == lines[i];
      ParseLinesKeepsEvery(lines[1..], repo, i - 1);
    }
  }

  /** The parse of the lines of a and then b is a's parse followed by b's:
      the commits come out in the order of their lines. */
  lemma {:induction false} ParseLinesAppend(a: seq<string>, b: seq<string>, repo: string)
    ensures ParseLines(a + b, repo) == ParseLines(a, repo) + ParseLines(b, repo)
  {
    if |a| == 0 {
      assert a + b == b;
    } else {
      assert (a + b)[1..] == a[1..] + b;
      ParseLinesAppend(a[1..], b, repo);
    }
  }

  function GetCommits(output: Option<string>, repo: string): (r: seq<CommitPayload>)
    ensures output.None? || Trim(output.value) == "" ==> r == []
    ensures forall k :: 0 <= k < |r| ==> r[k].repo == repo && r[k].url == Some(CommitUrl(repo, r[k].sha))
  {
    if output.None? then []
    else
      var t := Trim(output.value);
      if t == "" then [] else ParseLines(Split(t, '\n'), repo)
  }

  // ---------------------------------------------------------------------
  // Which repositories
  // ---------------------------------------------------------------------

  const Owner := "musselmanjoey"

  /** The GitHub listing's full names, lower-cased. */
  function PublicSet(fullNames: seq<string>): set<string> {
    set i | 0 <= i < |fullNames| :: Lower(fullNames[i])
  }

  /** Owned by the target user and public, compared lower-cased. */
  predicate Selected(repoName: string, publicRepos: set<string>) {
    var l := Lower(repoName);
    StartsWith(l, Lower(Owner) + "/") && l in publicRepos
  }

  datatype LocalRepo = LocalRepo(name: string, gitOutput: Option<string>)

  /** c is one of the commits of a selected repository. */
  predicate FromSelected(repos: seq<LocalRepo>, publicRepos: set<string>, c: CommitPayload) {
    exists i :: 0 <= i < |repos| && c in Contribution(repos[i], publicRepos)
  }

  /** One repository's share: its commits when it is selected, else none. */
  function Contribution(repo: LocalRepo, publicRepos: set<string>): (r: seq<CommitPayload>)
    ensures forall k :: 0 <= k < |r| ==> Selected(r[k].repo, publicRepos) && r[k].url == Some(CommitUrl(r[k].repo, r[k].sha))
  {
    if Selected(repo.name, publicRepos) then GetCommits(repo.gitOutput, repo.name) else []
  }

  /** Every selected repository's commits, repository after repository. */
  function CollectCommits(repos: seq<LocalRepo>, publicRepos: set<string>): (r: seq<CommitPayload>)
    ensures forall k :: 0 <= k < |r| ==> Selected(r[k].repo, publicRepos) && r[k].url == Some(CommitUrl(r[k].repo, r[k].sha))
  {
    if |repos| == 0 then []
    else Contribution(repos[0], publicRepos) + CollectCommits(repos[1..], publicRepos)
  }

  /** Nothing but the selected repositories' commits is collected. */
  lemma {:induction false} CollectedFromSelected(repos: seq<LocalRepo>, publicRepos: set<string>)
    ensures forall k :: 0 <= k < |CollectCommits(repos, publicRepos)| ==> FromSelected(repos, publicRepos, CollectCommits(repos, publicRepos)[k])
  {
    if |repos| > 0 {
      CollectedFromSelected(repos[1..], publicRepos);
      var head := Contribution(repos[0], publicRepos);
      var rest := CollectCommits(repos[1..], publicRepos);
      var r := CollectCommits(repos, publicRepos);
      assert r == head + rest;
      forall k | 0 <= k < |r| ensures FromSelected(repos, publicRepos, r[k]) {
        if k < |head| {
          assert r[k] in Contribution(repos[0], publicRepos);
        } else {
          assert r[k] == rest[k - |head|];
          assert FromSelected(repos[1..], publicRepos, rest[k - |head|]);
          var i :| 0 <= i < |repos| - 1 && rest[k - |head|] in Contribution(repos[1..][i], publicRepos);
          assert repos[1..][i] == repos[i + 1];
        }
      }
    }
  }

  /** Every commit of every selected repository is collected. */
  lemma {:induction false} CollectsEverySelected(repos: seq<LocalRepo>, publicRepos: set<string>, i: nat, c: CommitPayload)
    requires i < |repos| && Selected(repos[i].name, publicRepos)
    requires c in GetCommits(repos[i].gitOutput, repos[i].name)
    ensures c in CollectCommits(repos, publicRepos)
  {
    CollectsEveryContributed(repos, publicRepos, i, c);
  }

  lemma {:induction false} CollectsEveryContributed(repos: seq<LocalRepo>, publicRepos: set<string>, i: nat, c: CommitPayload)
    requires i < |repos| && c in Contribution(repos[i], publicRepos)
    ensures c in CollectCommits(repos, publicRepos)
  {
    assert CollectCommits(repos, publicRepos) == Contribution(repos[0], publicRepos) + CollectCommits(repos[1..], publicRepos);
    if i > 0 {
      assert repos[1..][i - 1] == repos[i];
      CollectsEveryContributed(repos[1..], publicRepos, i - 1, c);
    }
  }

  /** Collecting over two lists of repositories is collecting over each in turn. */
  lemma {:induction false} CollectCommitsAppend(a: seq<LocalRepo>, b: seq<LocalRepo>, publicRepos: set<string>)
    ensures CollectCommits(a + b, publicRepos) == CollectCommits(a, publicRepos) + CollectCommits(b, publicRepos)
  {
    if |a| == 0 {
      assert a + b == b;
    } else {
      assert (a + b)[1..] == a[1..] + b;
      CollectCommitsAppend(a[1..], b, publicRepos);
    }
  }

  /** A repository of another owner contributes nothing, whatever its visibility. */
  lemma ForeignRepoSkipped(name: string, publicRepos: set<string>)
    requires !StartsWith(Lower(name), "musselmanjoey/")
    ensures !Selected(name, publicRepos)
  {
    assert Lower(Owner) == Owner;
  }

  // ---------------------------------------------------------------------
  // Newest first
  // ---------------------------------------------------------------------

  /** a was committed no earlier than b. */
  predicate NoOlder(a: CommitPayload, b: CommitPayload, time: string -> int) {
    time(a.committedAt) >= time(b.committedAt)
  }

  /** Ordered by `time(committed_at)`, largest first. */
  predicate NewestFirst(cs: seq<CommitPayload>, time: string -> int) {
    forall i, j :: 0 <= i < j < |cs| ==> NoOlder(cs[i], cs[j], time)
  }

  /** Insert after every commit at least as new (so equal dates keep their order). */
  function Insert(c: CommitPayload, s: seq<CommitPayload>, time: string -> int): (r: seq<CommitPayload>)
    requires NewestFirst(s, time)
    ensures NewestFirst(r, time)
    ensures multiset(r) == multiset(s) + multiset{c}
  {
    if |s| == 0 then [c]
    else if NoOlder(s[0], c, time) then
      var rest := Insert(c, s[1..], time);
      assert s == [s[0]] + s[1..];
      HeadNewerThanInserted(c, s, rest, time);
      ConsNewest(s[0], rest, time);
      [s[0]] + rest
    else
      ConsNewest(c, s, time);
      [c] + s
  }

  /** The head of a newest-first list that is no older than c is no older
      than anything c's insertion into the tail gives. */
  lemma HeadNewerThanInserted(c: CommitPayload, s: seq<CommitPayload>, rest: seq<CommitPayload>, time: string -> int)
    requires |s| > 0 && NewestFirst(s, time) && NoOlder(s[0], c, time)
    requires multiset(rest) == multiset(s[1..]) + multiset{c}
    ensures forall k :: 0 <= k < |rest| ==> NoOlder(s[0], rest[k], time)
  {
    forall k | 0 <= k < |rest| ensures NoOlder(s[0], rest[k], time) {
      assert rest[k] in multiset(rest);
      if rest[k] != c {
        assert rest[k] in multiset(s[1..]);
        var j :| 0 <= j < |s| - 1 && s[1..][j] == rest[k];
        assert s[j + 1] == rest[k];
      }
    }
  }

  /** A commit at least as new as every commit of a newest-first list can
      go in front of it. */
  lemma ConsNewest(x: CommitPayload, s: seq<CommitPayload>, time: string -> int)
    requires NewestFirst(s, time)
    requires forall k :: 0 <= k < |s| ==> NoOlder(x, s[k], time)
    ensures NewestFirst([x] + s, time)
  {
    var r := [x] + s;
    forall i, j | 0 <= i < j < |r| ensures NoOlder(r[i], r[j], time) {
      assert r[j] == s[j - 1];
      if i > 0 {
        assert r[i] == s[i - 1];
      }
    }
  }

  /** `allCommits.sort((a, b) => time(b) - time(a))`. */
  function SortNewestFirst(cs: seq<CommitPayload>, time: string -> int): (r: seq<CommitPayload>)
    ensures NewestFirst(r, time)
    ensures multiset(r) == multiset(cs)
  {
    if |cs| == 0 then []
    else
      var init := cs[..|cs| - 1];
      assert cs == init + [cs[|cs| - 1]];
      Insert(cs[|cs| - 1], SortNewestFirst(init, time), time)
  }

  // ---------------------------------------------------------------------
  // Batches of 100
  // ---------------------------------------------------------------------

  const BatchSize: nat := 100

  function Concat(bs: seq<seq<CommitPayload>>): seq<CommitPayload> {
    if |bs| == 0 then [] else bs[0] + Concat(bs[1..])
  }

  /** `commits.slice(i, i + 100)` for i = 0, 100, 200, …: ⌈n/100⌉ non-empty
      batches of at most 100 that put the list back together in order. */
  function Batches(cs: seq<CommitPayload>): (r: seq<seq<CommitPayload>>)
    ensures |r| == (|cs| + BatchSize - 1) / BatchSize
    ensures forall b :: 0 <= b < |r| ==> 0 < |r[b]| <= BatchSize
    ensures Concat(r) == cs
    decreases |cs|
  {
    if |cs| == 0 then []
    else if |cs| <= BatchSize then
      assert Concat([cs]) == cs + Concat([]);
      [cs]
    else
      var rest := Batches(cs[BatchSize..]);
      assert cs == cs[..BatchSize] + cs[BatchSize..];
      assert ([cs[..BatchSize]] + rest)[1..] == rest;
      [cs[..BatchSize]] + rest
  }

  function Min(a: int, b: int): int { if a < b then a else b }

  /** Batch b is exactly `commits.slice(100·b, 100·b + 100)`. */
  lemma SliceOfSuffix<T>(s: seq<T>, k: nat, lo: nat, hi: nat)
    requires k <= |s| && lo <= hi <= |s| - k
    ensures s[k..][lo..hi] == s[k + lo..k + hi]
  {
  }

  lemma {:induction false} BatchAt(cs: seq<CommitPayload>, b: nat)
    requires b < |Batches(cs)|
    ensures BatchSize * b <= |cs|
    ensures Batches(cs)[b] == cs[BatchSize * b .. Min(BatchSize * b + BatchSize, |cs|)]
    decreases |cs|
  {
    if |cs| > BatchSize && b > 0 {
      BatchAt(cs[BatchSize..], b - 1);
      BatchStep(cs, b);
    }
  }

  /** Batch b of a list is batch b-1 of the list without its first batch. */
  lemma BatchStep(cs: seq<CommitPayload>, b: nat)
    requires |cs| > BatchSize && 0 < b < |Batches(cs)|
    requires var tail := cs[BatchSize..]; var o := BatchSize * (b - 1);
      o <= |tail| && Batches(tail)[b - 1] == tail[o .. Min(o + BatchSize, |tail|)]
    ensures BatchSize * b <= |cs|
    ensures Batches(cs)[b] == cs[BatchSize * b .. Min(BatchSize * b + BatchSize, |cs|)]
  {
    var tail := cs[BatchSize..];
    var rest := Batches(tail);
    assert Batches(cs) == [cs[..BatchSize]] + rest;
    assert Batches(cs)[b] == rest[b - 1];
    var o := BatchSize * (b - 1);
    var hi := Min(o + BatchSize, |tail|);
    assert BatchSize * b == BatchSize + o;
    assert Min(BatchSize * b + BatchSize, |cs|) == BatchSize + hi;
    SliceOfSuffix(cs, BatchSize, o, hi);
  }

  // ---------------------------------------------------------------------
  // The whole run
  // ---------------------------------------------------------------------

  datatype Run =
    | NothingToIngest
    | DryRun(count: nat, sample: seq<CommitPayload>)
    | MissingSecret
    | Post(batches: seq<seq<CommitPayload>>)

  /** A secret that `if (!secret)` lets through. */
  predicate HasSecret(secret: Option<string>) {
    secret.Some? && secret.value != ""
  }

  /** `main` after the I/O: collect, stop if empty, sort newest first, then
      either preview the five newest commits, stop without a secret, or post
      every commit in batches. */
  function Backfill(repos: seq<LocalRepo>, publicRepos: set<string>, time: string -> int, dryRun: bool, secret: Option<string>): (r: Run)
    ensures r.NothingToIngest? <==> CollectCommits(repos, publicRepos) == []
    ensures r.DryRun? <==> CollectCommits(repos, publicRepos) != [] && dryRun
    ensures r.DryRun? ==> (r.count == |CollectCommits(repos, publicRepos)| && |r.sample| == Min(5, r.count)
      && r.sample == SortNewestFirst(CollectCommits(repos, publicRepos), time)[..|r.sample|]
      && NewestFirst(r.sample, time))
    ensures r.MissingSecret? <==> CollectCommits(repos, publicRepos) != [] && !dryRun && !HasSecret(secret)
    ensures r.Post? <==> CollectCommits(repos, publicRepos) != [] && !dryRun && HasSecret(secret)
    ensures r.Post? ==> (Concat(r.batches) == SortNewestFirst(CollectCommits(repos, publicRepos), time)
      && NewestFirst(Concat(r.batches), time)
      && multiset(Concat(r.batches)) == multiset(CollectCommits(repos, publicRepos)))
  {
    var all := CollectCommits(repos, publicRepos);
    if |all| == 0 then NothingToIngest
    else
      var sorted := SortNewestFirst(all, time);
      assert |sorted| == |all| by { assert |multiset(sorted)| == |multiset(all)|; }
      if dryRun then
        var sample := sorted[..Min(5, |sorted|)];
        assert NewestFirst(sample, time) by {
          forall i, j | 0 <= i < j < |sample| ensures NoOlder(sample[i], sample[j], time) {
            assert sample[i] == sorted[i] && sample[j] == sorted[j];
          }
        }
        DryRun(|sorted|, sample)
      else if !HasSecret(secret) then MissingSecret
      else Post(Batches(sorted))
  }

  /** The dry run previews exactly the first commits the real run posts. */
  lemma DryRunPreviewsPost(repos: seq<LocalRepo>, publicRepos: set<string>, time: string -> int, secret: string)
    requires CollectCommits(repos, publicRepos) != [] && secret != ""
    ensures var preview := Backfill(repos, publicRepos, time, true, None);
      var posted := Backfill(repos, publicRepos, time, false, Some(secret));
      preview.DryRun? && posted.Post? && |preview.sample| <= |Concat(posted.batches)|
      && preview.sample == Concat(posted.batches)[..|preview.sample|]
  {
    var all := CollectCommits(repos, publicRepos);
    var sorted := SortNewestFirst(all, time);
    assert |sorted| == |all| by { assert |multiset(sorted)| == |multiset(all)|; }
  }
}
