/** The projects admin route (app/api/admin/projects/route.ts): GET lists
    every project folder with what the scan found and what the catalog
    remembers about it; POST writes the edited list back to the catalog. */
module AdminProjects {
  import opened Wrappers
  import opened Text
  import opened OrderedMap
  import opened StringOrder
  import ProjectScan

  // ---------------------------------------------------------------------
  // Status
  // ---------------------------------------------------------------------

  datatype Status = Active | Complete | Experiment | Archived | Unknown

  function StatusName(s: Status): string {
    match s
    case Active => "active"
    case Complete => "complete"
    case Experiment => "experiment"
    case Archived => "archived"
    case Unknown => "unknown"
  }

  /** The status a lower-cased name stands for, if any. */
  function StatusNamed(name: string): (r: Option<Status>)
    ensures r.Some? ==> StatusName(r.value) == name
    ensures r.None? ==> forall s: Status :: StatusName(s) != name
  {
    if name == "active" then Some(Active)
    else if name == "complete" then Some(Complete)
    else if name == "experiment" then Some(Experiment)
    else if name == "archived" then Some(Archived)
    else if name == "unknown" then Some(Unknown)
    else None
  }

  /** The saved status string, lower-cased, when it names a status;
      `unknown` otherwise (no saved status included). */
  function NormalizeStatus(saved: Option<string>): (s: Status)
    ensures saved.Some? && StatusNamed(Lower(saved.value)).Some? ==> StatusName(s) == Lower(saved.value)
    ensures (saved.None? || StatusNamed(Lower(saved.value)).None?) ==> s == Unknown
  {
    if saved.None? then Unknown
    else match StatusNamed(Lower(saved.value))
      case Some(s) => s
      case None => Unknown
  }

  /** A status written out and read back is the same status, and reading
      ignores case. */
  lemma StatusRoundTrip(s: Status)
    ensures NormalizeStatus(Some(StatusName(s))) == s
    ensures NormalizeStatus(Some(Upper(StatusName(s)))) == s
  {
    var n := StatusName(s);
    assert forall i :: 0 <= i < |n| ==> 'a' <= n[i] <= 'z';
    assert Lower(n) == n;
    assert Lower(Upper(n)) == n;
  }

  // ---------------------------------------------------------------------
  // The catalog file
  // ---------------------------------------------------------------------

  /** What the catalog remembers about a project; every field may be missing. */
  datatype Saved = Saved(
    status: Option<string>,
    summaryNeedsReview: Option<bool>,
    portfolioWorthy: Option<bool>,
    featured: Option<bool>,
    generatedSummary: Option<string>,
    notes: Option<string>)

  datatype CatalogEntry = CatalogEntry(name: string, saved: Saved)

  type Catalog = Assoc<string, Saved>

  /** Entry i is the last one with its name. */
  predicate LastOfName(entries: seq<CatalogEntry>, i: int) {
    0 <= i < |entries| && forall j :: i < j < |entries| ==> entries[j].name != entries[i].name
  }

  /** Some entry has name n. */
  predicate Named(entries: seq<CatalogEntry>, n: string) {
    exists i :: 0 <= i < |entries| && entries[i].name == n
  }

  function LoadEntries(entries: seq<CatalogEntry>): (c: Catalog)
    ensures DistinctKeys(c)
    ensures forall n :: HasKey(c, n) <==> Named(entries, n)
  {
    if |entries| == 0 then []
    else
      var init := entries[..|entries| - 1];
      var last := entries[|entries| - 1];
      var c := LoadEntries(init);
      SetDistinct(c, last.name, last.saved);
      SetShape(c, last.name, last.saved);
      var r := Set(c, last.name, last.saved);
      assert forall n :: HasKey(r, n) <==> HasKey(c, n) || n == last.name by {
        forall n ensures HasKey(r, n) <==> HasKey(c, n) || n == last.name {
          if HasKey(c, n) {
            var i :| 0 <= i < |c| && c[i].0 == n;
            assert r[i].0 == n;
          }
          if n == last.name {
            GetSetSame(c, last.name, last.saved);
            GetSpec(r, n);
          }
          if HasKey(r, n) && n != last.name {
            GetSetOther(c, last.name, last.saved, n);
            GetSpec(r, n);
            GetSpec(c, n);
          }
        }
      }
      assert forall n :: Named(entries, n) <==> Named(init, n) || n == last.name by {
        forall n ensures Named(entries, n) <==> Named(init, n) || n == last.name {
          if Named(init, n) {
            var i :| 0 <= i < |init| && init[i].name == n;
            assert entries[i] == init[i];
          }
          if Named(entries, n) {
            var i :| 0 <= i < |entries| && entries[i].name == n;
            if i < |init| {
              assert entries[i] == init[i];
            }
          }
        }
      }
      r
  }

  /** The last entry of a name is the one the catalog keeps. */
  lemma {:induction false} LoadKeepsLast(entries: seq<CatalogEntry>, i: int)
    requires LastOfName(entries, i)
    ensures Get(LoadEntries(entries), entries[i].name) == Some(entries[i].saved)
  {
    var init := entries[..|entries| - 1];
    var last := entries[|entries| - 1];
    if i == |entries| - 1 {
      GetSetSame(LoadEntries(init), last.name, last.saved);
    } else {
      assert init[i] == entries[i];
      assert LastOfName(init, i);
      LoadKeepsLast(init, i);
      GetSetOther(LoadEntries(init), last.name, last.saved, entries[i].name);
    }
  }

  /** `loadCatalog`: a missing or unreadable file gives an empty catalog. */
  function LoadCatalog(file: Option<seq<CatalogEntry>>): (c: Catalog)
    ensures DistinctKeys(c)
    ensures file.None? ==> c == []
    ensures file.Some? ==> forall n :: HasKey(c, n) <==> Named(file.value, n)
  {
    match file
    case None => []
    case Some(entries) => LoadEntries(entries)
  }

  // ---------------------------------------------------------------------
  // One project
  // ---------------------------------------------------------------------

  const ProjectsDir := "C:/Users/musse/Projects"

  /** A listed project, as GET returns it. */
  datatype Project = Project(
    name: string,
    path: string,
    tech: seq<string>,
    claudeSummaries: seq<string>,
    hasGit: bool,
    lastCommitDate: Option<string>,
    lastCommitMessage: Option<string>,
    description: Option<string>,
    generatedSummary: string,
    summaryNeedsReview: bool,
    status: Status,
    portfolioWorthy: bool,
    featured: bool,
    notes: string)

  /** One entry of the projects folder and what the scan of it reads. */
  datatype DirEntry = DirEntry(
    name: string,
    isDirectory: bool,
    files: ProjectScan.ProjectFiles,
    sessions: Option<seq<ProjectScan.LogFile>>,
    hasGitDir: bool,
    gitOutput: Option<string>,
    readmes: seq<Option<string>>)

  /** Folders are listed unless their name starts with a dot. */
  predicate Listed(e: DirEntry) { e.isDirectory && !StartsWith(e.name, ".") }

  /** The markers of a summary made up from sessions, the stack or nothing. */
  predicate LooksGenerated(summary: string) {
    Contains(summary, "no description available")
    || StartsWith(summary, "Work includes:")
    || Contains(summary, "project using")
  }

  function SavedField<T>(saved: Option<Saved>, field: Saved -> Option<T>, default: T): T {
    if saved.Some? && field(saved.value).Some? then field(saved.value).value else default
  }

  /** The assembly of one project: the saved summary when it is non-empty,
      else a generated one; the saved review flag, else the heuristic; the
      saved status normalised; the saved flags and notes, else false and
      empty. */
  function BuildProject(e: DirEntry, saved: Option<Saved>, description: Option<string>,
                        parse: string -> Option<ProjectScan.LogRecord>): (p: Project)
    ensures p.name == e.name && p.path == ProjectsDir + "/" + e.name
    ensures p.tech == ProjectScan.TechNames(ProjectScan.DetectTechStack(e.files))
    ensures p.description == description
    ensures saved.Some? && ProjectScan.Truthy(saved.value.generatedSummary) ==> p.generatedSummary == saved.value.generatedSummary.value
    ensures !(saved.Some? && ProjectScan.Truthy(saved.value.generatedSummary)) ==>
      p.generatedSummary == ProjectScan.GenerateSummary(e.name, e.files, ProjectScan.DetectTechStack(e.files),
        ProjectScan.ClaudeSummaries(e.sessions, parse), description)
    ensures (saved.None? || saved.value.summaryNeedsReview.None?) ==> (p.summaryNeedsReview <==> LooksGenerated(p.generatedSummary))
    ensures saved.Some? && saved.value.summaryNeedsReview.Some? ==> p.summaryNeedsReview == saved.value.summaryNeedsReview.value
    ensures saved.None? ==> p.status == Unknown && !p.portfolioWorthy && !p.featured && p.notes == ""
    ensures saved.Some? ==>
      && p.status == NormalizeStatus(saved.value.status)
      && p.portfolioWorthy == saved.value.portfolioWorthy.GetOr(false)
      && p.featured == saved.value.featured.GetOr(false)
      && p.notes == saved.value.notes.GetOr("")
    ensures p.claudeSummaries == ProjectScan.ClaudeSummaries(e.sessions, parse)
    ensures ProjectScan.GitInfo(p.hasGit, p.lastCommitDate, p.lastCommitMessage) == ProjectScan.GetGitInfo(e.hasGitDir, e.gitOutput)
  {
    var tech := ProjectScan.DetectTechStack(e.files);
    var sessions := ProjectScan.ClaudeSummaries(e.sessions, parse);
    var git := ProjectScan.GetGitInfo(e.hasGitDir, e.gitOutput);
    var summary :=
      if saved.Some? && ProjectScan.Truthy(saved.value.generatedSummary) then saved.value.generatedSummary.value
      else ProjectScan.GenerateSummary(e.name, e.files, tech, sessions, description);
    var needsReview := SavedField(saved, (s: Saved) => s.summaryNeedsReview, LooksGenerated(summary));
    Project(e.name, ProjectsDir + "/" + e.name, ProjectScan.TechNames(tech), sessions,
            git.hasGit, git.lastCommitDate, git.lastCommitMessage, description, summary, needsReview,
            NormalizeStatus(if saved.Some? then saved.value.status else None),
            SavedField(saved, (s: Saved) => s.portfolioWorthy, false),
            SavedField(saved, (s: Saved) => s.featured, false),
            SavedField(saved, (s: Saved) => s.notes, ""))
  }

  /** A summary made up from past sessions, the stack or nothing is flagged
      for review when nothing is saved (names up to 273 characters, so
      that the marker survives the 300-character cut). */
  lemma {:induction false} FallbackSummaryFlagged(e: DirEntry, description: Option<string>,
                                                 parse: string -> Option<ProjectScan.LogRecord>)
    requires |e.name| <= 273
    requires ProjectScan.ChooseSource(e.files, ProjectScan.DetectTechStack(e.files),
      ProjectScan.ClaudeSummaries(e.sessions, parse), description) in {ProjectScan.FromSessions, ProjectScan.FromStack, ProjectScan.FromPlaceholder}
    ensures BuildProject(e, None, description, parse).summaryNeedsReview
  {
    var tech := ProjectScan.DetectTechStack(e.files);
    var sessions := ProjectScan.ClaudeSummaries(e.sessions, parse);
    var src := ProjectScan.ChooseSource(e.files, tech, sessions, description);
    FallbackMarked(src, e.name, e.files, tech, sessions, description);
  }

  /** The text a fallback source gives, cut to the summary limit, carries its marker. */
  lemma FallbackMarked(src: ProjectScan.Source, name: string, f: ProjectScan.ProjectFiles, tech: seq<ProjectScan.Tech>,
                       sessions: seq<string>, readme: Option<string>)
    requires |name| <= 273 && src in {ProjectScan.FromSessions, ProjectScan.FromStack, ProjectScan.FromPlaceholder}
    ensures LooksGenerated(Take(ProjectScan.SourceText(src, name, f, tech, sessions, readme), ProjectScan.SummaryLimit))
  {
    if src == ProjectScan.FromSessions {
      SessionsMarked(sessions);
    } else if src == ProjectScan.FromStack {
      StackMarked(name, tech);
    } else {
      PlaceholderMarked(name);
    }
  }

  lemma SessionsMarked(sessions: seq<string>)
    ensures LooksGenerated(Take(ProjectScan.SessionsLead + Join(ProjectScan.FirstN(sessions, 5), ", "), ProjectScan.SummaryLimit))
  {
    var rest := " " + Join(ProjectScan.FirstN(sessions, 5), ", ");
    MarkerParts();
    assert ProjectScan.SessionsLead + Join(ProjectScan.FirstN(sessions, 5), ", ") == [] + "Work includes:" + rest;
    OccursInTake([], "Work includes:", rest, ProjectScan.SummaryLimit);
  }

  lemma StackMarked(name: string, tech: seq<ProjectScan.Tech>)
    requires |name| <= 273
    ensures LooksGenerated(Take(name + ProjectScan.StackMarker + Join(ProjectScan.FirstN(ProjectScan.TechNames(tech), 3), ", "), ProjectScan.SummaryLimit))
  {
    var rest := Join(ProjectScan.FirstN(ProjectScan.TechNames(tech), 3), ", ");
    MarkerParts();
    Regroup(name, " ", "project using", " ", rest);
    OccursInTake(name + " ", "project using", " " + rest, ProjectScan.SummaryLimit);
  }

  lemma PlaceholderMarked(name: string)
    requires |name| <= 273
    ensures LooksGenerated(Take(name + ProjectScan.PlaceholderTail, ProjectScan.SummaryLimit))
  {
    MarkerParts();
    Regroup(name, " - ", "no description available", [], []);
    assert name + ProjectScan.PlaceholderTail == name + ProjectScan.PlaceholderTail + [];
    OccursInTake(name + " - ", "no description available", [], ProjectScan.SummaryLimit);
  }

  lemma MarkerParts()
    ensures ProjectScan.StackMarker == " " + "project using" + " "
    ensures ProjectScan.PlaceholderTail == " - " + "no description available" + []
    ensures ProjectScan.SessionsLead == "Work includes:" + " "
  {
  }

  lemma Regroup(a: string, b: string, c: string, d: string, e: string)
    ensures a + (b + c + d) + e == (a + b) + c + (d + e)
  {
  }

  /** A marker inside the first n characters survives the cut to n. */
  lemma OccursInTake(a: string, t: string, b: string, n: nat)
    requires |a| + |t| <= n
    ensures OccursAt(Take(a + t + b, n), t, |a|)
    ensures Take(a + t + b, n)[..|a| + |t|] == a + t
  {
    var s := Take(a + t + b, n);
    assert s[|a|..|a| + |t|] == (a + t + b)[|a|..|a| + |t|];
    assert s[..|a| + |t|] == (a + t + b)[..|a| + |t|];
  }

  // ---------------------------------------------------------------------
  // Ordering: newest commit first, then projects without one by name
  // ---------------------------------------------------------------------

  /** JavaScript truthiness of the commit date. */
  predicate Dated(p: Project) { ProjectScan.Truthy(p.lastCommitDate) }

  /** a may stand before b: both dated and a no older, a dated and b not,
      or neither dated and a's name not after b's. */
  predicate Precedes(a: Project, b: Project, time: string -> int) {
    if Dated(a) && Dated(b) then time(a.lastCommitDate.value) >= time(b.lastCommitDate.value)
    else if Dated(a) then true
    else if Dated(b) then false
    else !Less(b.name, a.name)
  }

  lemma PrecedesTotal(a: Project, b: Project, time: string -> int)
    ensures Precedes(a, b, time) || Precedes(b, a, time)
  {
    if !Dated(a) && !Dated(b) {
      if a.name == b.name {
        Irreflexive(a.name);
      } else {
        Total(a.name, b.name);
        if Less(b.name, a.name) {
          Asymmetric(b.name, a.name);
        }
      }
    }
  }

  lemma PrecedesTransitive(a: Project, b: Project, c: Project, time: string -> int)
    requires Precedes(a, b, time) && Precedes(b, c, time)
    ensures Precedes(a, c, time)
  {
    if !Dated(a) && !Dated(b) && !Dated(c) {
      NotLessTransitive(a.name, b.name, c.name);
    }
  }

  predicate SortedProjects(ps: seq<Project>, time: string -> int) {
    forall i, j :: 0 <= i < j < |ps| ==> Precedes(ps[i], ps[j], time)
  }

  /** Insert after every project that may stand before it. */
  function InsertProject(p: Project, s: seq<Project>, time: string -> int): (r: seq<Project>)
    requires SortedProjects(s, time)
    ensures SortedProjects(r, time)
    ensures multiset(r) == multiset(s) + multiset{p}
  {
    if |s| == 0 then [p]
    else if Precedes(s[0], p, time) then
      var rest := InsertProject(p, s[1..], time);
      assert s == [s[0]] + s[1..];
      HeadPrecedesInserted(p, s, rest, time);
      ConsSorted(s[0], rest, time);
      [s[0]] + rest
    else
      NewHeadPrecedes(p, s, time);
      ConsSorted(p, s, time);
      [p] + s
  }

  /** The head of a sorted list that precedes p precedes everything p's
      insertion into the tail gives. */
  lemma HeadPrecedesInserted(p: Project, s: seq<Project>, rest: seq<Project>, time: string -> int)
    requires |s| > 0 && SortedProjects(s, time) && Precedes(s[0], p, time)
    requires multiset(rest) == multiset(s[1..]) + multiset{p}
    ensures forall k :: 0 <= k < |rest| ==> Precedes(s[0], rest[k], time)
  {
    forall k | 0 <= k < |rest| ensures Precedes(s[0], rest[k], time) {
      assert rest[k] in multiset(rest);
      if rest[k] != p {
        assert rest[k] in multiset(s[1..]);
        var m :| 0 <= m < |s| - 1 && s[1..][m] == rest[k];
        assert s[m + 1] == rest[k];
      }
    }
  }

  /** An entry the head of a sorted list does not precede goes before all of it. */
  lemma NewHeadPrecedes(p: Project, s: seq<Project>, time: string -> int)
    requires |s| > 0 && SortedProjects(s, time) && !Precedes(s[0], p, time)
    ensures forall k :: 0 <= k < |s| ==> Precedes(p, s[k], time)
  {
    PrecedesTotal(s[0], p, time);
    forall k | 0 < k < |s| ensures Precedes(p, s[k], time) {
      PrecedesTransitive(p, s[0], s[k], time);
    }
  }

  lemma ConsSorted(x: Project, s: seq<Project>, time: string -> int)
    requires SortedProjects(s, time)
    requires forall k :: 0 <= k < |s| ==> Precedes(x, s[k], time)
    ensures SortedProjects([x] + s, time)
  {
    var r := [x] + s;
    forall i, j | 0 <= i < j < |r| ensures Precedes(r[i], r[j], time) {
      assert r[j] == s[j - 1];
      if i > 0 {
        assert r[i] == s[i - 1];
      }
    }
  }

  /** `projects.sort(...)` with the route's comparator; `time` stands for
      `new Date(d).getTime()`. */
  function SortProjects(ps: seq<Project>, time: string -> int): (r: seq<Project>)
    ensures SortedProjects(r, time)
    ensures multiset(r) == multiset(ps)
  {
    if |ps| == 0 then []
    else
      var init := ps[..|ps| - 1];
      assert ps == init + [ps[|ps| - 1]];
      InsertProject(ps[|ps| - 1], SortProjects(init, time), time)
  }

  /** In a sorted list every dated project comes before every undated
      one, dates never increase, and undated projects are in name order. */
  lemma SortedMeaning(ps: seq<Project>, time: string -> int, i: int, j: int)
    requires SortedProjects(ps, time) && 0 <= i < j < |ps|
    ensures Dated(ps[j]) ==> Dated(ps[i])
    ensures Dated(ps[i]) && Dated(ps[j]) ==> time(ps[i].lastCommitDate.value) >= time(ps[j].lastCommitDate.value)
    ensures !Dated(ps[i]) && !Dated(ps[j]) ==> !Less(ps[j].name, ps[i].name)
  {
    assert Precedes(ps[i], ps[j], time);
  }

  // ---------------------------------------------------------------------
  // GET and POST
  // ---------------------------------------------------------------------

  datatype ListResponse = Projects(projects: seq<Project>) | ScanFailed

  /** The folders GET lists. */
  function ListedEntries(entries: seq<DirEntry>): (r: seq<DirEntry>)
    ensures forall e :: e in r <==> e in entries && Listed(e)
    ensures |r| <= |entries|
  {
    if |entries| == 0 then []
    else
      var rest := ListedEntries(entries[1..]);
      assert forall e :: e in entries <==> e == entries[0] || e in entries[1..];
      if Listed(entries[0]) then [entries[0]] + rest else rest
  }

  /** Listing keeps folder order: the listing of a + b is a's listing
      followed by b's. */
  lemma {:induction false} ListedEntriesAppend(a: seq<DirEntry>, b: seq<DirEntry>)
    ensures ListedEntries(a + b) == ListedEntries(a) + ListedEntries(b)
  {
    if |a| > 0 {
      assert (a + b)[1..] == a[1..] + b;
      ListedEntriesAppend(a[1..], b);
    } else {
      assert a + b == b;
    }
  }

  /** A single folder is listed exactly when it is a directory without a
      leading dot. */
  lemma ListedEntriesOne(e: DirEntry)
    ensures ListedEntries([e]) == if Listed(e) then [e] else []
  {
    assert [e][1..] == [];
  }

  /** p is entry e assembled with its catalog entry and its README description. */
  ghost predicate BuiltFrom(p: Project, e: DirEntry, catalog: Catalog, parse: string -> Option<ProjectScan.LogRecord>) {
    exists d :: ProjectScan.ReadmeResult(e.readmes, d) && p == BuildProject(e, Get(catalog, e.name), d, parse)
  }

  /** p comes from a listed folder. */
  ghost predicate FromListing(p: Project, entries: seq<DirEntry>, catalog: Catalog, parse: string -> Option<ProjectScan.LogRecord>) {
    exists e :: e in entries && Listed(e) && BuiltFrom(p, e, catalog, parse)
  }

  /** The projects of the listed folders, in folder order. */
  method BuildAll(listed: seq<DirEntry>, catalog: Catalog, parse: string -> Option<ProjectScan.LogRecord>)
    returns (built: seq<Project>)
    ensures |built| == |listed|
    ensures forall m :: 0 <= m < |listed| ==> BuiltFrom(built[m], listed[m], catalog, parse)
    decreases |listed|
  {
    if |listed| == 0 {
      return [];
    }
    var p := BuildOne(listed[0], catalog, parse);
    var rest := BuildAll(listed[1..], catalog, parse);
    built := [p] + rest;
    forall m | 0 < m < |listed| ensures BuiltFrom(built[m], listed[m], catalog, parse) {
      assert built[m] == rest[m - 1] && listed[m] == listed[1..][m - 1];
    }
  }

  /** One folder: its README description, then the assembled project. */
  method BuildOne(e: DirEntry, catalog: Catalog, parse: string -> Option<ProjectScan.LogRecord>) returns (p: Project)
    ensures p.name == e.name
    ensures BuiltFrom(p, e, catalog, parse)
  {
    var description := ProjectScan.ReadmeDescription(e.readmes);
    p := BuildProject(e, Get(catalog, e.name), description, parse);
  }

  /** built holds, in folder order, one project assembled from each listed folder. */
  ghost predicate BuiltAll(built: seq<Project>, listed: seq<DirEntry>, catalog: Catalog, parse: string -> Option<ProjectScan.LogRecord>) {
    |built| == |listed| && forall m :: 0 <= m < |listed| ==> BuiltFrom(built[m], listed[m], catalog, parse)
  }

  /** `GET`: every listed folder becomes a project, assembled with its
      catalog entry; the list is sorted. An unreadable projects folder
      fails the request. */
  method ListProjects(folder: Option<seq<DirEntry>>, catalogFile: Option<seq<CatalogEntry>>,
                      parse: string -> Option<ProjectScan.LogRecord>, time: string -> int)
    returns (r: ListResponse)
    ensures folder.None? <==> r.ScanFailed?
    ensures r.Projects? ==> SortedProjects(r.projects, time)
    ensures r.Projects? ==> |r.projects| == |ListedEntries(folder.value)|
    ensures r.Projects? ==> forall k :: 0 <= k < |r.projects| ==> FromListing(r.projects[k], folder.value, LoadCatalog(catalogFile), parse)
    ensures r.Projects? ==>
      exists built :: BuiltAll(built, ListedEntries(folder.value), LoadCatalog(catalogFile), parse) && multiset(r.projects) == multiset(built)
  {
    if folder.None? {
      return ScanFailed;
    }
    var catalog := LoadCatalog(catalogFile);
    var listed := ListedEntries(folder.value);
    var built := BuildAll(listed, catalog, parse);
    var sorted := SortProjects(built, time);
    assert |sorted| == |built| by {
      assert |multiset(sorted)| == |multiset(built)|;
    }
    forall m | 0 <= m < |sorted|
      ensures FromListing(sorted[m], folder.value, catalog, parse)
    {
      assert sorted[m] in multiset(built);
      var i :| 0 <= i < |built| && built[i] == sorted[m];
      assert listed[i] in listed;
    }
    assert BuiltAll(built, listed, catalog, parse);
    return Projects(sorted);
  }

  /** `POST`: the editable fields of every project, in order, as catalog
      entries; the response counts them. */
  function Persist(ps: seq<Project>): (r: seq<CatalogEntry>)
    ensures |r| == |ps|
    ensures forall i :: 0 <= i < |ps| ==> r[i] == CatalogEntry(ps[i].name,
      Saved(Some(StatusName(ps[i].status)), Some(ps[i].summaryNeedsReview), Some(ps[i].portfolioWorthy),
            Some(ps[i].featured), Some(ps[i].generatedSummary), Some(ps[i].notes)))
  {
    seq(|ps|, i requires 0 <= i < |ps| => CatalogEntry(ps[i].name,
      Saved(Some(StatusName(ps[i].status)), Some(ps[i].summaryNeedsReview), Some(ps[i].portfolioWorthy),
            Some(ps[i].featured), Some(ps[i].generatedSummary), Some(ps[i].notes))))
  }

  /** What an admin saves is what the next listing shows: the status,
      review flag, portfolio and featured flags and notes come back
      unchanged, and so does the summary unless it was emptied (an empty
      one is generated afresh). When names repeat, the last one saved wins. */
  lemma {:induction false} SaveThenList(ps: seq<Project>, i: int, e: DirEntry, description: Option<string>,
                                       parse: string -> Option<ProjectScan.LogRecord>)
    requires LastOfName(Persist(ps), i) && e.name == ps[i].name
    ensures var p := BuildProject(e, Get(LoadCatalog(Some(Persist(ps))), e.name), description, parse);
      p.status == ps[i].status && p.summaryNeedsReview == ps[i].summaryNeedsReview
      && p.portfolioWorthy == ps[i].portfolioWorthy && p.featured == ps[i].featured && p.notes == ps[i].notes
      && (ps[i].generatedSummary != "" ==> p.generatedSummary == ps[i].generatedSummary)
  {
    LoadKeepsLast(Persist(ps), i);
    StatusRoundTrip(ps[i].status);
  }
}
