/** The project review page (app/admin/projects/page.tsx): which projects
    the status buttons and the search box let through, the counts on the
    buttons, and the edits an admin makes before saving. */
module ProjectsPage {
  import opened Wrappers
  import opened Text
  import opened AdminProjects
  import opened OrderedMap
  import ProjectScan

  // ---------------------------------------------------------------------
  // Filtering
  // ---------------------------------------------------------------------

  /** `StatusFilter`: everything, the flagged summaries, or one status. */
  datatype Filter = All | NeedsReview | ByStatus(status: Status)

  predicate MatchesFilter(p: Project, f: Filter) {
    match f
    case All => true
    case NeedsReview => p.summaryNeedsReview
    case ByStatus(s) => p.status == s
  }

  /** `text.toLowerCase().includes(query.toLowerCase())`. */
  predicate Mentions(text: string, query: string) {
    Contains(Lower(text), Lower(query))
  }

  /** An empty query, or one found in the name, a technology, a session
      summary or the summary, ignoring case. */
  predicate MatchesSearch(p: Project, query: string) {
    query == ""
    || Mentions(p.name, query)
    || (exists i :: 0 <= i < |p.tech| && Mentions(p.tech[i], query))
    || (exists i :: 0 <= i < |p.claudeSummaries| && Mentions(p.claudeSummaries[i], query))
    || Mentions(p.generatedSummary, query)
  }

  /** `filteredProjects`: the projects passing both tests, in list order. */
  function FilteredProjects(ps: seq<Project>, f: Filter, query: string): (r: seq<Project>)
    ensures |r| <= |ps|
    ensures forall p :: p in r <==> p in ps && MatchesFilter(p, f) && MatchesSearch(p, query)
  {
    if |ps| == 0 then []
    else
      var rest := FilteredProjects(ps[1..], f, query);
      assert forall p :: p in ps <==> p == ps[0] || p in ps[1..];
      if MatchesFilter(ps[0], f) && MatchesSearch(ps[0], query) then [ps[0]] + rest else rest
  }

  /** Filtering keeps list order: filtering a + b is filtering a, then b. */
  lemma {:induction false} FilteredAppend(a: seq<Project>, b: seq<Project>, f: Filter, query: string)
    ensures FilteredProjects(a + b, f, query) == FilteredProjects(a, f, query) + FilteredProjects(b, f, query)
  {
    if |a| > 0 {
      assert (a + b)[1..] == a[1..] + b;
      FilteredAppend(a[1..], b, f, query);
    } else {
      assert a + b == b;
    }
  }

  /** One project is shown exactly when it passes both tests. */
  lemma FilteredOne(p: Project, f: Filter, query: string)
    ensures FilteredProjects([p], f, query) == if MatchesFilter(p, f) && MatchesSearch(p, query) then [p] else []
  {
    assert [p][1..] == [];
  }

  /** With no filter and no query every project is shown, in order. */
  lemma {:induction false} ShowAll(ps: seq<Project>)
    ensures FilteredProjects(ps, All, "") == ps
  {
    if |ps| > 0 {
      ShowAll(ps[1..]);
      assert ps == [ps[0]] + ps[1..];
    }
  }

  /** The search ignores the case of the query, and every project is found
      by its own name. */
  lemma SearchIgnoresCase(p: Project, query: string)
    ensures MatchesSearch(p, Upper(query)) <==> MatchesSearch(p, query)
    ensures MatchesSearch(p, p.name)
  {
    assert Lower(Upper(query)) == Lower(query);
    assert |Upper(query)| == |query|;
    assert OccursAt(Lower(p.name), Lower(p.name), 0) by {
      assert Lower(p.name)[0..|Lower(p.name)|] == Lower(p.name);
    }
  }

  // ---------------------------------------------------------------------
  // Counts
  // ---------------------------------------------------------------------

  function CountWhere(ps: seq<Project>, f: Filter): (n: nat)
    ensures n <= |ps|
  {
    if |ps| == 0 then 0
    else (if MatchesFilter(ps[0], f) then 1 else 0) + CountWhere(ps[1..], f)
  }

  /** `statusCounts`. */
  datatype StatusCounts = StatusCounts(all: nat, needsReview: nat, active: nat, complete: nat,
                                       experiment: nat, archived: nat, unknown: nat)

  function Counts(ps: seq<Project>): (c: StatusCounts)
    ensures c.all == |ps|
    ensures c.needsReview <= c.all
    ensures c.needsReview == |FilteredProjects(ps, NeedsReview, "")|
    ensures c.active == |FilteredProjects(ps, ByStatus(Active), "")|
    ensures c.complete == |FilteredProjects(ps, ByStatus(Complete), "")|
    ensures c.experiment == |FilteredProjects(ps, ByStatus(Experiment), "")|
    ensures c.archived == |FilteredProjects(ps, ByStatus(Archived), "")|
    ensures c.unknown == |FilteredProjects(ps, ByStatus(Unknown), "")|
  {
    CountIsShown(ps, NeedsReview);
    CountIsShown(ps, ByStatus(Active));
    CountIsShown(ps, ByStatus(Complete));
    CountIsShown(ps, ByStatus(Experiment));
    CountIsShown(ps, ByStatus(Archived));
    CountIsShown(ps, ByStatus(Unknown));
    StatusCounts(|ps|, CountWhere(ps, NeedsReview), CountWhere(ps, ByStatus(Active)),
                 CountWhere(ps, ByStatus(Complete)), CountWhere(ps, ByStatus(Experiment)),
                 CountWhere(ps, ByStatus(Archived)), CountWhere(ps, ByStatus(Unknown)))
  }

  /** Every project has exactly one of the five statuses, so the five
      status buttons add up to the "all" button. */
  lemma {:induction false} CountsAddUp(ps: seq<Project>)
    ensures var c := Counts(ps);
      c.active + c.complete + c.experiment + c.archived + c.unknown == c.all
  {
    if |ps| > 0 {
      CountsAddUp(ps[1..]);
    }
  }

  /** A button's count is the number of projects it shows with an empty search. */
  lemma {:induction false} CountIsShown(ps: seq<Project>, f: Filter)
    ensures CountWhere(ps, f) == |FilteredProjects(ps, f, "")|
  {
    if |ps| > 0 {
      CountIsShown(ps[1..], f);
    }
  }

  // ---------------------------------------------------------------------
  // Editing
  // ---------------------------------------------------------------------

  /** `Partial<ProjectInfo>` as the page uses it: the fields an admin edits. */
  datatype Edit = Edit(
    status: Option<Status>,
    summaryNeedsReview: Option<bool>,
    portfolioWorthy: Option<bool>,
    featured: Option<bool>,
    generatedSummary: Option<string>,
    notes: Option<string>)

  function Pick<T>(o: Option<T>, current: T): T { if o.Some? then o.value else current }

  /** `{ ...p, ...updates }`. */
  function Apply(p: Project, u: Edit): (q: Project)
    ensures q.name == p.name && q.path == p.path && q.tech == p.tech
    ensures q.claudeSummaries == p.claudeSummaries && q.lastCommitDate == p.lastCommitDate
    ensures q.hasGit == p.hasGit && q.lastCommitMessage == p.lastCommitMessage && q.description == p.description
    ensures q.status == (if u.status.Some? then u.status.value else p.status)
    ensures q.summaryNeedsReview == (if u.summaryNeedsReview.Some? then u.summaryNeedsReview.value else p.summaryNeedsReview)
    ensures q.portfolioWorthy == (if u.portfolioWorthy.Some? then u.portfolioWorthy.value else p.portfolioWorthy)
    ensures q.featured == (if u.featured.Some? then u.featured.value else p.featured)
    ensures q.generatedSummary == (if u.generatedSummary.Some? then u.generatedSummary.value else p.generatedSummary)
    ensures q.notes == (if u.notes.Some? then u.notes.value else p.notes)
  {
    p.(status := Pick(u.status, p.status),
       summaryNeedsReview := Pick(u.summaryNeedsReview, p.summaryNeedsReview),
       portfolioWorthy := Pick(u.portfolioWorthy, p.portfolioWorthy),
       featured := Pick(u.featured, p.featured),
       generatedSummary := Pick(u.generatedSummary, p.generatedSummary),
       notes := Pick(u.notes, p.notes))
  }

  /** `updateProject`: the edit lands on every project with the name and
      nowhere else. */
  function UpdateProject(ps: seq<Project>, name: string, u: Edit): (r: seq<Project>)
    ensures |r| == |ps|
    ensures forall i :: 0 <= i < |ps| && ps[i].name != name ==> r[i] == ps[i]
    ensures forall i :: 0 <= i < |ps| && ps[i].name == name ==> r[i] == Apply(ps[i], u)
  {
    seq(|ps|, i requires 0 <= i < |ps| => if ps[i].name == name then Apply(ps[i], u) else ps[i])
  }

  /** Repeating an edit changes nothing more. */
  lemma UpdateIdempotent(ps: seq<Project>, name: string, u: Edit)
    ensures UpdateProject(UpdateProject(ps, name, u), name, u) == UpdateProject(ps, name, u)
  {
  }

  /** Typing in the summary box: the new text, and the flag cleared. */
  function EditSummary(ps: seq<Project>, name: string, text: string): (r: seq<Project>)
    ensures |r| == |ps|
    ensures forall i :: 0 <= i < |r| && r[i].name == name ==> r[i].generatedSummary == text && !r[i].summaryNeedsReview
  {
    UpdateProject(ps, name, Edit(None, Some(false), None, None, Some(text), None))
  }

  /** A non-empty edited summary, once saved, is what the next listing
      shows, no longer flagged for review, provided the name is not listed
      twice. */
  lemma EditedSummarySurvivesSave(ps: seq<Project>, name: string, text: string, i: int, e: DirEntry,
                                  description: Option<string>, parse: string -> Option<ProjectScan.LogRecord>)
    requires 0 <= i < |ps| && ps[i].name == name && e.name == name && text != ""
    requires forall j :: 0 <= j < |ps| && j != i ==> ps[j].name != name
    ensures var p := BuildProject(e, Get(LoadCatalog(Some(Persist(EditSummary(ps, name, text)))), name), description, parse);
      p.generatedSummary == text && !p.summaryNeedsReview
  {
    var edited := EditSummary(ps, name, text);
    assert LastOfName(Persist(edited), i);
    SaveThenList(edited, i, e, description, parse);
  }

  // ---------------------------------------------------------------------
  // The expanded card
  // ---------------------------------------------------------------------

  /** Clicking a card opens it, or closes it when it is the open one. */
  function ToggleExpanded(open: Option<string>, name: string): (r: Option<string>)
    ensures r == Some(name) <==> open != Some(name)
    ensures r.Some? ==> r.value == name
  {
    if open == Some(name) then None else Some(name)
  }
}
