/** The migration runner (scripts/run-migration.ts): reading the
    environment strictly, classifying the Supabase probe's error as "table
    missing" or not, and choosing between "already exists", a direct
    Postgres run, and printed instructions. The probe and the Postgres run
    are parameters. */
module Migration {
  import opened Wrappers
  import opened Text
  import opened EnvFile

  /** The error object of the probe query; both fields may be absent. */
  datatype QueryError = QueryError(message: Option<string>, code: Option<string>)

  const NotFoundPatterns: seq<string> := [
    "does not exist",
    "Could not find the table",
    "relation \"commits\" does not exist",
    "PGRST205"]

  /** `error.message?.includes(p) || error.code === p`. */
  predicate MatchesPattern(e: QueryError, p: string) {
    (e.message.Some? && Contains(e.message.value, p)) || (e.code.Some? && e.code.value == p)
  }

  predicate CodeIs(e: QueryError, c: string) { e.code.Some? && e.code.value == c }

  predicate Present(v: Option<string>) { v.Some? && v.value != "" }

  /** `checkTableExists`: false without the URL or key; true when the probe
      succeeds; otherwise true iff the error matches no not-found pattern. */
  function CheckTableExists(url: Option<string>, key: Option<string>, probe: Option<QueryError>): (r: bool)
    ensures !Present(url) || !Present(key) ==> !r
    ensures Present(url) && Present(key) && probe.None? ==> r
    ensures Present(url) && Present(key) && probe.Some? ==>
      (r <==> forall i :: 0 <= i < |NotFoundPatterns| ==> !MatchesPattern(probe.value, NotFoundPatterns[i]))
  {
    if !Present(url) || !Present(key) then false
    else if probe.None? then true
    else !AnyMatches(probe.value, NotFoundPatterns)
  }

  /** `patterns.some(...)`. */
  function AnyMatches(e: QueryError, ps: seq<string>): (r: bool)
    ensures r <==> exists i :: 0 <= i < |ps| && MatchesPattern(e, ps[i])
  {
    if |ps| == 0 then false
    else if MatchesPattern(e, ps[0]) then true
    else
      var rest := AnyMatches(e, ps[1..]);
      assert rest <==> exists i :: 1 <= i < |ps| && MatchesPattern(e, ps[i]) by {
        if rest {
          var i :| 0 <= i < |ps[1..]| && MatchesPattern(e, ps[1..][i]);
          assert ps[1..][i] == ps[i + 1];
        }
        forall i | 1 <= i < |ps| && MatchesPattern(e, ps[i]) ensures rest {
          assert ps[1..][i - 1] == ps[i];
        }
      }
      rest
  }

  /** Occurrence inside an occurrence. */
  lemma ContainsTrans(s: string, t: string, u: string)
    requires Contains(s, t) && Contains(t, u)
    ensures Contains(s, u)
  {
    var i :| 0 <= i <= |s| - |t| && OccursAt(s, t, i);
    var j :| 0 <= j <= |t| - |u| && OccursAt(t, u, j);
    assert forall k :: 0 <= k < |t| ==> s[i + k] == t[k] by {
      forall k | 0 <= k < |t| ensures s[i + k] == t[k] { assert s[i..i + |t|][k] == t[k]; }
    }
    assert s[i + j..i + j + |u|] == t[j..j + |u|];
    assert OccursAt(s, u, i + j);
  }

  /** The third pattern adds nothing for messages: any message containing
      it already contains the first. */
  lemma ThirdPatternRedundant(m: string)
    requires Contains(m, NotFoundPatterns[2])
    ensures Contains(m, NotFoundPatterns[0])
  {
    var third := NotFoundPatterns[2];
    assert OccursAt(third, NotFoundPatterns[0], 19);
    ContainsTrans(m, third, NotFoundPatterns[0]);
  }

  /** The probe error means "no such table", stated without the pattern
      list: the message names a missing relation or table, or the code is
      one of the four strings. A message that mentions the code counts too. */
  predicate TableMissing(e: QueryError) {
    (e.message.Some? && (Contains(e.message.value, "does not exist") || Contains(e.message.value, "Could not find the table")
                         || Contains(e.message.value, "PGRST205")))
    || CodeIs(e, "does not exist") || CodeIs(e, "Could not find the table")
    || CodeIs(e, "relation \"commits\" does not exist") || CodeIs(e, "PGRST205")
  }

  /** The pattern search recognises exactly the missing-table errors. */
  lemma PatternsMeanMissing(e: QueryError)
    ensures AnyMatches(e, NotFoundPatterns) <==> TableMissing(e)
  {
    forall i | 0 <= i < |NotFoundPatterns| && MatchesPattern(e, NotFoundPatterns[i])
      ensures TableMissing(e)
    {
      if i == 0 {
        assert NotFoundPatterns[0] == "does not exist";
      } else if i == 1 {
        assert NotFoundPatterns[1] == "Could not find the table";
      } else if i == 2 {
        assert NotFoundPatterns[2] == "relation \"commits\" does not exist";
        if e.message.Some? && Contains(e.message.value, NotFoundPatterns[2]) {
          ThirdPatternRedundant(e.message.value);
          assert NotFoundPatterns[0] == "does not exist";
        }
      } else {
        assert NotFoundPatterns[3] == "PGRST205";
      }
    }
    if TableMissing(e) {
      if e.message.Some? && Contains(e.message.value, "does not exist") {
        assert MatchesPattern(e, NotFoundPatterns[0]);
      } else if e.message.Some? && Contains(e.message.value, "Could not find the table") {
        assert MatchesPattern(e, NotFoundPatterns[1]);
      } else if e.message.Some? && Contains(e.message.value, "PGRST205") {
        assert MatchesPattern(e, NotFoundPatterns[3]);
      } else if CodeIs(e, "does not exist") {
        assert MatchesPattern(e, NotFoundPatterns[0]);
      } else if CodeIs(e, "Could not find the table") {
        assert MatchesPattern(e, NotFoundPatterns[1]);
      } else if CodeIs(e, "relation \"commits\" does not exist") {
        assert MatchesPattern(e, NotFoundPatterns[2]);
      } else {
        assert MatchesPattern(e, NotFoundPatterns[3]);
      }
    }
  }

  /** What `runMigration` ends with. */
  datatype Outcome = AlreadyExists | Migrated | Instructions

  /** Existing table first; then the Postgres route only when DATABASE_URL is set. */
  function RunMigration(tableExists: bool, databaseUrl: Option<string>, pgSucceeded: bool): (r: Outcome)
    ensures r.AlreadyExists? <==> tableExists
    ensures r.Migrated? <==> !tableExists && Present(databaseUrl) && pgSucceeded
    ensures r.Instructions? <==> !tableExists && !(Present(databaseUrl) && pgSucceeded)
  {
    if tableExists then AlreadyExists
    else if Present(databaseUrl) && pgSucceeded then Migrated
    else Instructions
  }

  /** The whole run: with the credentials and a probe that succeeds or fails
      for another reason the table counts as existing and nothing is done;
      without the credentials, or with a missing-table error, the runner
      migrates when Postgres is reachable and prints instructions otherwise. */
  lemma RunMigrationDecision(url: Option<string>, key: Option<string>, probe: Option<QueryError>,
                             databaseUrl: Option<string>, pgSucceeded: bool)
    ensures var r := RunMigration(CheckTableExists(url, key, probe), databaseUrl, pgSucceeded);
      && (r.AlreadyExists? <==> Present(url) && Present(key) && (probe.None? || !TableMissing(probe.value)))
      && (r.Migrated? <==>
            (!Present(url) || !Present(key) || (probe.Some? && TableMissing(probe.value))) && Present(databaseUrl) && pgSucceeded)
  {
    if probe.Some? {
      PatternsMeanMissing(probe.value);
      assert AnyMatches(probe.value, NotFoundPatterns) <==> exists i :: 0 <= i < |NotFoundPatterns| && MatchesPattern(probe.value, NotFoundPatterns[i]);
    }
  }

  /** A probe that fails for an unrelated reason, such as a refused
      connection, is taken as proof that the table exists. */
  lemma UnrelatedErrorCountsAsExisting()
    ensures RunMigration(CheckTableExists(Some("https://x.supabase.co"), Some("key"),
                                          Some(QueryError(Some("fetch failed"), None))), Some("postgres://db"), true)
            == AlreadyExists
  {
    var e := QueryError(Some("fetch failed"), None);
    PatternsMeanMissing(e);
    assert !Contains("fetch failed", "does not exist");
    assert !Contains("fetch failed", "Could not find the table");
    forall i | 0 <= i <= 4 ensures !OccursAt("fetch failed", "PGRST205", i) {
      assert "fetch failed"[i..i + 8][0] == "fetch failed"[i];
    }
  }
}
