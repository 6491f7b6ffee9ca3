/** The commits route (app/api/commits/route.ts): the authorised batch
    insert and the filtered, paged listing with consecutively numbered
    parameters. */
module CommitsApi {
  import opened Wrappers
  import opened Text
  import opened ApiCommon

  datatype CommitPayload = CommitPayload(sha: string, repo: string, message: string, committedAt: string, url: Option<string>)

  const Columns: nat := 5

  /** The five values of one commit, in the column order of the INSERT:
      sha, repo, message, committed_at, and the url or null. */
  function CommitRow(c: CommitPayload): (row: seq<SqlValue>)
    ensures |row| == Columns
    ensures row[..4] == [SqlText(c.sha), SqlText(c.repo), SqlText(c.message), SqlText(c.committedAt)]
    ensures row[4] == SqlNull <==> c.url.None? || c.url.value == ""
    ensures row[4] != SqlNull ==> row[4] == SqlText(c.url.value)
  {
    [SqlText(c.sha), SqlText(c.repo), SqlText(c.message), SqlText(c.committedAt),
     if c.url.Some? && c.url.value != "" then SqlText(c.url.value) else SqlNull]
  }

  /** The commit a stored row describes; None when a column holds a value of
      the wrong kind. */
  function ReadCommit(row: seq<SqlValue>): Option<CommitPayload> {
    if |row| != Columns || !(row[0].SqlText? && row[1].SqlText? && row[2].SqlText? && row[3].SqlText?) then None
    else if row[4].SqlText? then Some(CommitPayload(row[0].s, row[1].s, row[2].s, row[3].s, Some(row[4].s)))
    else if row[4].SqlNull? then Some(CommitPayload(row[0].s, row[1].s, row[2].s, row[3].s, None))
    else None
  }

  /** Reading a stored commit back gives the commit, with an empty url read
      as none. */
  lemma ReadCommitRow(c: CommitPayload)
    ensures ReadCommit(CommitRow(c)) == Some(c.(url := if c.url == Some("") then None else c.url))
  {
  }

  /** One row per payload, in order. */
  function Rows(ps: seq<CommitPayload>): (rows: seq<seq<SqlValue>>)
    ensures |rows| == |ps| && forall i :: 0 <= i < |ps| ==> rows[i] == CommitRow(ps[i])
  {
    seq(|ps|, i requires 0 <= i < |ps| => CommitRow(ps[i]))
  }

  /** The rows flatten so that value `Columns·i + k` is column k of item i. */
  lemma RowsLayout(ps: seq<CommitPayload>)
    ensures |Flatten(Rows(ps))| == Columns * |ps|
    ensures forall i, k :: 0 <= i < |ps| && 0 <= k < Columns ==>
      Columns * i + k < |Flatten(Rows(ps))| && Flatten(Rows(ps))[Columns * i + k] == CommitRow(ps[i])[k]
  {
    var rows := Rows(ps);
    assert Uniform(rows, Columns);
    FlattenLength(rows, Columns);
    forall i, k | 0 <= i < |ps| && 0 <= k < Columns {
      FlattenAt(rows, Columns, i, k);
    }
  }

  /** The accepted batch binds `$(Columns·i + k + 1)` to column k of item i. */
  lemma PostLayout(header: Option<string>, secret: Option<string>, body: Option<seq<CommitPayload>>)
    requires Post(header, secret, body).Insert?
    ensures |Post(header, secret, body).values| == Columns * |body.value|
    ensures forall i, k :: 0 <= i < |body.value| && 0 <= k < Columns ==>
      Columns * i + k < |Post(header, secret, body).values|
      && Post(header, secret, body).values[Columns * i + k] == CommitRow(body.value[i])[k]
  {
    RowsLayout(body.value);
  }

  datatype Response =
    | Unauthorized
    | NoCommits
    | Insert(placeholders: string, values: seq<SqlValue>, total: nat)

  /** POST: 401 without the bearer secret, 400 without a non-empty array,
      otherwise one insert whose value at `$(5i + k + 1)` is column k of commit i. */
  function Post(header: Option<string>, secret: Option<string>, body: Option<seq<CommitPayload>>): (r: Response)
    ensures r.Unauthorized? <==> !Authorized(header, secret)
    ensures r.NoCommits? <==> Authorized(header, secret) && (body.None? || |body.value| == 0)
    ensures r.Insert? ==> (body.Some? && r.total == |body.value| > 0
      && r.placeholders == Placeholders(Columns, |body.value|)
      && r.values == Flatten(Rows(body.value)))
  {
    if !Authorized(header, secret) then Unauthorized
    else if body.None? || |body.value| == 0 then NoCommits
    else
      var cs := body.value;
      var rows := Rows(cs);
      Insert(Placeholders(Columns, |cs|), Flatten(rows), |cs|)
  }

  // ---------------------------------------------------------------------
  // GET filters
  // ---------------------------------------------------------------------

  /** `column op $index`. */
  datatype Condition = Condition(column: string, op: string, index: nat)

  function ConditionText(c: Condition): string {
    c.column + " " + c.op + " " + Param(c.index)
  }

  datatype Filters = Filters(repo: Option<string>, since: Option<string>, until: Option<string>)

  predicate Truthy(p: Option<string>) { p.Some? && p.value != "" }

  /** The three optional filters in order, as (column, operator, value). */
  function Candidates(f: Filters): seq<(string, string, Option<string>)> {
    [("repo", "=", f.repo), ("committed_at", ">=", f.since), ("committed_at", "<=", f.until)]
  }

  /** The candidates whose value is present, in order. */
  function PresentOnes(cands: seq<(string, string, Option<string>)>): (r: seq<(string, string, Option<string>)>)
    ensures |r| <= |cands|
    ensures forall k :: 0 <= k < |r| ==> Truthy(r[k].2) && r[k] in cands
  {
    if |cands| == 0 then []
    else (if Truthy(cands[0].2) then [cands[0]] else []) + PresentOnes(cands[1..])
  }

  /** cond and value are what candidate c becomes at `$index`. */
  predicate Renders(c: (string, string, Option<string>), cond: Condition, value: SqlValue, index: nat) {
    c.2.Some? && cond == Condition(c.0, c.1, index) && value == SqlText(c.2.value)
  }

  /** The filter loop: each present filter, in order, becomes the condition
      on its column with its operator and the next `$` index, and its value
      is the parameter at that index. */
  function Collect(cands: seq<(string, string, Option<string>)>, next: nat): (r: (seq<Condition>, seq<SqlValue>))
    ensures |r.0| == |r.1| == |PresentOnes(cands)|
    ensures forall k :: 0 <= k < |r.0| ==> Renders(PresentOnes(cands)[k], r.0[k], r.1[k], next + k)
  {
    if |cands| == 0 then ([], [])
    else
      var (col, op, v) := cands[0];
      if Truthy(v) then
        var rest := Collect(cands[1..], next + 1);
        ([Condition(col, op, next)] + rest.0, [SqlText(v.value)] + rest.1)
      else Collect(cands[1..], next)
  }

  /** How many candidates are present. */
  function Present(cands: seq<(string, string, Option<string>)>): nat {
    if |cands| == 0 then 0 else (if Truthy(cands[0].2) then 1 else 0) + Present(cands[1..])
  }

  lemma {:induction false} CollectCounts(cands: seq<(string, string, Option<string>)>, next: nat)
    ensures |Collect(cands, next).0| == Present(cands)
  {
    if |cands| > 0 {
      CollectCounts(cands[1..], next + 1);
      CollectCounts(cands[1..], next);
    }
  }

  /** The conditions and their parameters, numbered $1, $2, … in order:
      `repo =`, then `committed_at >=` for since, then `committed_at <=` for
      until, each present only when its filter is. */
  function Conditions(f: Filters): (r: (seq<Condition>, seq<SqlValue>))
    ensures |r.0| == |r.1| == (if Truthy(f.repo) then 1 else 0) + (if Truthy(f.since) then 1 else 0) + (if Truthy(f.until) then 1 else 0)
    ensures forall k :: 0 <= k < |r.0| ==> r.0[k].index == k + 1
    ensures Truthy(f.repo) ==> r.0[0] == Condition("repo", "=", 1) && r.1[0] == SqlText(f.repo.value)
    ensures Truthy(f.since) ==> var k := if Truthy(f.repo) then 1 else 0;
      r.0[k] == Condition("committed_at", ">=", k + 1) && r.1[k] == SqlText(f.since.value)
    ensures Truthy(f.until) ==> var k := |r.0| - 1;
      r.0[k] == Condition("committed_at", "<=", k + 1) && r.1[k] == SqlText(f.until.value)
  {
    PresentFilters(f);
    Collect(Candidates(f), 1)
  }

  /** The present candidates of three filters, spelt out. */
  lemma PresentFilters(f: Filters)
    ensures PresentOnes(Candidates(f)) ==
      (if Truthy(f.repo) then [("repo", "=", f.repo)] else [])
      + (if Truthy(f.since) then [("committed_at", ">=", f.since)] else [])
      + (if Truthy(f.until) then [("committed_at", "<=", f.until)] else [])
  {
    var cands := Candidates(f);
    var t1 := cands[1..];
    var t2 := t1[1..];
    assert t2[1..] == [];
    var p2 := if Truthy(f.until) then [cands[2]] else [];
    var p1 := (if Truthy(f.since) then [cands[1]] else []) + p2;
    assert PresentOnes(t2) == p2;
    assert PresentOnes(t1) == p1;
    assert PresentOnes(cands) == (if Truthy(f.repo) then [cands[0]] else []) + p1;
  }

  /** `WHERE c1 AND c2 …`, or nothing at all without filters. */
  function WhereClause(conds: seq<Condition>): (w: string)
    ensures |conds| == 0 <==> w == ""
  {
    if |conds| == 0 then ""
    else "WHERE " + Join(seq(|conds|, k requires 0 <= k < |conds| => ConditionText(conds[k])), " AND ")
  }

  /** The data query's parameters and the indices of LIMIT and OFFSET. */
  datatype DataQuery = DataQuery(where: string, params: seq<SqlValue>, limitIndex: nat, offsetIndex: nat)

  /** GET: the two parameters after the filters' are LIMIT and OFFSET, and
      their `$` indices name exactly those two positions. */
  function ListQuery(f: Filters, limit: Option<string>, offset: Option<string>): (q: DataQuery)
    ensures var c := Conditions(f);
      q.limitIndex == |c.0| + 1 && q.offsetIndex == q.limitIndex + 1
      && |q.params| == q.offsetIndex
      && q.params[..|c.1|] == c.1
      && q.where == WhereClause(c.0)
    ensures q.params[q.limitIndex - 1] == AsSql(PageLimit(limit))
    ensures q.params[q.offsetIndex - 1] == AsSql(PageOffset(offset))
  {
    Paged(Conditions(f), limit, offset)
  }

  /** The query for given conditions and their parameters. */
  function Paged(c: (seq<Condition>, seq<SqlValue>), limit: Option<string>, offset: Option<string>): (q: DataQuery)
    requires |c.0| == |c.1|
    ensures q.limitIndex == |c.0| + 1 && q.offsetIndex == q.limitIndex + 1
    ensures |q.params| == q.offsetIndex && q.params[..|c.1|] == c.1 && q.where == WhereClause(c.0)
    ensures q.params[q.limitIndex - 1] == AsSql(PageLimit(limit))
    ensures q.params[q.offsetIndex - 1] == AsSql(PageOffset(offset))
  {
    var all := c.1 + [AsSql(PageLimit(limit)), AsSql(PageOffset(offset))];
    assert all[..|c.1|] == c.1;
    DataQuery(WhereClause(c.0), all, |c.0| + 1, |c.0| + 2)
  }
}
