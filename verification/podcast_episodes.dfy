/** The episodes route (app/api/podcast/episodes/route.ts): the
    authorised batch upsert and the paged listing. */
module PodcastEpisodes {
  import opened Wrappers
  import opened ApiCommon

  /** The POST body's episode; optional fields are options. */
  datatype EpisodePayload = EpisodePayload(
    id: string,
    title: string,
    description: Option<string>,
    audioUrl: string,
    duration: int,
    fileSize: Option<int>,
    episodeNumber: Option<int>,
    season: Option<int>,
    publishedAt: string,
    aiGenerated: Option<bool>,
    aiDisclosure: Option<string>,
    episodeType: Option<string>)

  const Columns: nat := 12

  /** `x || null` for a string and a number: null exactly for a missing or
      falsy value, the value itself otherwise. */
  function TextOrNull(s: Option<string>): (v: SqlValue)
    ensures v == SqlNull <==> s.None? || s.value == ""
    ensures v != SqlNull ==> v == SqlText(s.value)
  {
    if s.Some? && s.value != "" then SqlText(s.value) else SqlNull
  }

  function NumOrNull(n: Option<int>): (v: SqlValue)
    ensures v == SqlNull <==> n.None? || n.value == 0
    ensures v != SqlNull ==> v == SqlInt(n.value)
  {
    if n.Some? && n.value != 0 then SqlInt(n.value) else SqlNull
  }

  /** The twelve values of one episode, in the column order of the INSERT:
      id, title, description, audio_url, duration, file_size,
      episode_number, season, published_at, ai_generated, ai_disclosure,
      episode_type; with the route's defaults. */
  function EpisodeRow(ep: EpisodePayload): (row: seq<SqlValue>)
    ensures |row| == Columns
    ensures row[0] == SqlText(ep.id) && row[1] == SqlText(ep.title) && row[3] == SqlText(ep.audioUrl)
    ensures row[4] == SqlInt(ep.duration) && row[8] == SqlText(ep.publishedAt)
    ensures row[2] == SqlNull <==> !(ep.description.Some? && ep.description.value != "")
    ensures row[2] != SqlNull ==> row[2] == SqlText(ep.description.value)
    ensures row[5] == SqlNull <==> !(ep.fileSize.Some? && ep.fileSize.value != 0)
    ensures row[5] != SqlNull ==> row[5] == SqlInt(ep.fileSize.value)
    ensures row[6] == SqlNull <==> !(ep.episodeNumber.Some? && ep.episodeNumber.value != 0)
    ensures row[6] != SqlNull ==> row[6] == SqlInt(ep.episodeNumber.value)
    ensures ep.season.None? || ep.season.value == 0 ==> row[7] == SqlInt(1)
    ensures ep.season.Some? && ep.season.value != 0 ==> row[7] == SqlInt(ep.season.value)
    ensures row[9] == SqlBool(ep.aiGenerated.None? || ep.aiGenerated.value)
    ensures row[10] == SqlNull <==> !(ep.aiDisclosure.Some? && ep.aiDisclosure.value != "")
    ensures row[10] != SqlNull ==> row[10] == SqlText(ep.aiDisclosure.value)
    ensures ep.episodeType.None? || ep.episodeType.value == "" ==> row[11] == SqlText("full")
    ensures ep.episodeType.Some? && ep.episodeType.value != "" ==> row[11] == SqlText(ep.episodeType.value)
  {
    [ SqlText(ep.id),
      SqlText(ep.title),
      TextOrNull(ep.description),
      SqlText(ep.audioUrl),
      SqlInt(ep.duration),
      NumOrNull(ep.fileSize),
      NumOrNull(ep.episodeNumber),
      SqlInt(if ep.season.Some? && ep.season.value != 0 then ep.season.value else 1),
      SqlText(ep.publishedAt),
      SqlBool(ep.aiGenerated.GetOr(true)),
      TextOrNull(ep.aiDisclosure),
      SqlText(if ep.episodeType.Some? && ep.episodeType.value != "" then ep.episodeType.value else "full") ]
  }

  /** A stored column read back: null is a missing value. */
  function TextOf(v: SqlValue): Option<string> {
    if v.SqlText? then Some(v.s) else None
  }

  function NumOf(v: SqlValue): Option<int> {
    if v.SqlInt? then Some(v.i) else None
  }

  /** The episode a stored row describes, read column by column; None when a
      column holds a value of the wrong kind. */
  function ReadEpisode(row: seq<SqlValue>): Option<EpisodePayload> {
    if |row| != Columns then None
    else if !(row[0].SqlText? && row[1].SqlText? && row[3].SqlText? && row[4].SqlInt?
              && row[7].SqlInt? && row[8].SqlText? && row[9].SqlBool? && row[11].SqlText?) then None
    else
      Some(EpisodePayload(row[0].s, row[1].s, TextOf(row[2]), row[3].s, row[4].i, NumOf(row[5]),
                          NumOf(row[6]), Some(row[7].i), row[8].s, Some(row[9].b), TextOf(row[10]),
                          Some(row[11].s)))
  }

  /** The payload with every default applied: falsy optional values dropped,
      season 1, `ai_generated` true and type 'full' when missing or falsy. */
  function WithDefaults(ep: EpisodePayload): EpisodePayload {
    ep.(description := if ep.description.Some? && ep.description.value != "" then ep.description else None,
        fileSize := if ep.fileSize.Some? && ep.fileSize.value != 0 then ep.fileSize else None,
        episodeNumber := if ep.episodeNumber.Some? && ep.episodeNumber.value != 0 then ep.episodeNumber else None,
        season := Some(if ep.season.Some? && ep.season.value != 0 then ep.season.value else 1),
        aiGenerated := Some(ep.aiGenerated.GetOr(true)),
        aiDisclosure := if ep.aiDisclosure.Some? && ep.aiDisclosure.value != "" then ep.aiDisclosure else None,
        episodeType := Some(if ep.episodeType.Some? && ep.episodeType.value != "" then ep.episodeType.value else "full"))
  }

  /** Reading a row back gives the episode with its defaults applied, and a
      payload that already carries its defaults is stored as it is. */
  lemma ReadEpisodeRow(ep: EpisodePayload)
    ensures ReadEpisode(EpisodeRow(ep)) == Some(WithDefaults(ep))
    ensures EpisodeRow(WithDefaults(ep)) == EpisodeRow(ep)
    ensures WithDefaults(ep) == ep ==> ReadEpisode(EpisodeRow(ep)) == Some(ep)
  {
  }

  /** One row per payload, in order. */
  function Rows(ps: seq<EpisodePayload>): (rows: seq<seq<SqlValue>>)
    ensures |rows| == |ps| && forall i :: 0 <= i < |ps| ==> rows[i] == EpisodeRow(ps[i])
  {
    seq(|ps|, i requires 0 <= i < |ps| => EpisodeRow(ps[i]))
  }

  /** The rows flatten so that value `Columns·i + k` is column k of item i. */
  lemma RowsLayout(ps: seq<EpisodePayload>)
    ensures |Flatten(Rows(ps))| == Columns * |ps|
    ensures forall i, k :: 0 <= i < |ps| && 0 <= k < Columns ==>
      Columns * i + k < |Flatten(Rows(ps))| && Flatten(Rows(ps))[Columns * i + k] == EpisodeRow(ps[i])[k]
  {
    var rows := Rows(ps);
    assert Uniform(rows, Columns);
    FlattenLength(rows, Columns);
    forall i, k | 0 <= i < |ps| && 0 <= k < Columns {
      FlattenAt(rows, Columns, i, k);
    }
  }

  /** The accepted batch binds `$(Columns·i + k + 1)` to column k of item i. */
  lemma PostLayout(header: Option<string>, secret: Option<string>, body: Option<seq<EpisodePayload>>)
    requires Post(header, secret, body).Upsert?
    ensures |Post(header, secret, body).values| == Columns * |body.value|
    ensures forall i, k :: 0 <= i < |body.value| && 0 <= k < Columns ==>
      Columns * i + k < |Post(header, secret, body).values|
      && Post(header, secret, body).values[Columns * i + k] == EpisodeRow(body.value[i])[k]
  {
    RowsLayout(body.value);
  }

  datatype Response =
    | Unauthorized
    | NoEpisodes
    | Upsert(placeholders: string, values: seq<SqlValue>, total: nat)

  function Status(r: Response): nat {
    match r
    case Unauthorized => 401
    case NoEpisodes => 400
    case Upsert(_, _, _) => 200
  }

  /** POST: 401 without the bearer secret, 400 without a non-empty array,
      otherwise one upsert whose value at `$(12i + k + 1)` is column k of
      episode i. `body` is None when `episodes` is not an array. */
  function Post(header: Option<string>, secret: Option<string>, body: Option<seq<EpisodePayload>>): (r: Response)
    ensures r.Unauthorized? <==> !Authorized(header, secret)
    ensures r.NoEpisodes? <==> Authorized(header, secret) && (body.None? || |body.value| == 0)
    ensures r.Upsert? ==> (body.Some? && r.total == |body.value| > 0
      && r.placeholders == Placeholders(Columns, |body.value|)
      && r.values == Flatten(Rows(body.value)))
  {
    if !Authorized(header, secret) then Unauthorized
    else if body.None? || |body.value| == 0 then NoEpisodes
    else
      var eps := body.value;
      var rows := Rows(eps);
      Upsert(Placeholders(Columns, |eps|), Flatten(rows), |eps|)
  }

  /** GET: the LIMIT and OFFSET values bound to `$1` and `$2`. */
  function ListParams(limit: Option<string>, offset: Option<string>): (params: seq<SqlValue>)
    ensures |params| == 2
    ensures (limit.None? || limit.value == "") ==> params[0] == SqlInt(50)
    ensures (offset.None? || offset.value == "") ==> params[1] == SqlInt(0)
    ensures params[0].SqlInt? ==> params[0].i <= 100
  {
    [AsSql(PageLimit(limit)), AsSql(PageOffset(offset))]
  }
}
