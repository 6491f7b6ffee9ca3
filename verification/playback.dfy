/** The two DJ-booth panels of the record store
    (components/clown-club/record-store/PlaybackControls.tsx and
    HostPlaybackControls.tsx): time and progress formatting, how incoming
    playback states and Spotify events change the panel, and which command
    the main button sends. */
module Playback {
  import opened Wrappers
  import opened Text

  // ---------------------------------------------------------------------
  // Formatting
  // ---------------------------------------------------------------------

  /** `formatTime(ms)`: whole seconds, then `mins:ss` with JavaScript's `%`. */
  function FormatTime(ms: int): (r: string)
    ensures ms >= 0 ==> r == NatToString(ms / 1000 / 60) + ":" + Pad2((ms / 1000) % 60)
  {
    var seconds := ms / 1000;
    IntToString(seconds / 60) + ":" + Pad2(JsRem(seconds, 60))
  }

  /** Reads `m:ss` back into whole seconds. */
  function ParseTime(t: string): Option<nat> {
    var parts := Split(t, ':');
    if |parts| == 2 && ParseNat(parts[0]).Some? && ParseNat(parts[1]).Some? && ParseNat(parts[1]).value < 60 then
      Some(ParseNat(parts[0]).value * 60 + ParseNat(parts[1]).value)
    else None
  }

  /** For a non-negative time the seconds field is two digits below 60, and
      minutes and seconds together give back the whole seconds. */
  lemma FormatTimeRoundTrip(ms: nat)
    ensures var parts := Split(FormatTime(ms), ':');
      |parts| == 2 && |parts[1]| == 2 && ParseTime(FormatTime(ms)) == Some(ms / 1000)
  {
    var s := ms / 1000;
    var m := s / 60;
    Pad2Value(s % 60);
    NoColonInNumber(m);
    SplitAround(NatToString(m), ':', Pad2(s % 60));
    ParseNatToString(m);
    assert NatToString(m) + ":" + Pad2(s % 60) == NatToString(m) + [':'] + Pad2(s % 60);
  }

  /** A negative time shows both fields negative, as the truncating `%` gives. */
  lemma NegativeTime()
    ensures FormatTime(-1000) == "-1:-1"
  {
    assert -1000 / 1000 == -1;
    assert -1 / 60 == -1;
    assert JsRem(-1, 60) == -1;
    assert IntToString(-1) == "-1";
    assert PadStart("-1", 2, '0') == "-1";
  }

  datatype Track = Track(progress: int, duration: int)

  /** `progressPercent`: 0 without a track; None stands for the NaN or
      Infinity of a zero duration. */
  function ProgressPercent(track: Option<Track>): (r: Option<real>)
    ensures track.None? ==> r == Some(0.0)
    ensures track.Some? && track.value.duration == 0 ==> r.None?
    ensures track.Some? && track.value.duration != 0 ==>
      r.Some? && r.value * track.value.duration as real == 100.0 * track.value.progress as real
    ensures track.Some? && 0 <= track.value.progress <= track.value.duration && track.value.duration != 0 ==>
      r.Some? && 0.0 <= r.value <= 100.0
    ensures track.Some? && track.value.progress == track.value.duration != 0 ==> r == Some(100.0)
  {
    match track
    case None => Some(0.0)
    case Some(t) =>
      if t.duration == 0 then None
      else
        var q := t.progress as real / t.duration as real;
        if 0 <= t.progress <= t.duration then
          RatioBound(t.progress as real, t.duration as real);
          Some(q * 100.0)
        else
          assert t.progress == t.duration ==> q == 1.0;
          Some(q * 100.0)
  }

  /** For one positive duration, more progress shows a larger percentage. */
  lemma ProgressMonotone(duration: int, p1: int, p2: int)
    requires duration > 0 && p1 <= p2
    ensures ProgressPercent(Some(Track(p1, duration))).value <= ProgressPercent(Some(Track(p2, duration))).value
  {
    var d := duration as real;
    var a := ProgressPercent(Some(Track(p1, duration))).value;
    var b := ProgressPercent(Some(Track(p2, duration))).value;
    assert a * d == 100.0 * p1 as real && b * d == 100.0 * p2 as real;
    assert (b - a) * d == 100.0 * (p2 - p1) as real;
  }

  lemma RatioBound(p: real, d: real)
    requires 0.0 <= p <= d && d > 0.0
    ensures 0.0 <= p / d <= 1.0
  {
    var q := p / d;
    assert q * d == p;
  }

  // ---------------------------------------------------------------------
  // Incoming state
  // ---------------------------------------------------------------------

  /** The `authenticated` field of an incoming state: missing, null, or a boolean. */
  datatype AuthField = Absent | NullValue | Flag(b: bool)

  datatype PlaybackState = PlaybackState(isPlaying: bool, track: Option<Track>, authenticated: AuthField)

  /** The guest panel keeps the field's raw value and shows it by truthiness. */
  datatype GuestPanel = GuestPanel(playback: PlaybackState, authenticated: AuthField)

  predicate Truthy(a: AuthField) { a == Flag(true) }

  const GuestInitial := GuestPanel(PlaybackState(false, None, Absent), Flag(false))

  /** `handleStateUpdate` of the guest panel. */
  function GuestOnState(p: GuestPanel, s: PlaybackState): (r: GuestPanel)
    ensures r.playback == s
    ensures !s.authenticated.Absent? ==> r.authenticated == s.authenticated
    ensures s.authenticated.Absent? ==> r.authenticated == p.authenticated
  {
    GuestPanel(s, if s.authenticated.Absent? then p.authenticated else s.authenticated)
  }

  /** What the guest panel says when no track is playing. */
  function IdleMessage(p: GuestPanel): (m: string)
    ensures m == "No track playing" <==> Truthy(p.authenticated)
  {
    if Truthy(p.authenticated) then "No track playing" else "Spotify not connected"
  }

  /** The host panel's state. */
  datatype HostPanel = HostPanel(playback: PlaybackState, authenticated: bool, connecting: bool, error: Option<string>)

  const HostInitial := HostPanel(PlaybackState(false, None, Absent), false, false, None)

  /** `handleStateUpdate` of the host panel: a present field sets the flag to `field !== false`. */
  function HostOnState(p: HostPanel, s: PlaybackState): (r: HostPanel)
    ensures r.playback == s && r.connecting == p.connecting && r.error == p.error
    ensures s.authenticated.Absent? ==> r.authenticated == p.authenticated
    ensures !s.authenticated.Absent? ==> (r.authenticated <==> s.authenticated != Flag(false))
  {
    p.(playback := s, authenticated := if s.authenticated.Absent? then p.authenticated else s.authenticated != Flag(false))
  }

  /** The two panels agree on a boolean field and disagree on null: the guest
      panel then shows "not connected", the host panel "connected". */
  lemma PanelsOnAuthField(g: GuestPanel, h: HostPanel, s: PlaybackState)
    requires !s.authenticated.Absent?
    ensures s.authenticated.Flag? ==> (Truthy(GuestOnState(g, s).authenticated) <==> HostOnState(h, s).authenticated)
    ensures s.authenticated.NullValue? ==> !Truthy(GuestOnState(g, s).authenticated) && HostOnState(h, s).authenticated
  {
  }

  /** `rs:auth-complete`. */
  function HostOnAuthComplete(p: HostPanel): (r: HostPanel)
    ensures r.authenticated && !r.connecting && r.playback == p.playback && r.error == p.error
  {
    p.(authenticated := true, connecting := false)
  }

  /** `rs:error`. */
  function HostOnError(p: HostPanel, message: string): (r: HostPanel)
    ensures r.error == Some(message) && !r.connecting
    ensures r.authenticated == p.authenticated && r.playback == p.playback
  {
    p.(error := Some(message), connecting := false)
  }

  /** `handleConnectSpotify` before and after the auth-URL request; on
      success the page navigates away and the panel is left connecting. */
  function HostConnect(p: HostPanel, failure: Option<string>): (r: HostPanel)
    ensures failure.None? ==> r.connecting && r.error.None?
    ensures failure.Some? ==> !r.connecting && r.error == failure
    ensures r.authenticated == p.authenticated && r.playback == p.playback
  {
    var started := p.(connecting := true, error := None);
    if failure.None? then started else started.(error := failure, connecting := false)
  }

  const TokenFailure := "Failed to complete Spotify connection"

  /** Whether the mount effect fetches tokens: only for `spotify_auth=success`. */
  predicate FetchesTokens(spotifyAuth: Option<string>) {
    spotifyAuth == Some("success")
  }

  /** `fetchAndSendTokens`: on success the tokens are sent and the panel
      authenticated; on failure only the error is set. */
  function HostTokens(p: HostPanel, fetched: bool): (r: (HostPanel, bool))
    ensures r.1 <==> fetched
    ensures fetched ==> r.0 == p.(authenticated := true)
    ensures !fetched ==> r.0 == p.(error := Some(TokenFailure))
  {
    if fetched then (p.(authenticated := true), true) else (p.(error := Some(TokenFailure)), false)
  }

  // ---------------------------------------------------------------------
  // Buttons
  // ---------------------------------------------------------------------

  datatype Command = Play | Pause | Skip | Previous

  /** The event name each command emits. */
  function EventName(c: Command): (e: string)
    ensures StartsWith(e, "rs:")
  {
    match c
    case Play => "rs:play"
    case Pause => "rs:pause"
    case Skip => "rs:skip"
    case Previous => "rs:previous"
  }

  /** The main button pauses while playing and plays otherwise. */
  function MainButton(s: PlaybackState): (c: Command)
    ensures c == Pause <==> s.isPlaying
    ensures c == Play <==> !s.isPlaying
  {
    if s.isPlaying then Pause else Play
  }
}
