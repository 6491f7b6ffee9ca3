/** The caption-contest room record of server.js and its end-of-round
    vote tally: counting votes per candidate, adding them to the scores and
    picking the round winner. */
module CaptionRoom {
  import opened Wrappers
  import opened OrderedMap

  type SocketId = string

  datatype Player = Player(id: SocketId, name: string, score: nat, isHost: bool)

  datatype Submission = Submission(playerId: SocketId, playerName: string, caption: string)

  datatype GameState = Lobby | Submitting | Voting | Results

  /** One room; `votes` maps voter to votee and `scores` socket to points,
      both in JavaScript `Map` insertion order. */
  datatype Room = Room(
    code: string,
    host: SocketId,
    players: seq<Player>,
    state: GameState,
    round: nat,
    submissions: seq<Submission>,
    votes: Assoc<SocketId, SocketId>,
    scores: Assoc<SocketId, nat>,
    image: Option<string>,
    createdAt: int)

  /** `players.find(p => p.id === id)`. */
  function FindPlayer(players: seq<Player>, id: SocketId): (r: Option<Player>)
    ensures r.None? <==> forall i :: 0 <= i < |players| ==> players[i].id != id
    ensures r.Some? ==> r.value.id == id && r.value in players
  {
    if |players| == 0 then None
    else if players[0].id == id then Some(players[0])
    else FindPlayer(players[1..], id)
  }

  /** `submissions.find(s => s.playerId === id)`. */
  function FindSubmission(subs: seq<Submission>, id: SocketId): (r: Option<Submission>)
    ensures r.None? <==> forall i :: 0 <= i < |subs| ==> subs[i].playerId != id
    ensures r.Some? ==> r.value.playerId == id && r.value in subs
  {
    if |subs| == 0 then None
    else if subs[0].playerId == id then Some(subs[0])
    else FindSubmission(subs[1..], id)
  }

  // ---------------------------------------------------------------------
  // Counting votes
  // ---------------------------------------------------------------------

  /** Sum of the values of an assoc list. */
  function SumValues<K>(m: Assoc<K, nat>): nat {
    if |m| == 0 then 0 else m[0].1 + SumValues(m[1..])
  }

  lemma {:induction false} SumValuesAppend<K>(m: Assoc<K, nat>, x: (K, nat))
    ensures SumValues(m + [x]) == SumValues(m) + x.1
  {
    if |m| > 0 {
      assert (m + [x])[1..] == m[1..] + [x];
      SumValuesAppend(m[1..], x);
    }
  }

  /** `set` replaces one value: the sum changes by the difference. */
  lemma {:induction false} SumValuesSet<K(!new)>(m: Assoc<K, nat>, k: K, v: nat)
    ensures SumValues(Set(m, k, v)) + Get(m, k).GetOr(0) == SumValues(m) + v
  {
    if |m| == 0 {
    } else if m[0].0 == k {
      assert ([(k, v)] + m[1..])[1..] == m[1..];
    } else {
      SumValuesSet(m[1..], k, v);
      assert ([m[0]] + Set(m[1..], k, v))[1..] == Set(m[1..], k, v);
    }
  }

  /** How many entries of the vote map name `c` as votee. */
  function Occurrences(votes: Assoc<SocketId, SocketId>, c: SocketId): nat {
    if |votes| == 0 then 0
    else Occurrences(votes[..|votes| - 1], c) + (if votes[|votes| - 1].1 == c then 1 else 0)
  }

  /** `voteCounts.set(votedFor, (voteCounts.get(votedFor) || 0) + 1)`. */
  function Bump(counts: Assoc<SocketId, nat>, c: SocketId): Assoc<SocketId, nat> {
    Set(counts, c, Get(counts, c).GetOr(0) + 1)
  }

  /** The tally loop over `room.votes.entries()`, in insertion order. */
  function CountVotes(votes: Assoc<SocketId, SocketId>): Assoc<SocketId, nat> {
    if |votes| == 0 then []
    else Bump(CountVotes(votes[..|votes| - 1]), votes[|votes| - 1].1)
  }

  /** Each candidate's count is the number of votes naming them; a
      candidate nobody voted for has no entry. */
  lemma {:induction false} CountVotesCounts(votes: Assoc<SocketId, SocketId>, c: SocketId)
    ensures Get(CountVotes(votes), c) == if Occurrences(votes, c) == 0 then None else Some(Occurrences(votes, c))
  {
    if |votes| > 0 {
      var prev := votes[..|votes| - 1];
      var d := votes[|votes| - 1].1;
      var m := CountVotes(prev);
      CountVotesCounts(prev, c);
      assert CountVotes(votes) == Set(m, d, Get(m, d).GetOr(0) + 1);
      if d == c {
        GetSetSame(m, d, Get(m, d).GetOr(0) + 1);
      } else {
        GetSetOther(m, d, Get(m, d).GetOr(0) + 1, c);
      }
    }
  }

  /** Every vote is counted exactly once. */
  lemma {:induction false} CountVotesTotal(votes: Assoc<SocketId, SocketId>)
    ensures SumValues(CountVotes(votes)) == |votes|
  {
    if |votes| > 0 {
      var prev := votes[..|votes| - 1];
      var d := votes[|votes| - 1].1;
      CountVotesTotal(prev);
      var m := CountVotes(prev);
      SumValuesSet(m, d, Get(m, d).GetOr(0) + 1);
    }
  }

  /** The counts name each candidate once. */
  lemma {:induction false} CountVotesDistinct(votes: Assoc<SocketId, SocketId>)
    ensures DistinctKeys(CountVotes(votes))
  {
    if |votes| > 0 {
      var prev := votes[..|votes| - 1];
      CountVotesDistinct(prev);
      var m := CountVotes(prev);
      var d := votes[|votes| - 1].1;
      SetDistinct(m, d, Get(m, d).GetOr(0) + 1);
    }
  }

  // ---------------------------------------------------------------------
  // Scores
  // ---------------------------------------------------------------------

  /** `player.score = v` on the first player with that id, if any. */
  function SetScore(players: seq<Player>, id: SocketId, v: nat): (r: seq<Player>)
    ensures |r| == |players|
    ensures forall i :: 0 <= i < |r| ==> r[i].id == players[i].id && r[i].name == players[i].name && r[i].isHost == players[i].isHost
    ensures forall i :: 0 <= i < |r| && players[i].id != id ==> r[i] == players[i]
  {
    if |players| == 0 then []
    else if players[0].id == id then [players[0].(score := v)] + players[1..]
    else
      var rest := SetScore(players[1..], id, v);
      assert ([players[0]] + rest)[1..] == rest;
      [players[0]] + rest
  }

  /** The score-map half of the score-update loop over the vote counts,
      in order: `scores.set(id, (scores.get(id) || 0) + count)`. */
  function ScoreMap(scores: Assoc<SocketId, nat>, counts: Assoc<SocketId, nat>): Assoc<SocketId, nat>
    decreases |counts|, 1
  {
    if |counts| == 0 then scores
    else Set(ScoreMap(scores, counts[..|counts| - 1]), counts[|counts| - 1].0, NewTotal(scores, counts))
  }

  /** `scores.get(id) || 0`. */
  function ScoreOf(scores: Assoc<SocketId, nat>, id: SocketId): nat {
    Get(scores, id).GetOr(0)
  }

  /** `currentScore + voteCount` for the last count: the id's total before
      it (0 if none) plus its votes. */
  function NewTotal(scores: Assoc<SocketId, nat>, counts: Assoc<SocketId, nat>): nat
    requires |counts| > 0
    decreases |counts|, 0
  {
    ScoreOf(ScoreMap(scores, counts[..|counts| - 1]), counts[|counts| - 1].0) + counts[|counts| - 1].1
  }

  /** The players half of the same loop: the first player with the id gets
      the same new total. */
  function ScorePlayers(players: seq<Player>, scores: Assoc<SocketId, nat>, counts: Assoc<SocketId, nat>): (r: seq<Player>)
    ensures |r| == |players|
    ensures forall i :: 0 <= i < |players| ==> SameButScore(r[i], players[i])
  {
    if |counts| == 0 then players
    else SetScore(ScorePlayers(players, scores, counts[..|counts| - 1]), counts[|counts| - 1].0, NewTotal(scores, counts))
  }

  /** The first player with the id, and only that one, gets the score;
      without such a player nothing changes. */
  lemma {:induction false} SetScoreFinds(players: seq<Player>, id: SocketId, v: nat)
    ensures FindPlayer(players, id).Some? ==> FindPlayer(SetScore(players, id, v), id) == Some(FindPlayer(players, id).value.(score := v))
    ensures FindPlayer(players, id).None? ==> SetScore(players, id, v) == players
  {
    if |players| > 0 && players[0].id != id {
      SetScoreFinds(players[1..], id, v);
    }
  }

  /** The same player, whatever the score. */
  predicate SameButScore(p: Player, q: Player) {
    p.id == q.id && p.name == q.name && p.isHost == q.isHost
  }

  /** The first player with the id is found, and everyone before it has another id. */
  lemma {:induction false} FindPlayerAt(players: seq<Player>, k: SocketId)
    requires FindPlayer(players, k).Some?
    ensures exists i :: 0 <= i < |players| && players[i] == FindPlayer(players, k).value && forall j :: 0 <= j < i ==> players[j].id != k
  {
    if players[0].id != k {
      FindPlayerAt(players[1..], k);
      var i :| 0 <= i < |players| - 1 && players[1..][i] == FindPlayer(players[1..], k).value && forall j :: 0 <= j < i ==> players[1..][j].id != k;
      assert players[i + 1] == players[1..][i];
      forall j | 0 <= j < i + 1 ensures players[j].id != k {
        if j > 0 { assert players[j] == players[1..][j - 1]; }
      }
    }
  }

  /** Conversely, the first player with the id is the one `find` returns. */
  lemma {:induction false} FindPlayerFirst(players: seq<Player>, k: SocketId, i: nat)
    requires i < |players| && players[i].id == k && forall j :: 0 <= j < i ==> players[j].id != k
    ensures FindPlayer(players, k) == Some(players[i])
  {
    if i > 0 {
      assert players[1..][i - 1] == players[i];
      FindPlayerFirst(players[1..], k, i - 1);
    }
  }

  /** A player nobody voted for keeps their entry, score included. */
  lemma {:induction false} ScorePlayersOther(players: seq<Player>, scores: Assoc<SocketId, nat>, counts: Assoc<SocketId, nat>, i: nat)
    requires i < |players| && !HasKey(counts, players[i].id)
    ensures ScorePlayers(players, scores, counts)[i] == players[i]
  {
    if |counts| > 0 {
      var init := counts[..|counts| - 1];
      forall j | 0 <= j < |init| ensures init[j].0 != players[i].id {
        assert init[j] == counts[j];
      }
      ScorePlayersOther(players, scores, init, i);
      assert counts[|counts| - 1].0 != players[i].id;
    }
  }

  /** A key that is not the last one's occurs before it. */
  lemma HasKeyBeforeLast(counts: Assoc<SocketId, nat>, k: SocketId)
    requires HasKey(counts, k) && counts[|counts| - 1].0 != k
    ensures HasKey(counts[..|counts| - 1], k)
  {
    var j :| 0 <= j < |counts| && counts[j].0 == k;
    assert counts[..|counts| - 1][j] == counts[j];
  }

  /** The last count's id gets its earlier total plus that count. */
  lemma ScoreMapLast(scores: Assoc<SocketId, nat>, counts: Assoc<SocketId, nat>)
    requires |counts| > 0
    ensures Get(ScoreMap(scores, counts), counts[|counts| - 1].0) == Some(NewTotal(scores, counts))
  {
    var init := counts[..|counts| - 1];
    var id := counts[|counts| - 1].0;
    GetSetSame(ScoreMap(scores, init), id, NewTotal(scores, counts));
  }

  /** Every other id keeps its earlier total. */
  lemma ScoreMapNotLast(scores: Assoc<SocketId, nat>, counts: Assoc<SocketId, nat>, k: SocketId)
    requires |counts| > 0 && counts[|counts| - 1].0 != k
    ensures Get(ScoreMap(scores, counts), k) == Get(ScoreMap(scores, counts[..|counts| - 1]), k)
  {
    var init := counts[..|counts| - 1];
    var id := counts[|counts| - 1].0;
    GetSetOther(ScoreMap(scores, init), id, NewTotal(scores, counts), k);
  }

  /** The players half of one step: the last count's id gets its new total. */
  lemma PlayersStep(players: seq<Player>, scores: Assoc<SocketId, nat>, counts: Assoc<SocketId, nat>)
    requires |counts| > 0
    ensures ScorePlayers(players, scores, counts) == SetScore(ScorePlayers(players, scores, counts[..|counts| - 1]),
      counts[|counts| - 1].0, NewTotal(scores, counts))
  {
  }

  /** Player i is the first with its id. */
  predicate FirstWithId(players: seq<Player>, i: nat) {
    i < |players| && forall j :: 0 <= j < i ==> players[j].id != players[i].id
  }

  /** `find` hits the first player with the id, so that one gets the score. */
  lemma {:induction false} SetScoreAt(players: seq<Player>, v: nat, i: nat)
    requires FirstWithId(players, i)
    ensures SetScore(players, players[i].id, v)[i] == players[i].(score := v)
  {
    if i > 0 {
      assert players[0].id != players[i].id;
      assert players[1..][i - 1] == players[i];
      assert FirstWithId(players[1..], i - 1) by {
        forall j | 0 <= j < i - 1 ensures players[1..][j].id != players[i].id {
          assert players[1..][j] == players[j + 1];
        }
      }
      SetScoreAt(players[1..], v, i - 1);
    }
  }

  /** The last count's id: its first player gets the new total. */
  lemma StepSame(players: seq<Player>, scores: Assoc<SocketId, nat>, counts: Assoc<SocketId, nat>, i: nat)
    requires |counts| > 0 && FirstWithId(players, i) && players[i].id == counts[|counts| - 1].0
    ensures Get(ScoreMap(scores, counts), players[i].id).Some?
    ensures ScorePlayers(players, scores, counts)[i] == players[i].(score := Get(ScoreMap(scores, counts), players[i].id).value)
  {
    PlayersStep(players, scores, counts);
    ScoreMapLast(scores, counts);
    SetScoreAligned(ScorePlayers(players, scores, counts), ScorePlayers(players, scores, counts[..|counts| - 1]), players,
      counts[|counts| - 1].0, NewTotal(scores, counts), i);
  }

  /** Setting the score on a score-only copy of the list. */
  lemma SetScoreAligned(cur: seq<Player>, prev: seq<Player>, players: seq<Player>, id: SocketId, v: nat, i: nat)
    requires |prev| == |players| && forall j :: 0 <= j < |prev| ==> SameButScore(prev[j], players[j])
    requires FirstWithId(players, i) && players[i].id == id && cur == SetScore(prev, id, v)
    ensures cur[i] == players[i].(score := v)
  {
    assert FirstWithId(prev, i) by {
      forall j | 0 <= j < i ensures prev[j].id != prev[i].id {
        assert SameButScore(prev[j], players[j]);
      }
    }
    SetScoreAt(prev, v, i);
    assert SameButScore(prev[i], players[i]);
  }

  /** Any other id: the last step changes neither the player nor the total. */
  lemma StepOther(players: seq<Player>, scores: Assoc<SocketId, nat>, counts: Assoc<SocketId, nat>, i: nat)
    requires |counts| > 0 && i < |players| && players[i].id != counts[|counts| - 1].0
    ensures ScorePlayers(players, scores, counts)[i] == ScorePlayers(players, scores, counts[..|counts| - 1])[i]
    ensures Get(ScoreMap(scores, counts), players[i].id) == Get(ScoreMap(scores, counts[..|counts| - 1]), players[i].id)
  {
    PlayersStep(players, scores, counts);
    ScoreMapNotLast(scores, counts, players[i].id);
  }

  /** The first player with a voted-for id gets that id's new total from
      the score map; everything else about the player is kept. */
  lemma {:induction false} ScorePlayersEach(players: seq<Player>, scores: Assoc<SocketId, nat>, counts: Assoc<SocketId, nat>, i: nat)
    requires FirstWithId(players, i) && HasKey(counts, players[i].id)
    ensures Get(ScoreMap(scores, counts), players[i].id).Some?
    ensures ScorePlayers(players, scores, counts)[i] == players[i].(score := Get(ScoreMap(scores, counts), players[i].id).value)
  {
    if counts[|counts| - 1].0 == players[i].id {
      StepSame(players, scores, counts, i);
    } else {
      HasKeyBeforeLast(counts, players[i].id);
      ScorePlayersEach(players, scores, counts[..|counts| - 1], i);
      StepOther(players, scores, counts, i);
    }
  }

  /** Together the scores grow by exactly the sum of the counts. */
  lemma {:induction false} ScoreMapTotal(scores: Assoc<SocketId, nat>, counts: Assoc<SocketId, nat>)
    ensures SumValues(ScoreMap(scores, counts)) == SumValues(scores) + SumValues(counts)
  {
    if |counts| > 0 {
      var init := counts[..|counts| - 1];
      var last := counts[|counts| - 1];
      ScoreMapTotal(scores, init);
      var prev := ScoreMap(scores, init);
      SumValuesSet(prev, last.0, NewTotal(scores, counts));
      assert init + [last] == counts;
      SumValuesAppend(init, last);
    }
  }

  /** Scores of ids the counts do not mention are untouched. */
  lemma {:induction false} ScoreMapOther(scores: Assoc<SocketId, nat>, counts: Assoc<SocketId, nat>, k: SocketId)
    requires !HasKey(counts, k)
    ensures Get(ScoreMap(scores, counts), k) == Get(scores, k)
  {
    if |counts| > 0 {
      var init := counts[..|counts| - 1];
      var last := counts[|counts| - 1];
      assert forall i :: 0 <= i < |init| ==> init[i] == counts[i];
      ScoreMapOther(scores, init, k);
      var prev := ScoreMap(scores, init);
      GetSetOther(prev, last.0, NewTotal(scores, counts), k);
    }
  }

  /** With distinct candidates, each candidate's score is its old score
      (0 if absent) plus its count. */
  lemma {:induction false} ScoreMapEach(scores: Assoc<SocketId, nat>, counts: Assoc<SocketId, nat>, i: nat)
    requires DistinctKeys(counts) && i < |counts|
    ensures Get(ScoreMap(scores, counts), counts[i].0) == Some(ScoreOf(scores, counts[i].0) + counts[i].1)
  {
    var init := counts[..|counts| - 1];
    var last := counts[|counts| - 1];
    var prev := ScoreMap(scores, init);
    if i == |counts| - 1 {
      assert forall j :: 0 <= j < |init| ==> init[j] == counts[j];
      ScoreMapOther(scores, init, last.0);
      GetSetSame(prev, last.0, NewTotal(scores, counts));
    } else {
      assert init[i] == counts[i];
      assert DistinctKeys(init) by {
        forall a, b | 0 <= a < b < |init| ensures init[a].0 != init[b].0 {
          assert init[a] == counts[a] && init[b] == counts[b];
        }
      }
      ScoreMapEach(scores, init, i);
      GetSetOther(prev, last.0, NewTotal(scores, counts), counts[i].0);
    }
  }

  /** The same through `find`: looking the voted-for id up in the new
      list gives the old player with the new total. */
  lemma ScorePlayersFinds(players: seq<Player>, scores: Assoc<SocketId, nat>, counts: Assoc<SocketId, nat>, k: SocketId)
    requires HasKey(counts, k) && FindPlayer(players, k).Some?
    ensures Get(ScoreMap(scores, counts), k).Some?
    ensures FindPlayer(ScorePlayers(players, scores, counts), k)
      == Some(FindPlayer(players, k).value.(score := Get(ScoreMap(scores, counts), k).value))
  {
    FindPlayerAt(players, k);
    var i :| 0 <= i < |players| && players[i] == FindPlayer(players, k).value && forall j :: 0 <= j < i ==> players[j].id != k;
    ScorePlayersEach(players, scores, counts, i);
    var r := ScorePlayers(players, scores, counts);
    assert forall j :: 0 <= j < i ==> r[j].id != k by {
      forall j | 0 <= j < i ensures r[j].id != k {
        assert SameButScore(r[j], players[j]);
      }
    }
    FindPlayerFirst(r, k, i);
  }

  // ---------------------------------------------------------------------
  // Winner
  // ---------------------------------------------------------------------

  /** The winner loop: starting from maxVotes 0 and no winner, an entry
      takes over only with strictly more votes. */
  function Winner(counts: Assoc<SocketId, nat>): (r: (nat, Option<SocketId>))
    ensures forall i :: 0 <= i < |counts| ==> counts[i].1 <= r.0
    ensures r.1.None? <==> r.0 == 0
    ensures r.1.Some? ==> exists i :: 0 <= i < |counts| && counts[i] == (r.1.value, r.0) && IsFirstMax(counts, i)
  {
    if |counts| == 0 then (0, None)
    else
      var init := counts[..|counts| - 1];
      var prev := Winner(init);
      var last := counts[|counts| - 1];
      if last.1 > prev.0 then
        assert IsFirstMax(counts, |counts| - 1);
        (last.1, Some(last.0))
      else
        KeepWinner(counts, init, prev);
        prev
  }

  /** A last entry that does not beat the running maximum keeps the winner. */
  lemma KeepWinner(counts: Assoc<SocketId, nat>, init: Assoc<SocketId, nat>, prev: (nat, Option<SocketId>))
    requires |counts| > 0 && init == counts[..|counts| - 1] && counts[|counts| - 1].1 <= prev.0
    requires prev.1.Some? ==> exists i :: 0 <= i < |init| && init[i] == (prev.1.value, prev.0) && IsFirstMax(init, i)
    requires forall i :: 0 <= i < |init| ==> init[i].1 <= prev.0
    ensures prev.1.Some? ==> exists i :: 0 <= i < |counts| && counts[i] == (prev.1.value, prev.0) && IsFirstMax(counts, i)
  {
    if prev.1.Some? {
      var i :| 0 <= i < |init| && init[i] == (prev.1.value, prev.0) && IsFirstMax(init, i);
      assert counts[i] == init[i];
      forall j | 0 <= j < |counts| ensures counts[j].1 <= counts[i].1 {
        if j < |init| { assert init[j] == counts[j]; }
      }
      forall j | 0 <= j < i ensures counts[j].1 < counts[i].1 {
        assert init[j] == counts[j];
      }
    }
  }

  /** Entry i holds the largest count and every earlier entry is strictly smaller. */
  predicate IsFirstMax(counts: Assoc<SocketId, nat>, i: nat)
    requires i < |counts|
  {
    (forall j :: 0 <= j < |counts| ==> counts[j].1 <= counts[i].1) &&
    (forall j :: 0 <= j < i ==> counts[j].1 < counts[i].1)
  }

  /** With distinct candidates the winner's new score is their old score
      (0 if none) plus the winning count. */
  lemma WinnerTotal(scores: Assoc<SocketId, nat>, counts: Assoc<SocketId, nat>)
    requires DistinctKeys(counts) && Winner(counts).1.Some?
    ensures Get(ScoreMap(scores, counts), Winner(counts).1.value)
      == Some(ScoreOf(scores, Winner(counts).1.value) + Winner(counts).0)
  {
    var w := Winner(counts).1.value;
    var i :| 0 <= i < |counts| && counts[i] == (w, Winner(counts).0) && IsFirstMax(counts, i);
    ScoreMapEach(scores, counts, i);
    assert counts[i].0 == w && counts[i].1 == Winner(counts).0;
  }

  /** Every vote cast leaves a winner. */
  lemma NonEmptyTallyHasWinner(votes: Assoc<SocketId, SocketId>)
    requires |votes| > 0
    ensures Winner(CountVotes(votes)).1.Some?
  {
    var c := votes[|votes| - 1].1;
    CountVotesCounts(votes, c);
    var counts := CountVotes(votes);
    GetSpec(counts, c);
    var k :| 0 <= k < |counts| && counts[k] == (c, Get(counts, c).value);
    assert counts[k].1 <= Winner(counts).0;
  }
}
