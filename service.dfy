/**
 * The service state and its four request handlers (app.py:19-84). The two
 * module-level lists become the fields of one Service object and each
 * handler becomes a method. RegisterPlayer and SubmitScore either fail with
 * an Error and change nothing, or append to their list; GetPlayers and
 * GetLeaderboard only read.
 */
module Leaderboard {
  import opened Records
  import opened Tally
  import opened Ranking
  import opened Standings

  /**
   * What a confirmation message reports: the username it names and, for a
   * submission, the score. The message text itself is not modelled.
   */
  datatype Ack = Registered(username: string) | Submitted(score: int, username: string)

  class Service {
    /** `players_db`: append-only, in registration order. */
    var players: seq<Player>
    /** `scores_db`: append-only, in submission order. */
    var scores: seq<GameScore>

    /**
     * What the handlers keep true: player ids are unique, and every ledger
     * record names a registered player.
     */
    ghost predicate Valid()
      reads this
    {
      && UniqueIds(players)
      && forall i :: 0 <= i < |scores| ==> HasPlayer(players, scores[i].playerId)
    }

    /** A fresh process: both lists empty. */
    constructor ()
      ensures players == [] && scores == []
      ensures Valid()
    {
      players := [];
      scores := [];
    }

    /**
     * `register_player` (app.py:25-32): a duplicate id fails with
     * AlreadyExists and changes nothing; otherwise the player is appended.
     */
    method RegisterPlayer(player: Player) returns (r: Result<Ack>)
      modifies this
      ensures r == if HasPlayer(old(players), player.id) then Err(AlreadyExists)
                   else Ok(Registered(player.username))
      ensures players == if r.Ok? then old(players) + [player] else old(players)
      ensures scores == old(scores)
      ensures old(Valid()) ==> Valid()
    {
      if HasPlayer(players, player.id) {
        return Err(AlreadyExists);
      }
      players := players + [player];
      r := Ok(Registered(player.username));
      forall id | HasPlayer(old(players), id) ensures HasPlayer(players, id) {
        var k :| 0 <= k < |old(players)| && old(players)[k].id == id;
        assert players[k] == old(players)[k];
      }
    }

    /**
     * `get_players` (app.py:36-39): an empty registry is an error, not an
     * empty success; otherwise the whole registry in registration order.
     */
    method GetPlayers() returns (r: Result<seq<Player>>)
      ensures r.Err? <==> players == []
      ensures r.Err? ==> r.error == NoPlayers
      ensures r.Ok? ==> r.value == players
    {
      if players == [] {
        return Err(NoPlayers);
      }
      r := Ok(players);
    }

    /**
     * `submit_score` (app.py:43-51): an unknown player fails with
     * PlayerNotFound and changes nothing; otherwise the record is appended
     * and the confirmation names the registered player's username.
     */
    method SubmitScore(gameScore: GameScore) returns (r: Result<Ack>)
      modifies this
      ensures r.Err? <==> !HasPlayer(old(players), gameScore.playerId)
      ensures r.Err? ==> r.error == PlayerNotFound
      ensures r.Ok? ==>
        r.value == Submitted(gameScore.score, FindPlayer(old(players), gameScore.playerId).value.username)
      ensures players == old(players)
      ensures scores == if r.Ok? then old(scores) + [gameScore] else old(scores)
      ensures old(Valid()) ==> Valid()
    {
      var player := FindPlayer(players, gameScore.playerId);
      if player.None? {
        return Err(PlayerNotFound);
      }
      scores := scores + [gameScore];
      r := Ok(Submitted(gameScore.score, player.value.username));
    }

    /**
     * `get_leaderboard` (app.py:55-84): an empty ledger is an error;
     * otherwise tally, sort and join. The rows are ordered by score, each
     * names a registered player with that player's total, and while the
     * service is valid no submitter is dropped.
     */
    method GetLeaderboard() returns (r: Result<seq<Row>>)
      ensures r.Err? <==> scores == []
      ensures r.Err? ==> r.error == NoScores
      ensures r.Ok? ==> r.value == LeaderboardOf(players, scores)
      ensures r.Ok? ==> RowsDescending(r.value)
      ensures r.Ok? ==> forall row :: row in r.value ==>
        exists p :: p in players && row == Row(p.username, TotalOf(scores, p.id))
      ensures r.Ok? && Valid() ==> |r.value| == |SubmittedIds(scores)|
    {
      if scores == [] {
        return Err(NoScores);
      }
      var totals := TallyScores(scores);
      var ranked := SortByScoreDesc(totals);
      var rows := JoinUsernames(players, ranked);
      LeaderboardDescending(players, scores);
      LeaderboardRowsAreTotals(players, scores);
      if Valid() {
        LeaderboardComplete(players, scores);
      }
      r := Ok(rows);
    }
  }
}
