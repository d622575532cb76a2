/**
 * The records of the leaderboard service (app.py:8-17) and the linear
 * registry lookups its handlers perform with `any(...)` and `next(...)`.
 */
module Records {

  /** A registered player; `id` is chosen by the caller, never generated. */
  datatype Player = Player(id: int, username: string, email: string)

  /** One score submission: the `GameScore` request body, stored as is. */
  datatype GameScore = GameScore(playerId: int, score: int)

  /** A per-player total, the `{"player_id", "score"}` dict built before sorting. */
  datatype Entry = Entry(playerId: int, score: int)

  /** One line of the published leaderboard, the `{"username", "score"}` dict. */
  datatype Row = Row(username: string, score: int)

  /**
   * The failures the handlers raise. HTTP status codes are not modelled:
   * AlreadyExists is the 400 of registration, the other three are 404s.
   */
  datatype Error = AlreadyExists | NoPlayers | PlayerNotFound | NoScores

  datatype Result<T> = Ok(value: T) | Err(error: Error)

  datatype Option<T> = None | Some(value: T)

  /** `any(p.id == id for p in players)`. */
  predicate HasPlayer(players: seq<Player>, id: int)
  {
    exists i :: 0 <= i < |players| && players[i].id == id
  }

  /** No two registered players share an id. */
  predicate UniqueIds(players: seq<Player>)
  {
    forall i, j :: 0 <= i < j < |players| ==> players[i].id != players[j].id
  }

  /**
   * `next((p for p in players if p.id == id), None)`: the FIRST player with
   * that id, or None when there is none.
   */
  function FindPlayer(players: seq<Player>, id: int): (r: Option<Player>)
    ensures r.None? <==> !HasPlayer(players, id)
    ensures r.Some? ==>
      exists i :: 0 <= i < |players| && players[i] == r.value && r.value.id == id &&
        forall j :: 0 <= j < i ==> players[j].id != id
  {
    if players == [] then None
    else if players[0].id == id then Some(players[0])
    else
      var r := FindPlayer(players[1..], id);
      assert HasPlayer(players[1..], id) ==> HasPlayer(players, id);
      assert HasPlayer(players, id) ==> HasPlayer(players[1..], id) by {
        if HasPlayer(players, id) {
          var i :| 0 <= i < |players| && players[i].id == id;
          assert players[1..][i - 1].id == id;
        }
      }
      if r.Some? then
        assert exists i :: (0 <= i < |players| && players[i] == r.value && r.value.id == id &&
                            forall j :: 0 <= j < i ==> players[j].id != id) by {
          var i :| 0 <= i < |players| - 1 && players[1..][i] == r.value && r.value.id == id &&
            forall j :: 0 <= j < i ==> players[1..][j].id != id;
          assert players[i + 1] == r.value;
          forall j | 0 <= j < i + 1 ensures players[j].id != id {
            if j > 0 { assert players[j] == players[1..][j - 1]; }
          }
        }
        r
      else r
  }

  /** With unique ids, the lookup finds the one player registered under the id. */
  lemma FindPlayerUnique(players: seq<Player>, k: int)
    requires UniqueIds(players)
    requires 0 <= k < |players|
    ensures FindPlayer(players, players[k].id) == Some(players[k])
  {
  }
}
