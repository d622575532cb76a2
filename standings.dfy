/**
 * The last step of `get_leaderboard` (app.py:74-84) and the leaderboard as a
 * whole: each ranked total is joined against the registry for its username,
 * and an entry whose player is not registered is silently dropped.
 */
module Standings {
  import opened Records
  import opened Tally
  import opened Ranking

  /** The row one ranked entry yields: none when its player is not registered. */
  function RowFor(players: seq<Player>, e: Entry): seq<Row>
  {
    match FindPlayer(players, e.playerId)
    case Some(p) => [Row(p.username, e.score)]
    case None => []
  }

  /** The rows the join loop appends, in the order of `ranked`. */
  function Joined(players: seq<Player>, ranked: seq<Entry>): seq<Row>
    decreases |ranked|
  {
    if ranked == [] then []
    else Joined(players, ranked[..|ranked| - 1]) + RowFor(players, ranked[|ranked| - 1])
  }

  /** The tallied totals in leaderboard order. */
  function Ranked(scores: seq<GameScore>): seq<Entry>
  {
    SortByScoreDesc(Tallied(scores))
  }

  /** The leaderboard `get_leaderboard` returns for a non-empty ledger. */
  function LeaderboardOf(players: seq<Player>, scores: seq<GameScore>): seq<Row>
  {
    Joined(players, Ranked(scores))
  }

  /** Scores never increase down the leaderboard. */
  predicate RowsDescending(rows: seq<Row>)
  {
    forall i, j :: 0 <= i < j < |rows| ==> rows[i].score >= rows[j].score
  }

  /**
   * The loop of app.py:75-82: look each entry's player up with `next(...)`
   * and append a row only when one is found.
   */
  method JoinUsernames(players: seq<Player>, ranked: seq<Entry>) returns (rows: seq<Row>)
    ensures rows == Joined(players, ranked)
  {
    rows := [];
    var i := 0;
    while i < |ranked|
      invariant 0 <= i <= |ranked|
      invariant rows == Joined(players, ranked[..i])
    {
      var entry := ranked[i];
      var player := FindPlayer(players, entry.playerId);
      if player.Some? {
        rows := rows + [Row(player.value.username, entry.score)];
      }
      assert ranked[..i + 1][..i] == ranked[..i];
      i := i + 1;
    }
    assert ranked[..i] == ranked;
  }

  /**
   * Every row is the username of a registered player whose id the entry
   * carries, next to that entry's score.
   */
  lemma {:induction false} JoinedRowsRegistered(players: seq<Player>, ranked: seq<Entry>)
    ensures forall r :: r in Joined(players, ranked) ==>
      exists e, p :: e in ranked && p in players && p.id == e.playerId && r == Row(p.username, e.score)
    decreases |ranked|
  {
    if ranked != [] {
      var pre := ranked[..|ranked| - 1];
      var last := ranked[|ranked| - 1];
      JoinedRowsRegistered(players, pre);
      forall r | r in Joined(players, ranked)
        ensures exists e, p :: e in ranked && p in players && p.id == e.playerId && r == Row(p.username, e.score)
      {
        if r in Joined(players, pre) {
          var e, p :| e in pre && p in players && p.id == e.playerId && r == Row(p.username, e.score);
          assert e in ranked;
        } else {
          assert r in RowFor(players, last);
          var p := FindPlayer(players, last.playerId).value;
          assert last in ranked;
        }
      }
    }
  }

  /** The join of a descending ranking is descending. */
  lemma {:induction false} JoinedDescending(players: seq<Player>, ranked: seq<Entry>)
    requires Descending(ranked)
    ensures RowsDescending(Joined(players, ranked))
    decreases |ranked|
  {
    if ranked != [] {
      var pre := ranked[..|ranked| - 1];
      var last := ranked[|ranked| - 1];
      var rows := Joined(players, ranked);
      var front := Joined(players, pre);
      assert Descending(pre);
      JoinedDescending(players, pre);
      JoinedRowsRegistered(players, pre);
      forall i, j | 0 <= i < j < |rows| ensures rows[i].score >= rows[j].score {
        if j >= |front| {
          assert rows[i] in front;
          var e, p :| e in pre && p in players && p.id == e.playerId && rows[i] == Row(p.username, e.score);
          var m :| 0 <= m < |pre| && pre[m] == e;
          assert ranked[m] == e;
        } else {
          assert rows[i] == front[i] && rows[j] == front[j];
        }
      }
    }
  }

  /** How many entries of `ranked` name a registered player. */
  function CountRegistered(players: seq<Player>, ranked: seq<Entry>): nat
    decreases |ranked|
  {
    if ranked == [] then 0
    else
      CountRegistered(players, ranked[..|ranked| - 1]) +
        (if HasPlayer(players, ranked[|ranked| - 1].playerId) then 1 else 0)
  }

  /**
   * The join keeps one row per entry whose player is registered and no
   * other, so it drops nothing exactly when every entry's player is registered.
   */
  lemma {:induction false} JoinedLength(players: seq<Player>, ranked: seq<Entry>)
    ensures |Joined(players, ranked)| == CountRegistered(players, ranked)
    ensures |Joined(players, ranked)| <= |ranked|
    ensures |Joined(players, ranked)| == |ranked| <==>
      forall i :: 0 <= i < |ranked| ==> HasPlayer(players, ranked[i].playerId)
    decreases |ranked|
  {
    if ranked != [] {
      var pre := ranked[..|ranked| - 1];
      JoinedLength(players, pre);
      assert forall i :: 0 <= i < |pre| ==> pre[i] == ranked[i];
    }
  }

  /**
   * When every entry's player is registered, row i carries the username
   * found for entry i and that entry's score.
   */
  lemma {:induction false} JoinedPointwise(players: seq<Player>, ranked: seq<Entry>)
    requires forall i :: 0 <= i < |ranked| ==> HasPlayer(players, ranked[i].playerId)
    ensures |Joined(players, ranked)| == |ranked|
    ensures forall i :: 0 <= i < |ranked| ==>
      FindPlayer(players, ranked[i].playerId).Some? &&
      Joined(players, ranked)[i] ==
        Row(FindPlayer(players, ranked[i].playerId).value.username, ranked[i].score)
    decreases |ranked|
  {
    if ranked != [] {
      var pre := ranked[..|ranked| - 1];
      var last := ranked[|ranked| - 1];
      assert forall i :: 0 <= i < |pre| ==> pre[i] == ranked[i];
      JoinedPointwise(players, pre);
      var front := Joined(players, pre);
      assert HasPlayer(players, last.playerId);
      var p := FindPlayer(players, last.playerId).value;
      assert Joined(players, ranked) == front + [Row(p.username, last.score)];
    }
  }

  /** The leaderboard is ordered by score, highest first. */
  lemma LeaderboardDescending(players: seq<Player>, scores: seq<GameScore>)
    ensures RowsDescending(LeaderboardOf(players, scores))
  {
    JoinedDescending(players, Ranked(scores));
  }

  /** Sorting neither adds nor loses an entry of the tally. */
  lemma RankedMembers(scores: seq<GameScore>)
    ensures forall e :: e in Ranked(scores) <==> e in Tallied(scores)
  {
    var t := Tallied(scores);
    var r := Ranked(scores);
    forall e ensures e in r <==> e in t {
      assert e in r <==> e in multiset(r);
      assert e in t <==> e in multiset(t);
    }
  }

  /**
   * The ranking holds each submitter once, with the sum of its scores, and
   * nothing else.
   */
  lemma RankedTotals(scores: seq<GameScore>)
    ensures forall e :: e in Ranked(scores) ==>
      e.score == TotalOf(scores, e.playerId) &&
      exists i :: 0 <= i < |scores| && scores[i].playerId == e.playerId
    ensures forall i :: 0 <= i < |scores| ==>
      exists e :: e in Ranked(scores) && e.playerId == scores[i].playerId
    ensures forall a, b :: 0 <= a < b < |Ranked(scores)| ==>
      Ranked(scores)[a].playerId != Ranked(scores)[b].playerId
  {
    TalliedSpec(scores);
    RankedMembers(scores);
    RankedDistinct(scores);
    forall i | 0 <= i < |scores|
      ensures exists e :: e in Ranked(scores) && e.playerId == scores[i].playerId
    {
      var k :| 0 <= k < |Tallied(scores)| && Tallied(scores)[k].playerId == scores[i].playerId;
      assert Tallied(scores)[k] in Ranked(scores);
    }
  }

  /** No player id occurs twice in the ranking. */
  lemma RankedDistinct(scores: seq<GameScore>)
    ensures forall a, b :: 0 <= a < b < |Ranked(scores)| ==>
      Ranked(scores)[a].playerId != Ranked(scores)[b].playerId
  {
    var t := Tallied(scores);
    var r := Ranked(scores);
    TalliedSpec(scores);
    RankedMembers(scores);
    forall a, b | 0 <= a < b < |r| ensures r[a].playerId != r[b].playerId {
      if r[a].playerId == r[b].playerId {
        assert r[a] in t && r[b] in t;
        var m :| 0 <= m < |t| && t[m] == r[a];
        var n :| 0 <= n < |t| && t[n] == r[b];
        assert m == n;
        DistinctOnce(t, m);
        RepeatedTwice(r, a, b);
        assert false;
      }
    }
  }

  /** An entry found at two positions occurs at least twice. */
  lemma RepeatedTwice(r: seq<Entry>, a: int, b: int)
    requires 0 <= a < b < |r| && r[a] == r[b]
    ensures multiset(r)[r[a]] >= 2
  {
    assert r == r[..a] + [r[a]] + r[a + 1..];
    assert r[b] == r[a + 1..][b - a - 1];
    assert multiset(r) == multiset(r[..a]) + multiset{r[a]} + multiset(r[a + 1..]);
  }

  /** In a sequence without repeated player ids, each entry occurs once. */
  lemma {:induction false} DistinctOnce(t: seq<Entry>, m: int)
    requires forall a, b :: 0 <= a < b < |t| ==> t[a].playerId != t[b].playerId
    requires 0 <= m < |t|
    ensures multiset(t)[t[m]] == 1
  {
    assert t == t[..m] + [t[m]] + t[m + 1..];
    assert forall a :: 0 <= a < m ==> t[..m][a] != t[m];
    var after := t[m + 1..];
    forall b | 0 <= b < |after| ensures after[b] != t[m] {
      assert after[b] == t[m + 1 + b];
    }
    assert multiset(t) == multiset(t[..m]) + multiset{t[m]} + multiset(t[m + 1..]);
  }

  /**
   * Every row names a registered player who submitted, with that player's
   * total over the whole ledger.
   */
  lemma LeaderboardRowsAreTotals(players: seq<Player>, scores: seq<GameScore>)
    ensures forall r :: r in LeaderboardOf(players, scores) ==>
      exists p :: p in players && r == Row(p.username, TotalOf(scores, p.id)) &&
        exists i :: 0 <= i < |scores| && scores[i].playerId == p.id
  {
    JoinedRowsRegistered(players, Ranked(scores));
    RankedTotals(scores);
  }

  /**
   * When every ledger record names a registered player (the invariant the
   * service keeps), no entry is dropped: one row per submitter, row i
   * holding the username registered for the i-th ranked total.
   */
  lemma LeaderboardComplete(players: seq<Player>, scores: seq<GameScore>)
    requires forall i :: 0 <= i < |scores| ==> HasPlayer(players, scores[i].playerId)
    ensures |LeaderboardOf(players, scores)| == |Ranked(scores)| == |SubmittedIds(scores)|
    ensures forall i :: 0 <= i < |Ranked(scores)| ==>
      FindPlayer(players, Ranked(scores)[i].playerId).Some? &&
      LeaderboardOf(players, scores)[i] ==
        Row(FindPlayer(players, Ranked(scores)[i].playerId).value.username, Ranked(scores)[i].score)
  {
    var r := Ranked(scores);
    RankedTotals(scores);
    assert |r| == |multiset(r)| == |multiset(Tallied(scores))| == |SubmittedIds(scores)|;
    forall i | 0 <= i < |r| ensures HasPlayer(players, r[i].playerId) {
      assert r[i] in r;
    }
    JoinedPointwise(players, r);
  }

  /**
   * The tie rule of Python's stable sort over an insertion-ordered dict:
   * of two players with equal totals, the one ranked first submitted first,
   * i.e. some record of it precedes every record of the other.
   */
  lemma TiesInFirstSubmissionOrder(scores: seq<GameScore>, i: int, j: int)
    requires 0 <= i < j < |Ranked(scores)|
    requires Ranked(scores)[i].score == Ranked(scores)[j].score
    ensures exists p :: (0 <= p < |scores| && scores[p].playerId == Ranked(scores)[i].playerId &&
                         forall q :: 0 <= q <= p ==> scores[q].playerId != Ranked(scores)[j].playerId)
  {
    var t := Tallied(scores);
    var r := Ranked(scores);
    SortKeepsTieOrder(t, i, j);
    var a, b :| 0 <= a < b < |t| && t[a] == r[i] && t[b] == r[j];
    SubmittedIdsOrder(scores, a, b);
  }
}
