/**
 * The first step of `get_leaderboard` (app.py:59-65): fold the score ledger
 * into one running total per player, in a dict whose keys keep the order in
 * which each player first appears in the ledger.
 */
module Tally {
  import opened Records

  /** The players who submitted, each once, in order of first submission. */
  function SubmittedIds(scores: seq<GameScore>): (ids: seq<int>)
    decreases |scores|
  {
    if scores == [] then []
    else
      var ids := SubmittedIds(scores[..|scores| - 1]);
      var id := scores[|scores| - 1].playerId;
      if id in ids then ids else ids + [id]
  }

  /** The sum of every score the ledger holds for `id` (0 when it holds none). */
  function TotalOf(scores: seq<GameScore>, id: int): int
    decreases |scores|
  {
    if scores == [] then 0
    else
      var last := scores[|scores| - 1];
      TotalOf(scores[..|scores| - 1], id) + (if last.playerId == id then last.score else 0)
  }

  /** The dict's items in iteration order: one entry per submitter with its total. */
  function Tallied(scores: seq<GameScore>): seq<Entry>
  {
    var ids := SubmittedIds(scores);
    seq(|ids|, i requires 0 <= i < |ids| => Entry(ids[i], TotalOf(scores, ids[i])))
  }

  /** An id is tallied exactly when some ledger record carries it. */
  lemma {:induction false} SubmittedIdsMembers(scores: seq<GameScore>, id: int)
    ensures id in SubmittedIds(scores) <==> exists i :: 0 <= i < |scores| && scores[i].playerId == id
    decreases |scores|
  {
    if scores != [] {
      var pre := scores[..|scores| - 1];
      SubmittedIdsMembers(pre, id);
      if exists i :: 0 <= i < |scores| && scores[i].playerId == id {
        var i :| 0 <= i < |scores| && scores[i].playerId == id;
        if i < |pre| { assert pre[i].playerId == id; }
      }
    }
  }

  /** Each player id is tallied at most once. */
  lemma {:induction false} SubmittedIdsDistinct(scores: seq<GameScore>)
    ensures forall a, b :: 0 <= a < b < |SubmittedIds(scores)| ==>
      SubmittedIds(scores)[a] != SubmittedIds(scores)[b]
    decreases |scores|
  {
    if scores != [] {
      SubmittedIdsDistinct(scores[..|scores| - 1]);
    }
  }

  /**
   * The tally order is the order of first submission: for a < b, the ledger
   * holds a record of ids[a] at some position p before any record of ids[b].
   */
  lemma {:induction false} SubmittedIdsOrder(scores: seq<GameScore>, a: int, b: int)
    requires 0 <= a < b < |SubmittedIds(scores)|
    ensures exists p :: (0 <= p < |scores| && scores[p].playerId == SubmittedIds(scores)[a] &&
                         forall q :: 0 <= q <= p ==> scores[q].playerId != SubmittedIds(scores)[b])
    decreases |scores|
  {
    var pre := scores[..|scores| - 1];
    var ids := SubmittedIds(pre);
    if b < |ids| {
      SubmittedIdsOrder(pre, a, b);
      var p :| 0 <= p < |pre| && pre[p].playerId == ids[a] &&
        forall q :: 0 <= q <= p ==> pre[q].playerId != ids[b];
      assert scores[p] == pre[p];
      forall q | 0 <= q <= p ensures scores[q].playerId != ids[b] {
        assert scores[q] == pre[q];
      }
    } else {
      var newId := scores[|scores| - 1].playerId;
      assert newId !in ids && SubmittedIds(scores)[b] == newId;
      SubmittedIdsMembers(pre, ids[a]);
      SubmittedIdsMembers(pre, newId);
      var p :| 0 <= p < |pre| && pre[p].playerId == ids[a];
      assert scores[p] == pre[p];
      forall q | 0 <= q <= p ensures scores[q].playerId != newId {
        assert scores[q] == pre[q];
      }
    }
  }

  /** A player who never submitted has a total of zero. */
  lemma {:induction false} TotalOfAbsent(scores: seq<GameScore>, id: int)
    requires id !in SubmittedIds(scores)
    ensures TotalOf(scores, id) == 0
    decreases |scores|
  {
    if scores != [] {
      var pre := scores[..|scores| - 1];
      SubmittedIdsMembers(scores, id);
      SubmittedIdsMembers(pre, id);
      assert scores[|scores| - 1].playerId != id;
      TotalOfAbsent(pre, id);
    }
  }

  /** Appending a record adds its score to its own player's total and to no other. */
  lemma TotalOfAppend(scores: seq<GameScore>, s: GameScore, id: int)
    ensures TotalOf(scores + [s], id) ==
      TotalOf(scores, id) + (if s.playerId == id then s.score else 0)
  {
  }

  /**
   * The tally's entries are the submitters in first-submission order, each
   * with the sum of its ledger scores; no id occurs twice; an id is present
   * exactly when the ledger holds a record for it.
   */
  lemma TalliedSpec(scores: seq<GameScore>)
    ensures forall e :: e in Tallied(scores) ==> e.score == TotalOf(scores, e.playerId)
    ensures forall a, b :: 0 <= a < b < |Tallied(scores)| ==>
      Tallied(scores)[a].playerId != Tallied(scores)[b].playerId
    ensures forall i :: 0 <= i < |scores| ==>
      exists k :: 0 <= k < |Tallied(scores)| && Tallied(scores)[k].playerId == scores[i].playerId
    ensures forall e :: e in Tallied(scores) ==>
      exists i :: 0 <= i < |scores| && scores[i].playerId == e.playerId
  {
    var t := Tallied(scores);
    var ids := SubmittedIds(scores);
    SubmittedIdsDistinct(scores);
    forall i | 0 <= i < |scores|
      ensures exists k :: 0 <= k < |t| && t[k].playerId == scores[i].playerId
    {
      SubmittedIdsMembers(scores, scores[i].playerId);
      var k :| 0 <= k < |ids| && ids[k] == scores[i].playerId;
      assert t[k].playerId == ids[k];
    }
    forall e | e in t
      ensures exists i :: 0 <= i < |scores| && scores[i].playerId == e.playerId
    {
      SubmittedIdsMembers(scores, e.playerId);
    }
  }

  /**
   * The loop of app.py:60-65 over a dict modelled as a map plus the list of
   * its keys in insertion order, then the comprehension of app.py:69 that
   * reads the dict's items back in that order.
   */
  method TallyScores(scores: seq<GameScore>) returns (entries: seq<Entry>)
    ensures entries == Tallied(scores)
  {
    var totals: map<int, int> := map[];
    var order: seq<int> := [];
    var i := 0;
    while i < |scores|
      invariant 0 <= i <= |scores|
      invariant order == SubmittedIds(scores[..i])
      invariant forall k :: k in totals <==> k in order
      invariant forall k :: k in totals ==> totals[k] == TotalOf(scores[..i], k)
    {
      var s := scores[i];
      assert scores[..i + 1] == scores[..i] + [s];
      assert scores[..i + 1][..i] == scores[..i];
      forall k ensures TotalOf(scores[..i + 1], k) == TotalOf(scores[..i], k) + (if s.playerId == k then s.score else 0) {
        TotalOfAppend(scores[..i], s, k);
      }
      if s.playerId in totals {
        totals := totals[s.playerId := totals[s.playerId] + s.score];
      } else {
        TotalOfAbsent(scores[..i], s.playerId);
        totals := totals[s.playerId := s.score];
        order := order + [s.playerId];
      }
      i := i + 1;
    }
    assert scores[..i] == scores;
    forall j | 0 <= j < |order| ensures order[j] in totals {
      var k := order[j];
      assert k in order;
      assert k in totals;
    }
    entries := seq(|order|, j requires 0 <= j < |order| => Entry(order[j], totals[order[j]]));
  }
}
