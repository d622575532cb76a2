/**
 * Client runs of the service, proved from the handlers' contracts and the
 * leaderboard's definition alone.
 */
module Scenarios {
  import opened Records
  import opened Tally
  import opened Ranking
  import opened Standings
  import opened Leaderboard

  /** Before anything is registered every read fails, and so does a submission. */
  method EmptyStateErrors() returns (list: Result<seq<Player>>, submit: Result<Ack>, board: Result<seq<Row>>)
    ensures list == Err(NoPlayers)
    ensures submit == Err(PlayerNotFound)
    ensures board == Err(NoScores)
  {
    var service := new Service();
    list := service.GetPlayers();
    submit := service.SubmitScore(GameScore(1, 10));
    board := service.GetLeaderboard();
  }

  /** Registering an id twice: the second call fails and the registry grows by one. */
  method RegisterTwice() returns (first: Result<Ack>, second: Result<Ack>, registered: seq<Player>)
    ensures first == Ok(Registered("alice"))
    ensures second == Err(AlreadyExists)
    ensures registered == [Player(1, "alice", "a@x.com")]
  {
    var service := new Service();
    first := service.RegisterPlayer(Player(1, "alice", "a@x.com"));
    assert service.players[0].id == 1;
    second := service.RegisterPlayer(Player(1, "bob", "b@x.com"));
    registered := service.players;
  }

  /** Two submissions for one player are summed on the leaderboard. */
  method ScoresAccumulate() returns (board: Result<seq<Row>>)
    ensures board == Ok([Row("alice", 50)])
  {
    var service := new Service();
    var alice := Player(1, "alice", "a@x.com");
    var _ := service.RegisterPlayer(alice);
    assert service.players == [alice] && service.players[0].id == 1;
    var _ := service.SubmitScore(GameScore(1, 30));
    var _ := service.SubmitScore(GameScore(1, 20));
    assert service.scores == [GameScore(1, 30), GameScore(1, 20)];
    board := service.GetLeaderboard();
    AccumulatedBoard();
  }

  lemma AccumulatedBoard()
    ensures LeaderboardOf([Player(1, "alice", "a@x.com")], [GameScore(1, 30), GameScore(1, 20)]) ==
      [Row("alice", 50)]
  {
    var ledger := [GameScore(1, 30), GameScore(1, 20)];
    assert ledger[..1] == [GameScore(1, 30)];
    assert SubmittedIds(ledger) == [1];
    assert TotalOf(ledger, 1) == 50;
    assert Tallied(ledger) == [Entry(1, 50)];
  }

  /** Players a, b and c, with ids 1, 2 and 3, registered on a fresh service. */
  method ThreePlayers() returns (service: Service)
    ensures fresh(service)
    ensures service.players ==
      [Player(1, "a", "a@x.com"), Player(2, "b", "b@x.com"), Player(3, "c", "c@x.com")]
    ensures service.scores == []
  {
    service := new Service();
    var a, b, c := Player(1, "a", "a@x.com"), Player(2, "b", "b@x.com"), Player(3, "c", "c@x.com");
    var _ := service.RegisterPlayer(a);
    var _ := service.RegisterPlayer(b);
    assert service.players == [a, b];
    var _ := service.RegisterPlayer(c);
  }

  /** Totals 50, 80 and 20 are listed as 80, 50, 20. */
  method RankedByTotal() returns (board: Result<seq<Row>>)
    ensures board == Ok([Row("b", 80), Row("a", 50), Row("c", 20)])
  {
    var service := ThreePlayers();
    assert service.players[0].id == 1 && service.players[1].id == 2 && service.players[2].id == 3;
    var _ := service.SubmitScore(GameScore(1, 50));
    var _ := service.SubmitScore(GameScore(2, 80));
    var _ := service.SubmitScore(GameScore(3, 20));
    assert service.scores == [GameScore(1, 50), GameScore(2, 80), GameScore(3, 20)];
    board := service.GetLeaderboard();
    RankedBoard();
  }

  lemma RankedBoard()
    ensures LeaderboardOf(
              [Player(1, "a", "a@x.com"), Player(2, "b", "b@x.com"), Player(3, "c", "c@x.com")],
              [GameScore(1, 50), GameScore(2, 80), GameScore(3, 20)]) ==
      [Row("b", 80), Row("a", 50), Row("c", 20)]
  {
    var players := [Player(1, "a", "a@x.com"), Player(2, "b", "b@x.com"), Player(3, "c", "c@x.com")];
    var ranked := [Entry(2, 80), Entry(1, 50), Entry(3, 20)];
    RankedBoardTally();
    RankedBoardSort();
    assert Ranked([GameScore(1, 50), GameScore(2, 80), GameScore(3, 20)]) == ranked;
    RankedBoardJoin();
  }

  lemma RankedBoardJoin()
    ensures Joined([Player(1, "a", "a@x.com"), Player(2, "b", "b@x.com"), Player(3, "c", "c@x.com")],
                   [Entry(2, 80), Entry(1, 50), Entry(3, 20)]) ==
      [Row("b", 80), Row("a", 50), Row("c", 20)]
  {
    var players := [Player(1, "a", "a@x.com"), Player(2, "b", "b@x.com"), Player(3, "c", "c@x.com")];
    var ranked := [Entry(2, 80), Entry(1, 50), Entry(3, 20)];
    assert FindPlayer(players, 1) == Some(players[0]);
    assert FindPlayer(players, 2) == Some(players[1]);
    assert FindPlayer(players, 3) == Some(players[2]);
    assert ranked[..2] == [Entry(2, 80), Entry(1, 50)];
    assert ranked[..2][..1] == [Entry(2, 80)];
    assert Joined(players, ranked[..2][..1]) == [Row("b", 80)];
    assert Joined(players, ranked[..2]) == [Row("b", 80), Row("a", 50)];
  }

  lemma RankedBoardTally()
    ensures Tallied([GameScore(1, 50), GameScore(2, 80), GameScore(3, 20)]) ==
      [Entry(1, 50), Entry(2, 80), Entry(3, 20)]
  {
    var ledger := [GameScore(1, 50), GameScore(2, 80), GameScore(3, 20)];
    assert ledger[..2] == [GameScore(1, 50), GameScore(2, 80)];
    assert ledger[..2][..1] == [GameScore(1, 50)];
    assert SubmittedIds(ledger[..2][..1]) == [1];
    assert SubmittedIds(ledger[..2]) == [1, 2];
    assert SubmittedIds(ledger) == [1, 2, 3];
    var one := ledger[..2][..1];
    assert TotalOf(one, 1) == 50 && TotalOf(one, 2) == 0 && TotalOf(one, 3) == 0;
    assert TotalOf(ledger[..2], 1) == 50 && TotalOf(ledger[..2], 2) == 80 && TotalOf(ledger[..2], 3) == 0;
  }

  lemma RankedBoardSort()
    ensures SortByScoreDesc([Entry(1, 50), Entry(2, 80), Entry(3, 20)]) ==
      [Entry(2, 80), Entry(1, 50), Entry(3, 20)]
  {
  }
}
