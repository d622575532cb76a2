# Game leaderboard microservice, modelled in Dafny

This project models the in-memory game leaderboard service of `app.py`.
Players register under a caller-chosen integer id. Registered players submit
integer scores. The leaderboard is recomputed on every request: the ledger
is folded into per-player totals, the totals are sorted highest first, and
each total is joined against the registry for the player's username.

Equal totals are ordered as the code orders them. Python's sort is stable
with `reverse=True`, and the dict iterates in first-insertion order. So of two
players with equal totals, the one who submitted first is listed first. No
secondary sort key is introduced.

The handlers do not require `Valid()`, because the source does not. Each
handler states its whole new state, and that a valid state stays valid.

Files and modules:

- `records.dfy` (`Records`): the `Player`, `GameScore`, per-player `Entry`
  and leaderboard `Row` records, the `Error` cases and `Result`. Also the
  registry lookups `HasPlayer` (`any(...)`) and `FindPlayer` (`next(...)`).
- `tally.dfy` (`Tally`): the fold of the ledger into a dict of totals. The
  dict is a `map` plus the list of its keys in insertion order. The loop is
  the method `TallyScores`. It is proved equal to `Tallied`, which is built
  from two reference definitions: `SubmittedIds` (ids in first-submission
  order) and `TotalOf` (the sum of one player's scores).
- `ranking.dfy` (`Ranking`): `sorted(..., key=score, reverse=True)` as a
  stable insertion sort, `SortByScoreDesc`. It is proved descending, a
  permutation and stable. It is also proved to be the only sequence with
  those properties, so it is exactly Python's stable sort.
- `standings.dfy` (`Standings`): the join loop `JoinUsernames`, which drops
  entries whose player is not registered. Also the whole leaderboard
  `LeaderboardOf` and the properties promised of it.
- `service.dfy` (`Leaderboard`): the class `Service`. Its fields
  `players` and `scores` model the module-level lists `players_db` and
  `scores_db`. Its methods are the four request handlers.
  `Valid()` states what the handlers keep true: ids are unique, and every
  ledger record names a registered player.
- `scenarios.dfy` (`Scenarios`): client runs of `Service`, proved from the
  handlers' contracts: empty-state errors, a duplicate registration, score
  accumulation and ordering by total.

## Model

| member | source | states |
|---|---|---|
| `Records.FindPlayer` | app.py:45 | None exactly when no registered player has the id; otherwise the first registered player whose id it is |
| `Records.FindPlayerUnique` | app.py:77 | with unique ids the lookup returns the one player registered under the id |
| `Tally.SubmittedIdsMembers` | app.py:61-65 | an id becomes a key of the totals dict exactly when some ledger record carries it |
| `Tally.SubmittedIdsDistinct` | app.py:62-65 | each player id is a key at most once |
| `Tally.SubmittedIdsOrder` | app.py:60-65 | keys are in first-submission order: some record of the earlier key precedes every record of the later one |
| `Tally.TotalOfAbsent` | app.py:64-65 | a player with no record has total 0, so storing the first score is adding it to 0 |
| `Tally.TotalOfAppend` | app.py:61-65 | a new record adds its score to its own player's total and leaves every other total unchanged |
| `Tally.TalliedSpec` | app.py:59-69 | each tallied total is the sum of that player's ledger scores; no id occurs twice; an id is tallied iff the ledger holds a record for it |
| `Tally.TallyScores` | app.py:60-69 | the dict-updating loop and the items comprehension produce exactly the entries of `Tallied` |
| `Ranking.Insert` | app.py:68-72 | one insertion step adds exactly its element (multiset), and the result starts with that element or the old head |
| `Ranking.InsertDescending` | app.py:68-72 | inserting into a descending sequence keeps it descending |
| `Ranking.SortByScoreDesc` | app.py:68-72 | the sorted totals are non-increasing by score and a permutation of the input |
| `Ranking.InsertScoreClass` | app.py:68-72 | an insertion puts its element ahead of every equal-scored element |
| `Ranking.SortKeepsScoreClasses` | app.py:68-72 | stability: for each score value, the entries with that score keep their input order |
| `Ranking.StableOrderUnique` | app.py:68-72 | two descending sequences with the same entries for every score value are equal |
| `Ranking.StableSortIsUnique` | app.py:68-72 | any descending sequence that keeps every score class of the input is the result of the sort |
| `Ranking.SortKeepsTieOrder` | app.py:68-72 | two equal-scored entries that the sort places at i < j were in the same order in its input |
| `Standings.JoinUsernames` | app.py:75-82 | the join loop returns exactly `Joined`: one row per entry whose player `next(...)` finds, in ranked order |
| `Standings.JoinedRowsRegistered` | app.py:76-82 | every row is the username of a registered player next to the score of an entry carrying that player's id |
| `Standings.JoinedDescending` | app.py:75-82 | joining a descending ranking yields rows with non-increasing scores |
| `Standings.JoinedLength` | app.py:76-82 | the join yields exactly as many rows as there are entries whose player is registered, so it never adds rows and drops none exactly when every entry's player is registered |
| `Standings.JoinedPointwise` | app.py:76-82 | when all players are registered, row i is the found player's username with entry i's score |
| `Standings.LeaderboardDescending` | app.py:67-84 | leaderboard scores are non-increasing |
| `Standings.RankedMembers` | app.py:67-72 | sorting neither adds nor loses a tallied entry |
| `Standings.RankedTotals` | app.py:59-72 | the ranked entries are the submitters, each once, each with the sum of its scores |
| `Standings.RankedDistinct` | app.py:62-72 | no player id occurs twice in the ranking |
| `Standings.LeaderboardRowsAreTotals` | app.py:59-84 | every row names a registered player who submitted, with that player's total over the whole ledger |
| `Standings.LeaderboardComplete` | app.py:74-84 | when every record names a registered player, nothing is dropped: one row per submitter, row i carrying the username registered for ranked entry i |
| `Standings.TiesInFirstSubmissionOrder` | app.py:60-72 | of two players with equal totals, the one ranked first has a record before every record of the other |
| `Leaderboard.Service.constructor` | app.py:19-21 | the process starts with an empty registry and an empty ledger, which is a valid state |
| `Leaderboard.Service.RegisterPlayer` | app.py:25-32 | a duplicate id fails with AlreadyExists and changes nothing; otherwise exactly this player is appended, the ledger is untouched, ids stay unique, and the confirmation names the player's username |
| `Leaderboard.Service.GetPlayers` | app.py:36-39 | fails with NoPlayers exactly when the registry is empty; otherwise returns the registry in registration order |
| `Leaderboard.Service.SubmitScore` | app.py:43-51 | an unknown player fails with PlayerNotFound and changes nothing; otherwise exactly this record is appended, the registry is untouched, every record still names a registered player, and the confirmation names the registered username and the score |
| `Leaderboard.Service.GetLeaderboard` | app.py:55-84 | fails with NoScores exactly when the ledger is empty; otherwise returns `LeaderboardOf(players, scores)`, descending, each row a registered player with its total, one row per submitter while the service is valid |
| `Scenarios.EmptyStateErrors` | app.py:36-57 | on a fresh service, listing players, submitting a score and reading the leaderboard each fail with their own error |
| `Scenarios.RegisterTwice` | app.py:25-32 | registering id 1 twice: the first call succeeds, the second fails with AlreadyExists, and the registry holds the first player only |
| `Scenarios.ScoresAccumulate` | app.py:43-84 | scores 30 and 20 for one player give the single row ("alice", 50) |
| `Scenarios.AccumulatedBoard` | app.py:59-84 | the leaderboard of a two-record ledger for one player is that player's summed row |
| `Scenarios.RankedByTotal` | app.py:43-84 | totals 50, 80 and 20 are listed as 80, 50, 20 with their usernames |
| `Scenarios.RankedBoard` | app.py:59-84 | the leaderboard of that three-player ledger is the rows for 80, 50, 20 |

## Left out

- FastAPI routing, the decorators and `HTTPException`: the four failures are the `Error` cases, and status codes are not modelled.
- Pydantic validation of request bodies: Dafny's typed records already fix their shape.
- The text of the confirmation messages: `Ack` records only the username and score that a message names.
- The root welcome route and the uvicorn startup: static output and network I/O.
- Concurrent requests: the source has no locking, and each handler is modelled as one atomic step.
- Timsort's running time: the sort is an insertion sort. `StableSortIsUnique` shows that any stable descending sort gives the same result.
- `if not player` in `submit_score` and in the join is modelled as a failed lookup, because a Pydantic model instance is always truthy.
