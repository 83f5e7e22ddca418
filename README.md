# Saturday Cricket League — league engine model

A Dafny model of the league engine of the Saturday Cricket League Streamlit
app (`cricket_app.py`). The engine covers four actions on a session's player
registry and match history:

- **Add Player.** A non-empty name appends a record with the chosen rating
  (1–10) and zeroed `matches_played`, `matches_won` and `points`. An empty
  name changes nothing. Names are not checked for duplicates.
- **Generate Balanced Teams.** The engine keeps the registry players whose
  names were chosen, in registry order. It stable-sorts them by rating,
  highest first, and deals them alternately: even positions go to Team A,
  odd positions to Team B. Then it reports both strengths (the rating sums)
  and their difference. It refuses when fewer than two names are chosen;
  it counts the chosen names, not the registry records they select.
- **Record Match.** The match is appended to the history. Then the registry
  is walked in place: every player named on either roster gets one more
  match played, and players on the winning roster also get one more win and
  one more point.
- **Leaderboard.** The registry is stable-sorted by points, highest first.
  It is numbered 1, 2, … by position, with a win rate that is 0 for a player
  who has not played.

Modules:

- `LeagueTypes` (league_types.dfy): the player record. It also holds the
  standing invariant `Consistent`: wins ≤ played and points = wins.
- `Ordering` (ordering.dfy): the stable descending sort, written as an
  insertion sort. It sorts by rating or by points. It is proved to be a
  sorted permutation, and stable for every key value.
- `Balancer` (balancer.dfy): selection, strength, the alternating deal, the
  split loop and the generate action.
- `Registry` (registry.dfy): class `League`. It holds the fields `players`
  and `matches` and the two methods that change them.
- `Leaderboard` (leaderboard.dfy): win rate, ranking and the table-building
  loop.

The comment on the split (cricket_app.py:86) calls it "snake draft style",
but the loop that follows (lines 90-94) is plain alternation, and the model
follows the loop: sorted ratings [9, 7, 6, 4, 2] give Team A = 9+6+2 = 17
and Team B = 7+4 = 11.

## Model

| member | source | states |
|---|---|---|
| Registry.League.constructor | cricket_app.py:11-14 | a session starts with no players and no matches, and the standing invariant holds |
| Registry.League.AddPlayer | cricket_app.py:37-49 | a non-empty name appends exactly one record with that name and rating and zero counters, and earlier records stay as they were; an empty name changes nothing; the history is untouched; the standing invariant is kept |
| Registry.WinningSide | cricket_app.py:163 | the winning roster is one of the two submitted rosters |
| Registry.Credit | cricket_app.py:164-171 | a record changes exactly when its name is on either roster; the name and rating never change; wins ≤ played and points = wins are preserved |
| Registry.CreditAll | cricket_app.py:166-171 | the registry keeps its length and order, and each record receives its own credit |
| Registry.CreditCounts | cricket_app.py:163-171 | played rises by exactly 1 for a name on either roster, even one on both; wins and points rise by exactly 1 only for names on the winning roster; everything else gets +0 |
| Registry.League.RecordMatch | cricket_app.py:124-171 | refused with no change of state when fewer than two players are registered or either roster is empty; otherwise exactly one match is appended after the unchanged history, the registry becomes its credited version, names absent from the registry are skipped, and the standing invariant is kept |
| Balancer.Selected | cricket_app.py:83 | each registry record occurs in the selection as often as in the registry when its name was chosen, and not at all otherwise |
| Balancer.SelectedAppend | cricket_app.py:83 | selection keeps registry order: selecting from a concatenation concatenates the selections |
| Ordering.InsertDesc | cricket_app.py:84 | inserting into a non-increasing sequence adds exactly that element and keeps it non-increasing |
| Ordering.SortDesc | cricket_app.py:84 | the sorted sequence is a permutation of the input and non-increasing in the key |
| Ordering.SortDescStable | cricket_app.py:84 | for every key value, the players with that key appear in the same relative order before and after sorting |
| Balancer.Strength | cricket_app.py:97-98 | a team's strength lies between its size and ten times its size |
| Balancer.StrengthSort | cricket_app.py:84-98 | sorting does not change the total rating |
| Balancer.Deal | cricket_app.py:90-94 | the alternating deal of a ranking: the first player goes to Team A and the rest are dealt with the roles swapped; Team A gets ceil(n/2) players and Team B floor(n/2) |
| Balancer.Split | cricket_app.py:87-94 | sorted position i goes to Team A iff i is even; Team A has ceil(n/2) players and Team B floor(n/2), each in sorted order; the result equals the alternating deal |
| Balancer.DealPositions | cricket_app.py:90-94 | the alternating deal puts position 2j at Team A index j and position 2j+1 at Team B index j, with sizes ceil(n/2) and floor(n/2) |
| Balancer.DealPartition | cricket_app.py:90-94 | every ranked player lands in exactly one team: the two teams' multisets add up to the ranking's multiset |
| Balancer.DealStrength | cricket_app.py:97-98 | strength conservation: Team A's strength plus Team B's equals the total rating dealt |
| Balancer.DealBalance | cricket_app.py:84-98 | for a non-increasing ranking, Team A's strength minus Team B's is between 0 and the highest rating |
| Balancer.Abs | cricket_app.py:115 | the displayed difference is the non-negative magnitude of the strength gap |
| Balancer.GenerateTeams | cricket_app.py:66-115 | refused exactly when fewer than two players are registered or fewer than two names are chosen; otherwise the teams are the alternating deal of the rating-sorted selection, together hold exactly the selected players, their strengths add up to the selection's total rating, and the displayed difference equals strength A − strength B, between 0 and the highest selected rating |
| Leaderboard.WinRate | cricket_app.py:201 | the win rate is 0 when no matches were played; otherwise it equals 100 × wins / played; under the standing invariant it never exceeds 100% |
| Leaderboard.Ranking | cricket_app.py:196 | the ranking is a permutation of the registry, non-increasing in points, and keeps registry order among equal points |
| Leaderboard.BuildLeaderboard | cricket_app.py:196-210 | one row per registry player, in ranking order; the ranks are exactly 1..n by position; points are non-increasing down the table; a player with no matches shows win rate 0 |

## Left out

- `cricket_v2.py`: a login screen with fixed password comparisons and role dispatch that only displays text. It has no league logic.
- `cricket_app (2).py`: a variant of the app (edit/delete, player strength tag, duplicate check). It is not part of this model.
- All Streamlit and pandas rendering: widgets, columns, data frames, the top-3 metrics (cricket_app.py:215-226) and the recent-matches list (cricket_app.py:176-183). These are presentation only.
- The date stamp `datetime.now()` (cricket_app.py:155). It is an opaque `date` parameter of `RecordMatch`.
- Leaderboard.WinRate: gives the exact ratio (100 × wins, played). It does not model the floating-point value or its one-decimal `%` formatting (cricket_app.py:201, 208).
- Session-state persistence across reruns (cricket_app.py:11-14). The registry and history live in an explicit `League` object.
- Aliasing of player dictionaries: the model holds records as values. The selected and sorted lists of the team generator are copies, and nothing mutates them, so no observable behaviour is lost.
- The widgets' own guarantees are not assumed. Chosen names may repeat and may be absent from the registry, and the model handles both. The one exception is the rating slider's range 1–10, which is the type `Rating`.
