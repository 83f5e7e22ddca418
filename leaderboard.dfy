/** The leaderboard page: the registry ranked by points, with a win rate per player. */
module Leaderboard {
  import opened LeagueTypes
  import opened Ordering

  /** A percentage held as the fraction `num / den`. */
  datatype Ratio = Ratio(num: nat, den: nat)

  /** Win rate in percent: wins over matches played, and 0 when nothing has been played. */
  function WinRate(p: Player): (r: Ratio)
    ensures r.den > 0
    ensures p.matchesPlayed == 0 ==> r.num == 0
    ensures p.matchesPlayed > 0 ==> r.num * p.matchesPlayed == 100 * p.matchesWon * r.den
    ensures Consistent(p) ==> r.num <= 100 * r.den
  {
    if p.matchesPlayed > 0 then Ratio(100 * p.matchesWon, p.matchesPlayed) else Ratio(0, 1)
  }

  /** One leaderboard line. */
  datatype Row = Row(
    rank: nat,
    name: string,
    points: nat,
    matches: nat,
    wins: nat,
    winRate: Ratio,
    rating: Rating)

  function RowOf(rank: nat, p: Player): (r: Row)
  {
    Row(rank, p.name, p.points, p.matchesPlayed, p.matchesWon, WinRate(p), p.rating)
  }

  /** The registry ranked by points, highest first, ties in registry order. */
  function Ranking(players: seq<Player>): (r: seq<Player>)
    ensures |r| == |players| && multiset(r) == multiset(players)
    ensures SortedDesc(r, ByPoints)
    ensures forall v :: WithKey(r, ByPoints, v) == WithKey(players, ByPoints, v)
  {
    var r := SortDesc(players, ByPoints);
    assert |r| == |multiset(r)| == |players|;
    forall v ensures WithKey(r, ByPoints, v) == WithKey(players, ByPoints, v) {
      SortDescStable(players, ByPoints, v);
    }
    r
  }

  /** Builds the leaderboard table: ranks 1, 2, ... by position in the ranking. */
  method BuildLeaderboard(players: seq<Player>) returns (rows: seq<Row>)
    ensures |rows| == |players|
    ensures forall i :: 0 <= i < |rows| ==> rows[i] == RowOf(i + 1, Ranking(players)[i])
    ensures forall i :: 0 <= i < |rows| ==> rows[i].rank == i + 1
    ensures forall i, j :: 0 <= i < j < |rows| ==> rows[i].points >= rows[j].points
    ensures forall i :: 0 <= i < |rows| && rows[i].matches == 0 ==> rows[i].winRate.num == 0
  {
    var ranked := Ranking(players);
    rows := [];
    for i := 0 to |ranked|
      invariant |rows| == i
      invariant forall k :: 0 <= k < i ==> rows[k] == RowOf(k + 1, ranked[k])
    {
      rows := rows + [RowOf(i + 1, ranked[i])];
    }
    assert forall i, j :: 0 <= i < j < |rows| ==> Key(ByPoints, ranked[i]) >= Key(ByPoints, ranked[j]);
  }
}
