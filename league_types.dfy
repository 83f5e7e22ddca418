/** Records shared by every page of the league app. */
module LeagueTypes {

  /** A skill rating as the add-player slider produces it: an integer from 1 to 10. */
  type Rating = r: int | 1 <= r <= 10 witness 5

  /** One registry record: the name and rating given at registration, and the
      three counters that only match recording changes. */
  datatype Player = Player(
    name: string,
    rating: Rating,
    matchesPlayed: nat,
    matchesWon: nat,
    points: nat)

  /** The standing invariant every registry record keeps: a player cannot have
      won more matches than played, and earns one point per win. */
  predicate Consistent(p: Player)
  {
    p.matchesWon <= p.matchesPlayed && p.points == p.matchesWon
  }
}
