/** The player registry and match history of a league session, with the two
    actions that change them: adding a player and recording a match. */
module Registry {
  import opened LeagueTypes

  /** The "Who won?" choice. */
  datatype Winner = TeamA | TeamB

  /** One entry of the match history: the day's date, both rosters by name, and the winner. */
  datatype Match = Match(date: string, teamA: seq<string>, teamB: seq<string>, winner: Winner)

  /** Why recording was refused: fewer than two players registered (the page
      offers no form), or a team with nobody selected. */
  datatype Recording = Recorded | TooFewRegistered | EmptyTeam

  function WinningSide(teamA: seq<string>, teamB: seq<string>, winner: Winner): (w: seq<string>)
    ensures w == teamA || w == teamB
  {
    if winner == TeamA then teamA else teamB
  }

  /** The stat update one registry record receives from a match. */
  function Credit(p: Player, teamA: seq<string>, teamB: seq<string>, winner: Winner): (r: Player)
    ensures r.name == p.name && r.rating == p.rating
    ensures r != p <==> p.name in teamA + teamB
    ensures Consistent(p) ==> Consistent(r)
  {
    if p.name in teamA + teamB then
      var won := p.name in WinningSide(teamA, teamB, winner);
      p.(matchesPlayed := p.matchesPlayed + 1,
         matchesWon := if won then p.matchesWon + 1 else p.matchesWon,
         points := if won then p.points + 1 else p.points)
    else p
  }

  /** The registry after a match: every record credited, none added, removed or reordered. */
  function CreditAll(players: seq<Player>, teamA: seq<string>, teamB: seq<string>, winner: Winner): (r: seq<Player>)
    ensures |r| == |players|
    ensures forall i :: 0 <= i < |r| ==> r[i] == Credit(players[i], teamA, teamB, winner)
  {
    seq(|players|, i requires 0 <= i < |players| => Credit(players[i], teamA, teamB, winner))
  }

  /** A participant's played count rises by exactly one, even when the name is
      on both rosters; wins and points rise by one only on the winning side;
      everyone else is untouched. */
  lemma CreditCounts(p: Player, teamA: seq<string>, teamB: seq<string>, winner: Winner)
    ensures var r := Credit(p, teamA, teamB, winner);
      && r.matchesPlayed == p.matchesPlayed + (if p.name in teamA || p.name in teamB then 1 else 0)
      && r.matchesWon == p.matchesWon + (if p.name in WinningSide(teamA, teamB, winner) then 1 else 0)
      && r.points == p.points + (if p.name in WinningSide(teamA, teamB, winner) then 1 else 0)
  {
  }

  class League {
    var players: seq<Player>
    var matches: seq<Match>

    /** Every record keeps the standing invariant. */
    ghost predicate Valid()
      reads this
    {
      forall i :: 0 <= i < |players| ==> Consistent(players[i])
    }

    /** An empty session: no players, no matches. */
    constructor ()
      ensures Valid() && players == [] && matches == []
    {
      players := [];
      matches := [];
    }

    /** The "Add Player" button: a non-empty name appends a fresh record with
        zeroed counters; an empty name changes nothing. No duplicate check. */
    method AddPlayer(name: string, rating: Rating) returns (added: bool)
      requires Valid()
      modifies this
      ensures Valid()
      ensures added <==> name != []
      ensures players == if added then old(players) + [Player(name, rating, 0, 0, 0)] else old(players)
      ensures matches == old(matches)
    {
      added := name != [];
      if added {
        players := players + [Player(name, rating, 0, 0, 0)];
      }
    }

    /** The "Record Match" button: append the match to the history, then walk
        the registry crediting every record in place. */
    method RecordMatch(date: string, teamA: seq<string>, teamB: seq<string>, winner: Winner)
      returns (outcome: Recording)
      requires Valid()
      modifies this
      ensures Valid()
      ensures outcome == if |old(players)| < 2 then TooFewRegistered
                         else if teamA == [] || teamB == [] then EmptyTeam
                         else Recorded
      ensures outcome == Recorded ==>
        && matches == old(matches) + [Match(date, teamA, teamB, winner)]
        && players == CreditAll(old(players), teamA, teamB, winner)
      ensures outcome != Recorded ==> matches == old(matches) && players == old(players)
    {
      if |players| < 2 {
        return TooFewRegistered;
      }
      if teamA == [] || teamB == [] {
        return EmptyTeam;
      }
      matches := matches + [Match(date, teamA, teamB, winner)];
      var winning := WinningSide(teamA, teamB, winner);
      var all := teamA + teamB;
      var i := 0;
      while i < |players|
        invariant 0 <= i <= |players| == |old(players)|
        invariant forall k :: 0 <= k < i ==> players[k] == Credit(old(players)[k], teamA, teamB, winner)
        invariant forall k :: i <= k < |players| ==> players[k] == old(players)[k]
        invariant matches == old(matches) + [Match(date, teamA, teamB, winner)]
      {
        var p := players[i];
        if p.name in all {
          p := p.(matchesPlayed := p.matchesPlayed + 1);
          if p.name in winning {
            p := p.(matchesWon := p.matchesWon + 1, points := p.points + 1);
          }
        }
        players := players[i := p];
        i := i + 1;
      }
      outcome := Recorded;
    }
  }
}
