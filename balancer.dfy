/** The team generator page: choose who plays today, rank them by rating,
    deal them alternately into Team A and Team B, and report both strengths
    and their difference. */
module Balancer {
  import opened LeagueTypes
  import opened Ordering

  /** The registry records whose name was chosen, in registry order
      (the list comprehension over the registry). */
  function Selected(players: seq<Player>, playing: seq<string>): (r: seq<Player>)
    ensures |r| <= |players|
    ensures forall p :: multiset(r)[p] == if p.name in playing then multiset(players)[p] else 0
  {
    if players == [] then []
    else
      assert players == [players[0]] + players[1..];
      (if players[0].name in playing then [players[0]] else []) + Selected(players[1..], playing)
  }

  /** Selection keeps registry order: filtering a concatenation filters each part. */
  lemma {:induction false} SelectedAppend(a: seq<Player>, b: seq<Player>, playing: seq<string>)
    ensures Selected(a + b, playing) == Selected(a, playing) + Selected(b, playing)
  {
    if a == [] {
      assert a + b == b;
    } else {
      assert (a + b)[1..] == a[1..] + b;
      SelectedAppend(a[1..], b, playing);
    }
  }

  /** The sum of a team's ratings. */
  function Strength(team: seq<Player>): (r: int)
    ensures |team| <= r <= 10 * |team|
  {
    if team == [] then 0 else team[0].rating + Strength(team[1..])
  }

  lemma StrengthCons(x: Player, t: seq<Player>)
    ensures Strength([x] + t) == x.rating + Strength(t)
  {
  }

  lemma {:induction false} StrengthInsert(x: Player, t: seq<Player>, k: SortKey)
    ensures Strength(InsertDesc(x, t, k)) == x.rating + Strength(t)
  {
    StrengthCons(x, t);
    if t != [] && Key(k, t[0]) > Key(k, x) {
      StrengthInsert(x, t[1..], k);
      StrengthCons(t[0], InsertDesc(x, t[1..], k));
    }
  }

  /** Sorting the chosen players does not change their total strength. */
  lemma {:induction false} StrengthSort(s: seq<Player>, k: SortKey)
    ensures Strength(SortDesc(s, k)) == Strength(s)
  {
    if s != [] {
      StrengthSort(s[1..], k);
      StrengthInsert(s[0], SortDesc(s[1..], k), k);
    }
  }

  /** The highest rating in `s`, or 0 when `s` is empty. */
  function MaxRating(s: seq<Player>): (r: int)
    ensures forall p :: p in s ==> p.rating <= r
    ensures s == [] ==> r == 0
    ensures s != [] ==> exists p :: p in s && p.rating == r
  {
    if s == [] then 0
    else
      var m := MaxRating(s[1..]);
      assert forall p :: p in s ==> p == s[0] || p in s[1..];
      if s[0].rating >= m then s[0].rating else m
  }

  /** Alternate dealing: the first player goes to Team A and the remaining
      players are dealt with the two teams' roles swapped. */
  function Deal(s: seq<Player>): (teams: (seq<Player>, seq<Player>))
    ensures |teams.0| == (|s| + 1) / 2 && |teams.1| == |s| / 2
  {
    if s == [] then ([], [])
    else
      var rest := Deal(s[1..]);
      ([s[0]] + rest.1, rest.0)
  }

  /** Position `i` of the ranking goes to Team A exactly when `i` is even:
      Team A holds positions 0, 2, 4, ... and Team B positions 1, 3, 5, ...,
      each in ranking order. */
  lemma {:induction false} DealPositions(s: seq<Player>)
    ensures |Deal(s).0| == (|s| + 1) / 2 && |Deal(s).1| == |s| / 2
    ensures forall j :: 0 <= j < |Deal(s).0| ==> Deal(s).0[j] == s[2 * j]
    ensures forall j :: 0 <= j < |Deal(s).1| ==> Deal(s).1[j] == s[2 * j + 1]
  {
    if s != [] {
      DealPositions(s[1..]);
      var rest := Deal(s[1..]);
      var a, b := [s[0]] + rest.1, rest.0;
      assert Deal(s) == (a, b);
      forall j | 0 <= j < |a| ensures a[j] == s[2 * j] {
        if j > 0 {
          assert a[j] == rest.1[j - 1] == s[1..][2 * (j - 1) + 1];
        }
      }
      forall j | 0 <= j < |b| ensures b[j] == s[2 * j + 1] {
        assert b[j] == s[1..][2 * j];
      }
    }
  }

  /** Every ranked player lands in exactly one team. */
  lemma {:induction false} DealPartition(s: seq<Player>)
    ensures multiset(Deal(s).0) + multiset(Deal(s).1) == multiset(s)
  {
    if s != [] {
      DealPartition(s[1..]);
      assert s == [s[0]] + s[1..];
    }
  }

  /** Strength conservation: the two team strengths add up to the ranking's. */
  lemma {:induction false} DealStrength(s: seq<Player>)
    ensures Strength(Deal(s).0) + Strength(Deal(s).1) == Strength(s)
  {
    if s != [] {
      DealStrength(s[1..]);
      StrengthCons(s[0], Deal(s[1..]).1);
    }
  }

  /** Balance bound: dealing a non-increasing ranking alternately gives Team A
      at least Team B's strength and at most the top rating more. */
  lemma {:induction false} DealBalance(s: seq<Player>)
    requires SortedDesc(s, ByRating)
    ensures 0 <= Strength(Deal(s).0) - Strength(Deal(s).1) <= MaxRating(s)
  {
    if s != [] {
      var rest := Deal(s[1..]);
      assert SortedDesc(s[1..], ByRating);
      DealBalance(s[1..]);
      StrengthCons(s[0], rest.1);
      if s[1..] != [] {
        assert s[1..][0] == s[1];
        assert MaxRating(s[1..]) == s[1].rating by {
          var p :| p in s[1..] && p.rating == MaxRating(s[1..]);
          var m :| 0 <= m < |s[1..]| && s[1..][m] == p;
          assert s[m + 1] == p;
        }
      }
      assert s[0] in s;
    }
  }

  /** The alternating loop: position `i` of the ranking is appended to Team A
      when `i` is even and to Team B otherwise. */
  method Split(ranked: seq<Player>) returns (teamA: seq<Player>, teamB: seq<Player>)
    ensures |teamA| == (|ranked| + 1) / 2 && |teamB| == |ranked| / 2
    ensures forall j :: 0 <= j < |teamA| ==> teamA[j] == ranked[2 * j]
    ensures forall j :: 0 <= j < |teamB| ==> teamB[j] == ranked[2 * j + 1]
    ensures (teamA, teamB) == Deal(ranked)
  {
    teamA, teamB := [], [];
    for i := 0 to |ranked|
      invariant |teamA| == (i + 1) / 2 && |teamB| == i / 2
      invariant forall j :: 0 <= j < |teamA| ==> teamA[j] == ranked[2 * j]
      invariant forall j :: 0 <= j < |teamB| ==> teamB[j] == ranked[2 * j + 1]
    {
      if i % 2 == 0 {
        teamA := teamA + [ranked[i]];
      } else {
        teamB := teamB + [ranked[i]];
      }
    }
    DealPositions(ranked);
    assert teamA == Deal(ranked).0;
    assert teamB == Deal(ranked).1;
  }

  /** What the page shows after a successful generation. */
  datatype Teams = Teams(
    teamA: seq<Player>,
    teamB: seq<Player>,
    strengthA: int,
    strengthB: int,
    difference: int)

  /** Why generation was refused: fewer than two players registered (the page
      offers no generator), or fewer than two names chosen. */
  datatype Refusal = TooFewRegistered | TooFewChosen

  datatype Generation = Generated(teams: Teams) | Refused(reason: Refusal)

  function Abs(x: int): (r: int)
    ensures r >= 0 && (r == x || r == -x)
  {
    if x < 0 then -x else x
  }

  /** The "Generate Balanced Teams" action. */
  method GenerateTeams(players: seq<Player>, playing: seq<string>) returns (g: Generation)
    ensures g.Refused? <==> |players| < 2 || |playing| < 2
    ensures |players| < 2 ==> g == Refused(TooFewRegistered)
    ensures 2 <= |players| && |playing| < 2 ==> g == Refused(TooFewChosen)
    ensures g.Generated? ==>
      var selected := Selected(players, playing);
      var t := g.teams;
      (t.teamA, t.teamB) == Deal(SortDesc(selected, ByRating))
      && multiset(t.teamA) + multiset(t.teamB) == multiset(selected)
      && t.strengthA == Strength(t.teamA) && t.strengthB == Strength(t.teamB)
      && t.strengthA + t.strengthB == Strength(selected)
      && t.difference == t.strengthA - t.strengthB
      && 0 <= t.difference <= MaxRating(selected)
  {
    if |players| < 2 {
      return Refused(TooFewRegistered);
    }
    if |playing| < 2 {
      return Refused(TooFewChosen);
    }
    var selected := Selected(players, playing);
    var ranked := SortDesc(selected, ByRating);
    var teamA, teamB := Split(ranked);
    var strengthA := Strength(teamA);
    var strengthB := Strength(teamB);
    DealPartition(ranked);
    DealStrength(ranked);
    StrengthSort(selected, ByRating);
    DealBalance(ranked);
    MaxRatingPermutation(ranked, selected);
    g := Generated(Teams(teamA, teamB, strengthA, strengthB, Abs(strengthA - strengthB)));
  }

  /** Two sequences with the same elements have the same top rating. */
  lemma MaxRatingPermutation(a: seq<Player>, b: seq<Player>)
    requires multiset(a) == multiset(b)
    ensures MaxRating(a) == MaxRating(b)
  {
    if a != [] {
      var p :| p in a && p.rating == MaxRating(a);
      var q :| q in b && q.rating == MaxRating(b);
      assert p in multiset(a) && q in multiset(b);
    } else {
      assert |b| == |multiset(b)| == 0;
    }
  }
}
