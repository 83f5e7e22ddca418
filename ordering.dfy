/** The stable descending sort the app uses twice: by rating to rank the
    players chosen for a match, and by points to build the leaderboard. */
module Ordering {
  import opened LeagueTypes

  /** The field a sort compares. */
  datatype SortKey = ByRating | ByPoints

  function Key(k: SortKey, p: Player): (r: int)
  {
    match k
    case ByRating => p.rating
    case ByPoints => p.points
  }

  /** `s` is non-increasing in key `k`. */
  predicate SortedDesc(s: seq<Player>, k: SortKey)
  {
    forall i, j :: 0 <= i < j < |s| ==> Key(k, s[i]) >= Key(k, s[j])
  }

  /** The elements of `s` whose key `k` equals `v`, in the order of `s`. */
  function WithKey(s: seq<Player>, k: SortKey, v: int): (r: seq<Player>)
  {
    if s == [] then []
    else (if Key(k, s[0]) == v then [s[0]] else []) + WithKey(s[1..], k, v)
  }

  /** Inserts `x` into the non-increasing `t` in front of every element whose
      key is at most that of `x`, so that `x` stays ahead of its equals. */
  function InsertDesc(x: Player, t: seq<Player>, k: SortKey): (r: seq<Player>)
    ensures multiset(r) == multiset(t) + multiset{x}
    ensures SortedDesc(t, k) ==> SortedDesc(r, k)
  {
    if t == [] || Key(k, t[0]) <= Key(k, x) then [x] + t
    else
      var rest := InsertDesc(x, t[1..], k);
      assert t == [t[0]] + t[1..];
      HeadBoundsRest(x, t, rest, k);
      [t[0]] + rest
  }

  /** When `t[0]` outranks `x` and every element of `t`, it outranks every
      element of a sequence made of `x` and the rest of `t`. */
  lemma HeadBoundsRest(x: Player, t: seq<Player>, rest: seq<Player>, k: SortKey)
    requires t != [] && Key(k, t[0]) > Key(k, x)
    requires multiset(rest) == multiset(t[1..]) + multiset{x}
    ensures SortedDesc(t, k) ==> forall j :: 0 <= j < |rest| ==> Key(k, t[0]) >= Key(k, rest[j])
  {
    if SortedDesc(t, k) {
      forall j | 0 <= j < |rest| ensures Key(k, t[0]) >= Key(k, rest[j]) {
        assert rest[j] in multiset(rest);
        if rest[j] != x {
          assert rest[j] in t[1..];
          var m :| 0 <= m < |t[1..]| && t[1..][m] == rest[j];
          assert t[m + 1] == rest[j];
        }
      }
    }
  }

  /** Python's `sorted(..., key=..., reverse=True)`: a stable sort, largest key first. */
  function SortDesc(s: seq<Player>, k: SortKey): (r: seq<Player>)
    ensures multiset(r) == multiset(s)
    ensures SortedDesc(r, k)
  {
    if s == [] then []
    else
      assert s == [s[0]] + s[1..];
      InsertDesc(s[0], SortDesc(s[1..], k), k)
  }

  lemma {:induction false} InsertDescStable(x: Player, t: seq<Player>, k: SortKey, v: int)
    ensures WithKey(InsertDesc(x, t, k), k, v) == (if Key(k, x) == v then [x] else []) + WithKey(t, k, v)
  {
    if t == [] || Key(k, t[0]) <= Key(k, x) {
      assert ([x] + t)[1..] == t;
    } else {
      var rest := InsertDesc(x, t[1..], k);
      InsertDescStable(x, t[1..], k, v);
      assert ([t[0]] + rest)[1..] == rest;
    }
  }

  /** Stability: for every key value, the elements carrying it appear in the
      sorted result in the same order as in the input. */
  lemma {:induction false} SortDescStable(s: seq<Player>, k: SortKey, v: int)
    ensures WithKey(SortDesc(s, k), k, v) == WithKey(s, k, v)
  {
    if s != [] {
      SortDescStable(s[1..], k, v);
      InsertDescStable(s[0], SortDesc(s[1..], k), k, v);
    }
  }
}
