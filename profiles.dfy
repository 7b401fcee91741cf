/**
 * The player profile table (players.json): lookup, lazy creation, the win
 * award, the inventory replacement and the medal leaderboard.
 */
module Profiles {
  import opened Common
  import opened Duel

  /** One inventory entry: `{e, t, name}`. */
  datatype Item = Item(emoji: string, kind: string, name: string)

  datatype Profile = Profile(
    userId: UserId, username: string, fullName: string,
    gold: int, medals: int, wins: int,
    inventory: seq<Item>)

  const StartGold := 10
  const LeaderboardSize := 20

  /** The profile `get_player_game_data` creates on a user's first visit. */
  function NewProfile(id: UserId, u: User): (p: Profile)
    ensures p.userId == id && p.gold == 10 && p.medals == 0 && p.wins == 0
    ensures p.username == u.username && p.fullName == DisplayName(u)
    ensures p.inventory == [Item("🍎", "heal", "苹果")] && p.inventory[0].kind == "heal"
  {
    Profile(id, u.username, DisplayName(u), StartGold, 0, 0, [Item("🍎", "heal", "苹果")])
  }

  /** The position of the first profile of `id`, as `next(p for p in players if ...)` finds it. */
  function ProfileIndex(ps: seq<Profile>, id: UserId): (r: Option<nat>)
    ensures r.Some? ==> r.value < |ps| && ps[r.value].userId == id
    ensures r.Some? ==> forall j :: 0 <= j < r.value ==> ps[j].userId != id
    ensures r.None? ==> forall j :: 0 <= j < |ps| ==> ps[j].userId != id
    decreases |ps|
  {
    if ps == [] then None
    else if ps[0].userId == id then Some(0)
    else match ProfileIndex(ps[1..], id)
      case None => None
      case Some(k) => Some(k + 1)
  }

  /**
   * `update_player_stats(id, True)` with `bonus` standing for
   * `random.randint(10, 20)`: the first profile of `id` gains a win, a medal
   * and the bonus in gold; without a profile nothing changes.
   */
  function Award(ps: seq<Profile>, id: UserId, bonus: int): seq<Profile> {
    match ProfileIndex(ps, id)
    case None => ps
    case Some(k) => ps[k := ps[k].(wins := ps[k].wins + 1, medals := ps[k].medals + 1, gold := ps[k].gold + bonus)]
  }

  /**
   * Only the winner's profile changes, and only by one win, one medal and the
   * bonus in gold (10 to 20); its id, names and inventory are kept.
   */
  lemma AwardEffects(ps: seq<Profile>, id: UserId, bonus: int)
    requires 10 <= bonus <= 20
    ensures var ps' := Award(ps, id, bonus);
      && |ps'| == |ps|
      && (ProfileIndex(ps, id).None? ==> ps' == ps)
      && (forall j :: 0 <= j < |ps| && Some(j) != ProfileIndex(ps, id) ==> ps'[j] == ps[j])
      && (ProfileIndex(ps, id).Some? ==>
            var k := ProfileIndex(ps, id).value;
            && ps'[k].userId == id
            && ps'[k] == ps[k].(wins := ps[k].wins + 1, medals := ps[k].medals + 1, gold := ps[k].gold + bonus)
            && ps[k].gold + 10 <= ps'[k].gold <= ps[k].gold + 20
            && ps'[k].username == ps[k].username && ps'[k].fullName == ps[k].fullName
            && ps'[k].inventory == ps[k].inventory)
  {
  }

  /** `update_inventory`: the first profile of `id` gets the new inventory; other profiles are untouched. */
  function WithInventory(ps: seq<Profile>, id: UserId, inv: seq<Item>): (ps': seq<Profile>)
    ensures |ps'| == |ps|
    ensures forall j :: 0 <= j < |ps| ==>
      ps'[j] == if Some(j) == ProfileIndex(ps, id) then ps[j].(inventory := inv) else ps[j]
  {
    match ProfileIndex(ps, id)
    case None => ps
    case Some(k) => ps[k := ps[k].(inventory := inv)]
  }

  /** The medal count `get_students_game_status` shows: the profile's medals, or 0 without a profile. */
  function MedalsOf(ps: seq<Profile>, id: UserId): (n: int)
    ensures ProfileIndex(ps, id).None? ==> n == 0
    ensures ProfileIndex(ps, id).Some? ==> n == ps[ProfileIndex(ps, id).value].medals
  {
    match ProfileIndex(ps, id)
    case None => 0
    case Some(k) => ps[k].medals
  }

  // ---------------------------------------------------------------------------
  // Leaderboard: sorted(players, key=medals, reverse=True)[:20]
  // ---------------------------------------------------------------------------

  predicate SortedByMedals(s: seq<Profile>) {
    forall i, j :: 0 <= i < j < |s| ==> s[i].medals >= s[j].medals
  }

  /** The profiles of `s` holding exactly `n` medals, in their order in `s`. */
  function WithMedals(s: seq<Profile>, n: int): seq<Profile> {
    if s == [] then []
    else (if s[0].medals == n then [s[0]] else []) + WithMedals(s[1..], n)
  }

  /** Inserts `p` before the first profile with no more medals than `p`. */
  function Insert(p: Profile, s: seq<Profile>): (r: seq<Profile>)
    ensures multiset(r) == multiset(s) + multiset{p}
    ensures |r| == |s| + 1 && (r[0] == p || (s != [] && r[0] == s[0]))
    ensures SortedByMedals(s) ==> SortedByMedals(r)
  {
    if s == [] then [p]
    else if s[0].medals > p.medals then
      assert s == [s[0]] + s[1..];
      [s[0]] + Insert(p, s[1..])
    else [p] + s
  }

  /** A stable sort by medals, most medals first, as Python's `sorted(..., reverse=True)`. */
  function SortByMedals(s: seq<Profile>): (r: seq<Profile>)
    ensures multiset(r) == multiset(s)
    ensures SortedByMedals(r)
  {
    if s == [] then []
    else
      assert s == [s[0]] + s[1..];
      Insert(s[0], SortByMedals(s[1..]))
  }

  /** `get_game_leaderboard`: the first 20 profiles of the sorted table. */
  function Leaderboard(ps: seq<Profile>): seq<Profile> {
    var sorted := SortByMedals(ps);
    if |sorted| <= LeaderboardSize then sorted else sorted[..LeaderboardSize]
  }

  lemma {:induction false} WithMedalsAppend(a: seq<Profile>, b: seq<Profile>, n: int)
    ensures WithMedals(a + b, n) == WithMedals(a, n) + WithMedals(b, n)
  {
    if a == [] {
      assert a + b == b;
    } else {
      var h := if a[0].medals == n then [a[0]] else [];
      assert (a + b)[0] == a[0];
      assert (a + b)[1..] == a[1..] + b;
      WithMedalsAppend(a[1..], b, n);
      calc {
        WithMedals(a + b, n);
        h + WithMedals(a[1..] + b, n);
        h + (WithMedals(a[1..], n) + WithMedals(b, n));
        (h + WithMedals(a[1..], n)) + WithMedals(b, n);
      }
    }
  }

  lemma SwapEmptyPrefix(h0: seq<Profile>, hp: seq<Profile>, x: seq<Profile>)
    requires h0 == [] || hp == []
    ensures h0 + (hp + x) == hp + (h0 + x)
  {
    if h0 == [] {
      assert h0 + (hp + x) == hp + x;
      assert h0 + x == x;
    } else {
      assert hp + (h0 + x) == h0 + x;
      assert hp + x == x;
    }
  }

  lemma WithMedalsCons(x: Profile, rest: seq<Profile>, n: int)
    ensures WithMedals([x] + rest, n) == (if x.medals == n then [x] else []) + WithMedals(rest, n)
  {
    assert ([x] + rest)[0] == x;
    assert ([x] + rest)[1..] == rest;
  }

  /** The step of `InsertStable` where `p` passes a profile `x` with more medals. */
  lemma InsertStableSkip(p: Profile, x: Profile, rest: seq<Profile>, tail: seq<Profile>, n: int)
    requires x.medals > p.medals
    requires WithMedals(rest, n) == (if p.medals == n then [p] else []) + WithMedals(tail, n)
    ensures WithMedals([x] + rest, n) == (if p.medals == n then [p] else []) + WithMedals([x] + tail, n)
  {
    var hp := if p.medals == n then [p] else [];
    var hx := if x.medals == n then [x] else [];
    WithMedalsCons(x, rest, n);
    WithMedalsCons(x, tail, n);
    SwapEmptyPrefix(hx, hp, WithMedals(tail, n));
  }

  lemma {:induction false} InsertStable(p: Profile, s: seq<Profile>, n: int)
    ensures WithMedals(Insert(p, s), n) == (if p.medals == n then [p] else []) + WithMedals(s, n)
  {
    if s == [] {
      assert Insert(p, s) == [p];
      WithMedalsCons(p, [], n);
    } else if s[0].medals > p.medals {
      InsertStable(p, s[1..], n);
      assert Insert(p, s) == [s[0]] + Insert(p, s[1..]);
      assert s == [s[0]] + s[1..];
      InsertStableSkip(p, s[0], Insert(p, s[1..]), s[1..], n);
    } else {
      assert Insert(p, s) == [p] + s;
      WithMedalsCons(p, s, n);
    }
  }

  /** Stability: profiles with equal medal counts keep their table order. */
  lemma {:induction false} SortStable(s: seq<Profile>, n: int)
    ensures WithMedals(SortByMedals(s), n) == WithMedals(s, n)
  {
    if s != [] {
      SortStable(s[1..], n);
      InsertStable(s[0], SortByMedals(s[1..]), n);
    }
  }

  /**
   * The leaderboard holds min(20, |players|) profiles from the table, most
   * medals first, and every profile left out has no more medals than every
   * profile shown.
   */
  lemma LeaderboardTop(ps: seq<Profile>)
    ensures var b := Leaderboard(ps);
      && |b| == (if |ps| <= 20 then |ps| else 20)
      && SortedByMedals(b)
      && multiset(b) <= multiset(ps)
      && (|ps| <= 20 ==> multiset(b) == multiset(ps))
      && forall i, j :: 0 <= i < |b| <= j < |SortByMedals(ps)| ==> b[i].medals >= SortByMedals(ps)[j].medals
  {
    var sorted := SortByMedals(ps);
    var b := Leaderboard(ps);
    assert |sorted| == |multiset(sorted)| == |ps|;
    if |sorted| > LeaderboardSize {
      assert b == sorted[..LeaderboardSize];
      assert sorted == sorted[..LeaderboardSize] + sorted[LeaderboardSize..];
      assert multiset(sorted) == multiset(sorted[..LeaderboardSize]) + multiset(sorted[LeaderboardSize..]);
      forall i, j | 0 <= i < j < |b|
        ensures b[i].medals >= b[j].medals
      {
        assert b[i] == sorted[i] && b[j] == sorted[j];
      }
      forall i, j | 0 <= i < |b| <= j < |sorted|
        ensures b[i].medals >= sorted[j].medals
      {
        assert b[i] == sorted[i];
      }
    } else {
      assert b == sorted;
    }
  }
}
