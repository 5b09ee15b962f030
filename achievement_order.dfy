/**
 * The order in which reconciled achievements are returned: the comparator
 * handed to `Array.prototype.sort`, and the stable sort it drives.
 */
module AchievementOrder {

  import opened Wrappers
  import opened AchievementTypes

  /** `unlockTime` as JavaScript's `-` reads it: `null` converts to 0. */
  function UnlockTimeNumber(a: UserAchievement): (n: int)
    ensures a.unlockTime.Some? ==> n == a.unlockTime.value
    ensures a.unlockTime.None? ==> n == 0
  {
    match a.unlockTime
    case None => 0
    case Some(t) => t
  }

  /** `Number(hidden)`. */
  function HiddenNumber(a: UserAchievement): (n: int)
    ensures n == 0 || n == 1
    ensures n == 1 <==> a.hidden
  {
    if a.hidden then 1 else 0
  }

  /**
   * A reference description of the same order: entries are ranked by the key
   * (locked?, then newest-first time for unlocked or hidden? for locked),
   * compared lexicographically.
   */
  function SortKey(a: UserAchievement): (int, int) {
    if a.unlocked then (0, -UnlockTimeNumber(a)) else (1, HiddenNumber(a))
  }

  predicate KeyLess(k: (int, int), l: (int, int)) {
    k.0 < l.0 || (k.0 == l.0 && k.1 < l.1)
  }

  /**
   * The comparator: negative when `a` goes first, positive when `b` goes
   * first, zero when the two are tied.
   */
  function Compare(a: UserAchievement, b: UserAchievement): (r: int)
    ensures r < 0 <==> KeyLess(SortKey(a), SortKey(b))
    ensures r == 0 <==> SortKey(a) == SortKey(b)
  {
    if a.unlocked && !b.unlocked then -1
    else if !a.unlocked && b.unlocked then 1
    else if a.unlocked && b.unlocked then UnlockTimeNumber(b) - UnlockTimeNumber(a)
    else HiddenNumber(a) - HiddenNumber(b)
  }

  /** `a` may stand before `b`. */
  predicate Before(a: UserAchievement, b: UserAchievement) {
    Compare(a, b) <= 0
  }

  /** `a` and `b` are tied under the comparator. */
  predicate Tied(a: UserAchievement, b: UserAchievement) {
    Compare(a, b) == 0
  }

  /** The comparator's sign is the lexicographic comparison of the sort keys. */
  lemma CompareMatchesSortKey(a: UserAchievement, b: UserAchievement)
    ensures Compare(a, b) < 0 <==> KeyLess(SortKey(a), SortKey(b))
    ensures Compare(a, b) == 0 <==> SortKey(a) == SortKey(b)
    ensures Compare(a, b) > 0 <==> KeyLess(SortKey(b), SortKey(a))
  {
  }

  /** Swapping the arguments negates the comparator, so it is consistent. */
  lemma CompareAntisymmetric(a: UserAchievement, b: UserAchievement)
    ensures Compare(a, b) == -Compare(b, a)
    ensures Tied(a, a)
    ensures Before(a, b) || Before(b, a)
  {
  }

  /** `Before` is transitive, and so is `Tied`: the comparator is a total preorder. */
  lemma CompareTransitive(a: UserAchievement, b: UserAchievement, c: UserAchievement)
    ensures Before(a, b) && Before(b, c) ==> Before(a, c)
    ensures Tied(a, b) && Tied(b, c) ==> Tied(a, c)
  {
  }

  ghost predicate Sorted(s: seq<UserAchievement>) {
    forall i, j :: 0 <= i < j < |s| ==> Before(s[i], s[j])
  }

  /** Inserts `x` in front of the first element of `t` it may stand before. */
  function Insert(x: UserAchievement, t: seq<UserAchievement>): (r: seq<UserAchievement>)
    ensures |r| == |t| + 1
    ensures multiset(r) == multiset{x} + multiset(t)
  {
    if t == [] then [x]
    else if Before(x, t[0]) then [x] + t
    else
      assert t == [t[0]] + t[1..];
      [t[0]] + Insert(x, t[1..])
  }

  /** Stable insertion sort under `Compare`. */
  function SortAchievements(s: seq<UserAchievement>): (r: seq<UserAchievement>)
    ensures |r| == |s|
    ensures multiset(r) == multiset(s)
  {
    if s == [] then []
    else
      assert s == [s[0]] + s[1..];
      Insert(s[0], SortAchievements(s[1..]))
  }

  /** The entries of `s` tied with `z`, in their order in `s`. */
  function TiedWith(s: seq<UserAchievement>, z: UserAchievement): seq<UserAchievement> {
    if s == [] then []
    else (if Tied(s[0], z) then [s[0]] else []) + TiedWith(s[1..], z)
  }

  lemma {:induction false} InsertSorted(x: UserAchievement, t: seq<UserAchievement>)
    requires Sorted(t)
    ensures Sorted(Insert(x, t))
  {
    if t == [] {
    } else if Before(x, t[0]) {
      forall j | 0 <= j < |t|
        ensures Before(x, t[j])
      {
        CompareTransitive(x, t[0], t[j]);
      }
      assert Sorted([x] + t);
    } else {
      var rest := Insert(x, t[1..]);
      InsertSorted(x, t[1..]);
      CompareAntisymmetric(x, t[0]);
      forall e | e in rest
        ensures Before(t[0], e)
      {
        assert e in multiset(rest);
        if e != x {
          assert e in t[1..];
        }
      }
      var r := [t[0]] + rest;
      forall i, j | 0 <= i < j < |r|
        ensures Before(r[i], r[j])
      {
        if i == 0 {
          assert r[j] in rest;
        } else {
          assert r[i] == rest[i - 1] && r[j] == rest[j - 1];
        }
      }
    }
  }

  /** The result of the sort is ordered by the comparator. */
  lemma {:induction false} SortSorted(s: seq<UserAchievement>)
    ensures Sorted(SortAchievements(s))
  {
    if s != [] {
      SortSorted(s[1..]);
      InsertSorted(s[0], SortAchievements(s[1..]));
    }
  }

  /** An entry that must stand after `y` is never in the same tie class as `y`. */
  lemma NotBeforeNotTied(x: UserAchievement, y: UserAchievement, z: UserAchievement)
    requires !Before(x, y)
    ensures !(Tied(x, z) && Tied(y, z))
  {
  }

  /** Unfolds `TiedWith` on a sequence with head `y` and tail `t`. */
  lemma TiedWithCons(y: UserAchievement, t: seq<UserAchievement>, z: UserAchievement)
    ensures TiedWith([y] + t, z) == (if Tied(y, z) then [y] else []) + TiedWith(t, z)
  {
    assert ([y] + t)[1..] == t;
  }

  lemma {:induction false} InsertTiedWith(x: UserAchievement, t: seq<UserAchievement>, z: UserAchievement)
    ensures TiedWith(Insert(x, t), z) == (if Tied(x, z) then [x] else []) + TiedWith(t, z)
  {
    if t == [] {
    } else if Before(x, t[0]) {
      TiedWithCons(x, t, z);
    } else {
      InsertTiedWith(x, t[1..], z);
      TiedWithCons(t[0], Insert(x, t[1..]), z);
      NotBeforeNotTied(x, t[0], z);
      SwapTiedHeads(x, t[0], z, TiedWith(t[1..], z));
    }
  }

  /** Two heads that cannot share a tie class commute in front of a tie-class subsequence. */
  lemma SwapTiedHeads(x: UserAchievement, y: UserAchievement, z: UserAchievement, rest: seq<UserAchievement>)
    requires !(Tied(x, z) && Tied(y, z))
    ensures (if Tied(y, z) then [y] else []) + ((if Tied(x, z) then [x] else []) + rest)
         == (if Tied(x, z) then [x] else []) + ((if Tied(y, z) then [y] else []) + rest)
  {
  }

  /**
   * Stability: for every entry `z`, the entries tied with `z` come out of the
   * sort in the order they went in.
   */
  lemma {:induction false} SortStable(s: seq<UserAchievement>, z: UserAchievement)
    ensures TiedWith(SortAchievements(s), z) == TiedWith(s, z)
  {
    if s != [] {
      SortStable(s[1..], z);
      InsertTiedWith(s[0], SortAchievements(s[1..]), z);
    }
  }

  lemma {:induction false} TiedWithMembers(s: seq<UserAchievement>, z: UserAchievement)
    ensures forall e :: e in TiedWith(s, z) ==> e in s && Tied(e, z)
    ensures forall i :: 0 <= i < |s| && Tied(s[i], z) ==> TiedWith(s, z) != []
  {
    if s != [] {
      TiedWithMembers(s[1..], z);
      forall i | 0 < i < |s| ensures s[i] == s[1..][i - 1] { }
    }
  }

  /**
   * A sorted arrangement is fixed by its tied-with subsequences: two sorted
   * sequences that agree on them are equal. Hence every stable sort of a
   * sequence under this comparator returns the same result.
   */
  lemma {:induction false} StableSortUnique(r1: seq<UserAchievement>, r2: seq<UserAchievement>)
    requires Sorted(r1) && Sorted(r2)
    requires forall z :: TiedWith(r1, z) == TiedWith(r2, z)
    ensures r1 == r2
    decreases |r1|
  {
    if r1 == [] || r2 == [] {
      if r1 != [] {
        CompareAntisymmetric(r1[0], r1[0]);
        TiedWithMembers(r1, r1[0]);
      } else if r2 != [] {
        CompareAntisymmetric(r2[0], r2[0]);
        TiedWithMembers(r2, r2[0]);
      }
    } else {
      var m, n := r1[0], r2[0];
      CompareAntisymmetric(m, m);
      CompareAntisymmetric(n, n);
      CompareAntisymmetric(m, n);
      assert TiedWith(r1, m)[0] == m;
      TiedWithMembers(r2, m);
      assert m in r2;
      assert Before(n, m);
      assert TiedWith(r2, n)[0] == n;
      TiedWithMembers(r1, n);
      assert n in r1;
      assert Before(m, n);
      assert Tied(n, m);
      assert TiedWith(r2, m)[0] == n;
      assert m == n;
      forall z
        ensures TiedWith(r1[1..], z) == TiedWith(r2[1..], z)
      {
        var head := if Tied(m, z) then [m] else [];
        assert TiedWith(r1, z) == head + TiedWith(r1[1..], z);
        assert TiedWith(r2, z) == head + TiedWith(r2[1..], z);
        assert TiedWith(r1, z) == TiedWith(r2, z);
        assert TiedWith(r1[1..], z) == TiedWith(r1, z)[|head|..];
        assert TiedWith(r2[1..], z) == TiedWith(r2, z)[|head|..];
      }
      StableSortUnique(r1[1..], r2[1..]);
      assert r1 == [m] + r1[1..];
      assert r2 == [m] + r2[1..];
    }
  }

  /** What sortedness means for achievements, spelled out rule by rule. */
  lemma SortedOrdering(r: seq<UserAchievement>)
    requires Sorted(r)
    ensures forall i, j :: 0 <= i < j < |r| && r[j].unlocked ==> r[i].unlocked
    ensures forall i, j :: 0 <= i < j < |r| && r[i].unlocked && r[j].unlocked ==> UnlockTimeNumber(r[i]) >= UnlockTimeNumber(r[j])
    ensures forall i, j :: 0 <= i < j < |r| && !r[i].unlocked && !r[j].unlocked && r[i].hidden ==> r[j].hidden
  {
  }
}
