/**
 * The reconciliation step of `getUnlockedAchievements`: every catalog entry
 * is matched against the cached unlock records, redacted when it is locked
 * and hidden, and the entries are then sorted.
 */
module UnlockedAchievements {

  import opened Wrappers
  import opened AchievementTypes
  import opened AchievementOrder

  /** `i` is the first position in `records` whose name matches `name`. */
  ghost predicate IsFirstMatch(records: seq<UnlockedAchievement>, name: string, i: int) {
    && 0 <= i < |records|
    && NameMatches(records[i].name, name)
    && forall j :: 0 <= j < i ==> !NameMatches(records[j].name, name)
  }

  /** `unlockedAchievements.find(...)`: the first cached record whose name matches. */
  function Find(records: seq<UnlockedAchievement>, name: string): (r: Option<UnlockedAchievement>)
    ensures r.None? <==> forall i :: 0 <= i < |records| ==> !NameMatches(records[i].name, name)
    ensures r.Some? ==> exists i :: IsFirstMatch(records, name, i) && records[i] == r.value
  {
    if records == [] then None
    else if NameMatches(records[0].name, name) then
      assert IsFirstMatch(records, name, 0);
      Some(records[0])
    else
      var r := Find(records[1..], name);
      assert forall i :: IsFirstMatch(records[1..], name, i) ==> IsFirstMatch(records, name, i + 1);
      r
  }

  /** The record `Find` returns is the one at the first matching position. */
  lemma FindIsFirstMatch(records: seq<UnlockedAchievement>, name: string, i: int)
    requires IsFirstMatch(records, name, i)
    ensures Find(records, name) == Some(records[i])
  {
    var r := Find(records, name);
    assert NameMatches(records[i].name, name);
    assert r.Some?;
    var k :| IsFirstMatch(records, name, k) && records[k] == r.value;
    assert NameMatches(records[k].name, name);
    assert k == i;
  }

  /** `s.endsWith(suffix)`. */
  predicate EndsWith(s: string, suffix: string): (b: bool)
    ensures b <==> exists prefix :: prefix + suffix == s
  {
    if |suffix| <= |s| && s[|s| - |suffix|..] == suffix then
      assert s[..|s| - |suffix|] + suffix == s;
      true
    else
      assert forall prefix :: prefix + suffix != s by {
        forall prefix ensures prefix + suffix != s {
          assert (prefix + suffix)[|prefix|..] == suffix;
        }
      }
      false
  }

  /** The callback of `.map`: one catalog entry together with the user's progress on it. */
  function ToUserAchievement(data: AchievementData, records: seq<UnlockedAchievement>, showHidden: bool): (u: UserAchievement)
    ensures u.name == data.name && u.displayName == data.displayName
    ensures u.hidden == data.hidden && u.icon == data.icon
    ensures u.unlocked <==> exists i :: 0 <= i < |records| && NameMatches(records[i].name, data.name)
    ensures forall i :: IsFirstMatch(records, data.name, i) ==> u.unlockTime == Some(records[i].unlockTime)
    ensures u.unlocked ==> u.icongray == data.icongray && u.description == Some(data.description)
    ensures !u.unlocked ==> u.unlockTime == None
    ensures !u.unlocked && EndsWith(data.icongray, "/") ==> u.icongray == data.icon
    ensures !u.unlocked && !EndsWith(data.icongray, "/") ==> u.icongray == data.icongray
    ensures !u.unlocked ==> (u.description.Some? <==> !data.hidden || showHidden)
    ensures u.description.Some? ==> u.description.value == data.description
  {
    var found := Find(records, data.name);
    var icongray := if EndsWith(data.icongray, "/") then data.icon else data.icongray;
    match found
    case Some(record) =>
      assert forall i :: IsFirstMatch(records, data.name, i) ==> records[i] == record by {
        forall i | IsFirstMatch(records, data.name, i) ensures records[i] == record {
          FindIsFirstMatch(records, data.name, i);
        }
      }
      UserAchievement(data.name, data.displayName, Some(data.description), data.hidden,
                      data.icon, data.icongray, true, Some(record.unlockTime))
    case None =>
      UserAchievement(data.name, data.displayName,
                      if !data.hidden || showHidden then Some(data.description) else None,
                      data.hidden, data.icon, icongray, false, None)
  }

  /** Applies `ToUserAchievement` to every catalog entry, in catalog order. */
  function MapEntries(catalog: seq<AchievementData>, records: seq<UnlockedAchievement>, showHidden: bool): (m: seq<UserAchievement>)
    ensures |m| == |catalog|
    ensures forall i :: 0 <= i < |catalog| ==> m[i] == ToUserAchievement(catalog[i], records, showHidden)
  {
    seq(|catalog|, i requires 0 <= i < |catalog| => ToUserAchievement(catalog[i], records, showHidden))
  }

  /** Every entry of the sorted result is tied with some entry, so the sort keeps all tied-with subsequences. */
  lemma SortStableAll(s: seq<UserAchievement>)
    ensures forall z :: TiedWith(SortAchievements(s), z) == TiedWith(s, z)
  {
    forall z ensures TiedWith(SortAchievements(s), z) == TiedWith(s, z) {
      SortStable(s, z);
    }
  }

  lemma MembersOfMapEntries(catalog: seq<AchievementData>, records: seq<UnlockedAchievement>, showHidden: bool, r: seq<UserAchievement>)
    requires multiset(r) == multiset(MapEntries(catalog, records, showHidden))
    ensures forall k :: 0 <= k < |r| ==> exists i :: 0 <= i < |catalog| && r[k] == ToUserAchievement(catalog[i], records, showHidden)
    ensures forall i :: 0 <= i < |catalog| ==> ToUserAchievement(catalog[i], records, showHidden) in r
  {
    var m := MapEntries(catalog, records, showHidden);
    forall k | 0 <= k < |r|
      ensures exists i :: 0 <= i < |catalog| && r[k] == ToUserAchievement(catalog[i], records, showHidden)
    {
      assert r[k] in multiset(m);
      var i :| 0 <= i < |m| && m[i] == r[k];
    }
    forall i | 0 <= i < |catalog|
      ensures ToUserAchievement(catalog[i], records, showHidden) in r
    {
      assert m[i] in multiset(r);
    }
  }

  /**
   * Lines 31-72 of `getUnlockedAchievements`: map every catalog entry, then
   * sort with the comparator.
   */
  function Reconcile(catalog: seq<AchievementData>, records: seq<UnlockedAchievement>, showHidden: bool): (r: seq<UserAchievement>)
    ensures |r| == |catalog|
    ensures multiset(r) == multiset(MapEntries(catalog, records, showHidden))
    ensures forall k :: 0 <= k < |r| ==> exists i :: 0 <= i < |catalog| && r[k] == ToUserAchievement(catalog[i], records, showHidden)
    ensures forall i :: 0 <= i < |catalog| ==> ToUserAchievement(catalog[i], records, showHidden) in r
    ensures forall k :: 0 <= k < |r| && r[k].unlocked ==>
      exists j :: 0 <= j < |records| && NameMatches(records[j].name, r[k].name) && r[k].unlockTime == Some(records[j].unlockTime)
    ensures Sorted(r)
    ensures forall i, j :: 0 <= i < j < |r| && r[j].unlocked ==> r[i].unlocked
    ensures forall i, j :: 0 <= i < j < |r| && r[i].unlocked && r[j].unlocked ==> UnlockTimeNumber(r[i]) >= UnlockTimeNumber(r[j])
    ensures forall i, j :: 0 <= i < j < |r| && !r[i].unlocked && !r[j].unlocked && r[i].hidden ==> r[j].hidden
    ensures forall z :: TiedWith(r, z) == TiedWith(MapEntries(catalog, records, showHidden), z)
  {
    var mapped := MapEntries(catalog, records, showHidden);
    var r := SortAchievements(mapped);
    SortSorted(mapped);
    SortedOrdering(r);
    SortStableAll(mapped);
    MembersOfMapEntries(catalog, records, showHidden, r);
    UnlockedEntriesHaveRecords(catalog, records, showHidden, r);
    r
  }

  /** Every unlocked mapped entry takes its time from a cached record that matches its name. */
  lemma UnlockedEntriesHaveRecords(catalog: seq<AchievementData>, records: seq<UnlockedAchievement>, showHidden: bool, r: seq<UserAchievement>)
    requires forall k :: 0 <= k < |r| ==> exists i :: 0 <= i < |catalog| && r[k] == ToUserAchievement(catalog[i], records, showHidden)
    ensures forall k :: 0 <= k < |r| && r[k].unlocked ==>
      exists j :: 0 <= j < |records| && NameMatches(records[j].name, r[k].name) && r[k].unlockTime == Some(records[j].unlockTime)
  {
    forall k | 0 <= k < |r| && r[k].unlocked
      ensures exists j :: 0 <= j < |records| && NameMatches(records[j].name, r[k].name) && r[k].unlockTime == Some(records[j].unlockTime)
    {
      var i :| 0 <= i < |catalog| && r[k] == ToUserAchievement(catalog[i], records, showHidden);
      var j := FirstMatchIndex(records, catalog[i].name);
    }
  }

  /** The first matching position, for an entry known to be matched. */
  lemma FirstMatchIndex(records: seq<UnlockedAchievement>, name: string) returns (j: int)
    requires exists i :: 0 <= i < |records| && NameMatches(records[i].name, name)
    ensures IsFirstMatch(records, name, j)
  {
    var r := Find(records, name);
    j :| IsFirstMatch(records, name, j) && records[j] == r.value;
  }

  /**
   * Any stable sort of the mapped catalog under the comparator (which is what
   * `Array.prototype.sort` is since ES2019) returns exactly `Reconcile`'s result.
   */
  lemma ReconcileIsTheStableSort(catalog: seq<AchievementData>, records: seq<UnlockedAchievement>, showHidden: bool, r: seq<UserAchievement>)
    requires Sorted(r)
    requires forall z :: TiedWith(r, z) == TiedWith(MapEntries(catalog, records, showHidden), z)
    ensures r == Reconcile(catalog, records, showHidden)
  {
    StableSortUnique(r, Reconcile(catalog, records, showHidden));
  }

  /** Without cached records every entry is locked and has no unlock time. */
  lemma ReconcileWithoutRecords(catalog: seq<AchievementData>, showHidden: bool)
    ensures forall k :: 0 <= k < |catalog| ==> !Reconcile(catalog, [], showHidden)[k].unlocked
    ensures forall k :: 0 <= k < |catalog| ==> Reconcile(catalog, [], showHidden)[k].unlockTime == None
  {
  }

  /** `cachedAchievements?.unlockedAchievements ?? []`. */
  function CachedRecords(cached: Option<GameAchievement>): (records: seq<UnlockedAchievement>)
    ensures cached.None? ==> records == []
    ensures cached.Some? ==> records == cached.value.unlockedAchievements
  {
    match cached
    case None => []
    case Some(c) => c.unlockedAchievements
  }

  /** `userPreferences?.showHiddenAchievementsDescription || false`. */
  function ShowHiddenDescription(preferences: Option<UserPreferences>): (show: bool)
    ensures show <==> preferences.Some? && preferences.value.showHiddenAchievementsDescription
  {
    match preferences
    case None => false
    case Some(p) => p.showHiddenAchievementsDescription
  }

  /**
   * `getUnlockedAchievements` once its three inputs are fetched: the game's
   * cached record (absent on first sync), the user preferences record
   * (possibly absent) and the achievement catalog.
   */
  function GetUnlockedAchievements(catalog: seq<AchievementData>, cached: Option<GameAchievement>,
                                   preferences: Option<UserPreferences>): (r: seq<UserAchievement>)
    ensures |r| == |catalog|
    ensures forall k :: 0 <= k < |r| ==>
      exists i :: 0 <= i < |catalog| && r[k] == ToUserAchievement(catalog[i], CachedRecords(cached), ShowHiddenDescription(preferences))
    ensures cached.None? ==> forall k :: 0 <= k < |r| ==> !r[k].unlocked && r[k].unlockTime == None
    ensures preferences.None? ==> forall k :: 0 <= k < |r| && !r[k].unlocked && r[k].hidden ==> r[k].description == None
    ensures preferences.Some? && preferences.value.showHiddenAchievementsDescription ==>
      forall k :: 0 <= k < |r| ==> r[k].description.Some?
  {
    Reconcile(catalog, CachedRecords(cached), ShowHiddenDescription(preferences))
  }

  /**
   * Catalog `[A, B]`, both locked, with `B` hidden and disclosure off: the
   * order is `[A, B]` and `B`'s description is withheld.
   */
  lemma ExampleLockedHiddenLast()
    ensures var a := AchievementData("A", "First", "a", false, "ia", "ga");
            var b := AchievementData("B", "Second", "b", true, "ib", "https://x/icons/");
            var r := Reconcile([a, b], [], false);
            r == [UserAchievement("A", "First", Some("a"), false, "ia", "ga", false, None),
                  UserAchievement("B", "Second", None, true, "ib", "ib", false, None)]
  {
    var a := AchievementData("A", "First", "a", false, "ia", "ga");
    var b := AchievementData("B", "Second", "b", true, "ib", "https://x/icons/");
    var ua := ToUserAchievement(a, [], false);
    var ub := ToUserAchievement(b, [], false);
    assert EndsWith(b.icongray, "/");
    assert !EndsWith(a.icongray, "/");
    assert MapEntries([a, b], [], false) == [ua, ub];
    assert SortAchievements([ub]) == [ub];
    assert [ua, ub][1..] == [ub];
  }

  /**
   * Catalog `[A, B]` with `B` unlocked at time 100 (cached under the name
   * `b`): the order is `[B, A]`.
   */
  lemma ExampleUnlockedFirst()
    ensures var a := AchievementData("A", "First", "a", false, "ia", "ga");
            var b := AchievementData("B", "Second", "b", false, "ib", "gb");
            var r := Reconcile([a, b], [UnlockedAchievement("b", 100)], false);
            r == [UserAchievement("B", "Second", Some("b"), false, "ib", "gb", true, Some(100)),
                  UserAchievement("A", "First", Some("a"), false, "ia", "ga", false, None)]
  {
    var a := AchievementData("A", "First", "a", false, "ia", "ga");
    var b := AchievementData("B", "Second", "b", false, "ib", "gb");
    var records := [UnlockedAchievement("b", 100)];
    assert Upper("b") == "B" && Upper("B") == "B";
    assert Upper("A") == "A";
    assert IsFirstMatch(records, "B", 0);
    var ua := ToUserAchievement(a, records, false);
    var ub := ToUserAchievement(b, records, false);
    assert !EndsWith(a.icongray, "/");
    assert MapEntries([a, b], records, false) == [ua, ub];
    assert SortAchievements([ub]) == [ub];
    assert [ua, ub][1..] == [ub];
  }
}
