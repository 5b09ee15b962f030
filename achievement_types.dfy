/**
 * The records that achievement reconciliation reads and produces, and the
 * case folding it matches names under.
 */
module AchievementTypes {

  import opened Wrappers

  /**
   * One catalog entry of a game's achievement definitions. `displayName`
   * stands for the catalog's remaining fields, which are copied through
   * unchanged.
   */
  datatype AchievementData = AchievementData(
    name: string,
    displayName: string,
    description: string,
    hidden: bool,
    icon: string,
    icongray: string)

  /** One cached unlock record. */
  datatype UnlockedAchievement = UnlockedAchievement(name: string, unlockTime: int)

  /** The value kept in the game-achievements sublevel for one game. */
  datatype GameAchievement = GameAchievement(unlockedAchievements: seq<UnlockedAchievement>)

  /** The one field of the user preferences record this operation reads. */
  datatype UserPreferences = UserPreferences(showHiddenAchievementsDescription: bool)

  /**
   * A catalog entry together with the user's progress. `description` is
   * `None` where the source leaves it `undefined`; `unlockTime` is `None`
   * where it is `null`.
   */
  datatype UserAchievement = UserAchievement(
    name: string,
    displayName: string,
    description: Option<string>,
    hidden: bool,
    icon: string,
    icongray: string,
    unlocked: bool,
    unlockTime: Option<int>)

  /** `toUpperCase` on one character, restricted to ASCII letters. */
  function UpperChar(c: char): (u: char)
    ensures 'a' <= c <= 'z' ==> 'A' <= u <= 'Z' && u as int == c as int - 32
    ensures !('a' <= c <= 'z') ==> u == c
  {
    if 'a' <= c <= 'z' then (c as int - 32) as char else c
  }

  /** `toUpperCase`, character by character. */
  function Upper(s: string): (u: string)
    ensures |u| == |s|
    ensures forall i :: 0 <= i < |s| ==> u[i] == UpperChar(s[i])
  {
    seq(|s|, i requires 0 <= i < |s| => UpperChar(s[i]))
  }

  /** Two achievement names denote the same achievement when their upper-case forms are equal. */
  predicate NameMatches(a: string, b: string) {
    Upper(a) == Upper(b)
  }

  /** Upper-casing is idempotent, so a name matches its own upper-case form. */
  lemma UpperIdempotent(s: string)
    ensures Upper(Upper(s)) == Upper(s)
    ensures NameMatches(s, Upper(s))
  {
  }

  /** Name matching is an equivalence relation. */
  lemma NameMatchesEquivalence(a: string, b: string, c: string)
    ensures NameMatches(a, a)
    ensures NameMatches(a, b) ==> NameMatches(b, a)
    ensures NameMatches(a, b) && NameMatches(b, c) ==> NameMatches(a, c)
  {
  }

  /** A cached `BOSS_KILL` matches the catalog's `boss_kill`, and a differently spelled name does not. */
  lemma NameMatchesIgnoresCase()
    ensures NameMatches("BOSS_KILL", "boss_kill")
    ensures !NameMatches("BOSS_KILL", "boss_kil1")
  {
    assert Upper("boss_kill") == "BOSS_KILL";
    assert Upper("BOSS_KILL") == "BOSS_KILL";
    assert Upper("boss_kil1")[8] == '1';
  }
}
