# Hydra achievement reconciliation and level keys, in Dafny

This project models two pure parts of the Hydra launcher's Electron main process.

- **Achievement reconciliation** is the body of `getUnlockedAchievements` once its three inputs are in hand. The inputs are the game's achievement catalog, the cached unlock records for the game (which may be absent), and the user's "show hidden achievement descriptions" preference. The model matches each catalog entry to the first cached record whose name is equal under upper-casing. A locked entry gets `unlockTime = null`, falls back to the colour icon when its gray icon URL ends in `/`, and loses its description when it is hidden and disclosure is off. The entries are then sorted: unlocked before locked, unlocked newest first, locked non-hidden before hidden. The sort is stable.
- **Level keys** are the constant sublevel names and the colon-separated composite keys `shop:objectId` and `shop:objectId:language` of the embedded key-value store.

Files:
- `wrappers.dfy`: `Option`, which stands for JavaScript's `undefined`/`null` and for a missing store record.
- `level_keys.dfy` (module `LevelKeys`): the keys, a decoder `Split` that cuts a key at its first colon, and the format, prefix, round-trip and injectivity lemmas.
- `achievement_types.dfy` (module `AchievementTypes`): catalog entries, unlock records, the cached record, the preferences record, the output `UserAchievement`, and ASCII upper-casing.
- `achievement_order.dfy` (module `AchievementOrder`): the comparator, a reference sort key, a stable insertion sort, and the sortedness, permutation, stability and uniqueness lemmas.
- `unlocked_achievements.dfy` (module `UnlockedAchievements`): the `.find` lookup, the `.map` callback, `Reconcile` (map then sort), and `GetUnlockedAchievements`, which applies the defaults for a missing cache and missing preferences.

Stability is stated per tie class. For every entry `z`, the entries that compare equal to `z` appear in the result in the same order as in the mapped catalog (`TiedWith`). `StableSortUnique` shows that a sorted sequence is fixed by these subsequences. So any stable sort with this comparator, including the one ES2019 requires of `Array.prototype.sort`, returns exactly what `Reconcile` returns (`ReconcileIsTheStableSort`).

The model follows the code in four places where its behaviour may be unexpected:
- The gray-icon fallback applies only to locked entries. Unlocked entries keep the catalog `icongray`, even when it ends in `/` (get-unlocked-achievements.ts:42-51).
- Cache records are not filtered for malformed entries. Every record is assumed to have a name, as the code assumes at line 36.
- A redacted description is `None`, standing for `undefined` (line 62).
- In the comparator, `null - x` converts `null` to 0. `UnlockTimeNumber` does the same, although no unlocked entry has a `null` time.

## Model

| member | source | states |
|---|---|---|
| LevelKeys.Game | src/main/level/sublevels/keys.ts:5 | the game key is the shop, one colon, then the object id, and its length is the sum of the two lengths plus one |
| LevelKeys.GameShopCacheItem | src/main/level/sublevels/keys.ts:9-10 | the cache-item key is the shop, a colon, the object id, a colon and the language, each at its stated position |
| LevelKeys.Split | src/main/level/sublevels/keys.ts:5 | decoder for composite keys: cuts a key at its first colon, so the left part holds no colon and rejoining gives the key back; no colon means `None` |
| LevelKeys.SplitJoin | src/main/level/sublevels/keys.ts:5 | splitting `a:b` gives back `(a, b)` whenever `a` holds no colon |
| LevelKeys.GameRoundTrip | src/main/level/sublevels/keys.ts:5 | the game key decodes back to its shop and object id when the shop holds no colon |
| LevelKeys.GameShopCacheItemRoundTrip | src/main/level/sublevels/keys.ts:9-10 | the cache-item key decodes to its shop, then to its object id and language, when shop and object id hold no colon |
| LevelKeys.GameShopCacheItemExtendsGame | src/main/level/sublevels/keys.ts:5-10 | the cache-item key is the game key plus `:` plus the language, so the game key is a strict prefix of it |
| LevelKeys.GameInjective | src/main/level/sublevels/keys.ts:5 | equal game keys imply equal shops and object ids when shops hold no colon |
| LevelKeys.GameShopCacheItemInjective | src/main/level/sublevels/keys.ts:9-10 | equal cache-item keys imply equal shops, object ids and languages when shops and object ids hold no colon |
| LevelKeys.ConstantKeysDistinct | src/main/level/sublevels/keys.ts:4-11 | the five constant sublevel names are pairwise distinct and hold no colon |
| LevelKeys.CompositeKeysAreNotConstants | src/main/level/sublevels/keys.ts:4-11 | no game key and no cache-item key equals a constant sublevel name |
| AchievementTypes.Upper | src/main/events/user/get-unlocked-achievements.ts:36-37 | `toUpperCase` keeps the length and upper-cases ASCII letters one character at a time |
| AchievementTypes.UpperIdempotent | src/main/events/user/get-unlocked-achievements.ts:36-37 | upper-casing twice is upper-casing once, so a name matches its own upper-case form |
| AchievementTypes.NameMatchesEquivalence | src/main/events/user/get-unlocked-achievements.ts:36-37 | name matching under upper-casing is reflexive, symmetric and transitive |
| AchievementTypes.NameMatchesIgnoresCase | src/main/events/user/get-unlocked-achievements.ts:36-37 | a cached `BOSS_KILL` matches the catalog's `boss_kill`, and a name that differs in one digit does not |
| AchievementOrder.UnlockTimeNumber | src/main/events/user/get-unlocked-achievements.ts:69 | `unlockTime!` as the subtraction reads it: the recorded time when there is one, and 0 for `null`, as JavaScript's conversion gives |
| AchievementOrder.HiddenNumber | src/main/events/user/get-unlocked-achievements.ts:71 | `Number(hidden)` is 0 or 1, and it is 1 exactly when the entry is hidden |
| AchievementOrder.Compare | src/main/events/user/get-unlocked-achievements.ts:65-72 | the comparator is negative exactly when the sort key (locked?, newest-first time or hidden?) is lexicographically smaller, and zero exactly when the keys are equal; `CompareAntisymmetric` and `CompareTransitive` prove it consistent and a total preorder |
| AchievementOrder.CompareMatchesSortKey | src/main/events/user/get-unlocked-achievements.ts:65-72 | the comparator's sign equals the lexicographic comparison of the key (locked?, newest-first time or hidden?) |
| AchievementOrder.CompareAntisymmetric | src/main/events/user/get-unlocked-achievements.ts:65-72 | swapping the arguments negates the comparator, every entry ties with itself, and any two entries are comparable |
| AchievementOrder.CompareTransitive | src/main/events/user/get-unlocked-achievements.ts:65-72 | "may stand before" and "tied" are both transitive, so the comparator is a total preorder |
| AchievementOrder.NotBeforeNotTied | src/main/events/user/get-unlocked-achievements.ts:65-72 | an entry that must stand after `y` never shares a tie class with `y` |
| AchievementOrder.Insert | src/main/events/user/get-unlocked-achievements.ts:65-72 | insertion adds exactly one element: the result is the old multiset plus `x` |
| AchievementOrder.SortAchievements | src/main/events/user/get-unlocked-achievements.ts:65-72 | the sort returns a permutation of its input |
| AchievementOrder.InsertSorted | src/main/events/user/get-unlocked-achievements.ts:65-72 | inserting into a sorted sequence keeps it sorted |
| AchievementOrder.SortSorted | src/main/events/user/get-unlocked-achievements.ts:65-72 | the sort's result is ordered by the comparator |
| AchievementOrder.InsertTiedWith | src/main/events/user/get-unlocked-achievements.ts:65-72 | insertion places `x` ahead of every element tied with it |
| AchievementOrder.SortStable | src/main/events/user/get-unlocked-achievements.ts:65-72 | stability: for each tie class the sort keeps the input's relative order |
| AchievementOrder.TiedWithMembers | src/main/events/user/get-unlocked-achievements.ts:65-72 | a tie-class subsequence holds only tied members of the sequence, and it is non-empty when some member is tied |
| AchievementOrder.StableSortUnique | src/main/events/user/get-unlocked-achievements.ts:65-72 | two sorted sequences with the same tie-class subsequences are equal, so a stable sort's result is unique |
| AchievementOrder.SortedOrdering | src/main/events/user/get-unlocked-achievements.ts:65-72 | in a sorted sequence unlocked entries precede locked ones, unlocked ones have non-increasing unlock times, and among locked ones non-hidden precede hidden |
| UnlockedAchievements.CachedRecords | src/main/events/user/get-unlocked-achievements.ts:29 | a missing cached record gives no unlock records, and a present one gives its `unlockedAchievements`; through it the `cached.None?` clause of `GetUnlockedAchievements` leaves every entry locked |
| UnlockedAchievements.ShowHiddenDescription | src/main/events/user/get-unlocked-achievements.ts:20-21 | disclosure is on exactly when a preferences record exists and its flag is set; through it the `preferences.None?` clause of `GetUnlockedAchievements` redacts every locked hidden description |
| UnlockedAchievements.Find | src/main/events/user/get-unlocked-achievements.ts:33-40 | `find` returns nothing exactly when no record's name matches, and otherwise returns the record at the first matching position |
| UnlockedAchievements.FindIsFirstMatch | src/main/events/user/get-unlocked-achievements.ts:33-40 | whenever `i` is the first matching position, `find` returns `records[i]` |
| UnlockedAchievements.UnlockedEntriesHaveRecords | src/main/events/user/get-unlocked-achievements.ts:33-51 | every unlocked mapped entry takes its unlock time from a cached record whose name matches its own |
| UnlockedAchievements.FirstMatchIndex | src/main/events/user/get-unlocked-achievements.ts:33-40 | when some record matches, there is a first matching position |
| UnlockedAchievements.EndsWith | src/main/events/user/get-unlocked-achievements.ts:42 | `endsWith(suffix)` holds exactly when the string is some prefix followed by `suffix` |
| UnlockedAchievements.ToUserAchievement | src/main/events/user/get-unlocked-achievements.ts:32-63 | name, display name, hidden and icon are copied; `unlocked` holds iff some record matches; the unlock time is the first match's; unlocked entries keep the gray icon and the description; locked entries have no time, fall back to the colour icon exactly when the gray icon ends in `/`, and have a description iff not hidden or disclosure is on, equal to the catalog's |
| UnlockedAchievements.MapEntries | src/main/events/user/get-unlocked-achievements.ts:31-64 | one output per catalog entry, in catalog order |
| UnlockedAchievements.SortStableAll | src/main/events/user/get-unlocked-achievements.ts:65-72 | the sort keeps the relative order within every tie class at once |
| UnlockedAchievements.MembersOfMapEntries | src/main/events/user/get-unlocked-achievements.ts:31-64 | a permutation of the mapped catalog holds only mapped catalog entries, and holds every one of them |
| UnlockedAchievements.Reconcile | src/main/events/user/get-unlocked-achievements.ts:31-72 | the result has one entry per catalog entry and is a permutation of the mapped catalog; every unlocked entry's time comes from a cached record matching its name, so unmatched cache records never appear; the result is sorted (unlocked first, newest first, non-hidden before hidden) and stable |
| UnlockedAchievements.ReconcileIsTheStableSort | src/main/events/user/get-unlocked-achievements.ts:65-72 | any sorted, stable arrangement of the mapped catalog is exactly the result, so the result is deterministic whatever stable sort the engine uses |
| UnlockedAchievements.ReconcileWithoutRecords | src/main/events/user/get-unlocked-achievements.ts:29-57 | with no cached records every entry is locked with a `null` unlock time |
| UnlockedAchievements.GetUnlockedAchievements | src/main/events/user/get-unlocked-achievements.ts:20-72 | one output per catalog entry, each the mapped form of a catalog entry; an absent cache leaves everything locked; absent preferences redact every locked hidden description; disclosure on keeps every description |
| UnlockedAchievements.ExampleLockedHiddenLast | src/main/events/user/get-unlocked-achievements.ts:42-72 | both entries locked: the non-hidden one comes first, and the hidden one loses its description and takes its colour icon for the `/`-ended gray icon |
| UnlockedAchievements.ExampleUnlockedFirst | src/main/events/user/get-unlocked-achievements.ts:33-72 | a catalog entry `B` unlocked under the cached name `b` at time 100 moves ahead of the locked `A` |

## Left out

- Fetching the inputs is not modelled: the store read `gameAchievementsSublevel.get`, the preferences query `userPreferencesRepository.findOne` and the catalog fetch `getGameAchievementData` (get-unlocked-achievements.ts:12-27). They are I/O, and their results are parameters of `GetUnlockedAchievements`. The catalog service is not part of this model, so its failures, which propagate to the caller, are not modelled either.
- The IPC handler `getUnlockedAchievementsEvent` and its registration (lines 75-83) are Electron transport plumbing.
- Async ordering of the three fetches is left out, because the merge runs only after all three have resolved.
- Upper: `toUpperCase` is modelled for ASCII letters only. Full Unicode case mapping is left out, including mappings that change a string's length.
- The catalog entry type from `@types` is not part of this model. The entry carries the fields the code reads (`name`, `description`, `hidden`, `icon`, `icongray`). `displayName` stands for all the other fields that are spread through unchanged. `description` is taken to be a string in the catalog.
- `GameShop` is not part of this model. Shops are arbitrary strings, and the injectivity lemmas assume they hold no colon.
- Unlock times are JavaScript numbers, which are doubles. They are modelled as unbounded integers, so rounding in `b.unlockTime - a.unlockTime` is left out.
