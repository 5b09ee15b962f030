/**
 * Keys of the embedded key-value store (`levelKeys` in
 * src/main/level/sublevels/keys.ts): a few constant sublevel names and
 * colon-separated composite keys built from a shop, an object id and a
 * language.
 */
module LevelKeys {

  import opened Wrappers

  /** The separator inside composite keys. */
  const Separator: char := ':'

  const Games: string := "games"
  const User: string := "user"
  const Auth: string := "auth"
  const GameShopCache: string := "gameShopCache"
  const GameAchievements: string := "gameAchievements"

  /** The constant sublevel names, as a set. */
  const ConstantKeys: set<string> := {Games, User, Auth, GameShopCache, GameAchievements}

  /** `levelKeys.game(shop, objectId)`: the key `<shop>:<objectId>`. */
  function Game(shop: string, objectId: string): (key: string)
    ensures |key| == |shop| + |objectId| + 1
    ensures key[..|shop|] == shop
    ensures key[|shop|] == Separator
    ensures key[|shop| + 1..] == objectId
  {
    shop + [Separator] + objectId
  }

  /** `levelKeys.gameShopCacheItem(shop, objectId, language)`: the key `<shop>:<objectId>:<language>`. */
  function GameShopCacheItem(shop: string, objectId: string, language: string): (key: string)
    ensures |key| == |shop| + |objectId| + |language| + 2
    ensures key[..|shop|] == shop
    ensures key[|shop|] == Separator
    ensures key[|shop| + 1..|shop| + 1 + |objectId|] == objectId
    ensures key[|shop| + 1 + |objectId|] == Separator
    ensures key[|shop| + |objectId| + 2..] == language
  {
    shop + [Separator] + objectId + [Separator] + language
  }

  /** The position of the first separator in `key`, or `|key|` when there is none. */
  function FirstSeparator(key: string): (i: nat)
    ensures i <= |key|
    ensures i < |key| ==> key[i] == Separator
    ensures forall j :: 0 <= j < i ==> key[j] != Separator
  {
    if key == [] then 0
    else if key[0] == Separator then 0
    else 1 + FirstSeparator(key[1..])
  }

  /**
   * Splits a key at its first separator into the part before and the part
   * after it; `None` when the key holds no separator. This is the decoder the
   * injectivity of the composite keys is stated against.
   */
  function Split(key: string): (r: Option<(string, string)>)
    ensures r.None? <==> Separator !in key
    ensures r.Some? ==> Separator !in r.value.0 && key == r.value.0 + [Separator] + r.value.1
  {
    var i := FirstSeparator(key);
    if i == |key| then None
    else
      assert key == key[..i] + [Separator] + key[i + 1..];
      Some((key[..i], key[i + 1..]))
  }

  /** Splitting `a:b` gives back `a` and `b` when `a` holds no separator. */
  lemma {:induction false} SplitJoin(a: string, b: string)
    requires Separator !in a
    ensures Split(a + [Separator] + b) == Some((a, b))
  {
    var key := a + [Separator] + b;
    var i := FirstSeparator(key);
    assert key[|a|] == Separator;
    assert i == |a|;
    assert key[..i] == a;
    assert key[i + 1..] == b;
  }

  /** The game key decodes back to its shop and object id. */
  lemma GameRoundTrip(shop: string, objectId: string)
    requires Separator !in shop
    ensures Split(Game(shop, objectId)) == Some((shop, objectId))
  {
    SplitJoin(shop, objectId);
  }

  /** A cache-item key decodes to its shop, then to its object id and language. */
  lemma GameShopCacheItemRoundTrip(shop: string, objectId: string, language: string)
    requires Separator !in shop && Separator !in objectId
    ensures Split(GameShopCacheItem(shop, objectId, language)) == Some((shop, objectId + [Separator] + language))
    ensures Split(objectId + [Separator] + language) == Some((objectId, language))
  {
    assert GameShopCacheItem(shop, objectId, language) == shop + [Separator] + (objectId + [Separator] + language);
    SplitJoin(shop, objectId + [Separator] + language);
    SplitJoin(objectId, language);
  }

  /** The cache-item key is the game key followed by a separator and the language. */
  lemma GameShopCacheItemExtendsGame(shop: string, objectId: string, language: string)
    ensures GameShopCacheItem(shop, objectId, language) == Game(shop, objectId) + [Separator] + language
    ensures |Game(shop, objectId)| < |GameShopCacheItem(shop, objectId, language)|
    ensures GameShopCacheItem(shop, objectId, language)[..|Game(shop, objectId)|] == Game(shop, objectId)
  {
  }

  /** Game keys are injective when shops hold no separator. */
  lemma GameInjective(shop1: string, objectId1: string, shop2: string, objectId2: string)
    requires Separator !in shop1 && Separator !in shop2
    requires Game(shop1, objectId1) == Game(shop2, objectId2)
    ensures shop1 == shop2 && objectId1 == objectId2
  {
    GameRoundTrip(shop1, objectId1);
    GameRoundTrip(shop2, objectId2);
  }

  /** Cache-item keys are injective in all three arguments when shops and object ids hold no separator. */
  lemma GameShopCacheItemInjective(shop1: string, objectId1: string, language1: string,
                                   shop2: string, objectId2: string, language2: string)
    requires Separator !in shop1 && Separator !in objectId1
    requires Separator !in shop2 && Separator !in objectId2
    requires GameShopCacheItem(shop1, objectId1, language1) == GameShopCacheItem(shop2, objectId2, language2)
    ensures shop1 == shop2 && objectId1 == objectId2 && language1 == language2
  {
    GameShopCacheItemRoundTrip(shop1, objectId1, language1);
    GameShopCacheItemRoundTrip(shop2, objectId2, language2);
  }

  /** The constant sublevel names are pairwise distinct and hold no separator. */
  lemma ConstantKeysDistinct()
    ensures |ConstantKeys| == 5
    ensures forall k :: k in ConstantKeys ==> Separator !in k
  {
  }

  /** No composite key ever equals a constant sublevel name. */
  lemma CompositeKeysAreNotConstants(shop: string, objectId: string, language: string)
    ensures Game(shop, objectId) !in ConstantKeys
    ensures GameShopCacheItem(shop, objectId, language) !in ConstantKeys
  {
    ConstantKeysDistinct();
    assert Separator in Game(shop, objectId);
    assert Separator in GameShopCacheItem(shop, objectId, language);
  }
}
