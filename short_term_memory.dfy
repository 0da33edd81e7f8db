/**
 * The short-term tier manager: turns a batch of conversation states into one
 * hp-1 summary row, answers recency listings through a per-user hot cache,
 * and deletes or boosts rows on behalf of the promotion cascade.
 */
module ShortTermMemory {

  import opened Common
  import opened MemoryItems
  import opened MemoryConfig
  import opened MemoryStorage
  import opened LlmAdapter

  /** The characters of a string as Python iterates it: one one-character string each. */
  function Chars(s: string): seq<string> {
    seq(|s|, i requires 0 <= i < |s| => [s[i]])
  }

  /** Estimating the tokens of a bare string counts its characters. */
  lemma {:induction false} EstimateOfString(s: string)
    ensures TotalChars(Chars(s)) == |s|
  {
    if s != [] {
      assert Chars(s)[1..] == Chars(s[1..]);
      EstimateOfString(s[1..]);
    }
  }

  /** The summed content lengths of a list of memories. */
  function ContentChars(ms: seq<MemoryItem>): nat {
    if ms == [] then 0 else ContentChars(ms[..|ms| - 1]) + |ms[|ms| - 1].content|
  }

  /** The batch that `process_states` turns into a summary: non-empty and at the token threshold. */
  predicate BatchQualifies(config: Config, states: seq<string>) {
    states != [] && TotalChars(states) >= config.statesTokenThreshold
  }

  /**
   * A cached listing after `memory.hp += boost` on the object it holds with
   * that id (the listing comes from the table, so ids are unique in it).
   */
  function BoostedEntries(ms: seq<MemoryItem>, id: MemoryId, boost: int): seq<MemoryItem> {
    seq(|ms|, i requires 0 <= i < |ms| => if ms[i].id == id then ms[i].(hp := ms[i].hp + boost) else ms[i])
  }

  /**
   * After a shared boost the cache holds exactly the caller's boosted item
   * where the item was, and every other entry as it was.
   */
  lemma CacheSharesBoost(ms: seq<MemoryItem>, memory: MemoryItem, boost: int)
    requires UniqueIds(ms) && memory in ms
    ensures var r := BoostedEntries(ms, memory.id, boost);
            && |r| == |ms|
            && memory.(hp := memory.hp + boost) in r
            && (forall i | 0 <= i < |ms| && ms[i] != memory :: r[i] == ms[i])
  {
    var r := BoostedEntries(ms, memory.id, boost);
    var k :| 0 <= k < |ms| && ms[k] == memory;
    assert r[k] == memory.(hp := memory.hp + boost);
    forall i | 0 <= i < |ms| && ms[i] != memory
      ensures r[i] == ms[i]
    {
      assert i != k;
      assert ms[i].id != ms[k].id by {
        if i < k {
          assert ms[i].id != ms[k].id;
        } else {
          assert ms[k].id != ms[i].id;
        }
      }
    }
  }

  class ShortTermMemoryManager {
    const config: Config
    const store: MemoryStore
    /** user -> the recency listing last read for that user */
    var hotCache: map<UserId, seq<MemoryItem>>

    constructor (config: Config, store: MemoryStore)
      ensures this.config == config && this.store == store && hotCache == map[]
    {
      this.config := config;
      this.store := store;
      hotCache := map[];
    }

    /** The cached listing of `user`, if any, is a current recency listing of the store. */
    ghost predicate CacheFresh(user: UserId)
      reads this, store
    {
      user in hotCache ==> hotCache[user] == RecentShortTerm(store.rows, user, |hotCache[user]|)
    }

    /** `_update_hot_cache` */
    method UpdateHotCache(user: UserId)
      modifies this
      ensures hotCache == old(hotCache)[user := RecentShortTerm(store.rows, user, config.shortTermHotCacheSize)]
      ensures CacheFresh(user)
    {
      var listing := store.GetShortTermMemories(user, config.shortTermHotCacheSize);
      ListingPrefix(store.rows, user, config.shortTermHotCacheSize, |listing|);
      hotCache := hotCache[user := listing];
    }

    /**
     * `process_states`. `id` and `now` stand for the item's `uuid4` and
     * `datetime.now()`; `summaryReply` and `embeddingReply` are the two model
     * calls (`None` when they raised) and `saveOk` the database's answer.
     * Nothing happens for an empty or too small batch; otherwise the summary
     * row is saved and, on success, returned and the cache refreshed.
     */
    method ProcessStates(states: seq<string>, user: UserId, id: MemoryId, now: int,
                         summaryReply: Option<string>, embeddingReply: Option<seq<real>>, saveOk: bool)
      returns (r: Option<MemoryItem>)
      requires store.Valid()
      modifies this, store
      ensures store.Valid()
      ensures var m := MemoryItem(id, SummarizeStates(summaryReply), TextEmbedding(embeddingReply), now, 1, user);
              && (r.Some? <==> BatchQualifies(config, states) && saveOk)
              && (r.Some? ==> r.value == m && r.value.IsShortTerm())
              && store.rows == (if BatchQualifies(config, states) && saveOk then Upsert(old(store.rows), m) else old(store.rows))
              && hotCache == (if r.Some? then old(hotCache)[user := RecentShortTerm(store.rows, user, config.shortTermHotCacheSize)]
                              else old(hotCache))
    {
      if states == [] {
        return None;
      }
      var tokenCount := EstimateTokenCount(states);
      if tokenCount < config.statesTokenThreshold {
        return None;
      }
      var summary := SummarizeStates(summaryReply);
      var m := NewMemoryItem(id, summary, [], now, user);
      m := m.(embedding := TextEmbedding(embeddingReply));
      var ok := store.SaveMemory(m, saveOk);
      if ok {
        UpdateHotCache(user);
        return Some(m);
      }
      return None;
    }

    /**
     * `get_recent_memories`; `limit` `None` means the configured cache size. A
     * cached listing long enough answers the call; otherwise the store does
     * and its answer replaces the cache. When the cache was current, the
     * answer is the store's recency listing either way.
     */
    method GetRecentMemories(user: UserId, limit: Option<nat>) returns (r: seq<MemoryItem>)
      modifies this
      ensures var n := if limit.Some? then limit.value else config.shortTermHotCacheSize;
              && (user in old(hotCache) && |old(hotCache)[user]| >= n ==>
                    r == old(hotCache)[user][..n] && hotCache == old(hotCache))
              && (!(user in old(hotCache) && |old(hotCache)[user]| >= n) ==>
                    r == RecentShortTerm(store.rows, user, n) && hotCache == old(hotCache)[user := r])
              && (old(CacheFresh(user)) ==> r == RecentShortTerm(store.rows, user, n) && CacheFresh(user))
    {
      var n := if limit.Some? then limit.value else config.shortTermHotCacheSize;
      if user in hotCache {
        var cached := hotCache[user];
        if |cached| >= n {
          if CacheFresh(user) {
            ListingPrefix(store.rows, user, |cached|, n);
          }
          return cached[..n];
        }
      }
      r := store.GetShortTermMemories(user, n);
      ListingPrefix(store.rows, user, n, |r|);
      hotCache := hotCache[user := r];
    }

    /**
     * `get_short_term_total_tokens`: the summed content lengths of the cached
     * listing (each content is estimated as an iterable of characters);
     * `None` models the `KeyError` for a user with no cached listing.
     */
    method GetShortTermTotalTokens(user: UserId) returns (total: Option<nat>)
      ensures user !in hotCache ==> total.None?
      ensures user in hotCache ==> total == Some(ContentChars(hotCache[user]))
    {
      if user !in hotCache {
        return None;
      }
      var ms := hotCache[user];
      var sum := 0;
      for i := 0 to |ms|
        invariant sum == ContentChars(ms[..i])
      {
        var t := EstimateTokenCount(Chars(ms[i].content));
        EstimateOfString(ms[i].content);
        assert ms[..i + 1][..i] == ms[..i];
        sum := sum + t;
      }
      assert ms[..|ms|] == ms;
      return Some(sum);
    }

    /** `check_overflow`: strictly more short-term rows than the configured maximum. */
    method CheckOverflow(user: UserId) returns (b: bool)
      ensures b <==> ShortTermCount(store.rows, user) > config.shortTermMaxCount
    {
      var count := store.CountShortTermMemories(user);
      b := count > config.shortTermMaxCount;
    }

    /** `get_oldest_memory` */
    method GetOldestMemory(user: UserId) returns (r: Option<MemoryItem>)
      ensures r == OldestShortTerm(store.rows, user)
      ensures r.None? <==> ShortTermCount(store.rows, user) == 0
      ensures r.Some? ==> r.value in store.rows && Selected(r.value, user, ShortTier)
    {
      r := store.GetOldestShortTermMemory(user);
    }

    /** `delete_memory`: a successful delete refreshes the user's cache. */
    method DeleteMemory(id: MemoryId, user: UserId, writeOk: bool) returns (ok: bool)
      requires store.Valid()
      modifies this, store
      ensures store.Valid()
      ensures ok == writeOk
      ensures store.rows == if ok then RemoveId(old(store.rows), id) else old(store.rows)
      ensures hotCache == if ok then old(hotCache)[user := RecentShortTerm(store.rows, user, config.shortTermHotCacheSize)]
                          else old(hotCache)
    {
      ok := store.DeleteMemory(id, writeOk);
      if ok {
        UpdateHotCache(user);
      }
    }

    /**
     * `boost_memory_hp`: the caller's item gains the boost unclamped, the row
     * gains it clamped at 0 unless the UPDATE fails (the store swallows that
     * failure). The cache is not refreshed, but `get_recent_memories` hands
     * out the cached objects themselves: when the item is one of them
     * (`shared`), the increment made in place shows in the cache too.
     */
    method BoostMemoryHp(memory: MemoryItem, shared: bool, writeOk: bool) returns (boosted: MemoryItem)
      requires store.Valid()
      requires shared ==> memory.userId in hotCache && memory in hotCache[memory.userId]
      modifies this, store
      ensures store.Valid()
      ensures boosted == memory.(hp := memory.hp + config.hpBoostOnAccess)
      ensures store.rows == if writeOk then HpAdjusted(old(store.rows), memory.id, config.hpBoostOnAccess) else old(store.rows)
      ensures hotCache == if shared then old(hotCache)[memory.userId := BoostedEntries(old(hotCache)[memory.userId], memory.id, config.hpBoostOnAccess)]
                          else old(hotCache)
    {
      boosted := memory.(hp := memory.hp + config.hpBoostOnAccess);
      if shared {
        hotCache := hotCache[memory.userId := BoostedEntries(hotCache[memory.userId], memory.id, config.hpBoostOnAccess)];
      }
      store.UpdateMemoryHp(memory.id, config.hpBoostOnAccess, writeOk);
    }

    /**
     * `clear_user_memories`: drops the user's cache, then deletes the rows
     * of one listing of at most 1000 short-term rows; the `k`-th delete
     * succeeds when `deleteOk(k)`.
     */
    method ClearUserMemories(user: UserId, deleteOk: nat -> bool)
      requires store.Valid()
      modifies this, store
      ensures store.Valid()
      ensures hotCache == old(hotCache) - {user}
      ensures store.rows == DeleteEach(old(store.rows), RecentShortTerm(old(store.rows), user, 1000), deleteOk)
    {
      hotCache := hotCache - {user};
      var memories := store.GetShortTermMemories(user, 1000);
      ghost var before := store.rows;
      for i := 0 to |memories|
        invariant store.Valid()
        invariant hotCache == old(hotCache) - {user}
        invariant store.rows == DeleteEach(before, memories[..i], deleteOk)
      {
        assert memories[..i + 1][..i] == memories[..i];
        var _ := store.DeleteMemory(memories[i].id, deleteOk(i));
      }
      assert memories[..|memories|] == memories;
    }
  }

  /**
   * When every delete succeeds and the user has at most 1000 short-term rows,
   * clearing leaves the user no short-term row, and every row that is not a
   * short-term row of the user (other users, the long-term tier) survives.
   */
  lemma ClearEmptiesShortTier(rows: seq<MemoryItem>, user: UserId, deleteOk: nat -> bool)
    requires UniqueIds(rows)
    requires forall k: nat :: deleteOk(k)
    requires ShortTermCount(rows, user) <= 1000
    ensures var after := DeleteEach(rows, RecentShortTerm(rows, user, 1000), deleteOk);
            && ShortTermCount(after, user) == 0
            && (forall x | x in rows && !Selected(x, user, ShortTier) :: x in after)
  {
    var ms := RecentShortTerm(rows, user, 1000);
    ListingIsTopOfTier(rows, user, ShortTier, ByRecency, 1000);
    SelectSpec(rows, user, ShortTier);
    var sel := Select(rows, user, ShortTier);
    SortSpec(ByRecency, sel);
    assert |Sort(ByRecency, sel)| == |sel| by {
      assert |multiset(Sort(ByRecency, sel))| == |multiset(sel)|;
    }
    assert ms == Sort(ByRecency, sel);
    forall x | x in rows && Selected(x, user, ShortTier)
      ensures x in ms
    {
      assert x in multiset(sel);
    }
    ClearedTierEmpty(rows, user, ShortTier, ms, deleteOk);
    forall y | y in ms
      ensures y in rows
    {
      assert y in multiset(sel);
    }
    forall x | x in rows && !Selected(x, user, ShortTier)
      ensures x in DeleteEach(rows, ms, deleteOk)
    {
      ClearKeepsOthers(rows, ms, deleteOk, x);
    }
  }

  /**
   * A hit on a cached listing that the store has moved past returns the old
   * rows: here the cache holds the only row of an earlier read, a newer
   * short-term row has since appeared (as a decay from hp 2 to 1 produces,
   * without refreshing this cache), and a limit-1 read still answers the old row.
   */
  lemma StaleCacheHit()
    ensures var old1 := MemoryItem("a", "x", [], 5, 1, "u");
            var new1 := MemoryItem("b", "y", [], 9, 1, "u");
            var cached := RecentShortTerm([old1], "u", 5);
            && cached == [old1]
            && |cached| >= 1 && cached[..1] == [old1]
            && RecentShortTerm([old1, new1], "u", 1) == [new1]
  {
    var old1 := MemoryItem("a", "x", [], 5, 1, "u");
    var new1 := MemoryItem("b", "y", [], 9, 1, "u");
    assert [old1, new1][..1] == [old1];
    assert Select([old1], "u", ShortTier) == [old1];
    assert Select([old1, new1], "u", ShortTier) == [old1, new1];
    assert Sort(ByRecency, [old1]) == [old1];
    assert Sort(ByRecency, [old1, new1]) == Insert(ByRecency, new1, [old1]) == [new1, old1];
  }
}
