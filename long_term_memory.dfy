/**
 * The long-term tier manager: promotes one short-term summary into the
 * facts the model extracts from it, answers hp-ranked listings through a
 * per-user hot cache, and runs the boost, decay and cleanup of hp.
 */
module LongTermMemory {

  import opened Common
  import opened MemoryItems
  import opened MemoryConfig
  import opened MemoryStorage
  import opened LlmAdapter

  /**
   * The items built from the extracted facts: each keeps the summary's
   * embedding, timestamp and user, takes the fact's content and hp, and
   * gets the `k`-th fresh id `ids(k)`.
   */
  function BuildPromoted(short: MemoryItem, facts: seq<Fact>, ids: nat -> MemoryId): (r: seq<MemoryItem>)
    ensures |r| == |facts|
  {
    seq(|facts|, k requires 0 <= k < |facts| =>
      MemoryItem(ids(k), facts[k].content, short.embedding, short.timestamp, facts[k].hp, short.userId))
  }

  /** The built items whose save succeeded, in order. */
  function SavedOf(built: seq<MemoryItem>, saveOk: nat -> bool): seq<MemoryItem> {
    if built == [] then []
    else
      var prev := SavedOf(built[..|built| - 1], saveOk);
      if saveOk(|built| - 1) then prev + [built[|built| - 1]] else prev
  }

  /** The table after saving the built items one by one. */
  function SaveEach(rows: seq<MemoryItem>, built: seq<MemoryItem>, saveOk: nat -> bool): seq<MemoryItem> {
    if built == [] then rows
    else
      var prev := SaveEach(rows, built[..|built| - 1], saveOk);
      if saveOk(|built| - 1) then Upsert(prev, built[|built| - 1]) else prev
  }

  /** Every saved item was built, and when every save succeeds all of them are saved. */
  lemma {:induction false} SavedOfSpec(built: seq<MemoryItem>, saveOk: nat -> bool)
    ensures |SavedOf(built, saveOk)| <= |built|
    ensures forall x | x in SavedOf(built, saveOk) :: x in built
    ensures (forall k: nat :: saveOk(k)) ==> SavedOf(built, saveOk) == built
  {
    if built != [] {
      var init := built[..|built| - 1];
      SavedOfSpec(init, saveOk);
      assert built == init + [built[|built| - 1]];
    }
  }

  /**
   * Every promoted item inherits the summary's user, timestamp and embedding,
   * and takes content and hp of one extracted fact.
   */
  lemma PromotedInherit(short: MemoryItem, facts: seq<Fact>, ids: nat -> MemoryId, saveOk: nat -> bool)
    ensures forall x | x in SavedOf(BuildPromoted(short, facts, ids), saveOk) ::
      x.userId == short.userId && x.timestamp == short.timestamp && x.embedding == short.embedding &&
      exists k | 0 <= k < |facts| :: x.content == facts[k].content && x.hp == facts[k].hp && x.id == ids(k)
  {
    var built := BuildPromoted(short, facts, ids);
    SavedOfSpec(built, saveOk);
    forall x | x in SavedOf(built, saveOk)
      ensures exists k | 0 <= k < |facts| :: x.content == facts[k].content && x.hp == facts[k].hp && x.id == ids(k)
    {
      var k :| 0 <= k < |built| && built[k] == x;
    }
  }

  /** Ids the table does not hold and that differ from each other. */
  predicate FreshIds(rows: seq<MemoryItem>, ids: nat -> MemoryId, n: nat) {
    && (forall k, x | 0 <= k < n && x in rows :: ids(k) != x.id)
    && (forall j, k | 0 <= j < k < n :: ids(j) != ids(k))
  }

  /** With fresh ids and every save succeeding, promotion appends every extracted fact to the table. */
  lemma {:induction false} PromotionAppends(rows: seq<MemoryItem>, short: MemoryItem, facts: seq<Fact>,
                                            ids: nat -> MemoryId, saveOk: nat -> bool)
    requires forall k: nat :: saveOk(k)
    requires FreshIds(rows, ids, |facts|)
    ensures SaveEach(rows, BuildPromoted(short, facts, ids), saveOk) == rows + BuildPromoted(short, facts, ids)
  {
    var built := BuildPromoted(short, facts, ids);
    SaveAllFresh(rows, built, saveOk);
  }

  lemma {:induction false} SaveAllFresh(rows: seq<MemoryItem>, built: seq<MemoryItem>, saveOk: nat -> bool)
    requires forall k: nat :: saveOk(k)
    requires forall k, x | 0 <= k < |built| && x in rows :: built[k].id != x.id
    requires forall j, k | 0 <= j < k < |built| :: built[j].id != built[k].id
    ensures SaveEach(rows, built, saveOk) == rows + built
  {
    if built != [] {
      var init := built[..|built| - 1];
      var last := built[|built| - 1];
      SaveAllFresh(rows, init, saveOk);
      forall x | x in rows + init
        ensures x.id != last.id
      {
        if x !in rows {
          var j :| 0 <= j < |init| && init[j] == x;
          assert built[j] == x;
        }
      }
      UpsertFreshAppends(rows + init, last);
      assert rows + init + [last] == rows + built;
    }
  }

  /**
   * A reply can hand a promoted fact hp 1: the item built from it is in the
   * short-term tier, not the long-term one.
   */
  lemma PromotionMayDemote(short: MemoryItem, ids: nat -> MemoryId)
    ensures var built := BuildPromoted(short, ExtractLongTermFacts(Some(Block(Fact("x", 1)))), ids);
            |built| == 1 && built[0].IsShortTerm() && !built[0].IsLongTerm()
  {
    ParseMayGiveHpOne();
  }

  /** No extracted fact asks for hp 1, the short-term tag. */
  predicate NoShortFacts(facts: seq<Fact>) {
    forall i | 0 <= i < |facts| :: facts[i].hp != 1
  }

  /**
   * The facts with hp raised to at least 2, the long-term range the comment
   * at the item's construction promises; facts already in range are kept.
   */
  function ClampFacts(facts: seq<Fact>): (r: seq<Fact>)
    ensures |r| == |facts| && NoShortFacts(r)
    ensures forall i | 0 <= i < |facts| :: r[i].content == facts[i].content && r[i].hp >= 2
    ensures forall i | 0 <= i < |facts| && facts[i].hp >= 2 :: r[i] == facts[i]
  {
    seq(|facts|, i requires 0 <= i < |facts| => Fact(facts[i].content, if facts[i].hp >= 2 then facts[i].hp else 2))
  }

  /** Items built from facts without hp 1 are short-term rows of nobody. */
  lemma BuiltNotShort(short: MemoryItem, facts: seq<Fact>, ids: nat -> MemoryId, user: UserId)
    requires NoShortFacts(facts)
    ensures var built := BuildPromoted(short, facts, ids);
            forall i | 0 <= i < |built| :: !Selected(built[i], user, ShortTier)
  {
  }

  /**
   * Saving items that are not short-term rows of the user never raises the
   * user's short-term count, and lowers it when a save overwrites one of them.
   */
  lemma {:induction false} SaveEachCount(rows: seq<MemoryItem>, built: seq<MemoryItem>, saveOk: nat -> bool, user: UserId)
    requires forall i | 0 <= i < |built| :: !Selected(built[i], user, ShortTier)
    ensures ShortTermCount(SaveEach(rows, built, saveOk), user) <= ShortTermCount(rows, user)
    ensures (exists x | x in rows && Selected(x, user, ShortTier) :: x !in SaveEach(rows, built, saveOk)) ==>
              ShortTermCount(SaveEach(rows, built, saveOk), user) < ShortTermCount(rows, user)
  {
    if built != [] {
      var init := built[..|built| - 1];
      var last := built[|built| - 1];
      var prev := SaveEach(rows, init, saveOk);
      SaveEachCount(rows, init, saveOk, user);
      UpsertCount(prev, last, user);
      if exists x | x in rows && Selected(x, user, ShortTier) :: x !in SaveEach(rows, built, saveOk) {
        var x :| x in rows && Selected(x, user, ShortTier) && x !in SaveEach(rows, built, saveOk);
        if x in prev {
          assert saveOk(|built| - 1);
          assert x in prev && Selected(x, user, ShortTier) && x !in Upsert(prev, last);
        } else {
          assert x in rows && Selected(x, user, ShortTier) && x !in prev;
        }
      }
    }
  }

  class LongTermMemoryManager {
    const config: Config
    const store: MemoryStore
    /** user -> the hp listing last read for that user */
    var hotCache: map<UserId, seq<MemoryItem>>

    constructor (config: Config, store: MemoryStore)
      ensures this.config == config && this.store == store && hotCache == map[]
    {
      this.config := config;
      this.store := store;
      hotCache := map[];
    }

    /** The cached listing of `user`, if any, is a current hp listing of the store. */
    ghost predicate CacheFresh(user: UserId)
      reads this, store
    {
      user in hotCache ==> hotCache[user] == TopLongTerm(store.rows, user, |hotCache[user]|)
    }

    /** `_update_hot_cache` */
    method UpdateHotCache(user: UserId)
      modifies this
      ensures hotCache == old(hotCache)[user := TopLongTerm(store.rows, user, config.longTermHotCacheSize)]
      ensures CacheFresh(user)
    {
      var listing := store.GetLongTermMemories(user, config.longTermHotCacheSize);
      TopListingPrefix(store.rows, user, config.longTermHotCacheSize, |listing|);
      hotCache := hotCache[user := listing];
    }

    /**
     * `promote_from_short_term`. `reply` is the extraction call's answer
     * (`None` when it raised), `ids(k)` the `uuid4` of the `k`-th built item
     * and `saveOk(k)` the database's answer to its save. Saves happen one by
     * one; a failed save is skipped. The cache is refreshed only when
     * something was saved.
     */
    method PromoteFromShortTerm(short: MemoryItem, reply: Option<string>, ids: nat -> MemoryId, saveOk: nat -> bool)
      returns (saved: seq<MemoryItem>)
      requires store.Valid()
      modifies this, store
      ensures store.Valid()
      ensures var built := BuildPromoted(short, ExtractLongTermFacts(reply), ids);
              && saved == SavedOf(built, saveOk)
              && store.rows == SaveEach(old(store.rows), built, saveOk)
              && hotCache == (if saved != [] then old(hotCache)[short.userId := TopLongTerm(store.rows, short.userId, config.longTermHotCacheSize)]
                              else old(hotCache))
    {
      var facts := ExtractLongTermFacts(reply);
      var built := BuildPromoted(short, facts, ids);
      if facts == [] {
        return [];
      }
      saved := SaveBuilt(built, saveOk);
      if saved != [] {
        UpdateHotCache(short.userId);
      }
    }

    /** The loop of `promote_from_short_term`: each built item is saved in turn, a failed save skipped. */
    method SaveBuilt(built: seq<MemoryItem>, saveOk: nat -> bool) returns (saved: seq<MemoryItem>)
      requires store.Valid()
      modifies store
      ensures store.Valid()
      ensures saved == SavedOf(built, saveOk)
      ensures store.rows == SaveEach(old(store.rows), built, saveOk)
    {
      ghost var before := store.rows;
      saved := [];
      for k := 0 to |built|
        invariant store.Valid()
        invariant saved == SavedOf(built[..k], saveOk)
        invariant store.rows == SaveEach(before, built[..k], saveOk)
      {
        assert built[..k + 1][..k] == built[..k];
        var ok := store.SaveMemory(built[k], saveOk(k));
        if ok {
          saved := saved + [built[k]];
        }
      }
      assert built[..|built|] == built;
    }

    /**
     * `get_top_memories`; `limit` `None` means the configured cache size. A
     * cached listing long enough answers; otherwise the store does and its
     * answer replaces the cache. When the cache was current, the answer is
     * the store's hp listing either way.
     */
    method GetTopMemories(user: UserId, limit: Option<nat>) returns (r: seq<MemoryItem>)
      modifies this
      ensures var n := if limit.Some? then limit.value else config.longTermHotCacheSize;
              && (user in old(hotCache) && |old(hotCache)[user]| >= n ==>
                    r == old(hotCache)[user][..n] && hotCache == old(hotCache))
              && (!(user in old(hotCache) && |old(hotCache)[user]| >= n) ==>
                    r == TopLongTerm(store.rows, user, n) && hotCache == old(hotCache)[user := r])
              && (old(CacheFresh(user)) ==> r == TopLongTerm(store.rows, user, n) && CacheFresh(user))
    {
      var n := if limit.Some? then limit.value else config.longTermHotCacheSize;
      if user in hotCache {
        var cached := hotCache[user];
        if |cached| >= n {
          if CacheFresh(user) {
            TopListingPrefix(store.rows, user, |cached|, n);
          }
          return cached[..n];
        }
      }
      r := store.GetLongTermMemories(user, n);
      TopListingPrefix(store.rows, user, n, |r|);
      hotCache := hotCache[user := r];
    }

    /** `get_all_memories`: every long-term row of the user, highest hp first. */
    method GetAllMemories(user: UserId) returns (r: seq<MemoryItem>)
      ensures r == AllLongTerm(store.rows, user)
    {
      r := store.GetAllLongTermMemories(user);
    }

    /**
     * `boost_memory_hp`: the caller's item gains the boost unclamped, the row
     * gains it clamped at 0 unless the UPDATE fails (the store swallows that
     * failure), and the user's cache is rebuilt from the store either way.
     */
    method BoostMemoryHp(memory: MemoryItem, writeOk: bool) returns (boosted: MemoryItem)
      requires store.Valid()
      modifies this, store
      ensures store.Valid()
      ensures boosted == memory.(hp := memory.hp + config.hpBoostOnAccess)
      ensures store.rows == if writeOk then HpAdjusted(old(store.rows), memory.id, config.hpBoostOnAccess) else old(store.rows)
      ensures hotCache == old(hotCache)[memory.userId := TopLongTerm(store.rows, memory.userId, config.longTermHotCacheSize)]
    {
      boosted := memory.(hp := memory.hp + config.hpBoostOnAccess);
      store.UpdateMemoryHp(memory.id, config.hpBoostOnAccess, writeOk);
      UpdateHotCache(memory.userId);
    }

    /** `decay_all_memories`: decays the user's long-term rows and refreshes the cache; a raised decay skips the refresh. */
    method DecayAllMemories(user: UserId, writeOk: bool) returns (ok: bool)
      requires store.Valid() && config.Valid()
      modifies this, store
      ensures store.Valid()
      ensures ok == writeOk
      ensures store.rows == if ok then Decayed(old(store.rows), user, config.hpDecayRate) else old(store.rows)
      ensures hotCache == if ok then old(hotCache)[user := TopLongTerm(store.rows, user, config.longTermHotCacheSize)]
                          else old(hotCache)
    {
      ok := store.DecayAllHp(user, config.hpDecayRate, writeOk);
      if ok {
        UpdateHotCache(user);
      }
    }

    /** `cleanup_expired_memories`: deletes every hp <= 0 row and empties the whole cache; a raised delete leaves the cache. */
    method CleanupExpiredMemories(writeOk: bool) returns (deleted: nat, ok: bool)
      requires store.Valid()
      modifies this, store
      ensures store.Valid()
      ensures ok == writeOk
      ensures store.rows == if ok then Alive(old(store.rows)) else old(store.rows)
      ensures deleted == if ok then |Expired(old(store.rows))| else 0
      ensures hotCache == if ok then map[] else old(hotCache)
    {
      deleted, ok := store.CleanupExpiredMemories(writeOk);
      if ok {
        hotCache := map[];
      }
    }

    /**
     * `clear_user_memories`: drops the user's cache, then deletes every
     * long-term row of the user; the `k`-th delete succeeds when `deleteOk(k)`.
     */
    method ClearUserMemories(user: UserId, deleteOk: nat -> bool)
      requires store.Valid()
      modifies this, store
      ensures store.Valid()
      ensures hotCache == old(hotCache) - {user}
      ensures store.rows == DeleteEach(old(store.rows), AllLongTerm(old(store.rows), user), deleteOk)
    {
      hotCache := hotCache - {user};
      var memories := store.GetAllLongTermMemories(user);
      ghost var before := store.rows;
      for i := 0 to |memories|
        invariant store.Valid()
        invariant hotCache == old(hotCache) - {user}
        invariant store.rows == DeleteEach(before, memories[..i], deleteOk)
      {
        assert memories[..i + 1][..i] == memories[..i];
        var _ := store.DeleteMemory(memories[i].id, deleteOk(i));
      }
      assert memories[..|memories|] == memories;
    }
  }

  /**
   * When every delete succeeds, clearing leaves the user no long-term row
   * (there is no cap on this listing), and every row that is not a long-term
   * row of the user survives.
   */
  lemma ClearEmptiesLongTier(rows: seq<MemoryItem>, user: UserId, deleteOk: nat -> bool)
    requires UniqueIds(rows)
    requires forall k: nat :: deleteOk(k)
    ensures var after := DeleteEach(rows, AllLongTerm(rows, user), deleteOk);
            && Select(after, user, LongTier) == []
            && (forall x | x in rows && !Selected(x, user, LongTier) :: x in after)
  {
    var ms := AllLongTerm(rows, user);
    AllLongTermMembers(rows, user);
    ClearedTierEmpty(rows, user, LongTier, ms, deleteOk);
    forall x | x in rows && !Selected(x, user, LongTier)
      ensures x in DeleteEach(rows, ms, deleteOk)
    {
      ClearKeepsOthers(rows, ms, deleteOk, x);
    }
  }
}
