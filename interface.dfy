/**
 * The facade `MemorySystem`: writing a batch of states, the overflow-driven
 * promotion cascade, periodic maintenance (decay, then cleanup), statistics
 * and clearing a user. The cascade and maintenance are specified by functions
 * on the engine's state (the table and both hot caches); the methods of the
 * class are proved against them.
 */
module MemoryFacade {

  import opened Common
  import opened Text
  import opened MemoryItems
  import opened MemoryConfig
  import opened MemoryStorage
  import opened LlmAdapter
  import opened ShortTermMemory
  import opened LongTermMemory
  import opened MemoryFormat

  /** What the facade's operations change: the table and the two managers' hot caches. */
  datatype Engine = Engine(
    rows: seq<MemoryItem>,
    shortCache: map<UserId, seq<MemoryItem>>,
    longCache: map<UserId, seq<MemoryItem>>)

  /**
   * The outside world's answers during one cascade, by promotion step `k`:
   * the extraction reply (`None` when the call raised), the `uuid4` drawn for
   * the `j`-th fact, whether its save succeeded, and whether the delete of
   * the promoted summary succeeded; then, by maintenance pass `j` in the
   * order the passes run, whether its decay and its cleanup went through
   * (`false`: the statement raised).
   */
  datatype Oracle = Oracle(
    reply: nat -> Option<string>,
    ids: nat -> nat -> MemoryId,
    saveOk: nat -> nat -> bool,
    deleteOk: nat -> bool,
    decayOk: nat -> bool,
    cleanupOk: nat -> bool)

  /** The facts step `k` promotes; `clampHp` is the corrected reading that keeps them long-term. */
  function StepFacts(o: Oracle, k: nat, clampHp: bool): seq<Fact> {
    var facts := ExtractLongTermFacts(o.reply(k));
    if clampHp then ClampFacts(facts) else facts
  }

  /**
   * One promotion step: the oldest summary is promoted (the long-term cache
   * refreshed when something was saved) and then deleted whether or not the
   * promotion saved anything (the short-term cache refreshed on success).
   */
  function PromoteStep(cfg: Config, e: Engine, user: UserId, oldest: MemoryItem, o: Oracle, k: nat, clampHp: bool): Engine {
    var built := BuildPromoted(oldest, StepFacts(o, k, clampHp), o.ids(k));
    var rows1 := SaveEach(e.rows, built, o.saveOk(k));
    var long1 := if SavedOf(built, o.saveOk(k)) != [] then
                   e.longCache[oldest.userId := TopLongTerm(rows1, oldest.userId, cfg.longTermHotCacheSize)]
                 else e.longCache;
    var rows2 := if o.deleteOk(k) then RemoveId(rows1, oldest.id) else rows1;
    var short2 := if o.deleteOk(k) then e.shortCache[user := RecentShortTerm(rows2, user, cfg.shortTermHotCacheSize)]
                  else e.shortCache;
    Engine(rows2, short2, long1)
  }

  predicate Overflows(cfg: Config, rows: seq<MemoryItem>, user: UserId) {
    ShortTermCount(rows, user) > cfg.shortTermMaxCount
  }

  /**
   * The promotions of `_check_and_promote_sync` from invocation `k` on: the
   * engine once no invocation recurses any more, and how many invocations
   * ran. An invocation promotes only on overflow and recurses only while the
   * overflow persists. `fuel` is the depth at which Python's recursion limit
   * stops the descent.
   */
  function Cascade(cfg: Config, e: Engine, user: UserId, o: Oracle, k: nat, fuel: nat, clampHp: bool): (r: (Engine, nat))
    ensures k <= r.1 && (k <= fuel ==> r.1 <= fuel)
    ensures k < fuel ==> k < r.1
    decreases fuel - k
  {
    if k >= fuel then (e, k)
    else if !Overflows(cfg, e.rows, user) then (e, k + 1)
    else match OldestShortTerm(e.rows, user)
      case None => (e, k + 1)
      case Some(oldest) =>
        var e2 := PromoteStep(cfg, e, user, oldest, o, k, clampHp);
        if Overflows(cfg, e2.rows, user) then Cascade(cfg, e2, user, o, k + 1, fuel, clampHp) else (e2, k + 1)
  }

  /** One invocation of the cascade, unfolded. */
  lemma CascadeUnfold(cfg: Config, e: Engine, user: UserId, o: Oracle, k: nat, fuel: nat)
    requires k < fuel
    ensures !Overflows(cfg, e.rows, user) ==> Cascade(cfg, e, user, o, k, fuel, false) == (e, k + 1)
    ensures Overflows(cfg, e.rows, user) && OldestShortTerm(e.rows, user).None? ==> Cascade(cfg, e, user, o, k, fuel, false) == (e, k + 1)
    ensures Overflows(cfg, e.rows, user) && OldestShortTerm(e.rows, user).Some? ==>
              var e2 := PromoteStep(cfg, e, user, OldestShortTerm(e.rows, user).value, o, k, false);
              Cascade(cfg, e, user, o, k, fuel, false) ==
                if Overflows(cfg, e2.rows, user) && k + 1 < fuel then Cascade(cfg, e2, user, o, k + 1, fuel, false) else (e2, k + 1)
  {
  }

  /**
   * `_periodic_maintenance_sync`: decay the user's long-term rows (which
   * refreshes the long-term cache), then drop every hp <= 0 row of every user
   * (which empties that cache). The `try` around both means a decay that
   * raises skips the cleanup, and a cleanup that raises keeps the decay.
   */
  function Maintenance(cfg: Config, e: Engine, user: UserId, decayOk: bool, cleanupOk: bool): Engine
    requires cfg.Valid()
  {
    if !decayOk then e
    else
      var rows := Decayed(e.rows, user, cfg.hpDecayRate);
      if cleanupOk then Engine(Alive(rows), e.shortCache, map[])
      else Engine(rows, e.shortCache, e.longCache[user := TopLongTerm(rows, user, cfg.longTermHotCacheSize)])
  }

  /** `n` maintenance passes, the `j`-th to run with the oracle's `j`-th answers. */
  function MaintainTimes(cfg: Config, e: Engine, user: UserId, o: Oracle, n: nat): Engine
    requires cfg.Valid()
  {
    if n == 0 then e else Maintenance(cfg, MaintainTimes(cfg, e, user, o, n - 1), user, o.decayOk(n - 1), o.cleanupOk(n - 1))
  }

  /**
   * The whole `_check_and_promote_sync`: every invocation runs maintenance
   * after its recursive call returns, so all promotions come first and one
   * maintenance pass per invocation follows.
   */
  function CheckAndPromote(cfg: Config, e: Engine, user: UserId, o: Oracle, fuel: nat): Engine
    requires cfg.Valid()
  {
    var c := Cascade(cfg, e, user, o, 0, fuel, false);
    MaintainTimes(cfg, c.0, user, o, c.1)
  }

  /** The summary row `process_states` builds. */
  function Summary(user: UserId, id: MemoryId, now: int, summaryReply: Option<string>, embeddingReply: Option<seq<real>>): MemoryItem {
    MemoryItem(id, SummarizeStates(summaryReply), TextEmbedding(embeddingReply), now, 1, user)
  }

  /** The engine after `process_states` saved the summary `m`. */
  function AfterProcess(cfg: Config, e: Engine, user: UserId, m: MemoryItem): Engine {
    var rows := Upsert(e.rows, m);
    Engine(rows, e.shortCache[user := RecentShortTerm(rows, user, cfg.shortTermHotCacheSize)], e.longCache)
  }

  /** `update_memory`: the cascade and maintenance run only when a summary was saved. */
  function UpdateMemorySpec(cfg: Config, e: Engine, states: seq<string>, user: UserId, m: MemoryItem,
                            saveOk: bool, o: Oracle, fuel: nat): Engine
    requires cfg.Valid()
  {
    if BatchQualifies(cfg, states) && saveOk then CheckAndPromote(cfg, AfterProcess(cfg, e, user, m), user, o, fuel) else e
  }

  // ---------------------------------------------------------------------------
  // The cascade's decreasing measure
  // ---------------------------------------------------------------------------

  /** The oracle under which the cascade is meant to terminate: deletes succeed, no fact has hp 1. */
  ghost predicate WellBehaved(o: Oracle, clampHp: bool) {
    && (forall k: nat :: o.deleteOk(k))
    && (forall k: nat :: NoShortFacts(StepFacts(o, k, clampHp)))
  }

  /** A step whose delete succeeds and whose facts avoid hp 1 removes the summary and saves no new one. */
  lemma PromoteStepShrinks(cfg: Config, e: Engine, user: UserId, oldest: MemoryItem, o: Oracle, k: nat, clampHp: bool)
    requires oldest in e.rows && Selected(oldest, user, ShortTier)
    requires o.deleteOk(k) && NoShortFacts(StepFacts(o, k, clampHp))
    ensures ShortTermCount(PromoteStep(cfg, e, user, oldest, o, k, clampHp).rows, user) < ShortTermCount(e.rows, user)
  {
    var built := BuildPromoted(oldest, StepFacts(o, k, clampHp), o.ids(k));
    var rows1 := SaveEach(e.rows, built, o.saveOk(k));
    BuiltNotShort(oldest, StepFacts(o, k, clampHp), o.ids(k), user);
    SaveEachCount(e.rows, built, o.saveOk(k), user);
    RemoveIdCount(rows1, oldest.id, user);
    if oldest in rows1 {
      RemoveIdCountStrict(rows1, oldest.id, user, oldest);
    } else {
      assert oldest in e.rows && Selected(oldest, user, ShortTier) && oldest !in rows1;
    }
  }

  /** A step with a successful delete leaves no row with the summary's id, whatever was saved. */
  lemma PromoteStepDeletesOldest(cfg: Config, e: Engine, user: UserId, oldest: MemoryItem, o: Oracle, k: nat, clampHp: bool)
    requires o.deleteOk(k)
    ensures forall x | x in PromoteStep(cfg, e, user, oldest, o, k, clampHp).rows :: x.id != oldest.id
  {
  }

  /**
   * With enough fuel, deletes that succeed and no hp-1 fact, the cascade
   * stops with the user's short-term count at most the configured maximum.
   */
  lemma {:induction false} CascadeSettles(cfg: Config, e: Engine, user: UserId, o: Oracle, k: nat, fuel: nat, clampHp: bool)
    requires cfg.shortTermMaxCount >= 0
    requires WellBehaved(o, clampHp)
    requires fuel - k >= ShortTermCount(e.rows, user) - cfg.shortTermMaxCount
    ensures !Overflows(cfg, Cascade(cfg, e, user, o, k, fuel, clampHp).0.rows, user)
    decreases fuel - k
  {
    if k < fuel && Overflows(cfg, e.rows, user) {
      OldestIsMinimal(e.rows, user);
      var oldest := OldestShortTerm(e.rows, user).value;
      PromoteStepShrinks(cfg, e, user, oldest, o, k, clampHp);
      var e2 := PromoteStep(cfg, e, user, oldest, o, k, clampHp);
      if Overflows(cfg, e2.rows, user) {
        CascadeSettles(cfg, e2, user, o, k + 1, fuel, clampHp);
      }
    }
  }

  /** Corrected reading: with promoted hp clamped to at least 2, successful deletes alone make the cascade settle. */
  lemma CascadeClampedSettles(cfg: Config, e: Engine, user: UserId, o: Oracle, fuel: nat)
    requires cfg.shortTermMaxCount >= 0
    requires forall k: nat :: o.deleteOk(k)
    requires fuel >= ShortTermCount(e.rows, user) - cfg.shortTermMaxCount
    ensures !Overflows(cfg, Cascade(cfg, e, user, o, 0, fuel, true).0.rows, user)
  {
    forall k: nat
      ensures NoShortFacts(StepFacts(o, k, true))
    {
    }
    CascadeSettles(cfg, e, user, o, 0, fuel, true);
  }

  // ---------------------------------------------------------------------------
  // A reply that hands back hp 1 keeps the cascade going
  // ---------------------------------------------------------------------------

  function PromotedId(k: nat): MemoryId {
    "promoted-" + NatToString(k)
  }

  lemma PromotedIdInjective(i: nat, j: nat)
    requires PromotedId(i) == PromotedId(j)
    ensures i == j
  {
    assert PromotedId(i)[9..] == NatToString(i);
    assert PromotedId(j)[9..] == NatToString(j);
    DigitsOfNatToString(i);
    DigitsOfNatToString(j);
  }

  /**
   * Every extraction answers one fact with hp 1, every save and delete
   * succeeds, and step `k` draws the id `promoted-k`.
   */
  function HpOneOracle(): Oracle {
    Oracle(k => Some(Block(Fact("x", 1))), k => j => PromotedId(k), k => j => true, k => true, k => true, k => true)
  }

  /** No row carries an id the oracle will draw from step `k` on. */
  ghost predicate IdsAheadFresh(rows: seq<MemoryItem>, k: nat) {
    forall x, j: nat | x in rows && k <= j :: x.id != PromotedId(j)
  }

  /** Under that oracle step `k` builds one hp-1 item with the id `promoted-k`. */
  lemma HpOneBuilt(oldest: MemoryItem, k: nat)
    ensures var o := HpOneOracle();
            BuildPromoted(oldest, StepFacts(o, k, false), o.ids(k)) ==
              [MemoryItem(PromotedId(k), "x", oldest.embedding, oldest.timestamp, 1, oldest.userId)]
  {
    ParseMayGiveHpOne();
  }

  /** Appending a fresh hp-1 row of the user and deleting another summary by id keeps the count and the invariants. */
  lemma SwapKeepsCount(rows: seq<MemoryItem>, user: UserId, oldest: MemoryItem, b: MemoryItem, k: nat)
    requires UniqueIds(rows) && IdsAheadFresh(rows, k)
    requires oldest in rows && Selected(oldest, user, ShortTier)
    requires b.id == PromotedId(k) && Selected(b, user, ShortTier)
    ensures var rows2 := RemoveId(Upsert(rows, b), oldest.id);
            && ShortTermCount(rows2, user) == ShortTermCount(rows, user)
            && UniqueIds(rows2) && IdsAheadFresh(rows2, k + 1)
  {
    UpsertFreshCount(rows, b, user);
    var rows1 := rows + [b];
    assert UniqueIds(rows1) by {
      forall i | 0 <= i < |rows|
        ensures rows[i].id != b.id
      {
        assert rows[i] in rows;
      }
    }
    assert oldest in rows1;
    RemoveIdCountStrict(rows1, oldest.id, user, oldest);
    RemoveIdCountAtLeast(rows1, oldest.id, user);
    RemoveIdUnique(rows1, oldest.id);
    var rows2 := RemoveId(rows1, oldest.id);
    RemoveIdMembers(rows1, oldest.id);
    forall x, j: nat | x in rows2 && k + 1 <= j
      ensures x.id != PromotedId(j)
    {
      if x == b {
        if PromotedId(k) == PromotedId(j) {
          PromotedIdInjective(k, j);
        }
      } else {
        assert x in rows;
      }
    }
  }

  /** Under that oracle one step replaces the summary by a new hp-1 row: the count stays. */
  lemma HpOneStepKeepsCount(cfg: Config, e: Engine, user: UserId, oldest: MemoryItem, k: nat)
    requires UniqueIds(e.rows) && IdsAheadFresh(e.rows, k)
    requires oldest in e.rows && Selected(oldest, user, ShortTier)
    ensures var e2 := PromoteStep(cfg, e, user, oldest, HpOneOracle(), k, false);
            && ShortTermCount(e2.rows, user) == ShortTermCount(e.rows, user)
            && UniqueIds(e2.rows) && IdsAheadFresh(e2.rows, k + 1)
  {
    var o := HpOneOracle();
    var b := MemoryItem(PromotedId(k), "x", oldest.embedding, oldest.timestamp, 1, oldest.userId);
    HpOneBuilt(oldest, k);
    assert [b][..0] == [];
    assert SaveEach(e.rows, [b], o.saveOk(k)) == Upsert(e.rows, b);
    SwapKeepsCount(e.rows, user, oldest, b, k);
  }

  /**
   * Under that oracle the cascade never settles: from an overflowing table
   * it uses up all its fuel (in Python, the recursion limit) and the count
   * never drops.
   */
  lemma {:induction false} CascadeNeverSettles(cfg: Config, e: Engine, user: UserId, k: nat, fuel: nat)
    requires cfg.shortTermMaxCount >= 0 && k <= fuel
    requires UniqueIds(e.rows) && IdsAheadFresh(e.rows, k)
    requires Overflows(cfg, e.rows, user)
    ensures var c := Cascade(cfg, e, user, HpOneOracle(), k, fuel, false);
            c.1 == fuel && ShortTermCount(c.0.rows, user) == ShortTermCount(e.rows, user)
    decreases fuel - k
  {
    if k < fuel {
      OldestIsMinimal(e.rows, user);
      var oldest := OldestShortTerm(e.rows, user).value;
      HpOneStepKeepsCount(cfg, e, user, oldest, k);
      var e2 := PromoteStep(cfg, e, user, oldest, HpOneOracle(), k, false);
      CascadeNeverSettles(cfg, e2, user, k + 1, fuel);
    }
  }

  // ---------------------------------------------------------------------------
  // Maintenance after the cascade
  // ---------------------------------------------------------------------------

  /**
   * Maintenance that goes through keeps only live rows, leaves every live row
   * that is not a long-term row of the user as it was, and empties the
   * long-term cache. A raised decay changes nothing; a raised cleanup leaves
   * the decayed table, expired rows included, and the refreshed cache.
   */
  lemma MaintenanceEffect(cfg: Config, e: Engine, user: UserId, decayOk: bool, cleanupOk: bool)
    requires cfg.Valid()
    ensures !decayOk ==> Maintenance(cfg, e, user, decayOk, cleanupOk) == e
    ensures decayOk && !cleanupOk ==>
              var d := Decayed(e.rows, user, cfg.hpDecayRate);
              Maintenance(cfg, e, user, decayOk, cleanupOk) ==
                Engine(d, e.shortCache, e.longCache[user := TopLongTerm(d, user, cfg.longTermHotCacheSize)])
    ensures decayOk && cleanupOk ==>
              var e2 := Maintenance(cfg, e, user, decayOk, cleanupOk);
              && (forall x | x in e2.rows :: x.hp > 0)
              && (forall x | x in e.rows && x.hp > 0 && !Selected(x, user, LongTier) :: x in e2.rows)
              && e2.shortCache == e.shortCache && e2.longCache == map[]
  {
    var d := Decayed(e.rows, user, cfg.hpDecayRate);
    DecaySelective(e.rows, user, cfg.hpDecayRate);
    CleanupSelective(d);
    forall x | x in e.rows && x.hp > 0 && !Selected(x, user, LongTier)
      ensures x in Alive(d)
    {
      var i :| 0 <= i < |e.rows| && e.rows[i] == x;
      assert d[i] == x;
    }
  }

  /** The configuration `test_update_memory.py` runs with. */
  function PromotionTestConfig(): Config {
    DefaultConfig.(statesTokenThreshold := 200, shortTermMaxCount := 2)
  }

  /** Without overflow the first invocation only checks; one maintenance pass follows. */
  lemma QuietCascade(cfg: Config, e: Engine, user: UserId, o: Oracle, fuel: nat)
    requires cfg.Valid() && fuel >= 1 && !Overflows(cfg, e.rows, user)
    ensures Cascade(cfg, e, user, o, 0, fuel, false) == (e, 1)
    ensures CheckAndPromote(cfg, e, user, o, fuel) == Maintenance(cfg, e, user, o.decayOk(0), o.cleanupOk(0))
  {
    assert MaintainTimes(cfg, e, user, o, 1) == Maintenance(cfg, MaintainTimes(cfg, e, user, o, 0), user, o.decayOk(0), o.cleanupOk(0));
  }

  /** Two summaries and an hp-2 row: decay at rate 1/10 gives three summaries. */
  lemma DecayDemotesRow(s1: MemoryItem, l: MemoryItem, m: MemoryItem)
    requires s1 == MemoryItem("s1", "a", [], 0, 1, "u")
    requires l == MemoryItem("l", "b", [], 0, 2, "u")
    requires m == MemoryItem("m", "c", [], 1, 1, "u")
    ensures ShortTermCount([s1, l, m], "u") == 2
    ensures var d := Decayed([s1, l, m], "u", Rational(1, 10));
            Alive(d) == d && ShortTermCount(d, "u") == 3
  {
    var rows := [s1, l, m];
    assert [s1][..0] == [];
    assert [s1, l][..1] == [s1];
    assert rows[..2] == [s1, l];
    assert Select([s1], "u", ShortTier) == [s1];
    assert Select([s1, l], "u", ShortTier) == [s1];
    var l1 := l.(hp := 1);
    var d := Decayed(rows, "u", Rational(1, 10));
    assert d[1] == l1;
    assert d == [s1, l1, m];
    assert [s1, l1][..1] == [s1];
    assert d[..2] == [s1, l1];
    assert Alive([s1]) == [s1];
    assert Alive([s1, l1]) == [s1, l1];
    assert Alive(d) == d;
    assert Select([s1, l1], "u", ShortTier) == [s1, l1];
  }

  /**
   * Maintenance running after the overflow check breaks the bound: with at
   * most 2 short-term rows, a table holding one summary and one hp-2 row
   * takes a new summary without overflow, and the decay that follows turns
   * the hp-2 row into a third short-term row. This holds for every oracle
   * whose first decay goes through.
   */
  lemma MaintenanceMayOverflow(o: Oracle, fuel: nat)
    requires fuel >= 1 && o.decayOk(0)
    ensures var cfg := PromotionTestConfig();
            var s1 := MemoryItem("s1", "a", [], 0, 1, "u");
            var l := MemoryItem("l", "b", [], 0, 2, "u");
            var m := MemoryItem("m", "c", [], 1, 1, "u");
            var e := Engine([s1, l], map[], map[]);
            && cfg.Valid()
            && BatchQualifies(cfg, [seq(200, i => 'x')])
            && !Overflows(cfg, AfterProcess(cfg, e, "u", m).rows, "u")
            && Overflows(cfg, UpdateMemorySpec(cfg, e, [seq(200, i => 'x')], "u", m, true, o, fuel).rows, "u")
  {
    var cfg := PromotionTestConfig();
    DefaultIsValid();
    var s1 := MemoryItem("s1", "a", [], 0, 1, "u");
    var l := MemoryItem("l", "b", [], 0, 2, "u");
    var m := MemoryItem("m", "c", [], 1, 1, "u");
    var e := Engine([s1, l], map[], map[]);
    var states := [seq(200, i => 'x')];
    assert TotalChars(states) == 200 by {
      assert states[1..] == [];
    }
    UpsertFreshAppends([s1, l], m);
    DecayDemotesRow(s1, l, m);
    var e1 := AfterProcess(cfg, e, "u", m);
    assert e1.rows == [s1, l, m];
    QuietCascade(cfg, e1, "u", o, fuel);
    var d := Decayed(e1.rows, "u", cfg.hpDecayRate);
    assert Maintenance(cfg, e1, "u", o.decayOk(0), o.cleanupOk(0)).rows == d;
  }

  /**
   * Corrected order: maintenance first, then the cascade. With a well-behaved
   * oracle and enough fuel a saved batch leaves the user at most the maximum.
   */
  function UpdateMemoryCorrected(cfg: Config, e: Engine, states: seq<string>, user: UserId, m: MemoryItem,
                                 saveOk: bool, o: Oracle, fuel: nat): Engine
    requires cfg.Valid()
  {
    if BatchQualifies(cfg, states) && saveOk then
      Cascade(cfg, Maintenance(cfg, AfterProcess(cfg, e, user, m), user, o.decayOk(0), o.cleanupOk(0)), user, o, 0, fuel, false).0
    else e
  }

  lemma CorrectedUpdateBound(cfg: Config, e: Engine, states: seq<string>, user: UserId, m: MemoryItem,
                             o: Oracle, fuel: nat)
    requires cfg.Valid() && cfg.shortTermMaxCount >= 0
    requires WellBehaved(o, false)
    requires fuel > |e.rows|
    requires BatchQualifies(cfg, states)
    ensures !Overflows(cfg, UpdateMemoryCorrected(cfg, e, states, user, m, true, o, fuel).rows, user)
  {
    var e1 := AfterProcess(cfg, e, user, m);
    var e2 := Maintenance(cfg, e1, user, o.decayOk(0), o.cleanupOk(0));
    var d := Decayed(e1.rows, user, cfg.hpDecayRate);
    CleanupSelective(d);
    SelectSpec(e2.rows, user, ShortTier);
    assert |e1.rows| <= |e.rows| + 1;
    assert |e2.rows| <= |e1.rows|;
    CascadeSettles(cfg, e2, user, o, 0, fuel, false);
  }

  // ---------------------------------------------------------------------------
  // Statistics
  // ---------------------------------------------------------------------------

  /** One tier's entry of `get_memory_stats`: its count and the sum of hp behind `avg_hp`. */
  datatype TierStats = TierStats(count: nat, hpSum: int) {
    /** `avg_hp` as a fraction; 0 for an empty tier. */
    function AvgHp(): (r: Rational)
      ensures r.den > 0
      ensures count == 0 ==> r.num == 0
      ensures count > 0 ==> r.num * count == hpSum * r.den
    {
      if count == 0 then Rational(0, 1) else Rational(hpSum, count)
    }
  }

  function HpSum(ms: seq<MemoryItem>): int {
    if ms == [] then 0 else HpSum(ms[..|ms| - 1]) + ms[|ms| - 1].hp
  }

  function Summarize(ms: seq<MemoryItem>): TierStats {
    TierStats(|ms|, HpSum(ms))
  }

  datatype MemoryStats = MemoryStats(shortTerm: TierStats, longTerm: TierStats)

  /** Summaries all have hp 1, so their hp sum is their count. */
  lemma {:induction false} HpSumOfSummaries(ms: seq<MemoryItem>)
    requires forall x | x in ms :: x.hp == 1
    ensures HpSum(ms) == |ms|
  {
    if ms != [] {
      var init := ms[..|ms| - 1];
      assert forall x | x in init :: x in ms;
      assert ms[|ms| - 1] in ms;
      HpSumOfSummaries(init);
    }
  }

  /** Long-term items all have hp at least 2, so they sum to at least twice their count. */
  lemma {:induction false} HpSumOfLongTerm(ms: seq<MemoryItem>)
    requires forall x | x in ms :: x.hp >= 2
    ensures HpSum(ms) >= 2 * |ms|
  {
    if ms != [] {
      var init := ms[..|ms| - 1];
      assert forall x | x in init :: x in ms;
      assert ms[|ms| - 1] in ms;
      HpSumOfLongTerm(init);
    }
  }

  /** The short-term average is exactly 1 and the long-term one at least 2. */
  lemma StatsAverages(rows: seq<MemoryItem>, user: UserId, n: nat)
    ensures var s := Summarize(RecentShortTerm(rows, user, n));
            s.hpSum == s.count
    ensures var l := Summarize(AllLongTerm(rows, user));
            l.hpSum >= 2 * l.count
  {
    ListingIsTopOfTier(rows, user, ShortTier, ByRecency, n);
    HpSumOfSummaries(RecentShortTerm(rows, user, n));
    AllLongTermMembers(rows, user);
    HpSumOfLongTerm(AllLongTerm(rows, user));
  }

  // ---------------------------------------------------------------------------
  // Reading
  // ---------------------------------------------------------------------------

  /**
   * `get_relevant_memories`. `retrieved` is the quick recall's answer for the
   * input (`None` when it raised); a blank input is answered before any
   * retrieval.
   */
  function RelevantReply(userInput: string, retrieved: Option<seq<MemoryItem>>, now: int): string {
    if Strip(userInput) == [] then ""
    else if retrieved.None? || retrieved.value == [] then ""
    else ContextText(retrieved.value, now)
  }

  /**
   * `deep_recall`. `retrieved` is the deep search's answer for the input, or
   * the text of the exception it raised.
   */
  function DeepRecallReply(userInput: string, retrieved: Result<seq<MemoryItem>, string>, now: int): string {
    if Strip(userInput) == [] then "请提供具体的回忆关键词或问题"
    else match retrieved
      case Err(e) => "深度检索过程中出现错误: " + e
      case Ok(ms) => if ms == [] then "没有找到相关的历史记忆" else DisplayText(ms, now)
  }

  /** A whitespace-only input gets the empty reply or the prompt, whatever retrieval would answer. */
  lemma BlankInputAnswers(userInput: string, quick: Option<seq<MemoryItem>>, deep: Result<seq<MemoryItem>, string>, now: int)
    requires IsBlank(userInput)
    ensures RelevantReply(userInput, quick, now) == ""
    ensures DeepRecallReply(userInput, deep, now) == "请提供具体的回忆关键词或问题"
  {
    StripEmptyIffBlank(userInput);
  }

  /** A retrieval that finds something yields the memory block; one that fails or finds nothing yields "". */
  lemma RelevantReplyCases(userInput: string, retrieved: Option<seq<MemoryItem>>, now: int)
    requires !IsBlank(userInput)
    ensures RelevantReply(userInput, retrieved, now) != "" <==> retrieved.Some? && retrieved.value != []
  {
    StripEmptyIffBlank(userInput);
  }

  // ---------------------------------------------------------------------------
  // The facade object
  // ---------------------------------------------------------------------------

  class MemorySystem {
    const config: Config
    const store: MemoryStore
    const shortTerm: ShortTermMemoryManager
    const longTerm: LongTermMemoryManager

    /** Both managers share the facade's store and configuration. */
    ghost predicate Valid()
      reads store
    {
      && shortTerm.store == store && longTerm.store == store
      && shortTerm.config == config && longTerm.config == config
      && store.Valid() && config.Valid()
    }

    ghost function State(): Engine
      reads store, shortTerm, longTerm
    {
      Engine(store.rows, shortTerm.hotCache, longTerm.hotCache)
    }

    /** `config or DEFAULT_CONFIG`: an empty table and empty caches. */
    constructor (config: Option<Config>)
      requires config.Some? ==> config.value.Valid()
      ensures Valid()
      ensures this.config == if config.Some? then config.value else DefaultConfig
      ensures State() == Engine([], map[], map[])
    {
      var cfg := if config.Some? then config.value else DefaultConfig;
      DefaultIsValid();
      var s := new MemoryStore();
      this.config := cfg;
      store := s;
      shortTerm := new ShortTermMemoryManager(cfg, s);
      longTerm := new LongTermMemoryManager(cfg, s);
    }

    /** One promotion step of the cascade, the `k`-th, on the summary `oldest`. */
    method PromoteOldest(user: UserId, oldest: MemoryItem, o: Oracle, k: nat)
      requires Valid()
      modifies store, shortTerm, longTerm
      ensures Valid()
      ensures State() == PromoteStep(config, old(State()), user, oldest, o, k, false)
    {
      var saved := longTerm.PromoteFromShortTerm(oldest, o.reply(k), o.ids(k), o.saveOk(k));
      var deleted := shortTerm.DeleteMemory(oldest.id, user, o.deleteOk(k));
    }

    /** `_periodic_maintenance_sync`; `decayOk` and `cleanupOk` false stand for the statements that raise. */
    method PeriodicMaintenance(user: UserId, decayOk: bool, cleanupOk: bool)
      requires Valid()
      modifies store, longTerm
      ensures Valid()
      ensures State() == Maintenance(config, old(State()), user, decayOk, cleanupOk)
    {
      var decayed := longTerm.DecayAllMemories(user, decayOk);
      if !decayed {
        return;
      }
      var deleted, cleaned := longTerm.CleanupExpiredMemories(cleanupOk);
    }

    /**
     * `_check_and_promote_sync`, its recursion unrolled into a loop over
     * invocations followed by one maintenance pass per invocation. Returns
     * the number of invocations.
     */
    method CheckAndPromoteSync(user: UserId, o: Oracle, fuel: nat) returns (invocations: nat)
      requires Valid()
      modifies store, shortTerm, longTerm
      ensures Valid()
      ensures var c := Cascade(config, old(State()), user, o, 0, fuel, false);
              invocations == c.1 && State() == MaintainTimes(config, c.0, user, o, c.1)
    {
      invocations := SettleOverflow(user, o, fuel);
      ghost var settled := State();
      for i := 0 to invocations
        invariant Valid()
        invariant State() == MaintainTimes(config, settled, user, o, i)
      {
        PeriodicMaintenance(user, o.decayOk(i), o.cleanupOk(i));
      }
    }

    /** The promotions of `_check_and_promote_sync`, one loop round per invocation. */
    method SettleOverflow(user: UserId, o: Oracle, fuel: nat) returns (invocations: nat)
      requires Valid()
      modifies store, shortTerm, longTerm
      ensures Valid()
      ensures (State(), invocations) == Cascade(config, old(State()), user, o, 0, fuel, false)
    {
      ghost var goal := Cascade(config, State(), user, o, 0, fuel, false);
      invocations := 0;
      var more := 0 < fuel;
      while more
        invariant Valid()
        invariant invocations <= fuel
        invariant more ==> invocations < fuel && Cascade(config, State(), user, o, invocations, fuel, false) == goal
        invariant !more ==> (State(), invocations) == goal
        decreases fuel - invocations
      {
        more := SettleRound(user, o, invocations, fuel);
        invocations := invocations + 1;
      }
    }

    /** One invocation of `_check_and_promote_sync`: promote the oldest row while the tier overflows. */
    method SettleRound(user: UserId, o: Oracle, k: nat, fuel: nat) returns (more: bool)
      requires Valid() && k < fuel
      modifies store, shortTerm, longTerm
      ensures Valid()
      ensures more ==> k + 1 < fuel
      ensures more ==> Cascade(config, State(), user, o, k + 1, fuel, false) == Cascade(config, old(State()), user, o, k, fuel, false)
      ensures !more ==> (State(), k + 1) == Cascade(config, old(State()), user, o, k, fuel, false)
    {
      CascadeUnfold(config, State(), user, o, k, fuel);
      var over := shortTerm.CheckOverflow(user);
      if !over {
        more := false;
      } else {
        var oldest := shortTerm.GetOldestMemory(user);
        if oldest.None? {
          more := false;
        } else {
          PromoteOldest(user, oldest.value, o, k);
          var again := shortTerm.CheckOverflow(user);
          more := again && k + 1 < fuel;
        }
      }
    }

    /**
     * `update_memory`: empty states do nothing; otherwise the batch goes to
     * `process_states`, and only a saved summary starts the cascade.
     */
    method UpdateMemory(states: seq<string>, user: UserId, id: MemoryId, now: int,
                        summaryReply: Option<string>, embeddingReply: Option<seq<real>>, saveOk: bool,
                        o: Oracle, fuel: nat)
      requires Valid()
      modifies store, shortTerm, longTerm
      ensures Valid()
      ensures State() == UpdateMemorySpec(config, old(State()), states, user,
                                          Summary(user, id, now, summaryReply, embeddingReply), saveOk, o, fuel)
      ensures states == [] ==> State() == old(State())
    {
      if states == [] {
        return;
      }
      var short := shortTerm.ProcessStates(states, user, id, now, summaryReply, embeddingReply, saveOk);
      if short.Some? {
        var n := CheckAndPromoteSync(user, o, fuel);
      }
    }

    /** `get_relevant_memories`, the quick recall's answer passed in. */
    method GetRelevantMemories(userInput: string, retrieved: Option<seq<MemoryItem>>, now: int) returns (r: string)
      ensures r == RelevantReply(userInput, retrieved, now)
    {
      if Strip(userInput) == [] {
        return "";
      }
      if retrieved.None? || retrieved.value == [] {
        return "";
      }
      r := FormatMemoriesForContext(retrieved.value, now);
    }

    /** `deep_recall`, the deep search's answer passed in. */
    method DeepRecall(userInput: string, retrieved: Result<seq<MemoryItem>, string>, now: int) returns (r: string)
      ensures r == DeepRecallReply(userInput, retrieved, now)
    {
      if Strip(userInput) == [] {
        return "请提供具体的回忆关键词或问题";
      }
      if retrieved.Err? {
        return "深度检索过程中出现错误: " + retrieved.error;
      }
      if retrieved.value == [] {
        return "没有找到相关的历史记忆";
      }
      r := FormatMemoriesForDisplay(retrieved.value, now);
    }

    /**
     * `get_memory_stats`: up to 100 recent summaries (through the short-term
     * cache) and every long-term row of the user.
     */
    method GetMemoryStats(user: UserId) returns (stats: MemoryStats)
      requires Valid()
      modifies shortTerm
      ensures Valid() && store.rows == old(store.rows)
      ensures stats.shortTerm.count <= 100
      ensures stats.longTerm == Summarize(AllLongTerm(store.rows, user))
      ensures var cached := old(shortTerm.hotCache);
              user in cached && |cached[user]| >= 100 ==>
                stats.shortTerm == Summarize(cached[user][..100]) && shortTerm.hotCache == cached
      ensures var cached := old(shortTerm.hotCache);
              !(user in cached && |cached[user]| >= 100) ==>
                && stats.shortTerm == Summarize(RecentShortTerm(store.rows, user, 100))
                && shortTerm.hotCache == cached[user := RecentShortTerm(store.rows, user, 100)]
      ensures old(shortTerm.CacheFresh(user)) ==> stats.shortTerm == Summarize(RecentShortTerm(store.rows, user, 100))
    {
      var shortMemories := shortTerm.GetRecentMemories(user, Some(100));
      var longMemories := longTerm.GetAllMemories(user);
      stats := MemoryStats(Summarize(shortMemories), Summarize(longMemories));
    }

    /**
     * `clear_user_memories`: the short-term manager clears up to 1000
     * summaries, then the long-term manager every long-term row; each drops
     * the user's cache entry.
     */
    method ClearUserMemories(user: UserId, deleteOkShort: nat -> bool, deleteOkLong: nat -> bool)
      requires Valid()
      modifies store, shortTerm, longTerm
      ensures Valid()
      ensures var mid := DeleteEach(old(store.rows), RecentShortTerm(old(store.rows), user, 1000), deleteOkShort);
              store.rows == DeleteEach(mid, AllLongTerm(mid, user), deleteOkLong)
      ensures shortTerm.hotCache == old(shortTerm.hotCache) - {user}
      ensures longTerm.hotCache == old(longTerm.hotCache) - {user}
    {
      shortTerm.ClearUserMemories(user, deleteOkShort);
      longTerm.ClearUserMemories(user, deleteOkLong);
    }
  }

  /**
   * When every delete succeeds and the user has at most 1000 summaries,
   * clearing leaves the user no short-term and no long-term row, and every
   * row of another user survives.
   */
  lemma ClearLeavesUserEmpty(rows: seq<MemoryItem>, user: UserId, deleteOkShort: nat -> bool, deleteOkLong: nat -> bool)
    requires UniqueIds(rows)
    requires forall k: nat :: deleteOkShort(k)
    requires forall k: nat :: deleteOkLong(k)
    requires ShortTermCount(rows, user) <= 1000
    ensures var mid := DeleteEach(rows, RecentShortTerm(rows, user, 1000), deleteOkShort);
            var after := DeleteEach(mid, AllLongTerm(mid, user), deleteOkLong);
            && Select(after, user, ShortTier) == [] && Select(after, user, LongTier) == []
            && (forall x | x in rows && x.userId != user :: x in after)
  {
    var mid := DeleteEach(rows, RecentShortTerm(rows, user, 1000), deleteOkShort);
    var ms := AllLongTerm(mid, user);
    var after := DeleteEach(mid, ms, deleteOkLong);
    ClearEmptiesShortTier(rows, user, deleteOkShort);
    AllLongTermMembers(mid, user);
    ClearedTierEmpty(mid, user, LongTier, ms, deleteOkLong);
    DeleteEachSpec(mid, ms, deleteOkLong);
    SelectSpec(mid, user, ShortTier);
    SelectNone(after, user, ShortTier);
    DeleteEachUnique(rows, RecentShortTerm(rows, user, 1000), deleteOkShort);
    forall x | x in rows && x.userId != user
      ensures x in after
    {
      assert x in mid;
      ClearKeepsOthers(mid, ms, deleteOkLong, x);
    }
  }
}
