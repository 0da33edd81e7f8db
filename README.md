# A verified model of the tiered agent memory and its companions

This project models, in Dafny, the tiered memory engine of the test agent and
the small pure and looping pieces around it. Each model comes with proofs
about it.

**The memory engine.** Every memory is a `MemoryItem` whose integer `hp` does
two jobs. It is the tier tag: hp 1 is short-term and more than 1 is long-term.
It is also the rank inside the long-term tier.

- `MemoryStore` is the per-user table. It is a class over a sequence of rows,
  and every SQL statement becomes a loop proved against a function on the rows.
- `ShortTermMemoryManager` turns a batch of conversation states that reaches
  the token threshold into one hp-1 summary.
- `LongTermMemoryManager` promotes a summary into the facts an extraction
  reply lists. It also boosts, decays and clears.
- The `MemorySystem` facade runs the overflow-driven promotion cascade,
  maintenance, and the text formatters.

Both managers keep a per-user hot cache, a `map` field.

**The LLM adapter.** Its calls are parameters: the reply, or `None` where the
call raised. Its pure parts are modelled:

- the character-count token estimate;
- the state formatter;
- the `<div><content>…</content><hp>n</hp></div>` reply parser, written
  as the regular expression's left-to-right matcher.

A round-trip lemma shows that a reply in the prompted format parses back to
the facts it lists.

**The companions.**

- The test agent's context builder and its bounded decision loop. The agent
  is a class whose `events` sequence stands for the `StateManager`.
  `test-agent/core/state.py` is not part of this model; only appending events
  and reading them back are used.
- The reader's blank-line clean-up and HTML test, from `html_to_markdown.py`.
  The two copies, under `reader/` and `backend/reader/`, are identical and
  are modelled once, in module `HtmlToMarkdown`. The table cites each copy
  through different members; the cited lines are the same in both.
- The feed reader's:
  - feed detection, URL check and title extraction;
  - feed record;
  - output formatters.
- The background worker's:
  - entry filter;
  - id collection;
  - binary-search truncation to the embedding model's token budget.

**What is proved, in outline.**

- The tiers are disjoint. The HP update never goes below 0. Cleanup deletes
  exactly the rows with hp <= 0. Decay touches only the user's long-term rows.
- Each listing is the top of its tier in the query's order, as a permutation
  of a sorted selection.
- Upsert leaves exactly one row with the id.
- The caches equal the store's listings after every write that refreshes them.
- The cascade settles at the configured maximum when deletes succeed and no
  fact asks for hp 1. It never settles when every extraction hands back
  exactly one fact, with hp 1, and every save and delete succeeds.
- The tool events the agent records render as nothing, so the model it asks
  sees the same history in every round.
- Cleaned Markdown never holds three blank lines in a row, keeps every
  non-blank line in order and is trimmed.
- A feed MIME type, or an RSS indicator in the first 2000 characters, decides
  the feed test, and the URL never changes the answer.
- With a token counter that is monotone in the prefix length, the binary
  search finds the longest content prefix that fits.

Clocks, ids, failing database writes and library calls are parameters:

- `now` is whole seconds;
- fresh ids are injected;
- `writeOk`, `saveOk` and `deleteOk` are the database's answers to a write;
  where Python lets the exception escape (decay, cleanup) the method returns
  `ok`, and the facade's `decayOk` and `cleanupOk` say which maintenance
  pass raised;
- `extract`, `markdownify`, `isHtml`, `cleanText` and `tokens` stand for the
  library functions.

## Model

| member | source | states |
|---|---|---|
| MemoryItems.MemoryItem.MemoryType | test-agent/memory_system/Item.py:35-38 | "short_term" exactly when hp is 1; every other hp, including hp <= 0, gives "long_term" |
| MemoryItems.NewMemoryItem | test-agent/memory_system/Item.py:13-18 | a freshly built item has hp 1, so it is short-term, alive and not long-term, and it carries the given id, content, embedding, time and user |
| MemoryItems.TiersDisjoint | test-agent/memory_system/Item.py:25-33 | no item is both short-term and long-term, and from hp 1 upward exactly one of the two holds |
| MemoryItems.AliveAndTiers | test-agent/memory_system/Item.py:20-38 | alive means hp > 0, every long-term item is alive, and an item with hp <= 0 is in neither tier yet is typed "long_term" |
| MemoryConfig.DefaultIsValid | test-agent/memory_system/config.py:11-36 | the shipped settings have a well-formed decay rate of 1/10 and a short-term maximum of 10 |
| MemoryStorage.SelectSpec | test-agent/memory_system/storage/memory_store.py:77-82 | a tier query returns exactly the rows of that user and tier (hp = 1, or hp > 1), each as often as in the table |
| MemoryStorage.SelectNone | test-agent/memory_system/storage/memory_store.py:127-137 | a user with no row of a tier selects nothing from it |
| MemoryStorage.SortSpec | test-agent/memory_system/storage/memory_store.py:94-99 | the ordering step returns a permutation of its input that is sorted in the query's order |
| MemoryStorage.ListingIsTopOfTier | test-agent/memory_system/storage/memory_store.py:77-99 | a listing holds at most `limit` rows, all of the user's tier, in the query's order; with the omitted rows it is exactly the tier, and every listed row precedes every omitted one |
| MemoryStorage.ListingPrefix | test-agent/memory_system/storage/memory_store.py:77-82 | a recency listing with a smaller limit is a prefix of one with a larger limit |
| MemoryStorage.TopListingPrefix | test-agent/memory_system/storage/memory_store.py:94-99 | the same prefix property for the hp listing |
| MemoryStorage.AllLongTermMembers | test-agent/memory_system/storage/memory_store.py:111-115 | the unlimited long-term listing holds exactly the user's hp > 1 rows, highest hp first |
| MemoryStorage.TierListingsDisjoint | test-agent/memory_system/storage/memory_store.py:77-99 | no row appears in both a short-term and a long-term listing of a user |
| MemoryStorage.OldestIsMinimal | test-agent/memory_system/storage/memory_store.py:127-137 | the oldest lookup is None exactly when the user has no hp-1 row; otherwise it is such a row with the least timestamp |
| MemoryStorage.UpsertSpec | test-agent/memory_system/storage/memory_store.py:55-62 | after the upsert exactly one row has the item's id and it is the item; every row with another id is kept and no other row appears |
| MemoryStorage.UpsertFreshAppends | test-agent/memory_system/storage/memory_store.py:55-62 | saving an item with a fresh id appends it to the table |
| MemoryStorage.DeleteEachSpec | test-agent/memory_system/storage/memory_store.py:145 | after a series of deletes a row survives exactly when no successful delete named its id |
| MemoryStorage.ClearedTierEmpty | test-agent/memory_system/core/short_term_memory.py:126-128 | when every delete succeeds, deleting a listing that holds the whole tier leaves the user no row of that tier |
| MemoryStorage.ClearKeepsOthers | test-agent/memory_system/storage/memory_store.py:145 | with unique ids, a row outside the deleted listing survives |
| MemoryStorage.HpAdjustedSpec | test-agent/memory_system/storage/memory_store.py:161-165 | the HP update changes only the row with that id, to max(0, hp + delta), and changes nothing for an unknown id |
| MemoryStorage.DecaySelective | test-agent/memory_system/storage/memory_store.py:192-196 | decay rewrites only the user's hp > 1 rows; short-term rows and other users' rows are unchanged, and every row keeps its id and content |
| MemoryStorage.DecayBounds | test-agent/memory_system/storage/memory_store.py:194 | with a rate in [0, 1] the decayed hp lies between 0 and the old hp |
| MemoryStorage.DecayExamples | test-agent/memory_system/storage/memory_store.py:192-196 | at rate 1/10, hp 10 becomes 9, hp 3 becomes 2 and hp 2 becomes 1, so truncation can turn a long-term row short-term |
| MemoryStorage.CleanupSelective | test-agent/memory_system/storage/memory_store.py:178-184 | cleanup keeps exactly the rows with hp > 0 of every user and deletes exactly those with hp <= 0; the two parts make up the table |
| MemoryStorage.RowRoundTrip | test-agent/memory_system/storage/memory_store.py:212-223 | with the float32 conversion of the write (line 53) and of the read as the parameter `toF32`: an item reads back with every field unchanged except the embedding, which comes back rounded element by element; an empty embedding is stored as NULL and read back as the empty vector; an embedding already in float32 reads back unchanged, and a second round trip changes nothing |
| MemoryStorage.MemoryStore.SaveMemory | test-agent/memory_system/storage/memory_store.py:47-70 | a save that the database accepts upserts the item and returns true; a failed one returns false and changes nothing; ids stay unique |
| MemoryStorage.MemoryStore.GetShortTermMemories | test-agent/memory_system/storage/memory_store.py:72-87 | the user's hp-1 rows, newest first, at most `limit`; the table is unchanged |
| MemoryStorage.MemoryStore.GetLongTermMemories | test-agent/memory_system/storage/memory_store.py:89-104 | the user's hp > 1 rows by hp, then timestamp, descending, at most `limit` |
| MemoryStorage.MemoryStore.GetAllLongTermMemories | test-agent/memory_system/storage/memory_store.py:106-120 | every hp > 1 row of the user, highest hp first |
| MemoryStorage.MemoryStore.GetOldestShortTermMemory | test-agent/memory_system/storage/memory_store.py:122-137 | the oldest hp-1 row of the user, found by a scan, None exactly when there is none |
| MemoryStorage.MemoryStore.DeleteMemory | test-agent/memory_system/storage/memory_store.py:139-153 | an accepted delete removes every row with the id and returns true; a failed one changes nothing |
| MemoryStorage.MemoryStore.UpdateMemoryHp | test-agent/memory_system/storage/memory_store.py:155-171 | when the write succeeds, the row with the id gets hp max(0, hp + delta) and every other row is unchanged; a failed write is swallowed and changes nothing |
| MemoryStorage.MemoryStore.CleanupExpiredMemories | test-agent/memory_system/storage/memory_store.py:173-184 | when the write succeeds, every hp <= 0 row is deleted and the count returned is the number of such rows; a write that raises is reported by `ok` false, with nothing deleted |
| MemoryStorage.MemoryStore.DecayAllHp | test-agent/memory_system/storage/memory_store.py:186-199 | when the write succeeds, the user's hp > 1 rows get their hp multiplied by (1 - rate) and truncated and nothing else changes; a write that raises is reported by `ok` false, with nothing changed |
| MemoryStorage.MemoryStore.CountShortTermMemories | test-agent/memory_system/storage/memory_store.py:201-210 | the number of the user's hp-1 rows |
| ShortTermMemory.EstimateOfString | test-agent/memory_system/core/short_term_memory.py:85-90 | estimating a bare string counts its characters, since iterating it yields one-character strings |
| ShortTermMemory.ShortTermMemoryManager.UpdateHotCache | test-agent/memory_system/core/short_term_memory.py:114-118 | the user's cache entry becomes the store's newest hot-cache-size short-term rows |
| ShortTermMemory.ShortTermMemoryManager.ProcessStates | test-agent/memory_system/core/short_term_memory.py:24-66 | empty states, or an estimate below the threshold, return None and write nothing; otherwise the summary is saved as an hp-1 item of the user with the summary as content; on success it is returned and the cache refreshed, and a failed save returns None with the cache untouched |
| ShortTermMemory.ShortTermMemoryManager.GetRecentMemories | test-agent/memory_system/core/short_term_memory.py:68-83 | a cache holding at least `limit` items answers its prefix; otherwise the store's recency listing is returned and cached; the answer never exceeds `limit` |
| ShortTermMemory.ShortTermMemoryManager.GetShortTermTotalTokens | test-agent/memory_system/core/short_term_memory.py:85-90 | the summed content lengths of the cached items, and None (the KeyError) for a user with no cache entry |
| ShortTermMemory.ShortTermMemoryManager.CheckOverflow | test-agent/memory_system/core/short_term_memory.py:92-95 | true exactly when the user has more hp-1 rows than the configured maximum |
| ShortTermMemory.ShortTermMemoryManager.GetOldestMemory | test-agent/memory_system/core/short_term_memory.py:97-99 | the store's oldest short-term row of the user |
| ShortTermMemory.ShortTermMemoryManager.DeleteMemory | test-agent/memory_system/core/short_term_memory.py:101-107 | the row is deleted by id; a successful delete refreshes the user's cache and a failed one leaves everything as it was |
| ShortTermMemory.ShortTermMemoryManager.BoostMemoryHp | test-agent/memory_system/core/short_term_memory.py:109-112 | the returned item gains the boost, and the stored row gains it through the clamped HP delta when the write succeeds; when the item is the object in the user's hot cache, that cache entry gains the boost too, and no other cache entry changes |
| ShortTermMemory.CacheSharesBoost | test-agent/memory_system/core/short_term_memory.py:109-111 | boosting an item held in a user's cache list changes exactly that entry, which gains the boost; every other entry and the list's length stay as they were |
| ShortTermMemory.ShortTermMemoryManager.ClearUserMemories | test-agent/memory_system/core/short_term_memory.py:120-128 | the user's cache entry is dropped, and up to 1000 of the user's short-term rows are deleted one by one |
| ShortTermMemory.ClearEmptiesShortTier | test-agent/memory_system/core/short_term_memory.py:120-128 | with at most 1000 summaries and deletes that succeed, clearing leaves the user no short-term row and keeps every other row |
| ShortTermMemory.StaleCacheHit | test-agent/memory_system/core/short_term_memory.py:74-77 | a cache hit answers the rows of an earlier read even after a newer short-term row has appeared (as decay produces without refreshing this cache), where the store would answer the newer row |
| LongTermMemory.BuildPromoted | test-agent/memory_system/core/long_term_memory.py:37-45 | one new item per extracted fact, in order, with the fact's content and hp and the summary's embedding, time and user |
| LongTermMemory.SavedOfSpec | test-agent/memory_system/core/long_term_memory.py:36-53 | every saved item was built, in extraction order, and when every save succeeds all of them are saved |
| LongTermMemory.PromotedInherit | test-agent/memory_system/core/long_term_memory.py:37-45 | each saved item takes content and hp from one fact, and embedding, time and user from the summary |
| LongTermMemory.PromotionAppends | test-agent/memory_system/core/long_term_memory.py:36-53 | with fresh ids and every save succeeding, promotion appends all the built items to the table |
| LongTermMemory.PromotionMayDemote | test-agent/memory_system/core/long_term_memory.py:43 | a fact with hp 1 is saved as a short-term row, not a long-term one |
| LongTermMemory.ClampFacts | test-agent/memory_system/core/long_term_memory.py:38 | facts re-ranked to hp at least 2, keeping content, order and any hp already in range |
| LongTermMemory.BuiltNotShort | test-agent/memory_system/core/long_term_memory.py:37-45 | items built from facts without hp 1 are nobody's short-term rows |
| LongTermMemory.LongTermMemoryManager.UpdateHotCache | test-agent/memory_system/core/long_term_memory.py:110-114 | the user's cache entry becomes the store's top hot-cache-size long-term rows |
| LongTermMemory.LongTermMemoryManager.PromoteFromShortTerm | test-agent/memory_system/core/long_term_memory.py:24-63 | a failed extraction or an empty one returns nothing and writes nothing; otherwise the built items are saved in turn, the saved ones returned in order, and the cache refreshed exactly when something was saved |
| LongTermMemory.LongTermMemoryManager.SaveBuilt | test-agent/memory_system/core/long_term_memory.py:36-53 | the save loop: each item is upserted when its save succeeds, and the result is the saved items in order |
| LongTermMemory.LongTermMemoryManager.GetTopMemories | test-agent/memory_system/core/long_term_memory.py:65-80 | a cache holding at least `limit` items answers its prefix; otherwise the store's top `limit` rows are returned and cached |
| LongTermMemory.LongTermMemoryManager.GetAllMemories | test-agent/memory_system/core/long_term_memory.py:82-84 | every long-term row of the user, highest hp first |
| LongTermMemory.LongTermMemoryManager.BoostMemoryHp | test-agent/memory_system/core/long_term_memory.py:86-92 | the item gains the boost in memory, the store row gains it when the write succeeds (a failed write is swallowed), and the user's cache is rebuilt from the store either way |
| LongTermMemory.LongTermMemoryManager.DecayAllMemories | test-agent/memory_system/core/long_term_memory.py:94-99 | when the write succeeds, the user's long-term rows decay at the configured rate and the cache is refreshed; a write that raises changes neither and is reported by `ok` false |
| LongTermMemory.LongTermMemoryManager.CleanupExpiredMemories | test-agent/memory_system/core/long_term_memory.py:101-108 | when the write succeeds, the store's delete count is returned and every user's cache is emptied; a write that raises keeps the rows and the caches |
| LongTermMemory.LongTermMemoryManager.ClearUserMemories | test-agent/memory_system/core/long_term_memory.py:116-124 | the user's cache entry is dropped and each long-term row of the user is deleted in turn |
| LongTermMemory.ClearEmptiesLongTier | test-agent/memory_system/core/long_term_memory.py:116-124 | with deletes that succeed, the user keeps no long-term row, and every hp-1 row and every other user's row survives |
| MemoryFacade.Cascade | test-agent/memory_system/interface.py:97-127 | the number of invocations never exceeds the fuel, and at least one invocation happens when fuel remains |
| MemoryFacade.PromoteStepShrinks | test-agent/memory_system/interface.py:104-112 | a step whose delete succeeds and whose facts avoid hp 1 lowers the user's short-term count |
| MemoryFacade.PromoteStepDeletesOldest | test-agent/memory_system/interface.py:109-112 | a step with a successful delete leaves no row with the summary's id, whatever the promotion saved |
| MemoryFacade.CascadeSettles | test-agent/memory_system/interface.py:101-121 | with enough fuel, successful deletes and no hp-1 fact, the cascade ends with the short-term count at most the maximum |
| MemoryFacade.CascadeClampedSettles | test-agent/memory_system/interface.py:101-121 | with promoted hp clamped to at least 2, successful deletes alone make the cascade settle |
| MemoryFacade.HpOneStepKeepsCount | test-agent/memory_system/interface.py:104-112 | when the reply promotes a fact with hp 1, a step swaps one summary for another and the count stays |
| MemoryFacade.CascadeNeverSettles | test-agent/memory_system/interface.py:119-121 | under such replies the cascade uses up all its fuel (the recursion limit) and the count never drops |
| MemoryFacade.MaintenanceEffect | test-agent/memory_system/interface.py:129-142 | a decay that raises leaves everything as it was and skips the cleanup; a cleanup that raises keeps the decayed rows and the refreshed cache of the user; when both go through, only live rows remain, every live row that is not a long-term row of the user is kept as it was, and the long-term cache is empty |
| MemoryFacade.QuietCascade | test-agent/memory_system/interface.py:100-124 | without overflow an invocation only checks, and one maintenance pass follows with the oracle's first decay and cleanup answers |
| MemoryFacade.DecayDemotesRow | test-agent/memory_system/storage/memory_store.py:192-196 | two summaries and one hp-2 row decay at rate 1/10 into three summaries |
| MemoryFacade.MaintenanceMayOverflow | test-agent/memory_system/interface.py:120-124 | with a maximum of 2, a new summary arriving without overflow is followed by a decay that leaves 3 short-term rows, for every oracle whose first decay goes through |
| MemoryFacade.CorrectedUpdateBound | test-agent/memory_system/interface.py:61-70 | with maintenance before the cascade, a saved batch leaves the user at most the maximum, under successful deletes and no hp-1 fact |
| MemoryFacade.TierStats.AvgHp | test-agent/memory_system/interface.py:204 | the average hp as an exact fraction, 0 for an empty tier |
| MemoryFacade.HpSumOfSummaries | test-agent/memory_system/interface.py:204 | hp-1 items sum to their count |
| MemoryFacade.HpSumOfLongTerm | test-agent/memory_system/interface.py:208 | long-term items sum to at least twice their count |
| MemoryFacade.StatsAverages | test-agent/memory_system/interface.py:195-210 | the recent summaries' hp sum equals their count (average exactly 1), and the long-term rows sum to at least twice theirs (average at least 2) |
| MemoryFacade.BlankInputAnswers | test-agent/memory_system/interface.py:38-81 | a whitespace-only input gets "" from the quick recall and the fixed prompt from the deep recall, whatever retrieval would answer |
| MemoryFacade.RelevantReplyCases | test-agent/memory_system/interface.py:41-53 | a retrieval that finds something yields the memory block; one that fails or finds nothing yields "" |
| MemoryFacade.MemorySystem.PromoteOldest | test-agent/memory_system/interface.py:104-112 | one promotion step on the manager state, equal to the step of the cascade function |
| MemoryFacade.MemorySystem.PeriodicMaintenance | test-agent/memory_system/interface.py:129-142 | decay of the user's long-term rows, then cleanup of every hp <= 0 row, as the maintenance function states; a decay that raises ends the pass before the cleanup, and a raising cleanup keeps the decay |
| MemoryFacade.MemorySystem.SettleOverflow | test-agent/memory_system/interface.py:101-121 | the promotion rounds of all recursive invocations end in the state and with the invocation count that the cascade function gives |
| MemoryFacade.MemorySystem.SettleRound | test-agent/memory_system/interface.py:101-121 | one invocation's promotion leaves the state of the cascade's next step, and asks for another round only while the fuel allows one |
| MemoryFacade.MemorySystem.CheckAndPromoteSync | test-agent/memory_system/interface.py:97-127 | the loop equals the cascade function followed by one maintenance pass per invocation |
| MemoryFacade.MemorySystem.UpdateMemory | test-agent/memory_system/interface.py:55-73 | empty states change nothing; otherwise the batch is summarised, and only a saved summary starts the cascade and maintenance |
| MemoryFacade.MemorySystem.GetRelevantMemories | test-agent/memory_system/interface.py:32-53 | a blank input gives ""; otherwise the retrieved memories' context block, or "" |
| MemoryFacade.MemorySystem.DeepRecall | test-agent/memory_system/interface.py:75-95 | a blank input gives the prompt, no result the not-found text, an exception its message, and otherwise the display listing |
| MemoryFacade.MemorySystem.GetMemoryStats | test-agent/memory_system/interface.py:195-210 | the counts and hp sums of up to 100 recent summaries and of every long-term row; a user cache of at least 100 entries is read and kept, otherwise the store's listing is read and becomes the user's cache entry; no other user's entry changes |
| MemoryFacade.MemorySystem.ClearUserMemories | test-agent/memory_system/interface.py:218-221 | the short-term manager clears, then the long-term manager clears |
| MemoryFacade.ClearLeavesUserEmpty | test-agent/memory_system/interface.py:218-221 | with deletes that succeed and at most 1000 summaries, the user keeps no row of either tier and every other user's row survives |
| MemoryFormat.AgoOf | test-agent/memory_system/interface.py:177-191 | days > 0 gives days; else more than 3600 s gives hours; else more than 60 s gives minutes; else "just now"; all tests strict, on the `timedelta` day and second split |
| MemoryFormat.TimeAgoExamples | test-agent/memory_system/interface.py:182-191 | exactly an hour reads as minutes, exactly a minute as just now, and a timestamp one second ahead as 23 hours |
| MemoryFormat.FormatMemoriesForContext | test-agent/memory_system/interface.py:144-158 | the loop's text equals the context block: "" for no memories |
| MemoryFormat.ContextBlockLines | test-agent/memory_system/interface.py:149-158 | the block is the opening tag, one line per memory numbered from 1 and labelled recent exactly for hp 1, and the closing tag |
| MemoryFormat.HpInfoShown | test-agent/memory_system/interface.py:169 | the `HP:n` tag shows exactly for hp > 1, and its numeral reads back as the hp |
| MemoryFormat.FormatMemoriesForDisplay | test-agent/memory_system/interface.py:160-175 | the loop's text equals the display listing, with the not-found text for no memories |
| MemoryFormat.DisplayEntryLines | test-agent/memory_system/interface.py:171-173 | an entry is its header line, then the content, then an empty tail |
| LlmAdapter.EstimateMonotone | test-agent/memory_system/utils/llm_adapter.py:146-158 | no states estimate to 0 and appending a state never lowers the estimate |
| LlmAdapter.EstimateTokenCount | test-agent/memory_system/utils/llm_adapter.py:146-158 | the loop's total is the summed length of the states' string forms |
| LlmAdapter.FormatStatesLength | test-agent/memory_system/utils/llm_adapter.py:107-119 | the formatted states are the estimated characters plus one newline between neighbours |
| LlmAdapter.ParseExtractResponse | test-agent/memory_system/utils/llm_adapter.py:121-144 | the loop's facts are the parse: none for a "none" reply, else one per matched block in order |
| LlmAdapter.ToFactsPointwise | test-agent/memory_system/utils/llm_adapter.py:134-141 | one fact per match, in match order, with the group stripped and the digit run's value as hp |
| LlmAdapter.ParsedContentsStripped | test-agent/memory_system/utils/llm_adapter.py:141 | every parsed content has no whitespace at either end |
| LlmAdapter.NoneReplyGivesNothing | test-agent/memory_system/utils/llm_adapter.py:126-128 | a reply that strips and lower-cases to "none" gives no facts |
| LlmAdapter.ParseRender | test-agent/memory_system/utils/llm_adapter.py:131-144 | a reply listing `<`-free, stripped facts in the prompted block format parses back to exactly those facts, in order |
| LlmAdapter.ParseMayGiveHpOne | test-agent/memory_system/utils/llm_adapter.py:131-139 | the pattern accepts any digit run, so a reply can hand back hp 1 or 0 for a promoted fact |
| LlmAdapter.TextEmbedding | test-agent/memory_system/utils/llm_adapter.py:17-23 | a failed embedding call degrades to the empty vector |
| LlmAdapter.SummarizeStates | test-agent/memory_system/utils/llm_adapter.py:25-36 | a failed summary call degrades to "" |
| LlmAdapter.ExtractLongTermFacts | test-agent/memory_system/utils/llm_adapter.py:38-49 | a failed extraction call gives no facts; a reply is parsed |
| AgentContext.FormatEvents | test-agent/core/context.py:52-76 | the loop's text is the history: the fixed empty-history text for no events, else the tagged lines between the history tags |
| AgentContext.HistoryLength | test-agent/core/context.py:57-74 | one line per message and per listed tool result, none per error |
| AgentContext.HistoryLayout | test-agent/core/context.py:57-76 | each event's lines form one block, after the earlier events' lines and before the later ones' |
| AgentContext.AgentToolEventsInvisible | test-agent/core/context.py:61-72 | a tool event with `tool_name` and `result` but no `results` adds no line to the history |
| AgentContext.CorrectedToolEventShown | test-agent/core/context.py:61-72 | a tool event that also carries a one-entry `results` list adds exactly one line after the earlier history: the tool's output tagged success when `success` is true, else its error text tagged error |
| AgentContext.ResultStatus | test-agent/core/context.py:64-72 | a result line says success exactly when its `success` is true, and error otherwise, a missing key included |
| AgentContext.CreateContextFromState | test-agent/core/context.py:11-34 | the method's context is the four parts joined by blank lines, rebuilt from the last five events when over the limit |
| AgentContext.ContextParts | test-agent/core/context.py:13-28 | the context is system prompt, tools, history and output instructions, in that order, separated by "\n\n" |
| AgentContext.TruncationCases | test-agent/core/context.py:28-32 | a context within the limit is kept whole; five events or fewer are never cut; otherwise exactly the last five events remain |
| AgentContext.TruncationMayExceedLimit | test-agent/core/context.py:100-113 | truncation does not enforce the limit: for any limit, an over-limit context whose last five events alone render a history longer than the limit stays over it after truncation |
| AgentContext.ZeroLimitExceeded | test-agent/core/context.py:28-32 | with a limit of 0 every context, truncated or not, is over the limit |
| AgentLoop.TagSpanSpec | test-agent/core/agent.py:68-70 | a found span starts right after the first opening tag and ends at the first closing tag after it; no span means one of them is missing |
| AgentLoop.TagRoundTrip | test-agent/core/agent.py:68-74 | a `<`-free body between the tags, after `<`-free text, is returned stripped |
| AgentLoop.IntentRoundTrip | test-agent/core/agent.py:66-76 | an intent written between the intent tags reads back stripped |
| AgentLoop.NoIntentTag | test-agent/core/agent.py:72 | a reply without an opening intent tag reads as "unknown" |
| AgentLoop.NoTagsDefaults | test-agent/core/agent.py:72-76 | a reply with no tags gives "unknown", "" and "" |
| AgentLoop.ExecuteTool | test-agent/core/agent.py:78-84 | a tool's result is passed through; an exception becomes the dictionary of exactly `error` (its message) and `success` false |
| AgentLoop.Decide | test-agent/core/agent.py:33-61 | an LLM failure records an error; "finish" stops without an event; a registered tool records exactly one tool result; any other intent records an unknown-intent error |
| AgentLoop.RunFrom | test-agent/core/agent.py:24-61 | the run makes at most the maximum number of rounds and only appends; each round but a final "finish" records one event, a tool result or an error, so ending before the maximum means "finish" |
| AgentLoop.RunHistoryUnchanged | test-agent/core/agent.py:28-30 | the history every round renders equals the initial one: recorded events add no line |
| AgentLoop.RecordedEventsSilent | test-agent/core/agent.py:41-61 | every event the loop records renders as no line |
| AgentLoop.Agent.constructor | test-agent/core/agent.py:8-13 | a new agent uses a context builder with the default limit of 8000 characters, at most 20 rounds and an empty event log |
| AgentLoop.Agent.Run | test-agent/core/agent.py:16-64 | the loop's events and round count equal the run function from the initial user message; at most 20 rounds, and the first event is the prompt |
| HtmlToMarkdown.CleanMarkdown | reader/html_to_markdown.py:82-95 | the loop's result equals the clean-up function and has no whitespace at either end |
| HtmlToMarkdown.CleanTrailingBlanks | reader/html_to_markdown.py:86-90 | the kept lines end in as many blank lines as the input, but at most two |
| HtmlToMarkdown.BlankRunKeepsTwo | reader/html_to_markdown.py:87-90 | a run of k blank lines after a non-blank line keeps its first min(k, 2) lines |
| HtmlToMarkdown.IsHtmlCases | reader/html_to_markdown.py:108-112 | an HTML content type decides alone; another non-empty type leaves only the `<html` test on 100 characters; no type lets any of four tags in 500 characters decide |
| HtmlToMarkdown.HtmlToMarkdownConverter.Convert | reader/html_to_markdown.py:157-170 | without `clean_output` the readability extraction or markdownify output unchanged; with it, a result that neither starts nor ends with whitespace |
| HtmlToMarkdown.CleanNoThreeBlanks | backend/reader/html_to_markdown.py:84-93 | the kept lines never hold three blank lines in a row |
| HtmlToMarkdown.CleanKeepsText | backend/reader/html_to_markdown.py:86-95 | cleaning keeps every non-blank line, in order |
| HtmlToMarkdown.CleanTextTrimmed | backend/reader/html_to_markdown.py:95 | the cleaned text never starts or ends with whitespace |
| FeedReader.RssUrlIrrelevant | reader/reader.py:40-74 | a feed MIME type decides alone; otherwise the RSS indicators in the first 2000 characters decide, whatever the URL |
| FeedReader.NormalizeUrlSpec | reader/reader.py:220-225 | a blank URL is an error; otherwise the result has an http or https scheme, is unchanged if it had one, and normalising twice equals normalising once |
| FeedReader.Collapse | reader/reader.py:206 | every whitespace run becomes one space: the only whitespace left is single spaces, the result is empty exactly when the input is, and it starts and ends with whitespace exactly when the input does |
| FeedReader.CollapseKeepsText | reader/reader.py:206 | collapsing keeps every non-whitespace character, in order |
| FeedReader.TitleSpan | reader/reader.py:202 | the bounds of a found title body lie within the page, start before end |
| FeedReader.TitleShape | reader/reader.py:202-209 | the title has no whitespace at either end and only single spaces inside |
| FeedReader.TitleRoundTrip | reader/reader.py:202-209 | a `<title>` with a `<`-free body after `<`-free text gives that body, tidied |
| FeedReader.EntryContent | reader/reader.py:147-163 | the first non-empty content value, converted if HTML; else the summary, converted if non-empty HTML |
| FeedReader.PyTake | reader/reader.py:129 | Python's `s[:n]`, with a negative `n` counting from the end |
| FeedReader.ProcessRssFeed | reader/reader.py:109-145 | a malformed feed without entries is the wrapped error; otherwise the feed record, of type "rss_feed", with the title (default "Unknown Feed"), description, link and update time (default empty), and one article per kept entry |
| FeedReader.FeedCap | reader/reader.py:123-141 | the record is of type "rss_feed", for the URL, titled "Unknown Feed" when the feed has no title; the processed count is min(total, cap) and, for a non-negative cap, the article list has that length; a negative cap makes them disagree |
| FeedReader.FormatRssOutput | reader/reader.py:256-283 | the loop's text equals the header lines and each article's lines, joined by newlines |
| FeedReader.FormatArticle | reader/reader.py:265-281 | one article's lines, numbered, as the layout below states |
| FeedReader.ArticleLayout | reader/reader.py:265-281 | an Author line exactly when there is an author, a Tags line exactly when there are tags, the content or else the summary when non-empty, and a closing "", "---", "" |
| FeedReader.PageJoin | reader/reader.py:285-294 | the page text is the title, URL and content-type lines, a blank line, and the content |
| FeedReader.PageLines | reader/reader.py:285-294 | with single-line header fields, the page's lines are the four header lines, then the content's lines |
| BackgroundTasks.Kept | backend/background_tasks.py:40-68 | at most one article per entry, each with a non-empty link and title |
| BackgroundTasks.FetchEntries | backend/background_tasks.py:38-68 | the loop's articles are the kept candidates of the first 20 entries, in order |
| BackgroundTasks.FetchFilter | backend/background_tasks.py:38-68 | at most 20 articles, each with a link and a title, and every entry with both yields its article |
| BackgroundTasks.NewIds | backend/background_tasks.py:92-93 | at most one id per article and none of them 0 |
| BackgroundTasks.StoreArticles | backend/background_tasks.py:78-98 | the loop's ids are the truthy ids the inserts return, in article order; failed inserts are skipped |
| BackgroundTasks.AllStored | backend/background_tasks.py:78-98 | when every insert returns a non-zero id, the result is exactly those ids, in order |
| BackgroundTasks.SkippedInsert | backend/background_tasks.py:92-97 | a failed insert, a None and a zero id add nothing |
| BackgroundTasks.LargestFit | backend/background_tasks.py:124-133 | the longest content prefix that fits the budget, or 0, with no longer prefix fitting |
| BackgroundTasks.SearchPrefix | backend/background_tasks.py:124-131 | the search ends with a prefix length in range that fits or is 0; for a monotone counter it is the longest fitting prefix |
| BackgroundTasks.TruncateForEmbedding | backend/background_tasks.py:110-133 | a text within 8000 tokens is kept; a title over 7500 tokens gives its first 1000 characters; otherwise the title and the content prefix the search finds |
| BackgroundTasks.TruncationWithinBudget | backend/background_tasks.py:124-133 | for a monotone counter under which the bare title fits, the truncated text fits and no longer prefix does |

## Left out

- Regular expressions and case: `\s` and `strip()` are ASCII whitespace (space, tab, newline, carriage return, vertical tab, form feed and the separators 0x1C to 0x1F). `\d` and `int()` accept only the ASCII digits 0 to 9, whereas Python also accepts decimal digits of other scripts. `lower()` and `re.IGNORECASE` are ASCII lower-casing. Unicode whitespace, digits and case rules for other scripts are not modelled.
- MemoryFacade.Cascade: Python's recursion limit appears as a `fuel` bound on the number of invocations. The `RecursionError` it raises, which the handler catches, is not modelled beyond stopping.
- Retrieval (`reflexive_recall`, `deep_thought`) is not part of this model. Its answers are parameters, `None` where it raised.
- Every LLM call, the prompt builders and the embedding service are parameters (the reply, or `None` for an exception). `hash_states` (MD5) and `uuid4` are left out; ids are injected.
- Floating point: `HP_DECAY_RATE` and the other float settings are exact rationals. `avg_hp` is reported as a sum and a count. Embeddings are `real` sequences.
- MemoryStorage.RowRoundTrip: the float32 conversion is the parameter `toF32`, of which only idempotence is assumed; its rounding rule and the float64 conversion of `tolist()` are not modelled. `MemoryStore` keeps items as they are saved, so its listings return embeddings unrounded; the rounding is stated only by `ToRow` and `FromRow`.
- ShortTermMemory.ShortTermMemoryManager.BoostMemoryHp: object identity is modelled only for the user's cache list, by the flag `shared`; other lists holding the same object (such as a listing a caller kept) are not updated in the model.
- SQLite: connecting, committing, schema and indexes are left out. The table is a sequence of rows. Ties in `ORDER BY` are settled by a deterministic insertion sort, because SQL leaves their order unspecified.
- The clock: `datetime.now()` is the parameter `now`, in whole seconds. Timestamps are integers, so their ISO text form is not modelled.
- Printing and logging are left out. They do not affect results.
- LlmAdapter.EstimateTokenCount: the states arrive as their string forms, so `json.dumps` of a dict and `str` of other values are not modelled.
- AgentContext.ResultLine: a tool's result dictionary is printed by Python's `str()`. The model takes it as a given string, rendered `{}` when missing.
- HtmlToMarkdown.CleanNoThreeBlanks: the property is stated on the kept lines before the final whole-text strip. That strip can only remove lines at the ends.
- FeedReader.ProcessRssFeed: `feedparser` is left out. The parsed feed arrives as parameters (the malformed flag and its exception text, the feed's optional title, description, link and update time, and the entries). `is_html_content` and `extract_content_from_html` are function parameters.
- `process_web_page`, `fetch_content`, `read`'s dispatch and `format_output` are left out. They are I/O, or a dispatch on a result's type.
- BackgroundTasks.FetchEntries: `clean_text` is a function parameter, not modelled; it is a long chain of regular expression substitutions. `datetime(*t[:6])` is a function parameter that answers `None` where Python raises.
- BackgroundTasks.TruncateForEmbedding: the token counter is a parameter. The longest-fit property is proved only for a counter monotone in the prefix length. The unused `available_tokens` value is not modelled.
- The agent's LLM client and tool registry are parameters. `get_functions_xml`, the base prompt and the output instructions are fields of the context builder.
- Concurrency, async scheduling, HTTP, the CLI, the Streamlit UI and the recommendation scoring are not part of this model.
- MemoryFacade.MemorySystem.GetMemoryStats: the exception handler's all-zero answer is not modelled. The handler is only reachable through failures of the store, and the model's store does not fail on reads.

## Findings

| source | as written | input that shows it | evidently intended | confidence | as-written member | corrected member |
|---|---|---|---|---|---|---|
| test-agent/memory_system/interface.py:120-124 | maintenance (decay, then cleanup) runs after the last overflow check, and decay can truncate hp 2 to 1 | maximum 2, rows: one summary and one hp-2 fact of user `u`, then a new summary arrives: no overflow, then decay turns the fact into a third summary | `update_memory` leaves at most `SHORT_TERM_MAX_COUNT` summaries, as test_update_memory.py:117-118 expects | not executed | MemoryFacade.MaintenanceMayOverflow | MemoryFacade.CorrectedUpdateBound |
| test-agent/memory_system/core/long_term_memory.py:43 | a promoted fact is saved with whatever hp the reply gives, and the parser accepts any digit run | a reply that lists one fact with `<hp>1</hp>` for every summary: each step deletes one summary and saves a new one | promoted facts are long-term (hp > 1), as the comment on line 38 says, so the cascade settles | not executed | MemoryFacade.CascadeNeverSettles | MemoryFacade.CascadeClampedSettles |
| test-agent/core/agent.py:52-55 | the agent records a tool call's outcome under `tool_name` and `result`, but the history formatter (context.py:61-72) reads only a `results` list | any round that calls a tool: the recorded event renders as no line, so the next prompt never shows the tool's output | each tool call appears in the history as a `<tool_result>` line | not executed | AgentContext.AgentToolEventsInvisible | AgentContext.CorrectedToolEventShown |
