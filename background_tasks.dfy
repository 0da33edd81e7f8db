/**
 * The background worker's pure core: which feed entries become articles,
 * which stored articles are new, and how an article's text is cut down to
 * the embedding model's token budget.
 */
module BackgroundTasks {

  import opened Common
  import opened Text

  // ---------------------------------------------------------------------------
  // fetch_rss_articles: the entry filter
  // ---------------------------------------------------------------------------

  /**
   * A parsed feed entry: missing keys are `None`; a missing or empty
   * `*_parsed` time tuple is the empty sequence.
   */
  datatype FeedEntry = FeedEntry(
    link: Option<string>,
    title: Option<string>,
    summary: Option<string>,
    description: Option<string>,
    publishedParsed: seq<int>,
    updatedParsed: seq<int>)

  datatype NewArticle = NewArticle(url: string, title: string, content: string, publishedAt: Option<int>)

  function Get(o: Option<string>, default: string): string {
    if o.Some? then o.value else default
  }

  /**
   * The publication time: from `published_parsed` if present, else from
   * `updated_parsed`; `toDate` is `datetime(*t[:6])`, `None` where it raises.
   * A bad `published_parsed` gives no time even when `updated_parsed` is good.
   */
  function PublishedAt(e: FeedEntry, toDate: seq<int> -> Option<int>): Option<int> {
    if e.publishedParsed != [] then toDate(Prefix6(e.publishedParsed))
    else if e.updatedParsed != [] then toDate(Prefix6(e.updatedParsed))
    else None
  }

  function Prefix6(t: seq<int>): seq<int> {
    if |t| <= 6 then t else t[..6]
  }

  /** The article an entry yields, before the emptiness test; `cleanText` stands for `clean_text`. */
  function Candidate(e: FeedEntry, cleanText: string -> string, toDate: seq<int> -> Option<int>): NewArticle {
    var summary := Get(e.summary, "");
    NewArticle(Get(e.link, ""), cleanText(Get(e.title, "")), if summary != "" then summary else Get(e.description, ""),
               PublishedAt(e, toDate))
  }

  /** The articles of the given entries, in order, skipping those with an empty link or cleaned title. */
  function Kept(entries: seq<FeedEntry>, cleanText: string -> string, toDate: seq<int> -> Option<int>): (r: seq<NewArticle>)
    ensures |r| <= |entries|
    ensures forall i | 0 <= i < |r| :: r[i].url != "" && r[i].title != ""
  {
    if entries == [] then []
    else
      var a := Candidate(entries[|entries| - 1], cleanText, toDate);
      Kept(entries[..|entries| - 1], cleanText, toDate) + (if a.url != "" && a.title != "" then [a] else [])
  }

  /** The loop over one feed's first 20 entries in `fetch_rss_articles`. */
  method FetchEntries(feedEntries: seq<FeedEntry>, cleanText: string -> string, toDate: seq<int> -> Option<int>)
    returns (articles: seq<NewArticle>)
    ensures articles == Kept(if |feedEntries| <= 20 then feedEntries else feedEntries[..20], cleanText, toDate)
  {
    var entries := if |feedEntries| <= 20 then feedEntries else feedEntries[..20];
    articles := [];
    for i := 0 to |entries|
      invariant articles == Kept(entries[..i], cleanText, toDate)
    {
      assert entries[..i + 1][..i] == entries[..i];
      var entry := entries[i];
      var url := Get(entry.link, "");
      var title := Get(entry.title, "");
      var summary := Get(entry.summary, "");
      var content := if summary != "" then summary else Get(entry.description, "");
      title := cleanText(title);
      var publishedAt := PublishedAt(entry, toDate);
      if url != "" && title != "" {
        articles := articles + [NewArticle(url, title, content, publishedAt)];
      }
    }
    assert entries[..|entries|] == entries;
  }

  /**
   * At most 20 entries are looked at, every article kept has a link and a
   * title, and an entry with both is kept, after the ones before it.
   */
  lemma {:induction false} FetchFilter(entries: seq<FeedEntry>, cleanText: string -> string, toDate: seq<int> -> Option<int>)
    ensures var kept := Kept(if |entries| <= 20 then entries else entries[..20], cleanText, toDate);
            |kept| <= 20 && forall i | 0 <= i < |kept| :: kept[i].url != "" && kept[i].title != ""
    ensures forall e | e in entries && Candidate(e, cleanText, toDate).url != "" && Candidate(e, cleanText, toDate).title != "" ::
              Candidate(e, cleanText, toDate) in Kept(entries, cleanText, toDate)
  {
    KeptComplete(entries, cleanText, toDate);
  }

  lemma {:induction false} KeptComplete(entries: seq<FeedEntry>, cleanText: string -> string, toDate: seq<int> -> Option<int>)
    ensures forall e | e in entries && Candidate(e, cleanText, toDate).url != "" && Candidate(e, cleanText, toDate).title != "" ::
              Candidate(e, cleanText, toDate) in Kept(entries, cleanText, toDate)
  {
    if entries != [] {
      var init := entries[..|entries| - 1];
      KeptComplete(init, cleanText, toDate);
      forall e | e in entries && Candidate(e, cleanText, toDate).url != "" && Candidate(e, cleanText, toDate).title != ""
        ensures Candidate(e, cleanText, toDate) in Kept(entries, cleanText, toDate)
      {
        if e in init {
          assert Candidate(e, cleanText, toDate) in Kept(init, cleanText, toDate);
        } else {
          assert e == entries[|entries| - 1];
        }
      }
    }
  }

  // ---------------------------------------------------------------------------
  // store_articles
  // ---------------------------------------------------------------------------

  /**
   * The ids `store_articles` collects: `add` is the database's answer for
   * the `i`-th article, an id (or `None`) or the message of the exception it
   * raised. An id is collected only when truthy, so `None` and `0` are skipped.
   */
  function NewIds(n: nat, add: nat -> Result<Option<int>, string>): (r: seq<int>)
    ensures |r| <= n
    ensures forall i | 0 <= i < |r| :: r[i] != 0
  {
    if n == 0 then []
    else
      var res := add(n - 1);
      NewIds(n - 1, add) + (if res.Ok? && res.value.Some? && res.value.value != 0 then [res.value.value] else [])
  }

  method StoreArticles(articles: seq<NewArticle>, add: nat -> Result<Option<int>, string>) returns (ids: seq<int>)
    ensures ids == NewIds(|articles|, add)
  {
    ids := [];
    for i := 0 to |articles|
      invariant ids == NewIds(i, add)
    {
      var res := add(i);
      if res.Ok? {
        var articleId := res.value;
        if articleId.Some? && articleId.value != 0 {
          ids := ids + [articleId.value];
        }
      }
    }
  }

  /** When every insert returns a fresh non-zero id, the ids come back in article order, one each. */
  lemma {:induction false} AllStored(n: nat, add: nat -> Result<Option<int>, string>)
    requires forall i | 0 <= i < n :: add(i).Ok? && add(i).value.Some? && add(i).value.value != 0
    ensures |NewIds(n, add)| == n
    ensures forall i | 0 <= i < n :: NewIds(n, add)[i] == add(i).value.value
  {
    if n > 0 {
      AllStored(n - 1, add);
    }
  }

  /** A failed insert, a duplicate (`None`) and a zero id add nothing. */
  lemma SkippedInsert(n: nat, add: nat -> Result<Option<int>, string>)
    requires add(n).Err? || add(n).value.None? || add(n).value.value == 0
    ensures NewIds(n + 1, add) == NewIds(n, add)
  {
  }

  // ---------------------------------------------------------------------------
  // vectorize_articles: the token-bounded truncation
  // ---------------------------------------------------------------------------

  const MaxTokens: nat := 8000
  const MaxTitleTokens: nat := 7500

  /** The text embedded for a title and a content prefix of length `k`. */
  function WithPrefix(title: string, content: string, k: nat): string
    requires k <= |content|
  {
    title + "\n" + content[..k]
  }

  predicate Fits(title: string, content: string, k: nat, tokens: string -> nat)
    requires k <= |content|
  {
    tokens(WithPrefix(title, content, k)) <= MaxTokens
  }

  /** The counter never counts fewer tokens for a longer content prefix. */
  predicate Monotone(title: string, content: string, tokens: string -> nat) {
    forall i, j | 0 <= i <= j <= |content| :: tokens(WithPrefix(title, content, i)) <= tokens(WithPrefix(title, content, j))
  }

  /** The longest prefix length up to `k` that fits, or 0 when none does. */
  function LargestFit(title: string, content: string, k: nat, tokens: string -> nat): (r: nat)
    requires k <= |content|
    ensures r <= k
    ensures r == 0 || Fits(title, content, r, tokens)
    ensures forall j | r < j <= k :: !Fits(title, content, j, tokens)
  {
    if k == 0 || Fits(title, content, k, tokens) then k else LargestFit(title, content, k - 1, tokens)
  }

  /**
   * The binary search over the content's length. Whatever the counter, it
   * stops with a length in range that fits, or 0. For a counter monotone in
   * the prefix length it finds the longest fitting prefix.
   */
  method SearchPrefix(title: string, content: string, tokens: string -> nat) returns (left: nat)
    ensures left <= |content|
    ensures left == 0 || Fits(title, content, left, tokens)
    ensures Monotone(title, content, tokens) ==> left == LargestFit(title, content, |content|, tokens)
  {
    left := 0;
    var right := |content|;
    while left < right
      invariant 0 <= left <= right <= |content|
      invariant left == 0 || Fits(title, content, left, tokens)
      invariant Monotone(title, content, tokens) ==> forall k | right < k <= |content| :: !Fits(title, content, k, tokens)
      decreases right - left
    {
      var mid := (left + right + 1) / 2;
      var testText := title + "\n" + content[..mid];
      assert testText == WithPrefix(title, content, mid);
      if tokens(testText) <= 8000 {
        left := mid;
      } else {
        if Monotone(title, content, tokens) {
          forall k | mid <= k <= |content|
            ensures !Fits(title, content, k, tokens)
          {
            assert tokens(WithPrefix(title, content, mid)) <= tokens(WithPrefix(title, content, k));
          }
        }
        right := mid - 1;
      }
    }
    if Monotone(title, content, tokens) {
      LargestFitUnique(title, content, tokens, left);
    }
  }

  /** Under a monotone counter, a fitting length (or 0) with nothing longer fitting is the longest fit. */
  lemma LargestFitUnique(title: string, content: string, tokens: string -> nat, left: nat)
    requires left <= |content|
    requires left == 0 || Fits(title, content, left, tokens)
    requires forall k | left < k <= |content| :: !Fits(title, content, k, tokens)
    ensures left == LargestFit(title, content, |content|, tokens)
  {
    var r := LargestFit(title, content, |content|, tokens);
    assert left <= r;
    assert r <= left;
  }

  /** The text `vectorize_articles` embeds. */
  method TruncateForEmbedding(title: string, content: string, tokens: string -> nat) returns (text: string)
    ensures tokens(title + "\n" + content) <= MaxTokens ==> text == title + "\n" + content
    ensures tokens(title + "\n" + content) > MaxTokens && tokens(title) > MaxTitleTokens ==> text == Prefix(title, 1000)
    ensures tokens(title + "\n" + content) > MaxTokens && tokens(title) <= MaxTitleTokens ==>
              exists k | 0 <= k <= |content| ::
                && text == WithPrefix(title, content, k)
                && (k == 0 || Fits(title, content, k, tokens))
                && (Monotone(title, content, tokens) ==> k == LargestFit(title, content, |content|, tokens))
  {
    text := title + "\n" + content;
    if tokens(text) > 8000 {
      var titleTokens := tokens(title);
      if titleTokens > 7500 {
        text := if |title| <= 1000 then title else title[..1000];
      } else {
        var left := SearchPrefix(title, content, tokens);
        text := title + "\n" + content[..left];
        assert text == WithPrefix(title, content, left);
      }
    }
  }

  /**
   * With a monotone counter under which the title alone (with an empty
   * content) fits, the truncated text is within the budget and no longer
   * content prefix would be.
   */
  lemma TruncationWithinBudget(title: string, content: string, tokens: string -> nat)
    requires Monotone(title, content, tokens)
    requires Fits(title, content, 0, tokens)
    ensures var k := LargestFit(title, content, |content|, tokens);
            Fits(title, content, k, tokens) && forall j | k < j <= |content| :: !Fits(title, content, j, tokens)
  {
  }
}
