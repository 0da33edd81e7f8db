/**
 * The universal reader's decisions and output: whether fetched content is a
 * feed, how a URL is normalised, the page title, the feed's article list
 * and the two text renderings.
 */
module FeedReader {

  import opened Common
  import opened Text

  // ---------------------------------------------------------------------------
  // is_rss_feed
  // ---------------------------------------------------------------------------

  /** `any(t in s for t in ts)` */
  predicate AnyIn(s: string, ts: seq<string>) {
    exists i | 0 <= i < |ts| :: Contains(s, ts[i])
  }

  const FeedMimeTypes: seq<string> := ["application/rss+xml", "application/atom+xml", "application/xml", "text/xml"]
  const FeedUrlPatterns: seq<string> := ["/rss", "/feed", "/atom", ".rss", ".xml"]
  const FeedUrlTags: seq<string> := ["<rss", "<feed", "<atom", "xmlns=\"http://www.w3.org/2005/atom"]
  const RssIndicators: seq<string> := [
    "<rss", "<feed", "<atom", "xmlns=\"http://www.w3.org/2005/atom",
    "xmlns=\"http://purl.org/rss/", "<channel>", "<item>", "<entry>"]

  /** `Reader.is_rss_feed` */
  predicate IsRssFeed(content: string, contentType: string, url: string) {
    if AnyIn(Lower(contentType), FeedMimeTypes) then true
    else if AnyIn(Lower(url), FeedUrlPatterns) && AnyIn(Lower(Prefix(content, 1000)), FeedUrlTags) then true
    else AnyIn(Lower(Prefix(content, 2000)), RssIndicators)
  }

  /**
   * The URL never changes the answer: the tags its branch looks for are
   * among the indicators, and the first 1000 characters lie within the
   * first 2000. A feed MIME type decides alone; otherwise the indicators in
   * the first 2000 characters decide.
   */
  lemma RssUrlIrrelevant(content: string, contentType: string, url: string)
    ensures IsRssFeed(content, contentType, url) == IsRssFeed(content, contentType, "")
    ensures IsRssFeed(content, contentType, url) <==>
              AnyIn(Lower(contentType), FeedMimeTypes) || AnyIn(Lower(Prefix(content, 2000)), RssIndicators)
  {
    if AnyIn(Lower(Prefix(content, 1000)), FeedUrlTags) {
      var head := Lower(Prefix(content, 1000));
      var body := Lower(Prefix(content, 2000));
      var i :| 0 <= i < |FeedUrlTags| && Contains(head, FeedUrlTags[i]);
      LowerPrefix(content, 1000);
      LowerPrefix(content, 2000);
      assert body[..|head|] == head;
      ContainsInLonger(body, |head|, FeedUrlTags[i]);
      assert RssIndicators[i] == FeedUrlTags[i];
    }
    assert !AnyIn(Lower(""), FeedUrlPatterns) by {
      forall i | 0 <= i < |FeedUrlPatterns|
        ensures !Contains(Lower(""), FeedUrlPatterns[i])
      {
        assert |FeedUrlPatterns[i]| > 0;
      }
    }
  }

  // ---------------------------------------------------------------------------
  // URL normalisation
  // ---------------------------------------------------------------------------

  /** The URL check at the start of `read`: reject a blank URL, else add a missing scheme. */
  function NormalizeUrl(url: string): Result<string, string> {
    if Strip(url) == "" then Err("URL cannot be empty")
    else if StartsWith(url, "http://") || StartsWith(url, "https://") then Ok(url)
    else Ok("https://" + url)
  }

  /**
   * Blank URLs are rejected; every other URL comes out with an `http://`
   * or `https://` scheme, unchanged if it had one, and normalising twice is
   * normalising once.
   */
  lemma NormalizeUrlSpec(url: string)
    ensures NormalizeUrl(url).Err? <==> IsBlank(url)
    ensures NormalizeUrl(url).Ok? ==>
              var u := NormalizeUrl(url).value;
              (StartsWith(u, "http://") || StartsWith(u, "https://")) &&
              (u == url || u == "https://" + url) &&
              NormalizeUrl(u) == Ok(u)
    ensures StartsWith(url, "http://") || StartsWith(url, "https://") ==> NormalizeUrl(url).Ok? ==> NormalizeUrl(url).value == url
  {
    StripEmptyIffBlank(url);
    if NormalizeUrl(url).Ok? {
      var u := NormalizeUrl(url).value;
      if u != url {
        assert u[..8] == "https://";
        assert !IsBlank(u) by { assert !IsSpace(u[0]); }
        StripEmptyIffBlank(u);
      }
    }
  }

  // ---------------------------------------------------------------------------
  // _extract_page_title
  // ---------------------------------------------------------------------------

  /** `re.sub(r'\s+', ' ', s)`: every run of whitespace becomes one space. */
  function Collapse(s: string): (r: string)
    ensures forall i | 0 <= i < |r| :: IsSpace(r[i]) ==> r[i] == ' '
    ensures forall i | 0 <= i < |r| - 1 :: IsSpace(r[i]) ==> !IsSpace(r[i + 1])
    ensures |r| == 0 <==> |s| == 0
    ensures |r| > 0 ==> (IsSpace(r[0]) <==> IsSpace(s[0])) && (IsSpace(r[|r| - 1]) <==> IsSpace(s[|s| - 1]))
    decreases |s|
  {
    if s == [] then []
    else if IsSpace(s[0]) then
      var rest := LStrip(s[1..]);
      assert rest == [] || (rest == s[|s| - |rest|..] && s[|s| - 1] == rest[|rest| - 1]);
      var r := Collapse(rest);
      CollapsedCons(' ', r);
      [' '] + r
    else
      var r := Collapse(s[1..]);
      CollapsedCons(s[0], r);
      [s[0]] + r
  }

  /** Putting a character in front keeps runs collapsed unless it makes a second space in a row. */
  lemma CollapsedCons(c: char, r: string)
    requires forall i | 0 <= i < |r| :: IsSpace(r[i]) ==> r[i] == ' '
    requires forall i | 0 <= i < |r| - 1 :: IsSpace(r[i]) ==> !IsSpace(r[i + 1])
    requires IsSpace(c) ==> c == ' ' && (r == [] || !IsSpace(r[0]))
    ensures var t := [c] + r;
            && (forall i | 0 <= i < |t| :: IsSpace(t[i]) ==> t[i] == ' ')
            && (forall i | 0 <= i < |t| - 1 :: IsSpace(t[i]) ==> !IsSpace(t[i + 1]))
            && t[0] == c && (r != [] ==> t[|t| - 1] == r[|r| - 1])
  {
    var t := [c] + r;
    forall i | 0 < i < |t|
      ensures t[i] == r[i - 1]
    {
    }
  }

  /** The non-whitespace characters of `s`, in order. */
  function Visible(s: string): string {
    if s == [] then [] else (if IsSpace(s[0]) then [] else [s[0]]) + Visible(s[1..])
  }

  /** Collapsing whitespace keeps every other character, in order. */
  lemma {:induction false} CollapseKeepsText(s: string)
    ensures Visible(Collapse(s)) == Visible(s)
    decreases |s|
  {
    if s != [] {
      if IsSpace(s[0]) {
        var rest := LStrip(s[1..]);
        CollapseKeepsText(rest);
        LeadingSpacesInvisible(s[1..]);
        assert ([' '] + Collapse(rest))[1..] == Collapse(rest);
      } else {
        CollapseKeepsText(s[1..]);
        assert ([s[0]] + Collapse(s[1..]))[1..] == Collapse(s[1..]);
      }
    }
  }

  lemma {:induction false} LeadingSpacesInvisible(s: string)
    ensures Visible(LStrip(s)) == Visible(s)
    decreases |s|
  {
    if |s| > 0 && IsSpace(s[0]) {
      LeadingSpacesInvisible(s[1..]);
    }
  }

  /**
   * Where the first `<title…>` tag's body lies, as the case-insensitive,
   * non-greedy search finds it: after the first `>` that ends the opening
   * tag and before the first `</title>` after it.
   */
  function TitleSpan(html: string): (r: Option<(nat, nat)>)
    ensures r.Some? ==> r.value.0 <= r.value.1 <= |html|
  {
    TitleSpanIn(Lower(html))
  }

  /** The same search on the already lower-cased page. */
  function TitleSpanIn(low: string): (r: Option<(nat, nat)>)
    ensures r.Some? ==> r.value.0 <= r.value.1 <= |low|
  {
    SpanBetween(low, "<title", ">", "</title>")
  }

  /**
   * The first `start`, then the first `end` after it that closes the
   * opening tag, then the first `close`: the text between the last two.
   */
  function SpanBetween(s: string, start: string, end: string, close: string): (r: Option<(nat, nat)>)
    ensures r.Some? ==> r.value.0 <= r.value.1 <= |s|
  {
    match FindFrom(s, start, 0)
    case None => None
    case Some(p) => SpanFrom(s, end, close, p + |start|)
  }

  /** From `from` on: the first `end`, then the first `close` after it, and the text between. */
  function SpanFrom(s: string, end: string, close: string, from: nat): (r: Option<(nat, nat)>)
    ensures r.Some? ==> r.value.0 <= r.value.1 <= |s|
  {
    match FindFrom(s, end, from)
    case None => None
    case Some(q) =>
      match FindFrom(s, close, q + |end|)
      case None => None
      case Some(e) => Some((q + |end|, e))
  }

  /** `_extract_page_title` */
  function ExtractPageTitle(html: string): string {
    match TitleSpan(html)
    case None => "Unknown Title"
    case Some((a, b)) => Collapse(Strip(html[a..b]))
  }

  /** Stripping, then collapsing, leaves no whitespace at either end and only single spaces inside. */
  lemma TidyShape(x: string)
    ensures var t := Collapse(Strip(x));
            && (t == "" || (!IsSpace(t[0]) && !IsSpace(t[|t| - 1])))
            && (forall i | 0 <= i < |t| :: IsSpace(t[i]) ==> t[i] == ' ')
            && (forall i | 0 <= i < |t| - 1 :: t[i] == ' ' ==> t[i + 1] != ' ')
  {
    var t := Collapse(Strip(x));
    forall i | 0 <= i < |t| - 1
      ensures t[i] == ' ' ==> t[i + 1] != ' '
    {
      if t[i] == ' ' {
        assert IsSpace(t[i]);
      }
    }
  }

  /** A found title has no whitespace at either end, and only single spaces inside. */
  lemma TitleShape(html: string)
    ensures TitleSpan(html).None? ==> ExtractPageTitle(html) == "Unknown Title"
    ensures var t := ExtractPageTitle(html);
            && (t == "" || (!IsSpace(t[0]) && !IsSpace(t[|t| - 1])))
            && (forall i | 0 <= i < |t| :: IsSpace(t[i]) ==> t[i] == ' ')
            && (forall i | 0 <= i < |t| - 1 :: t[i] == ' ' ==> t[i + 1] != ' ')
  {
    match TitleSpan(html)
    case None =>
      var t := "Unknown Title";
      assert ExtractPageTitle(html) == t;
      assert forall i | 0 <= i < |t| :: IsSpace(t[i]) ==> t[i] == ' ';
    case Some((a, b)) =>
      TidyShape(html[a..b]);
  }

  /** The opening-tag, tag-end and closing-tag searches, each finding its first candidate. */
  lemma TitleSpanOf(html: string, p: nat, q: nat, e: nat)
    requires var low := Lower(html);
             && FindFrom(low, "<title", 0) == Some(p)
             && FindFrom(low, ">", p + 6) == Some(q)
             && FindFrom(low, "</title>", q + 1) == Some(e)
    ensures TitleSpan(html) == Some((q + 1, e))
  {
    TitleSpanInOf(Lower(html), p, q, e);
  }

  lemma TitleSpanInOf(low: string, p: nat, q: nat, e: nat)
    requires FindFrom(low, "<title", 0) == Some(p)
    requires FindFrom(low, ">", p + 6) == Some(q)
    requires FindFrom(low, "</title>", q + 1) == Some(e)
    ensures TitleSpanIn(low) == Some((q + 1, e))
  {
    SpanFromOf(low, ">", "</title>", p + 6, q, e);
    SpanBetweenOf(low, "<title", ">", "</title>", p, Some((q + 1, e)));
  }

  lemma SpanBetweenOf(s: string, start: string, end: string, close: string, p: nat, r: Option<(nat, nat)>)
    requires FindFrom(s, start, 0) == Some(p)
    requires SpanFrom(s, end, close, p + |start|) == r
    ensures SpanBetween(s, start, end, close) == r
  {
  }

  lemma SpanFromOf(s: string, end: string, close: string, from: nat, q: nat, e: nat)
    requires FindFrom(s, end, from) == Some(q)
    requires FindFrom(s, close, q + |end|) == Some(e)
    ensures SpanFrom(s, end, close, from) == Some((q + |end|, e))
  {
  }

  /** The lower-cased page, piece by piece. */
  lemma LowerTitlePage(before: string, body: string, after: string)
    ensures Lower(before + "<title>" + body + "</title>" + after) == Lower(before) + "<title>" + Lower(body) + "</title>" + Lower(after)
  {
    LowerConcat(before, "<title>");
    LowerConcat(before + "<title>", body);
    LowerConcat(before + "<title>" + body, "</title>");
    LowerConcat(before + "<title>" + body + "</title>", after);
    assert Lower("<title>") == "<title>";
    assert Lower("</title>") == "</title>";
  }

  /** Lower-casing never makes or removes a `<`. */
  lemma LowerKeepsAngle(s: string)
    ensures '<' !in s ==> '<' !in Lower(s)
  {
    if '<' in Lower(s) {
      var i :| 0 <= i < |s| && Lower(s)[i] == '<';
      assert LowerChar(s[i]) == '<';
    }
  }

  /** A plain `<title>` tag with a body free of `<`, after text free of `<`, gives that body, tidied. */
  lemma TitleRoundTrip(before: string, body: string, after: string)
    requires '<' !in before && '<' !in body
    ensures ExtractPageTitle(before + "<title>" + body + "</title>" + after) == Collapse(Strip(body))
  {
    var html := before + "<title>" + body + "</title>" + after;
    LowerTitlePage(before, body, after);
    LowerKeepsAngle(before);
    LowerKeepsAngle(body);
    var lb, lt := Lower(before), Lower(body);
    var low := lb + "<title>" + lt + "</title>" + Lower(after);
    var k := |before|;
    var a := k + 7;
    var b := a + |body|;
    assert low[k..k + 6] == "<title";
    assert low[a - 1] == '>';
    assert low[b..b + 8] == "</title>";
    assert html[a..b] == body;
    assert low[..k] == lb && low[k..a] == "<title>" && low[a..b] == lt;
    FindTitleParts(low, k, b);
    TitleSpanOf(html, k, a - 1, b);
  }

  lemma FindTitleParts(low: string, k: nat, b: nat)
    requires k + 7 <= b && b + 8 <= |low|
    requires '<' !in low[..k] && low[k..k + 7] == "<title>"
    requires '<' !in low[k + 7..b] && low[b..b + 8] == "</title>"
    ensures FindFrom(low, "<title", 0) == Some(k)
    ensures FindFrom(low, ">", k + 6) == Some(k + 6)
    ensures FindFrom(low, "</title>", k + 7) == Some(b)
  {
    assert low[k..k + 6] == low[k..k + 7][..6] == "<title";
    assert low[k + 6..k + 7] == ">";
    assert low[0..k] == low[..k];
    FirstAfterPlain(low, "<title", 0, k);
    FindFromFirst(low, ">", k + 6, k + 6);
    FirstAfterPlain(low, "</title>", k + 7, b);
  }

  /** A tag starting with `<` is found first where it follows a stretch free of `<`. */
  lemma FirstAfterPlain(s: string, t: string, lo: nat, hi: nat)
    requires |t| > 0 && t[0] == '<' && lo <= hi && hi + |t| <= |s|
    requires s[hi..hi + |t|] == t
    requires '<' !in s[lo..hi]
    ensures FindFrom(s, t, lo) == Some(hi)
  {
    forall j | lo <= j < hi
      ensures s[j] != t[0]
    {
      assert s[j] == s[lo..hi][j - lo];
    }
    NoOccurrenceWithout(s, t, lo, hi);
    FindFromFirst(s, t, lo, hi);
  }

  // ---------------------------------------------------------------------------
  // Feeds
  // ---------------------------------------------------------------------------

  /** A feed entry, each key `None` when the entry lacks it; `tags` holds each tag's `term`. */
  datatype Entry = Entry(
    title: Option<string>,
    link: Option<string>,
    summary: Option<string>,
    contents: seq<string>,
    published: Option<string>,
    author: Option<string>,
    tags: seq<Option<string>>,
    id: Option<string>)

  datatype Article = Article(
    title: string, link: string, summary: string, content: string,
    published: string, author: string, tags: seq<string>, id: string)

  /** The feed-level fields of the parsed feed (`feed.feed`), each `None` where absent. */
  datatype FeedMeta = FeedMeta(title: Option<string>, description: Option<string>, link: Option<string>, updated: Option<string>)

  /** The dictionary `process_rss_feed` returns; `kind` is its `'type'` entry. */
  datatype Feed = Feed(
    kind: string, url: string, title: string, description: string, link: string, updated: string,
    totalEntries: int, processedEntries: int, articles: seq<Article>)

  function Get(o: Option<string>, default: string): string {
    if o.Some? then o.value else default
  }

  /**
   * `_extract_entry_content`: the first non-empty content value, converted
   * when it looks like HTML; else the summary, converted when it is
   * non-empty HTML. `isHtml` and `extract` stand for `is_html_content` and
   * the library conversion.
   */
  function EntryContent(contents: seq<string>, summary: string, isHtml: string -> bool, extract: string -> string): (r: string)
    ensures (forall i | 0 <= i < |contents| :: contents[i] == "") ==>
              r == if summary != "" && isHtml(summary) then extract(summary) else summary
  {
    if contents == [] then
      if summary != "" && isHtml(summary) then extract(summary) else summary
    else if contents[0] != "" then
      if isHtml(contents[0]) then extract(contents[0]) else contents[0]
    else EntryContent(contents[1..], summary, isHtml, extract)
  }

  function ArticleOf(e: Entry, isHtml: string -> bool, extract: string -> string): Article {
    Article(
      Get(e.title, "No Title"), Get(e.link, ""), Get(e.summary, ""),
      EntryContent(e.contents, Get(e.summary, ""), isHtml, extract),
      Get(e.published, ""), Get(e.author, ""),
      seq(|e.tags|, i requires 0 <= i < |e.tags| => Get(e.tags[i], "")),
      if e.id.Some? then e.id.value else Get(e.link, ""))
  }

  /** Python's `s[:n]`, a negative `n` counting from the end. */
  function PyTake<T>(s: seq<T>, n: int): (r: seq<T>)
    ensures |r| <= |s| && r == s[..|r|]
    ensures n >= 0 ==> |r| == Min(|s|, n)
  {
    if n >= 0 then (if n < |s| then s[..n] else s)
    else if |s| + n > 0 then s[..|s| + n] else []
  }

  /** The feed record `process_rss_feed` builds from the parsed feed. */
  function FeedOf(url: string, meta: FeedMeta, entries: seq<Entry>, maxArticles: int,
                  isHtml: string -> bool, extract: string -> string): Feed
  {
    var kept := PyTake(entries, maxArticles);
    Feed("rss_feed", url, Get(meta.title, "Unknown Feed"), Get(meta.description, ""), Get(meta.link, ""), Get(meta.updated, ""),
         |entries|, Min(|entries|, maxArticles),
         seq(|kept|, i requires 0 <= i < |kept| => ArticleOf(kept[i], isHtml, extract)))
  }

  /**
   * `process_rss_feed` on what the feed parser produced. A feed the parser
   * flagged as malformed and that has no entries is an error, reported
   * through the handler that wraps every failure.
   */
  method ProcessRssFeed(url: string, bozo: bool, bozoException: string, meta: FeedMeta,
                        entries: seq<Entry>, maxArticles: int, isHtml: string -> bool, extract: string -> string)
    returns (r: Result<Feed, string>)
    ensures bozo && entries == [] ==> r == Err("Failed to parse RSS feed: " + ("Invalid RSS feed: " + bozoException))
    ensures !(bozo && entries == []) ==> r == Ok(FeedOf(url, meta, entries, maxArticles, isHtml, extract))
  {
    if bozo && entries == [] {
      return Err("Failed to parse RSS feed: " + ("Invalid RSS feed: " + bozoException));
    }
    var kept := PyTake(entries, maxArticles);
    var articles: seq<Article> := [];
    for i := 0 to |kept|
      invariant |articles| == i
      invariant forall j | 0 <= j < i :: articles[j] == ArticleOf(kept[j], isHtml, extract)
    {
      articles := articles + [ArticleOf(kept[i], isHtml, extract)];
    }
    r := Ok(Feed("rss_feed", url, Get(meta.title, "Unknown Feed"), Get(meta.description, ""), Get(meta.link, ""),
                 Get(meta.updated, ""), |entries|, Min(|entries|, maxArticles), articles));
    assert articles == FeedOf(url, meta, entries, maxArticles, isHtml, extract).articles;
  }

  /**
   * The feed reports `min(total, max_articles)` processed entries and, for a
   * non-negative cap, lists exactly that many articles, one per leading
   * entry. A negative cap is a Python slice from the end: the count and the
   * list then disagree.
   */
  lemma FeedCap(url: string, meta: FeedMeta, entries: seq<Entry>, maxArticles: int,
                isHtml: string -> bool, extract: string -> string)
    ensures var f := FeedOf(url, meta, entries, maxArticles, isHtml, extract);
            && f.kind == "rss_feed" && f.url == url
            && f.title == (if meta.title.Some? then meta.title.value else "Unknown Feed")
            && f.totalEntries == |entries|
            && f.processedEntries == Min(|entries|, maxArticles)
            && (maxArticles >= 0 ==> |f.articles| == f.processedEntries)
            && (forall i | 0 <= i < |f.articles| :: f.articles[i] == ArticleOf(entries[i], isHtml, extract))
            && (maxArticles < 0 ==> |f.articles| != f.processedEntries)
  {
  }

  // ---------------------------------------------------------------------------
  // Output
  // ---------------------------------------------------------------------------

  /** `str(n)` for any integer. */
  function IntToString(n: int): string {
    if n < 0 then "-" + NatToString(-n) else NatToString(n)
  }

  /** The lines of one article, numbered from 1. */
  function ArticleLines(i: nat, a: Article): seq<string> {
    var content := if a.content != "" then a.content else a.summary;
    ["## Article " + NatToString(i) + ": " + a.title, "**Link**: " + a.link, "**Published**: " + a.published]
    + (if a.author != "" then ["**Author**: " + a.author] else [])
    + (if a.tags != [] then ["**Tags**: " + Join(a.tags, ", ")] else [])
    + [""]
    + (if content != "" then [content] else [])
    + ["", "---", ""]
  }

  function RssHeader(f: Feed): seq<string> {
    ["# RSS Feed: " + f.title, "**URL**: " + f.url, "**Description**: " + f.description,
     "**Total Articles**: " + IntToString(f.totalEntries) + " (showing " + IntToString(f.processedEntries) + ")", ""]
  }

  function ArticlesLines(arts: seq<Article>): seq<string> {
    if arts == [] then [] else ArticlesLines(arts[..|arts| - 1]) + ArticleLines(|arts|, arts[|arts| - 1])
  }

  /** `_format_rss_output` */
  function RssText(f: Feed): string {
    Join(RssHeader(f) + ArticlesLines(f.articles), "\n")
  }

  method FormatRssOutput(f: Feed) returns (text: string)
    ensures text == RssText(f)
  {
    var output := ["# RSS Feed: " + f.title, "**URL**: " + f.url, "**Description**: " + f.description,
                   "**Total Articles**: " + IntToString(f.totalEntries) + " (showing " + IntToString(f.processedEntries) + ")", ""];
    assert output == RssHeader(f);
    assert ArticlesLines(f.articles[..0]) == [];
    AppendNothing(output);
    for i := 0 to |f.articles|
      invariant output == RssHeader(f) + ArticlesLines(f.articles[..i])
    {
      ArticlesSnoc(f.articles, i);
      var block := FormatArticle(i + 1, f.articles[i]);
      AppendAssoc(RssHeader(f), ArticlesLines(f.articles[..i]), block);
      output := output + block;
    }
    assert f.articles[..|f.articles|] == f.articles;
    text := Join(output, "\n");
  }

  lemma AppendNothing(xs: seq<string>)
    ensures xs + [] == xs
  {
  }

  lemma AppendAssoc(xs: seq<string>, ys: seq<string>, zs: seq<string>)
    ensures xs + ys + zs == xs + (ys + zs)
  {
  }

  lemma ArticlesSnoc(arts: seq<Article>, i: nat)
    requires i < |arts|
    ensures ArticlesLines(arts[..i + 1]) == ArticlesLines(arts[..i]) + ArticleLines(i + 1, arts[i])
  {
    assert arts[..i + 1][..i] == arts[..i];
  }

  /** The loop body of `_format_rss_output` for one article. */
  method FormatArticle(i: nat, article: Article) returns (output: seq<string>)
    ensures output == ArticleLines(i, article)
  {
    output := ["## Article " + NatToString(i) + ": " + article.title];
    output := output + ["**Link**: " + article.link];
    output := output + ["**Published**: " + article.published];
    assert output == ["## Article " + NatToString(i) + ": " + article.title, "**Link**: " + article.link, "**Published**: " + article.published];
    ghost var lines := output;
    if article.author != "" {
      output := output + ["**Author**: " + article.author];
    }
    AppendOptional(lines, article.author != "", "**Author**: " + article.author, output);
    lines := output;
    if article.tags != [] {
      output := output + ["**Tags**: " + Join(article.tags, ", ")];
    }
    AppendOptional(lines, article.tags != [], "**Tags**: " + Join(article.tags, ", "), output);
    output := output + [""];
    var content := if article.content != "" then article.content else article.summary;
    lines := output;
    if content != "" {
      output := output + [content];
    }
    AppendOptional(lines, content != "", content, output);
    lines := output;
    output := output + [""];
    output := output + ["---"];
    output := output + [""];
    AppendThree(lines, "", "---", "");
  }

  /** Appending a line only when a test holds is appending the optional one-line list. */
  lemma AppendOptional(before: seq<string>, test: bool, line: string, after: seq<string>)
    requires after == if test then before + [line] else before
    ensures after == before + (if test then [line] else [])
  {
    if !test {
      assert before + [] == before;
    }
  }

  lemma AppendThree(before: seq<string>, a: string, b: string, c: string)
    ensures before + [a] + [b] + [c] == before + [a, b, c]
  {
  }

  /**
   * Each article block has its header lines, an Author line exactly when
   * there is an author, a Tags line exactly when there are tags, the content
   * (or else the summary) when either is non-empty, and ends in "", "---", "".
   */
  lemma ArticleLayout(i: nat, a: Article)
    ensures var ls := ArticleLines(i, a);
            var content := if a.content != "" then a.content else a.summary;
            && |ls| == 7 + (if a.author != "" then 1 else 0) + (if a.tags != [] then 1 else 0) + (if content != "" then 1 else 0)
            && ls[..3] == ["## Article " + NatToString(i) + ": " + a.title, "**Link**: " + a.link, "**Published**: " + a.published]
            && (a.author != "" ==> ls[3] == "**Author**: " + a.author)
            && (content != "" ==> ls[|ls| - 4] == content)
            && ls[|ls| - 3..] == ["", "---", ""]
  {
  }

  /** The page record's fields the rendering reads. */
  datatype Page = Page(title: string, url: string, contentType: string, content: string)

  /** `_format_page_output` */
  function PageText(p: Page): string {
    Join(["# " + p.title, "**URL**: " + p.url, "**Content Type**: " + p.contentType, "", p.content], "\n")
  }

  /** The page text is the header lines, a blank line and then the content verbatim. */
  lemma PageJoin(p: Page)
    ensures PageText(p) == ("# " + p.title) + "\n" + (("**URL**: " + p.url) + "\n" + (("**Content Type**: " + p.contentType) + "\n" + ("" + "\n" + p.content)))
  {
    var l0, l1, l2 := "# " + p.title, "**URL**: " + p.url, "**Content Type**: " + p.contentType;
    var parts := [l0, l1, l2, "", p.content];
    assert parts[1..] == [l1, l2, "", p.content];
    assert parts[1..][1..] == [l2, "", p.content];
    assert parts[1..][1..][1..] == ["", p.content];
    assert parts[1..][1..][1..][1..] == [p.content];
    assert Join(["", p.content], "\n") == "" + "\n" + p.content;
    assert Join([l2, "", p.content], "\n") == l2 + "\n" + ("" + "\n" + p.content);
    assert Join([l1, l2, "", p.content], "\n") == l1 + "\n" + (l2 + "\n" + ("" + "\n" + p.content));
  }

  /** With single-line header fields, the page's lines are the four header lines, then the content's. */
  lemma PageLines(p: Page)
    requires '\n' !in p.title && '\n' !in p.url && '\n' !in p.contentType
    ensures Split(PageText(p), '\n') == ["# " + p.title, "**URL**: " + p.url, "**Content Type**: " + p.contentType, ""] + Split(p.content, '\n')
  {
    PageJoin(p);
    var l0, l1, l2 := "# " + p.title, "**URL**: " + p.url, "**Content Type**: " + p.contentType;
    assert '\n' !in l0 && '\n' !in l1 && '\n' !in l2;
    SplitFour(l0, l1, l2, "", p.content);
  }

  /** Four single-line pieces, each followed by a newline, split off ahead of the rest. */
  lemma SplitFour(l0: string, l1: string, l2: string, l3: string, rest: string)
    requires '\n' !in l0 && '\n' !in l1 && '\n' !in l2 && '\n' !in l3
    ensures Split(l0 + "\n" + (l1 + "\n" + (l2 + "\n" + (l3 + "\n" + rest))), '\n') == [l0, l1, l2, l3] + Split(rest, '\n')
  {
    var r3 := l3 + "\n" + rest;
    var r2 := l2 + "\n" + r3;
    var r1 := l1 + "\n" + r2;
    SplitAtSep(l3, rest, '\n');
    SplitAtSep(l2, r3, '\n');
    SplitAtSep(l1, r2, '\n');
    SplitAtSep(l0, r1, '\n');
    assert [l0] + ([l1] + ([l2] + ([l3] + Split(rest, '\n')))) == [l0, l1, l2, l3] + Split(rest, '\n');
  }
}
