/**
 * The reader's Markdown post-processing: collapsing long runs of blank
 * lines, the test that decides whether fetched content is HTML, and the
 * converter's optional clean-up step.
 */
module HtmlToMarkdown {

  import opened Common
  import opened Text

  // ---------------------------------------------------------------------------
  // clean_markdown
  // ---------------------------------------------------------------------------

  /** `line.strip() == ''`: the line is whitespace only. */
  predicate BlankLine(line: string) {
    IsBlank(line)
  }

  /** How many blank lines end `lines`: the loop's `blank_count` after reading them. */
  function TrailingBlanks(lines: seq<string>): (n: nat)
    ensures n <= |lines|
  {
    if lines == [] then 0
    else if BlankLine(lines[|lines| - 1]) then TrailingBlanks(lines[..|lines| - 1]) + 1
    else 0
  }

  /**
   * The lines `clean_markdown` keeps: every non-blank line, and a blank line
   * only when fewer than two blank lines come right before it.
   */
  function CleanLines(lines: seq<string>): seq<string> {
    if lines == [] then []
    else
      var init, last := lines[..|lines| - 1], lines[|lines| - 1];
      CleanLines(init) + (if !BlankLine(last) || TrailingBlanks(init) < 2 then [last] else [])
  }

  /** `clean_markdown` */
  function CleanText(markdown: string): string {
    Strip(Join(CleanLines(Split(markdown, '\n')), "\n"))
  }

  method CleanMarkdown(markdown: string) returns (r: string)
    ensures r == CleanText(markdown)
    ensures r == "" || (!IsSpace(r[0]) && !IsSpace(r[|r| - 1]))
  {
    var lines := Split(markdown, '\n');
    var cleaned: seq<string> := [];
    var blankCount := 0;
    for i := 0 to |lines|
      invariant cleaned == CleanLines(lines[..i])
      invariant blankCount == TrailingBlanks(lines[..i])
    {
      assert lines[..i + 1][..i] == lines[..i];
      var line := lines[i];
      StripEmptyIffBlank(line);
      if Strip(line) == "" {
        blankCount := blankCount + 1;
        if blankCount <= 2 {
          cleaned := cleaned + [line];
        }
      } else {
        blankCount := 0;
        cleaned := cleaned + [line];
      }
    }
    assert lines[..|lines|] == lines;
    r := Strip(Join(cleaned, "\n"));
  }

  /** No three blank lines in a row survive. */
  predicate NoThreeBlanks(lines: seq<string>) {
    forall i | 0 <= i && i + 2 < |lines| :: !(BlankLine(lines[i]) && BlankLine(lines[i + 1]) && BlankLine(lines[i + 2]))
  }

  /** The kept lines end in as many blank lines as the input does, but at most two. */
  lemma {:induction false} CleanTrailingBlanks(lines: seq<string>)
    ensures TrailingBlanks(CleanLines(lines)) == Min(TrailingBlanks(lines), 2)
  {
    if lines != [] {
      var init, last := lines[..|lines| - 1], lines[|lines| - 1];
      CleanTrailingBlanks(init);
      var c := CleanLines(init);
      if !BlankLine(last) || TrailingBlanks(init) < 2 {
        var c' := c + [last];
        assert CleanLines(lines) == c';
        assert c'[..|c'| - 1] == c && c'[|c'| - 1] == last;
      } else {
        assert CleanLines(lines) == c;
      }
    }
  }

  /** The kept lines never hold three blank lines in a row. */
  lemma {:induction false} CleanNoThreeBlanks(lines: seq<string>)
    ensures NoThreeBlanks(CleanLines(lines))
  {
    if lines != [] {
      var init, last := lines[..|lines| - 1], lines[|lines| - 1];
      CleanNoThreeBlanks(init);
      var c := CleanLines(init);
      var keep := !BlankLine(last) || TrailingBlanks(init) < 2;
      assert CleanLines(lines) == c + (if keep then [last] else []);
      if keep {
        assert BlankLine(last) && |c| >= 2 ==> !(BlankLine(c[|c| - 2]) && BlankLine(c[|c| - 1])) by {
          if BlankLine(last) && |c| >= 2 {
            CleanTrailingBlanks(init);
            TrailingBlanksTail(c);
          }
        }
        AppendNoThree(c, last);
      } else {
        assert c + [] == c;
      }
    }
  }

  /** Appending a line keeps the property unless it completes a third blank in a row. */
  lemma AppendNoThree(c: seq<string>, last: string)
    requires NoThreeBlanks(c)
    requires BlankLine(last) && |c| >= 2 ==> !(BlankLine(c[|c| - 2]) && BlankLine(c[|c| - 1]))
    ensures NoThreeBlanks(c + [last])
  {
    var c' := c + [last];
    forall i | 0 <= i && i + 2 < |c'|
      ensures !(BlankLine(c'[i]) && BlankLine(c'[i + 1]) && BlankLine(c'[i + 2]))
    {
      if i + 2 < |c| {
        assert c'[i] == c[i] && c'[i + 1] == c[i + 1] && c'[i + 2] == c[i + 2];
      } else {
        assert c'[i] == c[|c| - 2] && c'[i + 1] == c[|c| - 1] && c'[i + 2] == last;
      }
    }
  }

  /** A list ending in fewer than two blank lines has a non-blank line, or nothing, two from the end. */
  lemma TrailingBlanksTail(c: seq<string>)
    requires TrailingBlanks(c) < 2 && |c| >= 2
    ensures !(BlankLine(c[|c| - 2]) && BlankLine(c[|c| - 1]))
  {
    if BlankLine(c[|c| - 1]) {
      var init := c[..|c| - 1];
      assert init[|init| - 1] == c[|c| - 2];
    }
  }

  /** The non-blank lines, in order. */
  function NonBlank(lines: seq<string>): seq<string> {
    if lines == [] then []
    else NonBlank(lines[..|lines| - 1]) + (if BlankLine(lines[|lines| - 1]) then [] else [lines[|lines| - 1]])
  }

  /** Cleaning keeps every non-blank line, in its original order. */
  lemma {:induction false} CleanKeepsText(lines: seq<string>)
    ensures NonBlank(CleanLines(lines)) == NonBlank(lines)
  {
    if lines != [] {
      var init, last := lines[..|lines| - 1], lines[|lines| - 1];
      CleanKeepsText(init);
      var c := CleanLines(init);
      assert NonBlank(lines) == NonBlank(init) + (if BlankLine(last) then [] else [last]);
      if !BlankLine(last) || TrailingBlanks(init) < 2 {
        var c' := c + [last];
        assert CleanLines(lines) == c';
        assert c'[..|c'| - 1] == c && c'[|c'| - 1] == last;
        assert NonBlank(c') == NonBlank(c) + (if BlankLine(last) then [] else [last]);
      } else {
        assert CleanLines(lines) == c;
      }
    }
  }

  /** `lines` holds nothing but blank lines. */
  predicate AllBlank(lines: seq<string>) {
    forall i | 0 <= i < |lines| :: BlankLine(lines[i])
  }

  /**
   * A run of `k` blank lines after a non-blank line (or at the start) keeps
   * its first `min(k, 2)` lines.
   */
  lemma {:induction false} BlankRunKeepsTwo(pre: seq<string>, run: seq<string>)
    requires TrailingBlanks(pre) == 0
    requires AllBlank(run)
    ensures CleanLines(pre + run) == CleanLines(pre) + run[..Min(|run|, 2)]
    ensures TrailingBlanks(pre + run) == |run|
  {
    if run != [] {
      var init, last := run[..|run| - 1], run[|run| - 1];
      AllBlankSplit(run);
      BlankRunKeepsTwo(pre, init);
      assert run == init + [last];
      assert pre + run == (pre + init) + [last];
      AppendBlank(pre + init, last);
      FirstTwoSnoc(init, last);
    } else {
      assert pre + run == pre;
    }
  }

  lemma AllBlankSplit(run: seq<string>)
    requires AllBlank(run) && run != []
    ensures AllBlank(run[..|run| - 1]) && BlankLine(run[|run| - 1])
  {
    var init := run[..|run| - 1];
    forall i | 0 <= i < |init|
      ensures BlankLine(init[i])
    {
      assert init[i] == run[i];
    }
  }

  /** One more blank line: kept while fewer than two blank lines come before it. */
  lemma AppendBlank(lines: seq<string>, last: string)
    requires BlankLine(last)
    ensures CleanLines(lines + [last]) == CleanLines(lines) + (if TrailingBlanks(lines) < 2 then [last] else [])
    ensures TrailingBlanks(lines + [last]) == TrailingBlanks(lines) + 1
  {
    var whole := lines + [last];
    assert whole[..|whole| - 1] == lines && whole[|whole| - 1] == last;
  }

  lemma FirstTwoSnoc(init: seq<string>, last: string)
    ensures (init + [last])[..Min(|init| + 1, 2)] == init[..Min(|init|, 2)] + (if |init| < 2 then [last] else [])
  {
    if |init| >= 2 {
      assert (init + [last])[..2] == init[..2];
    }
  }

  /** The result never starts or ends with whitespace. */
  lemma CleanTextTrimmed(markdown: string)
    ensures var r := CleanText(markdown); r == "" || (!IsSpace(r[0]) && !IsSpace(r[|r| - 1]))
  {
    var joined := Join(CleanLines(Split(markdown, '\n')), "\n");
    assert CleanText(markdown) == Strip(joined);
  }

  // ---------------------------------------------------------------------------
  // is_html_content
  // ---------------------------------------------------------------------------

  /** `is_html_content` */
  predicate IsHtmlContent(content: string, contentType: string) {
    var head := Lower(Prefix(content, 100));
    var body := Lower(Prefix(content, 500));
    || Contains(head, "<html")
    || Contains(Lower(contentType), "text/html")
    || (contentType == "" &&
        (Contains(body, "<html") || Contains(body, "<head") || Contains(body, "<body") || Contains(body, "<!doctype")))
  }

  /**
   * A content type that names HTML decides alone; one that is present but
   * does not name HTML leaves only the `<html` test on the first 100
   * characters; with no content type, an `<html`, `<head`, `<body` or
   * `<!doctype` tag among the first 500 characters decides.
   */
  lemma IsHtmlCases(content: string, contentType: string)
    ensures Contains(Lower(contentType), "text/html") ==> IsHtmlContent(content, contentType)
    ensures contentType != "" && !Contains(Lower(contentType), "text/html") ==>
              (IsHtmlContent(content, contentType) <==> Contains(Lower(Prefix(content, 100)), "<html"))
    ensures contentType == "" ==>
              var body := Lower(Prefix(content, 500));
              (IsHtmlContent(content, contentType) <==>
                 Contains(body, "<html") || Contains(body, "<head") || Contains(body, "<body") || Contains(body, "<!doctype"))
  {
    if contentType == "" && Contains(Lower(Prefix(content, 100)), "<html") {
      var body := Lower(Prefix(content, 500));
      var k := |Prefix(content, 100)|;
      LowerPrefix(content, 100);
      LowerPrefix(content, 500);
      assert body[..k] == Lower(Prefix(content, 100));
      ContainsInLonger(body, k, "<html");
    }
  }

  // ---------------------------------------------------------------------------
  // The converter
  // ---------------------------------------------------------------------------

  /** `HtmlToMarkdownConverter`: the two options the conversion itself reads. */
  datatype HtmlToMarkdownConverter = HtmlToMarkdownConverter(useReadability: bool, cleanOutput: bool)
  {
    /**
     * `convert`, with the readability extraction and the markdownify call
     * supplied as functions.
     */
    function Convert(html: string, extract: string -> string, markdownify: string -> string): (r: string)
      ensures !cleanOutput ==> r == if useReadability then extract(html) else markdownify(html)
      ensures cleanOutput ==> r == "" || (!IsSpace(r[0]) && !IsSpace(r[|r| - 1]))
    {
      var markdown := if useReadability then extract(html) else markdownify(html);
      if cleanOutput then CleanText(markdown) else markdown
    }
  }
}
