/**
 * The deterministic part of the LLM adapter: the character-count token
 * estimate, the state formatter and the parser of the extraction reply.
 * The model calls themselves are oracles: their replies are parameters,
 * `None` standing for a call that raised.
 */
module LlmAdapter {

  import opened Common
  import opened Text

  // ---------------------------------------------------------------------------
  // Token estimate and state formatting
  // ---------------------------------------------------------------------------

  /**
   * The summed length of the states' string forms (`json.dumps` for a dict,
   * `str` otherwise); the states are given by those string forms.
   */
  function TotalChars(states: seq<string>): nat {
    if states == [] then 0 else |states[0]| + TotalChars(states[1..])
  }

  lemma {:induction false} TotalCharsAppend(states: seq<string>, s: string)
    ensures TotalChars(states + [s]) == TotalChars(states) + |s|
  {
    if states != [] {
      assert (states + [s])[1..] == states[1..] + [s];
      TotalCharsAppend(states[1..], s);
    }
  }

  /** No states estimate to 0 tokens, and appending a state never lowers the estimate. */
  lemma EstimateMonotone(states: seq<string>, s: string)
    ensures TotalChars([]) == 0
    ensures TotalChars(states + [s]) >= TotalChars(states)
  {
    TotalCharsAppend(states, s);
  }

  /** `estimate_token_count`: one token per character. */
  method EstimateTokenCount(states: seq<string>) returns (total: nat)
    ensures total == TotalChars(states)
  {
    total := 0;
    for i := 0 to |states|
      invariant total == TotalChars(states[..i])
    {
      TotalCharsAppend(states[..i], states[i]);
      assert states[..i + 1] == states[..i] + [states[i]];
      total := total + |states[i]|;
    }
    assert states[..|states|] == states;
  }

  /** `_format_states`: the states' string forms, one per line. */
  function FormatStates(states: seq<string>): string {
    Join(states, "\n")
  }

  /** The formatted states are exactly the estimated characters plus one newline between neighbours. */
  lemma {:induction false} FormatStatesLength(states: seq<string>)
    ensures |FormatStates(states)| == TotalChars(states) + (if states == [] then 0 else |states| - 1)
  {
    if |states| > 1 {
      FormatStatesLength(states[1..]);
    }
  }

  // ---------------------------------------------------------------------------
  // The extraction reply parser
  // ---------------------------------------------------------------------------

  /** One extracted long-term fact with its LLM-chosen initial hp. */
  datatype Fact = Fact(content: string, hp: nat)

  /**
   * One regex match: the content group, the value of the digit group (the
   * `int(hp_str)` conversion, which cannot fail on `\d+`) and the position
   * just after the match.
   */
  datatype RawMatch = RawMatch(content: string, hp: nat, end: nat)

  /** `\s*` from `p` on. */
  function SkipSpaces(s: string, p: nat): (q: nat)
    requires p <= |s|
    ensures p <= q <= |s|
    ensures forall k | p <= k < q :: IsSpace(s[k])
    ensures q == |s| || !IsSpace(s[q])
    decreases |s| - p
  {
    if p < |s| && IsSpace(s[p]) then SkipSpaces(s, p + 1) else p
  }

  /** `\d*` from `p` on. */
  function SkipDigits(s: string, p: nat): (q: nat)
    requires p <= |s|
    ensures p <= q <= |s|
    ensures forall k | p <= k < q :: IsDigit(s[k])
    ensures q == |s| || !IsDigit(s[q])
    decreases |s| - p
  {
    if p < |s| && IsDigit(s[p]) then SkipDigits(s, p + 1) else p
  }

  /** `\s*<hp>\s*(\d+)\s*</hp>\s*</div>` at `p`: the digit run and the end of the match. */
  function MatchTail(s: string, p: nat): (r: Option<(nat, nat)>)
    requires p <= |s|
    ensures r.Some? ==> p < r.value.1 <= |s|
  {
    var a := SkipSpaces(s, p);
    if !OccursAt(s, "<hp>", a) then None
    else
      var b := SkipSpaces(s, a + 4);
      var c := SkipDigits(s, b);
      if c == b then None
      else
        var d := SkipSpaces(s, c);
        if !OccursAt(s, "</hp>", d) then None
        else
          var e := SkipSpaces(s, d + 5);
          if !OccursAt(s, "</div>", e) then None
          else Some((DigitsValue(s[b..c]), e + 6))
  }

  /**
   * The lazy `(.*?)\s*</content>` followed by the tail: the first closing tag
   * at or after `q` after which the tail matches. The group is the text before
   * it without its trailing whitespace.
   */
  function FindClose(s: string, start: nat, q: nat): (r: Option<RawMatch>)
    requires start <= q <= |s|
    ensures r.Some? ==> q < r.value.end <= |s|
    decreases |s| - q
  {
    if q + 10 > |s| then None
    else if OccursAt(s, "</content>", q) && MatchTail(s, q + 10).Some? then
      var tail := MatchTail(s, q + 10).value;
      Some(RawMatch(RStrip(s[start..q]), tail.0, tail.1))
    else FindClose(s, start, q + 1)
  }

  /** `<div>\s*<content>\s*(.*?)\s*</content>\s*<hp>\s*(\d+)\s*</hp>\s*</div>` tried at `p`. */
  function MatchAt(s: string, p: nat): (r: Option<RawMatch>)
    requires p <= |s|
    ensures r.Some? ==> p < r.value.end <= |s|
  {
    if !OccursAt(s, "<div>", p) then None
    else
      var a := SkipSpaces(s, p + 5);
      if !OccursAt(s, "<content>", a) then None
      else
        var start := SkipSpaces(s, a + 9);
        FindClose(s, start, start)
  }

  /** `re.findall` from `p`: matches left to right, each search resuming where the last match ended. */
  function FindAll(s: string, p: nat): seq<RawMatch>
    requires p <= |s|
    decreases |s| - p
  {
    if p == |s| then []
    else match MatchAt(s, p)
      case Some(m) => [m] + FindAll(s, m.end)
      case None => FindAll(s, p + 1)
  }

  function ToFact(m: RawMatch): Fact {
    Fact(Strip(m.content), m.hp)
  }

  function ToFacts(ms: seq<RawMatch>): seq<Fact> {
    if ms == [] then [] else [ToFact(ms[0])] + ToFacts(ms[1..])
  }

  /** `_parse_extract_response`: "none" means no facts, otherwise one fact per block. */
  function ParseExtract(response: string): seq<Fact> {
    if Lower(Strip(response)) == "none" then [] else ToFacts(FindAll(response, 0))
  }

  /** `_parse_extract_response`, applying the conversion match by match. */
  method ParseExtractResponse(response: string) returns (results: seq<Fact>)
    ensures results == ParseExtract(response)
  {
    if Lower(Strip(response)) == "none" {
      return [];
    }
    var matches := FindAll(response, 0);
    results := ConvertMatches(matches);
  }

  /** The loop over the matches: each becomes a fact with its content stripped. */
  method ConvertMatches(matches: seq<RawMatch>) returns (results: seq<Fact>)
    ensures results == ToFacts(matches)
  {
    results := [];
    for i := 0 to |matches|
      invariant |results| == i
      invariant forall j | 0 <= j < i :: results[j] == Fact(Strip(matches[j].content), matches[j].hp)
    {
      results := results + [ToFact(matches[i])];
    }
    ToFactsPointwise(matches);
  }

  /** One fact per match, in match order, each with its content stripped. */
  lemma {:induction false} ToFactsPointwise(ms: seq<RawMatch>)
    ensures |ToFacts(ms)| == |ms|
    ensures forall i | 0 <= i < |ms| :: ToFacts(ms)[i] == Fact(Strip(ms[i].content), ms[i].hp)
  {
    if ms != [] {
      ToFactsPointwise(ms[1..]);
    }
  }

  /** Every parsed content has no whitespace at either end. */
  lemma ParsedContentsStripped(response: string)
    ensures forall i | 0 <= i < |ParseExtract(response)| ::
      var c := ParseExtract(response)[i].content; c == [] || (!IsSpace(c[0]) && !IsSpace(c[|c| - 1]))
  {
    ToFactsPointwise(FindAll(response, 0));
  }

  /** A reply that strips and lower-cases to "none" gives no facts. */
  lemma NoneReplyGivesNothing(response: string)
    requires Lower(Strip(response)) == "none"
    ensures ParseExtract(response) == []
  {
  }

  // ---------------------------------------------------------------------------
  // Round trip: a well-formed reply parses back to the facts it lists
  // ---------------------------------------------------------------------------

  function Block(f: Fact): string {
    "<div><content>" + f.content + "</content><hp>" + NatToString(f.hp) + "</hp></div>"
  }

  /** A fact the reply format can carry: plain text without '<', already stripped. */
  predicate Renderable(f: Fact) {
    '<' !in f.content && Strip(f.content) == f.content
  }

  function Render(fs: seq<Fact>): string {
    if fs == [] then "" else Block(fs[0]) + Render(fs[1..])
  }

  lemma SkipDigitsRun(s: string, b: nat, n: nat)
    requires b + n <= |s|
    requires forall k | b <= k < b + n :: IsDigit(s[k])
    requires b + n == |s| || !IsDigit(s[b + n])
    ensures SkipDigits(s, b) == b + n
    decreases n
  {
    if n > 0 {
      SkipDigitsRun(s, b + 1, n - 1);
    }
  }

  lemma {:induction false} FindCloseReaches(s: string, start: nat, q: nat, close: nat, g: string, hp: nat, end: nat)
    requires start <= q <= close && close + 10 <= |s| && s[start..close] == g
    requires forall k | q <= k < close :: s[k] != '<'
    requires OccursAt(s, "</content>", close) && MatchTail(s, close + 10) == Some((hp, end))
    ensures FindClose(s, start, q) == Some(RawMatch(RStrip(g), hp, end))
    decreases close - q
  {
    if q < close {
      assert s[q..q + 10][0] == s[q] != '<';
      FindCloseReaches(s, start, q + 1, close, g, hp, end);
    }
  }

  lemma StripUnchanged(c: string)
    requires c == [] || (!IsSpace(c[0]) && !IsSpace(c[|c| - 1]))
    ensures LStrip(c) == c && RStrip(c) == c && Strip(c) == c
  {
  }

  /** A piece of a block found at `p` is found at the matching offset of `s`. */
  lemma SliceAt(s: string, p: nat, b: string, i: nat, j: nat)
    requires p + |b| <= |s| && s[p..p + |b|] == b
    requires i <= j <= |b|
    ensures s[p + i..p + j] == b[i..j]
  {
    forall k | 0 <= k < j - i
      ensures s[p + i..p + j][k] == b[i..j][k]
    {
      assert s[p..p + |b|][i + k] == s[p + i + k];
    }
  }

  /** The eight pieces of a block, at their offsets. */
  lemma BlockLayout(f: Fact)
    ensures var b, n, m := Block(f), |f.content|, |NatToString(f.hp)|;
      |b| == 39 + n + m &&
      b[..5] == "<div>" && b[5..14] == "<content>" && b[14..14 + n] == f.content &&
      b[14 + n..24 + n] == "</content>" && b[24 + n..28 + n] == "<hp>" &&
      b[28 + n..28 + n + m] == NatToString(f.hp) &&
      b[28 + n + m..33 + n + m] == "</hp>" && b[33 + n + m..39 + n + m] == "</div>"
  {
  }

  /** The pieces of a block found at `p`, read off `s`. */
  lemma BlockPieces(s: string, p: nat, f: Fact)
    requires p + |Block(f)| <= |s| && s[p..p + |Block(f)|] == Block(f)
    ensures var n, m := |f.content|, |NatToString(f.hp)|;
      |Block(f)| == 39 + n + m &&
      s[p..p + 5] == "<div>" && s[p + 5..p + 14] == "<content>" && s[p + 14..p + 14 + n] == f.content &&
      s[p + 14 + n..p + 24 + n] == "</content>" && s[p + 24 + n..p + 28 + n] == "<hp>" &&
      s[p + 28 + n..p + 28 + n + m] == NatToString(f.hp) &&
      s[p + 28 + n + m..p + 33 + n + m] == "</hp>" && s[p + 33 + n + m..p + 39 + n + m] == "</div>"
  {
    BlockLayout(f);
    LayoutAt(s, p, Block(f), f.content, NatToString(f.hp));
  }

  /** A string laid out like a block, found at `p`, puts its pieces at the same offsets of `s`. */
  lemma LayoutAt(s: string, p: nat, b: string, c: string, d: string)
    requires p + |b| <= |s| && s[p..p + |b|] == b
    requires var n, m := |c|, |d|;
      |b| == 39 + n + m &&
      b[..5] == "<div>" && b[5..14] == "<content>" && b[14..14 + n] == c &&
      b[14 + n..24 + n] == "</content>" && b[24 + n..28 + n] == "<hp>" &&
      b[28 + n..28 + n + m] == d &&
      b[28 + n + m..33 + n + m] == "</hp>" && b[33 + n + m..39 + n + m] == "</div>"
    ensures var n, m := |c|, |d|;
      s[p..p + 5] == "<div>" && s[p + 5..p + 14] == "<content>" && s[p + 14..p + 14 + n] == c &&
      s[p + 14 + n..p + 24 + n] == "</content>" && s[p + 24 + n..p + 28 + n] == "<hp>" &&
      s[p + 28 + n..p + 28 + n + m] == d &&
      s[p + 28 + n + m..p + 33 + n + m] == "</hp>" && s[p + 33 + n + m..p + 39 + n + m] == "</div>"
  {
    var n, m := |c|, |d|;
    PrefixIs(s, p, b, 5, "<div>");
    SliceIs(s, p, b, 5, 14, "<content>");
    SliceIs(s, p, b, 14, 14 + n, c);
    SliceIs(s, p, b, 14 + n, 24 + n, "</content>");
    SliceIs(s, p, b, 24 + n, 28 + n, "<hp>");
    SliceIs(s, p, b, 28 + n, 28 + n + m, d);
    SliceIs(s, p, b, 28 + n + m, 33 + n + m, "</hp>");
    SliceIs(s, p, b, 33 + n + m, 39 + n + m, "</div>");
  }

  lemma PrefixIs(s: string, p: nat, b: string, j: nat, t: string)
    requires p + |b| <= |s| && s[p..p + |b|] == b
    requires j <= |b| && b[..j] == t
    ensures s[p..p + j] == t
  {
    SliceAt(s, p, b, 0, j);
    assert b[0..j] == b[..j];
  }

  lemma SliceIs(s: string, p: nat, b: string, i: nat, j: nat, t: string)
    requires p + |b| <= |s| && s[p..p + |b|] == b
    requires i <= j <= |b| && b[i..j] == t
    ensures s[p + i..p + j] == t
  {
    SliceAt(s, p, b, i, j);
  }

  /** The `<hp>` part of a block is accepted by the tail of the pattern. */
  lemma {:induction false} TailMatches(s: string, q: nat, hp: nat)
    requires var m := |NatToString(hp)|;
      q + 15 + m <= |s| &&
      s[q..q + 4] == "<hp>" && s[q + 4..q + 4 + m] == NatToString(hp) &&
      s[q + 4 + m..q + 9 + m] == "</hp>" && s[q + 9 + m..q + 15 + m] == "</div>"
    ensures MatchTail(s, q) == Some((hp, q + 15 + |NatToString(hp)|))
  {
    var d := NatToString(hp);
    var m := |d|;
    var b, c := q + 4, q + 4 + m;
    PieceAt(s, q, "<hp>");
    PieceAt(s, b, d);
    PieceAt(s, c, "</hp>");
    PieceAt(s, c + 5, "</div>");
    NoSkipAt(s, q);
    NoSkipAt(s, c);
    NoSkipAt(s, c + 5);
    DigitsAt(s, b, d);
    NoSkipAt(s, b);
    TailAt(s, q, c);
    DigitsOfNatToString(hp);
  }

  /** A digit run laid out at `b` and followed by a non-digit is what `\d*` consumes there. */
  lemma DigitsAt(s: string, b: nat, d: string)
    requires b + |d| < |s| && s[b..b + |d|] == d && |d| > 0 && AllDigits(d) && !IsDigit(s[b + |d|])
    ensures SkipDigits(s, b) == b + |d| && IsDigit(s[b]) && s[b..SkipDigits(s, b)] == d
  {
    forall k | b <= k < b + |d|
      ensures IsDigit(s[k])
    {
      assert s[k] == s[b..b + |d|][k - b];
    }
    SkipDigitsRun(s, b, |d|);
  }

  /** The tail pattern, with each of its steps already located. */
  lemma TailAt(s: string, a: nat, c: nat)
    requires a + 4 < c && c + 11 <= |s|
    requires SkipSpaces(s, a) == a && OccursAt(s, "<hp>", a) && SkipSpaces(s, a + 4) == a + 4
    requires SkipDigits(s, a + 4) == c && SkipSpaces(s, c) == c && OccursAt(s, "</hp>", c)
    requires SkipSpaces(s, c + 5) == c + 5 && OccursAt(s, "</div>", c + 5)
    ensures MatchTail(s, a) == Some((DigitsValue(s[a + 4..c]), c + 11))
  {
  }

  /** A piece `t` laid out at `p` occurs there and starts with its first character. */
  lemma PieceAt(s: string, p: nat, t: string)
    requires p + |t| <= |s| && s[p..p + |t|] == t
    ensures OccursAt(s, t, p)
    ensures |t| > 0 ==> s[p] == t[0]
  {
    if |t| > 0 {
      assert s[p..p + |t|][0] == s[p];
    }
  }

  /** `\s*` matches nothing before a non-space. */
  lemma NoSkipAt(s: string, p: nat)
    requires p < |s| && !IsSpace(s[p])
    ensures SkipSpaces(s, p) == p
  {
  }

  /** The opening `<div>\s*<content>\s*` of a block at `p` ends where its content starts. */
  lemma {:induction false} HeadMatches(s: string, p: nat, c: string)
    requires p + 15 + |c| <= |s| && s[p..p + 5] == "<div>" && s[p + 5..p + 14] == "<content>"
    requires s[p + 14..p + 14 + |c|] == c && s[p + 14 + |c|] == '<'
    requires c == [] || !IsSpace(c[0])
    ensures OccursAt(s, "<div>", p)
    ensures SkipSpaces(s, p + 5) == p + 5 && OccursAt(s, "<content>", p + 5)
    ensures SkipSpaces(s, p + 14) == p + 14
    ensures forall k | p + 14 <= k < p + 14 + |c| :: s[k] == c[k - (p + 14)]
  {
    assert s[p + 5] == '<';
    if c != [] {
      assert s[p + 14] == c[0];
    }
  }

  /** The head of a block at `p` leads the match to the search for the closing tag from the content on. */
  lemma {:induction false} PiecesHead(s: string, p: nat, c: string, hp: nat)
    requires c == [] || !IsSpace(c[0])
    requires var n, m := |c|, |NatToString(hp)|;
      p + 39 + n + m <= |s| &&
      s[p..p + 5] == "<div>" && s[p + 5..p + 14] == "<content>" && s[p + 14..p + 14 + n] == c &&
      s[p + 14 + n..p + 24 + n] == "</content>" && s[p + 24 + n..p + 28 + n] == "<hp>" &&
      s[p + 28 + n..p + 28 + n + m] == NatToString(hp) &&
      s[p + 28 + n + m..p + 33 + n + m] == "</hp>" && s[p + 33 + n + m..p + 39 + n + m] == "</div>"
    ensures MatchAt(s, p) == FindClose(s, p + 14, p + 14)
  {
    assert s[p + 14 + |c|..p + 24 + |c|][0] == '<';
    HeadMatches(s, p, c);
  }

  /** In a block at `p` the first closing tag after the content is the one the tail accepts. */
  lemma {:induction false} PiecesClose(s: string, p: nat, c: string, hp: nat)
    requires '<' !in c
    requires var n, m := |c|, |NatToString(hp)|;
      p + 39 + n + m <= |s| &&
      s[p..p + 5] == "<div>" && s[p + 5..p + 14] == "<content>" && s[p + 14..p + 14 + n] == c &&
      s[p + 14 + n..p + 24 + n] == "</content>" && s[p + 24 + n..p + 28 + n] == "<hp>" &&
      s[p + 28 + n..p + 28 + n + m] == NatToString(hp) &&
      s[p + 28 + n + m..p + 33 + n + m] == "</hp>" && s[p + 33 + n + m..p + 39 + n + m] == "</div>"
    ensures FindClose(s, p + 14, p + 14) == Some(RawMatch(RStrip(c), hp, p + 39 + |c| + |NatToString(hp)|))
  {
    var start := p + 14;
    var close := start + |c|;
    var end := p + 39 + |c| + |NatToString(hp)|;
    TailMatches(s, close + 10, hp);
    NoAngleAt(s, start, c);
    FindCloseReaches(s, start, start, close, c, hp, end);
  }

  /** A `<`-free piece laid out at `p` has no `<` in its span of `s`. */
  lemma NoAngleAt(s: string, p: nat, c: string)
    requires p + |c| <= |s| && s[p..p + |c|] == c && '<' !in c
    ensures forall k | p <= k < p + |c| :: s[k] != '<'
  {
    forall k | p <= k < p + |c|
      ensures s[k] != '<'
    {
      assert s[k] == s[p..p + |c|][k - p];
    }
  }

  /** The pieces of a block, laid out from `p`, are matched there as one match. */
  lemma PiecesMatch(s: string, p: nat, c: string, hp: nat)
    requires '<' !in c && (c == [] || (!IsSpace(c[0]) && !IsSpace(c[|c| - 1])))
    requires var n, m := |c|, |NatToString(hp)|;
      p + 39 + n + m <= |s| &&
      s[p..p + 5] == "<div>" && s[p + 5..p + 14] == "<content>" && s[p + 14..p + 14 + n] == c &&
      s[p + 14 + n..p + 24 + n] == "</content>" && s[p + 24 + n..p + 28 + n] == "<hp>" &&
      s[p + 28 + n..p + 28 + n + m] == NatToString(hp) &&
      s[p + 28 + n + m..p + 33 + n + m] == "</hp>" && s[p + 33 + n + m..p + 39 + n + m] == "</div>"
    ensures MatchAt(s, p) == Some(RawMatch(c, hp, p + 39 + |c| + |NatToString(hp)|))
  {
    PiecesHead(s, p, c, hp);
    PiecesClose(s, p, c, hp);
    StripUnchanged(c);
  }

  /** A block at position `p` is matched there, and the match ends right after it. */
  lemma BlockMatches(s: string, p: nat, f: Fact)
    requires Renderable(f)
    requires p + |Block(f)| <= |s| && s[p..p + |Block(f)|] == Block(f)
    ensures MatchAt(s, p) == Some(RawMatch(f.content, f.hp, p + |Block(f)|))
  {
    RenderableEnds(f);
    BlockPieces(s, p, f);
    PiecesMatch(s, p, f.content, f.hp);
  }

  /** A renderable fact's content has no `<` and no whitespace at either end. */
  lemma RenderableEnds(f: Fact)
    requires Renderable(f)
    ensures var c := f.content;
            '<' !in c && (c == [] || (!IsSpace(c[0]) && !IsSpace(c[|c| - 1])))
  {
    var c := f.content;
    assert Strip(c) == c;
  }

  lemma {:induction false} FindAllRendered(s: string, p: nat, fs: seq<Fact>)
    requires forall i | 0 <= i < |fs| :: Renderable(fs[i])
    requires p <= |s| && s[p..] == Render(fs)
    ensures ToFacts(FindAll(s, p)) == fs
    decreases |fs|
  {
    if fs != [] {
      var q := RenderedStep(s, p, fs);
      var m := RawMatch(fs[0].content, fs[0].hp, q);
      BlockMatches(s, p, fs[0]);
      FindAllStep(s, p, m);
      FindAllRendered(s, q, fs[1..]);
      ToFactsCons(m, FindAll(s, q));
      HeadTail(fs);
    } else {
      assert |s[p..]| == 0;
    }
  }

  /** The first block of a rendering is the first match, and the search goes on over the rest. */
  lemma RenderedStep(s: string, p: nat, fs: seq<Fact>) returns (q: nat)
    requires forall i | 0 <= i < |fs| :: Renderable(fs[i])
    requires fs != [] && p <= |s| && s[p..] == Render(fs)
    ensures q == p + |Block(fs[0])| && q <= |s|
    ensures s[p..q] == Block(fs[0]) && s[q..] == Render(fs[1..])
    ensures Renderable(fs[0]) && forall i | 0 <= i < |fs[1..]| :: Renderable(fs[1..][i])
    ensures ToFact(RawMatch(fs[0].content, fs[0].hp, q)) == fs[0]
  {
    var f := fs[0];
    assert Renderable(f);
    q := RenderSplit(s, p, fs);
    StripUnchanged(f.content);
  }

  /** The rendering of a non-empty list starts with the first block, and the rest renders the tail. */
  lemma RenderSplit(s: string, p: nat, fs: seq<Fact>) returns (q: nat)
    requires fs != [] && p <= |s| && s[p..] == Render(fs)
    ensures q == p + |Block(fs[0])| && q <= |s|
    ensures s[p..q] == Block(fs[0]) && s[q..] == Render(fs[1..])
  {
    var b := Block(fs[0]);
    q := p + |b|;
    assert s[p..][..|b|] == b;
    assert s[p..q] == s[p..][..|b|];
    assert s[q..] == s[p..][|b|..];
  }

  /** A match found at `p` is the first one listed from `p`, and the search resumes at its end. */
  lemma FindAllStep(s: string, p: nat, m: RawMatch)
    requires p < |s| && MatchAt(s, p) == Some(m)
    ensures FindAll(s, p) == [m] + FindAll(s, m.end)
  {
  }

  lemma HeadTail(fs: seq<Fact>)
    requires fs != []
    ensures [fs[0]] + fs[1..] == fs
  {
  }

  lemma ToFactsCons(m: RawMatch, ms: seq<RawMatch>)
    ensures ToFacts([m] + ms) == [ToFact(m)] + ToFacts(ms)
  {
    assert ([m] + ms)[1..] == ms;
  }

  lemma NotNoneReply(s: string)
    requires |s| > 0 && s[0] == '<'
    ensures Lower(Strip(s)) != "none"
  {
    assert LStrip(s) == s;
    var r := RStrip(s);
    assert !IsSpace(s[0]);
    assert |r| > 0;
    assert r[0] == s[0];
    assert Lower(r)[0] == '<';
  }

  /** A reply listing renderable facts in the prompted format parses back to exactly those facts, in order. */
  lemma ParseRender(fs: seq<Fact>)
    requires forall i | 0 <= i < |fs| :: Renderable(fs[i])
    ensures ParseExtract(Render(fs)) == fs
  {
    var s := Render(fs);
    if fs != [] {
      NotNoneReply(s);
    }
    assert s[0..] == s;
    FindAllRendered(s, 0, fs);
  }

  /** The reply format can hand back short-term hp 1 (or 0) for a promoted fact. */
  lemma ParseMayGiveHpOne()
    ensures ParseExtract(Block(Fact("x", 1))) == [Fact("x", 1)]
  {
    assert Render([Fact("x", 1)]) == Block(Fact("x", 1));
    ParseRender([Fact("x", 1)]);
  }

  // ---------------------------------------------------------------------------
  // The model calls, as oracles
  // ---------------------------------------------------------------------------

  /** `get_text_embedding`: a failed call degrades to the empty vector. */
  function TextEmbedding(reply: Option<seq<real>>): (r: seq<real>)
    ensures reply.None? ==> r == []
    ensures reply.Some? ==> r == reply.value
  {
    if reply.Some? then reply.value else []
  }

  /** `summarize_states`: a failed call degrades to the empty summary. */
  function SummarizeStates(reply: Option<string>): (r: string)
    ensures reply.None? ==> r == []
    ensures reply.Some? ==> r == reply.value
  {
    if reply.Some? then reply.value else ""
  }

  /** `extract_long_term_facts`: a failed call gives no facts, a reply is parsed. */
  function ExtractLongTermFacts(reply: Option<string>): (r: seq<Fact>)
    ensures reply.None? ==> r == []
    ensures reply.Some? ==> r == ParseExtract(reply.value)
  {
    if reply.None? then [] else ParseExtract(reply.value)
  }
}
