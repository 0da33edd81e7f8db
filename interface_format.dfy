/**
 * The facade's text output: how long ago a memory was made, the block of
 * memories spliced into the agent's context, and the listing shown to a user
 * after a deep search.
 */
module MemoryFormat {

  import opened Text
  import opened MemoryItems

  /** How `_format_time_ago` reads a time difference. */
  datatype Ago = Days(n: nat) | Hours(n: nat) | Minutes(n: nat) | JustNow

  /**
   * `now - timestamp` as a `timedelta`: `days` is the floor of the difference
   * in days and `seconds` the remainder in [0, 86400), which Dafny's `/` and
   * `%` by a positive divisor give exactly. All three tests are strict.
   */
  function AgoOf(diff: int): (a: Ago)
    ensures a.Days? <==> diff >= 86400
    ensures a.Days? ==> a.n * 86400 <= diff < (a.n + 1) * 86400
    ensures a.Hours? <==> diff < 86400 && diff % 86400 > 3600
    ensures a.Hours? ==> 1 <= a.n <= 23 && a.n * 3600 <= diff % 86400 < (a.n + 1) * 3600
    ensures a.Minutes? <==> diff < 86400 && 60 < diff % 86400 <= 3600
    ensures a.Minutes? ==> 1 <= a.n <= 60 && a.n * 60 <= diff % 86400 < (a.n + 1) * 60
    ensures a.JustNow? <==> diff < 86400 && diff % 86400 <= 60
  {
    var days := diff / 86400;
    var seconds := diff % 86400;
    if days > 0 then Days(days)
    else if seconds > 3600 then Hours(seconds / 3600)
    else if seconds > 60 then Minutes(seconds / 60)
    else JustNow
  }

  function AgoText(a: Ago): string {
    match a
    case Days(n) => NatToString(n) + "天前"
    case Hours(n) => NatToString(n) + "小时前"
    case Minutes(n) => NatToString(n) + "分钟前"
    case JustNow => "刚刚"
  }

  /** `_format_time_ago`, with the clock's reading `now` passed in, in seconds. */
  function FormatTimeAgo(now: int, timestamp: int): string {
    AgoText(AgoOf(now - timestamp))
  }

  /**
   * The strict tests at work: exactly one hour reads as 60 minutes, exactly
   * a minute as just now, and a timestamp one second in the future as 23
   * hours ago (the `timedelta` of -1 s is -1 day plus 86399 s).
   */
  lemma TimeAgoExamples()
    ensures FormatTimeAgo(3600, 0) == "60分钟前"
    ensures FormatTimeAgo(60, 0) == "刚刚"
    ensures FormatTimeAgo(61, 0) == "1分钟前"
    ensures FormatTimeAgo(86400, 0) == "1天前"
    ensures FormatTimeAgo(0, 1) == "23小时前"
  {
    assert NatToString(60) == "60";
    assert NatToString(23) == "23";
  }

  /** The time text never holds a line break. */
  lemma AgoTextSingleLine(a: Ago)
    ensures '\n' !in AgoText(a)
  {
    match a
    case Days(n) => NoBreakInNumeral(n);
    case Hours(n) => NoBreakInNumeral(n);
    case Minutes(n) => NoBreakInNumeral(n);
    case JustNow =>
  }

  lemma NoBreakInNumeral(n: nat)
    ensures '\n' !in NatToString(n)
  {
    var d := NatToString(n);
    forall i | 0 <= i < |d|
      ensures d[i] != '\n'
    {
      assert IsDigit(d[i]);
    }
  }

  // ---------------------------------------------------------------------------
  // The context block
  // ---------------------------------------------------------------------------

  function ContextLabel(m: MemoryItem): string {
    if m.IsShortTerm() then "近期" else "历史"
  }

  /** The `i`-th line of the block, `i` counting from 1. */
  function ContextLine(i: nat, m: MemoryItem, now: int): string {
    "记忆" + NatToString(i) + " (" + ContextLabel(m) + ", " + FormatTimeAgo(now, m.timestamp) + "): " + m.content
  }

  function ContextLines(ms: seq<MemoryItem>, now: int): (r: seq<string>)
    ensures |r| == |ms|
  {
    seq(|ms|, i requires 0 <= i < |ms| => ContextLine(i + 1, ms[i], now))
  }

  /** `_format_memories_for_context` */
  function ContextText(ms: seq<MemoryItem>, now: int): (r: string)
    ensures r == "" <==> ms == []
  {
    if ms == [] then "" else "<relevant_memories>\n" + Join(ContextLines(ms, now), "\n") + "\n</relevant_memories>"
  }

  method FormatMemoriesForContext(ms: seq<MemoryItem>, now: int) returns (r: string)
    ensures r == ContextText(ms, now)
  {
    if ms == [] {
      return "";
    }
    var parts: seq<string> := [];
    for i := 0 to |ms|
      invariant |parts| == i
      invariant forall j | 0 <= j < i :: parts[j] == ContextLine(j + 1, ms[j], now)
    {
      var tier := if ms[i].IsShortTerm() then "近期" else "历史";
      var ago := FormatTimeAgo(now, ms[i].timestamp);
      parts := parts + ["记忆" + NatToString(i + 1) + " (" + tier + ", " + ago + "): " + ms[i].content];
    }
    assert parts == ContextLines(ms, now);
    r := "<relevant_memories>\n" + Join(parts, "\n") + "\n</relevant_memories>";
  }

  lemma ContextLineSingle(i: nat, m: MemoryItem, now: int)
    requires '\n' !in m.content
    ensures '\n' !in ContextLine(i, m, now)
  {
    NoBreakInNumeral(i);
    AgoTextSingleLine(AgoOf(now - m.timestamp));
  }

  /**
   * With single-line contents, the block's lines are the opening tag, one
   * line per memory in order, numbered from 1 and labelled 近期 exactly for
   * hp 1, and the closing tag.
   */
  lemma ContextBlockLines(ms: seq<MemoryItem>, now: int)
    requires ms != []
    requires forall i | 0 <= i < |ms| :: '\n' !in ms[i].content
    ensures var lines := Split(ContextText(ms, now), '\n');
            && |lines| == |ms| + 2
            && lines[0] == "<relevant_memories>" && lines[|ms| + 1] == "</relevant_memories>"
            && (forall i | 0 <= i < |ms| :: lines[i + 1] == ContextLine(i + 1, ms[i], now))
            && (forall i | 0 <= i < |ms| :: (ContextLabel(ms[i]) == "近期" <==> ms[i].hp == 1))
  {
    ContextTextJoined(ms, now);
    BlockLinesSingle(ms, now);
    WrappedLines(ContextText(ms, now), "<relevant_memories>", ContextLines(ms, now), "</relevant_memories>");
    ContextLinesAt(ms, now);
    LabelCases(ms);
  }

  lemma ContextLinesAt(ms: seq<MemoryItem>, now: int)
    ensures forall i | 0 <= i < |ms| :: ContextLines(ms, now)[i] == ContextLine(i + 1, ms[i], now)
  {
  }

  /** Text joined from single-line pieces splits back into them. */
  lemma WrappedLines(text: string, open: string, ls: seq<string>, close: string)
    requires text == Join([open] + ls + [close], "\n")
    requires var all := [open] + ls + [close]; forall i | 0 <= i < |all| :: '\n' !in all[i]
    ensures var lines := Split(text, '\n');
            |lines| == |ls| + 2 && lines[0] == open && lines[|ls| + 1] == close &&
            forall i | 0 <= i < |ls| :: lines[i + 1] == ls[i]
  {
    var all := [open] + ls + [close];
    SplitJoin(all, '\n');
    forall i | 0 <= i < |ls|
      ensures all[i + 1] == ls[i]
    {
    }
  }

  lemma LabelCases(ms: seq<MemoryItem>)
    ensures forall i | 0 <= i < |ms| :: (ContextLabel(ms[i]) == "近期" <==> ms[i].hp == 1)
  {
  }

  /** The block is its opening tag, its lines and its closing tag, joined by newlines. */
  lemma ContextTextJoined(ms: seq<MemoryItem>, now: int)
    requires ms != []
    ensures ContextText(ms, now) == Join(["<relevant_memories>"] + ContextLines(ms, now) + ["</relevant_memories>"], "\n")
  {
    WrapJoin(ContextLines(ms, now));
  }

  lemma WrapJoin(ls: seq<string>)
    requires ls != []
    ensures "<relevant_memories>\n" + Join(ls, "\n") + "\n</relevant_memories>" ==
            Join(["<relevant_memories>"] + ls + ["</relevant_memories>"], "\n")
  {
    var open, close := "<relevant_memories>", "</relevant_memories>";
    assert "<relevant_memories>\n" == open + "\n";
    assert "\n</relevant_memories>" == "\n" + close;
    JoinWrapped(open, ls, close, "\n");
  }

  lemma JoinWrapped(open: string, ls: seq<string>, close: string, sep: string)
    requires ls != []
    ensures (open + sep) + Join(ls, sep) + (sep + close) == Join([open] + ls + [close], sep)
  {
    JoinAround(open, ls, close, sep);
    var j := Join(ls, sep);
    assert (open + sep) + j + (sep + close) == open + sep + j + sep + close;
  }

  /** With single-line contents, no piece of the block holds a newline. */
  lemma BlockLinesSingle(ms: seq<MemoryItem>, now: int)
    requires forall i | 0 <= i < |ms| :: '\n' !in ms[i].content
    ensures var all := ["<relevant_memories>"] + ContextLines(ms, now) + ["</relevant_memories>"];
            forall i | 0 <= i < |all| :: '\n' !in all[i]
  {
    var ls := ContextLines(ms, now);
    var all := ["<relevant_memories>"] + ls + ["</relevant_memories>"];
    forall i | 0 <= i < |all|
      ensures '\n' !in all[i]
    {
      if 0 < i < |all| - 1 {
        assert all[i] == ls[i - 1];
        ContextLineSingle(i, ms[i - 1], now);
      }
    }
  }

  // ---------------------------------------------------------------------------
  // The display listing
  // ---------------------------------------------------------------------------

  function DisplayType(m: MemoryItem): string {
    if m.IsShortTerm() then "短期记忆" else "长期记忆"
  }

  /** `HP:n` for a long-term memory, nothing otherwise. */
  function HpInfo(m: MemoryItem): string {
    if m.hp > 1 then "HP:" + NatToString(m.hp) else ""
  }

  /** The hp tag shows exactly for hp > 1, and its numeral reads back as the hp. */
  lemma HpInfoShown(m: MemoryItem)
    ensures HpInfo(m) != "" <==> m.hp > 1
    ensures m.hp > 1 ==> StartsWith(HpInfo(m), "HP:") && AllDigits(HpInfo(m)[3..]) && DigitsValue(HpInfo(m)[3..]) == m.hp
  {
    if m.hp > 1 {
      assert HpInfo(m)[3..] == NatToString(m.hp);
      DigitsOfNatToString(m.hp);
    }
  }

  function DisplayEntry(i: nat, m: MemoryItem, now: int): string {
    NatToString(i) + ". [" + DisplayType(m) + "] " + FormatTimeAgo(now, m.timestamp) + " " + HpInfo(m) + "\n" + m.content + "\n"
  }

  function DisplayEntries(ms: seq<MemoryItem>, now: int): (r: seq<string>)
    ensures |r| == |ms|
  {
    seq(|ms|, i requires 0 <= i < |ms| => DisplayEntry(i + 1, ms[i], now))
  }

  /** `_format_memories_for_display` */
  function DisplayText(ms: seq<MemoryItem>, now: int): string {
    if ms == [] then "没有找到相关记忆" else "找到以下相关记忆：\n\n" + Join(DisplayEntries(ms, now), "\n")
  }

  method FormatMemoriesForDisplay(ms: seq<MemoryItem>, now: int) returns (r: string)
    ensures r == DisplayText(ms, now)
  {
    if ms == [] {
      return "没有找到相关记忆";
    }
    var parts: seq<string> := [];
    for i := 0 to |ms|
      invariant |parts| == i
      invariant forall j | 0 <= j < i :: parts[j] == DisplayEntry(j + 1, ms[j], now)
    {
      var kind := if ms[i].IsShortTerm() then "短期记忆" else "长期记忆";
      var ago := FormatTimeAgo(now, ms[i].timestamp);
      var hpInfo := if ms[i].hp > 1 then "HP:" + NatToString(ms[i].hp) else "";
      var entry := NatToString(i + 1) + ". [" + kind + "] " + ago + " " + hpInfo + "\n" + ms[i].content + "\n";
      EntryOf(i + 1, ms[i], now, kind, ago, hpInfo, entry);
      EntriesSnoc(parts, ms, now, entry);
      parts := parts + [entry];
    }
    EntriesPointwise(parts, ms, now);
    r := "找到以下相关记忆：\n\n" + Join(parts, "\n");
  }

  /** The entry the loop builds from its tier label, time and hp tag is the display entry. */
  lemma EntryOf(i: nat, m: MemoryItem, now: int, kind: string, ago: string, hpInfo: string, entry: string)
    requires kind == DisplayType(m) && ago == FormatTimeAgo(now, m.timestamp) && hpInfo == HpInfo(m)
    requires entry == NatToString(i) + ". [" + kind + "] " + ago + " " + hpInfo + "\n" + m.content + "\n"
    ensures entry == DisplayEntry(i, m, now)
  {
  }

  lemma EntriesSnoc(parts: seq<string>, ms: seq<MemoryItem>, now: int, entry: string)
    requires |parts| < |ms|
    requires forall j | 0 <= j < |parts| :: parts[j] == DisplayEntry(j + 1, ms[j], now)
    requires entry == DisplayEntry(|parts| + 1, ms[|parts|], now)
    ensures forall j | 0 <= j < |parts| + 1 :: (parts + [entry])[j] == DisplayEntry(j + 1, ms[j], now)
  {
  }

  lemma EntriesPointwise(parts: seq<string>, ms: seq<MemoryItem>, now: int)
    requires |parts| == |ms|
    requires forall j | 0 <= j < |ms| :: parts[j] == DisplayEntry(j + 1, ms[j], now)
    ensures parts == DisplayEntries(ms, now)
  {
  }

  /**
   * Each entry's first line is its header: number, tier, time and hp tag;
   * the content follows on its own lines. With a single-line content the
   * entry splits into header, content and an empty tail.
   */
  lemma DisplayEntryLines(i: nat, m: MemoryItem, now: int)
    requires '\n' !in m.content
    ensures Split(DisplayEntry(i, m, now), '\n') ==
              [NatToString(i) + ". [" + DisplayType(m) + "] " + FormatTimeAgo(now, m.timestamp) + " " + HpInfo(m), m.content, ""]
  {
    var header := NatToString(i) + ". [" + DisplayType(m) + "] " + FormatTimeAgo(now, m.timestamp) + " " + HpInfo(m);
    NoBreakInNumeral(i);
    AgoTextSingleLine(AgoOf(now - m.timestamp));
    if m.hp > 1 {
      NoBreakInNumeral(m.hp);
    }
    HeaderSingleLine(NatToString(i), DisplayType(m), FormatTimeAgo(now, m.timestamp), HpInfo(m));
    assert DisplayEntry(i, m, now) == header + "\n" + m.content + "\n";
    SplitTwoLines(header, m.content);
  }

  lemma HeaderSingleLine(num: string, kind: string, ago: string, hp: string)
    requires '\n' !in num && '\n' !in ago && '\n' !in hp
    requires kind == "短期记忆" || kind == "长期记忆"
    ensures '\n' !in num + ". [" + kind + "] " + ago + " " + hp
  {
    assert '\n' !in kind;
    assert '\n' !in ". [" && '\n' !in "] " && '\n' !in " ";
  }

  /** Two single-line pieces, each ended by a newline, split into them and an empty tail. */
  lemma SplitTwoLines(a: string, b: string)
    requires '\n' !in a && '\n' !in b
    ensures Split(a + "\n" + b + "\n", '\n') == [a, b, ""]
  {
    SplitAtSep(b, "", '\n');
    assert b + "\n" + "" == b + "\n";
    SplitAtSep(a, b + "\n", '\n');
    assert a + "\n" + (b + "\n") == a + "\n" + b + "\n";
    assert Split("", '\n') == [""];
  }
}
