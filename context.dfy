/**
 * The agent's context builder: the event history rendered as tagged lines,
 * the four-part context (system prompt, tool definitions, history, output
 * instructions) and its truncation to the last five events.
 */
module AgentContext {

  import opened Common
  import opened Text

  datatype EventType = UserMessage | AgentMessage | ToolResult | Error

  /** One entry of a tool event's `results` list; a missing key is `None`. */
  datatype ResultEntry = ResultEntry(
    toolName: Option<string>,
    success: Option<bool>,
    result: Option<string>,
    error: Option<string>)

  /** A value in a tool's result dictionary. */
  datatype Value = Str(s: string) | Flag(b: bool)

  type ToolOutput = map<string, Value>

  /**
   * An event: its type and the keys of its data dictionary that anything
   * reads or writes, each `None` when the key is absent.
   */
  datatype Event = Event(
    kind: EventType,
    content: Option<string>,
    results: Option<seq<ResultEntry>>,
    toolName: Option<string>,
    result: Option<ToolOutput>,
    error: Option<string>)

  /** `d.get(key, default)` */
  function Get(o: Option<string>, default: string): string {
    if o.Some? then o.value else default
  }

  /** One tool result; a missing `success` counts as failure and a missing result prints as `{}`. */
  function ResultLine(r: ResultEntry): string {
    var name := Get(r.toolName, "");
    if r.success == Some(true) then "<tool_result tool='" + name + "' status='success'>" + Get(r.result, "{}") + "</tool_result>"
    else "<tool_result tool='" + name + "' status='error'>" + Get(r.error, "") + "</tool_result>"
  }

  function ResultLines(rs: seq<ResultEntry>): (r: seq<string>)
    ensures |r| == |rs|
  {
    seq(|rs|, i requires 0 <= i < |rs| => ResultLine(rs[i]))
  }

  /** The lines one event contributes to the history; an error event contributes none. */
  function EventLines(e: Event): seq<string> {
    match e.kind
    case UserMessage => ["<user_message>" + Get(e.content, "") + "</user_message>"]
    case ToolResult => ResultLines(if e.results.Some? then e.results.value else [])
    case AgentMessage => ["<agent_message>" + Get(e.content, "") + "</agent_message>"]
    case Error => []
  }

  function HistoryLines(events: seq<Event>): seq<string> {
    if events == [] then [] else HistoryLines(events[..|events| - 1]) + EventLines(events[|events| - 1])
  }

  const EmptyHistory: string := "<conversation_history>\n暂无对话历史\n</conversation_history>"

  /** `_format_events` */
  function HistoryText(events: seq<Event>): string {
    if events == [] then EmptyHistory
    else "<conversation_history>\n" + Join(HistoryLines(events), "\n") + "\n</conversation_history>"
  }

  method FormatEvents(events: seq<Event>) returns (text: string)
    ensures text == HistoryText(events)
  {
    if events == [] {
      return "<conversation_history>\n暂无对话历史\n</conversation_history>";
    }
    var formatted: seq<string> := [];
    for i := 0 to |events|
      invariant formatted == HistoryLines(events[..i])
    {
      HistoryStep(events, i);
      var event := events[i];
      if event.kind == UserMessage {
        formatted := formatted + ["<user_message>" + Get(event.content, "") + "</user_message>"];
      } else if event.kind == ToolResult {
        var results := if event.results.Some? then event.results.value else [];
        ghost var before := formatted;
        for j := 0 to |results|
          invariant formatted == before + ResultLines(results[..j])
        {
          ResultLinesStep(results, j);
          formatted := formatted + [ResultLine(results[j])];
        }
        assert results[..|results|] == results;
      } else if event.kind == AgentMessage {
        formatted := formatted + ["<agent_message>" + Get(event.content, "") + "</agent_message>"];
      }
    }
    assert events[..|events|] == events;
    text := "<conversation_history>\n" + Join(formatted, "\n") + "\n</conversation_history>";
  }

  lemma HistoryStep(events: seq<Event>, i: nat)
    requires i < |events|
    ensures HistoryLines(events[..i + 1]) == HistoryLines(events[..i]) + EventLines(events[i])
  {
    assert events[..i + 1][..i] == events[..i];
  }

  lemma ResultLinesStep(rs: seq<ResultEntry>, j: nat)
    requires j < |rs|
    ensures ResultLines(rs[..j + 1]) == ResultLines(rs[..j]) + [ResultLine(rs[j])]
  {
  }

  /** How many lines an event contributes: one per message, one per listed result, none for an error. */
  function LineCount(e: Event): nat {
    match e.kind
    case UserMessage => 1
    case AgentMessage => 1
    case ToolResult => if e.results.Some? then |e.results.value| else 0
    case Error => 0
  }

  function TotalLineCount(events: seq<Event>): nat {
    if events == [] then 0 else TotalLineCount(events[..|events| - 1]) + LineCount(events[|events| - 1])
  }

  /** Histories concatenate: the lines of `a + b` are those of `a`, then those of `b`. */
  lemma {:induction false} HistoryAppend(a: seq<Event>, b: seq<Event>)
    ensures HistoryLines(a + b) == HistoryLines(a) + HistoryLines(b)
  {
    if b != [] {
      var init := b[..|b| - 1];
      assert (a + b)[..|a + b| - 1] == a + init;
      HistoryAppend(a, init);
    } else {
      assert a + b == a;
    }
  }

  /** One line per message and per tool result, none per error. */
  lemma {:induction false} HistoryLength(events: seq<Event>)
    ensures |HistoryLines(events)| == TotalLineCount(events)
  {
    if events != [] {
      HistoryLength(events[..|events| - 1]);
    }
  }

  lemma HistorySingle(e: Event)
    ensures HistoryLines([e]) == EventLines(e)
  {
    assert [e][..0] == [];
  }

  /**
   * Every event's lines appear as one block, after the lines of the events
   * before it and before those of the events after it.
   */
  lemma {:induction false} HistoryLayout(events: seq<Event>, i: nat)
    requires i < |events|
    ensures HistoryLines(events) == HistoryLines(events[..i]) + EventLines(events[i]) + HistoryLines(events[i + 1..])
  {
    var pre, e, post := events[..i], events[i], events[i + 1..];
    var rest := events[i..];
    assert rest == [e] + post;
    assert events == pre + rest;
    HistoryAppend(pre, rest);
    HistoryAppend([e], post);
    HistorySingle(e);
    assert HistoryLines(rest) == EventLines(e) + HistoryLines(post);
    calc {
      HistoryLines(events);
      HistoryLines(pre) + HistoryLines(rest);
      HistoryLines(pre) + (EventLines(e) + HistoryLines(post));
    }
  }

  /**
   * The event the agent records after a tool call carries `tool_name` and
   * `result` but no `results` key, so it contributes no line: tool results
   * never reach the history.
   */
  lemma AgentToolEventsInvisible(name: string, result: ToolOutput, events: seq<Event>)
    ensures EventLines(Event(ToolResult, None, None, Some(name), Some(result), None)) == []
    ensures HistoryLines(events + [Event(ToolResult, None, None, Some(name), Some(result), None)]) == HistoryLines(events)
  {
    var e := Event(ToolResult, None, None, Some(name), Some(result), None);
    assert (events + [e])[..|events|] == events;
  }

  /** The `success` flag of a tool's result dictionary, `None` when it has none. */
  function SuccessOf(out: ToolOutput): Option<bool> {
    if "success" in out && out["success"].Flag? then Some(out["success"].b) else None
  }

  /** The `error` text of a tool's result dictionary, `None` when it has none. */
  function ErrorOf(out: ToolOutput): Option<string> {
    if "error" in out && out["error"].Str? then Some(out["error"].s) else None
  }

  /**
   * Corrected reading: the tool event also carries the `results` list the
   * history reads, one entry for the call. `shown` is `str(result)`.
   */
  function CorrectedToolEvent(name: string, result: ToolOutput, shown: string): Event {
    Event(ToolResult, None, Some([ResultEntry(Some(name), SuccessOf(result), Some(shown), ErrorOf(result))]),
          Some(name), Some(result), None)
  }

  /**
   * Under the corrected reading every tool call adds exactly one
   * `<tool_result>` line for that tool after the history so far, showing the
   * result on success and the error otherwise.
   */
  lemma CorrectedToolEventShown(name: string, result: ToolOutput, shown: string, events: seq<Event>)
    ensures var e := CorrectedToolEvent(name, result, shown);
            var line := ResultLine(ResultEntry(Some(name), SuccessOf(result), Some(shown), ErrorOf(result)));
            && HistoryLines(events + [e]) == HistoryLines(events) + [line]
            && (SuccessOf(result) == Some(true) ==> line == "<tool_result tool='" + name + "' status='success'>" + shown + "</tool_result>")
            && (SuccessOf(result) != Some(true) ==>
                  line == "<tool_result tool='" + name + "' status='error'>" + Get(ErrorOf(result), "") + "</tool_result>")
  {
    var e := CorrectedToolEvent(name, result, shown);
    assert (events + [e])[..|events|] == events;
    var entries := [ResultEntry(Some(name), SuccessOf(result), Some(shown), ErrorOf(result))];
    assert ResultLines(entries) == [ResultLine(entries[0])];
  }

  /** A tool result line says `success` exactly for a result whose `success` is true. */
  lemma ResultStatus(r: ResultEntry)
    ensures var head := "<tool_result tool='" + Get(r.toolName, "") + "' status='";
            StartsWith(ResultLine(r), head + (if r.success == Some(true) then "success" else "error") + "'>")
  {
  }

  // ---------------------------------------------------------------------------
  // The context
  // ---------------------------------------------------------------------------

  /** The length limit `ContextBuilder()` takes when none is given. */
  const DefaultMaxContextLength: int := 8000

  /**
   * `ContextBuilder`: the length limit, and the fixed system prompt, tool
   * definitions and output instructions the context is made of.
   */
  datatype ContextBuilder = ContextBuilder(maxContextLength: int, basePrompt: string, toolsXml: string, outputFormat: string)
  {
    /** The four parts in order, joined by a blank line. */
    function Assemble(events: seq<Event>): string {
      Join([basePrompt, toolsXml, HistoryText(events), outputFormat], "\n\n")
    }

    /** `_truncate_context`: the same parts with only the last five events. */
    function Truncated(events: seq<Event>): string {
      Assemble(if |events| > 5 then events[|events| - 5..] else events)
    }

    /** `create_context_from_state` */
    function ContextFor(events: seq<Event>): string {
      var full := Assemble(events);
      if |full| > maxContextLength then Truncated(events) else full
    }
  }

  method CreateContextFromState(b: ContextBuilder, events: seq<Event>) returns (ctx: string)
    ensures ctx == b.ContextFor(events)
  {
    var history := FormatEvents(events);
    var parts := [b.basePrompt, b.toolsXml, history, b.outputFormat];
    ctx := Join(parts, "\n\n");
    if |ctx| > b.maxContextLength {
      var recent := if |events| > 5 then events[|events| - 5..] else events;
      var shortHistory := FormatEvents(recent);
      ctx := Join([b.basePrompt, b.toolsXml, shortHistory, b.outputFormat], "\n\n");
    }
  }

  /** The context is the four parts separated by blank lines, the history third. */
  lemma ContextParts(b: ContextBuilder, events: seq<Event>)
    ensures b.Assemble(events) == b.basePrompt + "\n\n" + b.toolsXml + "\n\n" + HistoryText(events) + "\n\n" + b.outputFormat
  {
    JoinFour(b.basePrompt, b.toolsXml, HistoryText(events), b.outputFormat, "\n\n");
  }

  /**
   * A context within the limit is kept whole; one over it is rebuilt from the
   * last five events, which for five events or fewer changes nothing.
   */
  lemma TruncationCases(b: ContextBuilder, events: seq<Event>)
    ensures |b.Assemble(events)| <= b.maxContextLength ==> b.ContextFor(events) == b.Assemble(events)
    ensures |events| <= 5 ==> b.ContextFor(events) == b.Assemble(events)
    ensures |events| > 5 && |b.Assemble(events)| > b.maxContextLength ==>
              b.ContextFor(events) == b.Assemble(events[|events| - 5..]) && |events[|events| - 5..]| == 5
  {
  }

  /**
   * Truncation does not enforce the limit: a context over it is rebuilt from
   * the last five events, and when their history alone is longer than the
   * limit (a limit of 0, or any positive limit with long enough events) the
   * rebuilt context is still over it.
   */
  lemma TruncationMayExceedLimit(b: ContextBuilder, events: seq<Event>)
    requires |b.Assemble(events)| > b.maxContextLength
    requires var recent := if |events| > 5 then events[|events| - 5..] else events;
             |HistoryText(recent)| > b.maxContextLength
    ensures |b.ContextFor(events)| > b.maxContextLength
  {
    var recent := if |events| > 5 then events[|events| - 5..] else events;
    ContextParts(b, recent);
  }

  /** A limit of 0 is exceeded by every context. */
  lemma ZeroLimitExceeded(b: ContextBuilder, events: seq<Event>)
    requires b.maxContextLength == 0
    ensures |b.ContextFor(events)| > b.maxContextLength
  {
    ContextParts(b, events);
    var recent := if |events| > 5 then events[|events| - 5..] else events;
    ContextParts(b, recent);
  }
}
