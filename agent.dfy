/**
 * The agent's decision loop: it records the user's prompt, then for at most
 * `maxIterations` rounds builds the context, asks the model, parses the
 * tagged reply and either stops, runs a registered tool or records an error.
 */
module AgentLoop {

  import opened Common
  import opened Text
  import opened AgentContext

  // ---------------------------------------------------------------------------
  // Parsing the model's reply
  // ---------------------------------------------------------------------------

  /**
   * The body of the first `open … close` pair, as a non-greedy search finds
   * it: where the body starts and ends.
   */
  function TagSpan(s: string, open: string, close: string): Option<(nat, nat)> {
    match FindFrom(s, open, 0)
    case None => None
    case Some(p) =>
      match FindFrom(s, close, p + |open|)
      case None => None
      case Some(q) => Some((p + |open|, q))
  }

  /**
   * A found body follows the first opening tag and ends at the first closing
   * tag after it; nothing is found exactly when no opening tag has a closing
   * tag after it, since a later opening tag cannot help when the first one
   * has none.
   */
  lemma TagSpanSpec(s: string, open: string, close: string)
    ensures var r := TagSpan(s, open, close);
            r.Some? ==>
              var (a, b) := r.value;
              && |open| <= a <= b
              && OccursAt(s, open, a - |open|)
              && (forall j | 0 <= j < a - |open| :: !OccursAt(s, open, j))
              && OccursAt(s, close, b)
              && (forall j | a <= j < b :: !OccursAt(s, close, j))
    ensures TagSpan(s, open, close).None? ==>
              forall p: nat, q: nat | p + |open| <= q :: !(OccursAt(s, open, p) && OccursAt(s, close, q))
  {
  }

  /** `match.group(1).strip()` of the tag search, or `default` without a match. */
  function TagText(s: string, tag: string, default: string): string {
    match TagSpan(s, "<" + tag + ">", "</" + tag + ">")
    case None => default
    case Some((a, b)) => Strip(s[a..b])
  }

  datatype Parsed = Parsed(intent: string, params: string, reasoning: string)

  /** `_parse_llm_response` */
  function ParseLlmResponse(response: string): Parsed {
    Parsed(TagText(response, "intent", "unknown"), TagText(response, "params", ""), TagText(response, "reasoning", ""))
  }

  /** The search finds the first opening tag and the first closing tag after it. */
  lemma {:induction false} SpanRoundTrip(before: string, open: string, body: string, close: string, after: string)
    requires |open| > 0 && |close| > 0
    requires open[0] !in before && close[0] !in body
    ensures var s := before + open + body + close + after;
            TagSpan(s, open, close) == Some((|before| + |open|, |before| + |open| + |body|)) &&
            s[|before| + |open|..|before| + |open| + |body|] == body
  {
    var s := before + open + body + close + after;
    var a := |before| + |open|;
    var b := a + |body|;
    ConcatSlices(before, open, body, close, after);
    NoCharAt(s, 0, before, open[0]);
    NoCharAt(s, a, body, close[0]);
    SpanAt(s, open, close, |before|, b);
  }

  /**
   * An opening tag at `p` with no earlier occurrence of its first character,
   * and a closing tag at `b` with none of its first character in between,
   * are the span the search finds.
   */
  lemma SpanAt(s: string, open: string, close: string, p: nat, b: nat)
    requires |open| > 0 && |close| > 0 && p + |open| <= b
    requires p + |open| <= |s| && s[p..p + |open|] == open && b + |close| <= |s| && s[b..b + |close|] == close
    requires forall j | 0 <= j < p :: s[j] != open[0]
    requires forall j | p + |open| <= j < b :: s[j] != close[0]
    ensures TagSpan(s, open, close) == Some((p + |open|, b))
  {
    NoOccurrenceWithout(s, open, 0, p);
    NoOccurrenceWithout(s, close, p + |open|, b);
    FindFromFirst(s, open, 0, p);
    FindFromFirst(s, close, p + |open|, b);
  }

  /** Each of the five pieces sits at its offset of their concatenation. */
  lemma ConcatSlices(before: string, open: string, body: string, close: string, after: string)
    ensures var s, a := before + open + body + close + after, |before| + |open|;
            s[0..|before|] == before && s[|before|..a] == open && s[a..a + |body|] == body &&
            s[a + |body|..a + |body| + |close|] == close
  {
    var s := before + open + body + close + after;
    var a := |before| + |open|;
    assert s[0..|before|] == before;
    assert s[|before|..a] == open;
    assert s[a..a + |body|] == body;
    assert s[a + |body|..a + |body| + |close|] == close;
  }

  /** A body free of `<` between the tags, after text free of `<`, is what the tag search returns. */
  lemma TagRoundTrip(before: string, tag: string, body: string, after: string, default: string)
    requires '<' !in before && '<' !in body
    ensures TagText(before + ("<" + tag + ">") + body + ("</" + tag + ">") + after, tag, default) == Strip(body)
  {
    var open, close := "<" + tag + ">", "</" + tag + ">";
    assert open[0] == '<' && close[0] == '<';
    SpanRoundTrip(before, open, body, close, after);
    var s := before + open + body + close + after;
    var a := |before| + |open|;
    TagTextOfSpan(s, tag, default, a, a + |body|, body);
  }

  lemma TagTextOfSpan(s: string, tag: string, default: string, a: nat, b: nat, body: string)
    requires a <= b <= |s| && s[a..b] == body
    requires TagSpan(s, "<" + tag + ">", "</" + tag + ">") == Some((a, b))
    ensures TagText(s, tag, default) == Strip(body)
  {
  }

  /**
   * Each field takes its tag's text, so an intent written as
   * `<intent> name </intent>` reads as `name`.
   */
  lemma IntentRoundTrip(before: string, body: string, after: string)
    requires '<' !in before && '<' !in body
    ensures ParseLlmResponse(before + "<intent>" + body + "</intent>" + after).intent == Strip(body)
  {
    assert "<" + "intent" + ">" == "<intent>";
    assert "</" + "intent" + ">" == "</intent>";
    TagRoundTrip(before, "intent", body, after, "unknown");
    IntentField(before + "<intent>" + body + "</intent>" + after);
  }

  lemma IntentField(s: string)
    ensures ParseLlmResponse(s).intent == TagText(s, "intent", "unknown")
  {
  }

  /** A reply without an opening intent tag is read as the unknown intent. */
  lemma NoIntentTag(response: string)
    requires forall j | 0 <= j <= |response| :: !OccursAt(response, "<intent>", j)
    ensures ParseLlmResponse(response).intent == "unknown"
  {
    var open := "<" + "intent" + ">";
    assert open == "<intent>";
    FindFromNone(response, open, 0);
    IntentField(response);
  }

  /** A reply with no tags at all parses to the three defaults. */
  lemma NoTagsDefaults(response: string)
    requires '<' !in response
    ensures ParseLlmResponse(response) == Parsed("unknown", "", "")
  {
    NoTagText(response, "intent", "unknown");
    NoTagText(response, "params", "");
    NoTagText(response, "reasoning", "");
  }

  /** Text without `<` holds no tag, so the tag search gives the default. */
  lemma NoTagText(response: string, tag: string, default: string)
    requires '<' !in response
    ensures TagText(response, tag, default) == default
  {
    var open := "<" + tag + ">";
    assert open[0] == '<';
    NoOccurrenceWithout(response, open, 0, |response|);
    FindFromNone(response, open, 0);
  }

  // ---------------------------------------------------------------------------
  // Tools
  // ---------------------------------------------------------------------------

  /**
   * What the loop needs from outside: the model's reply (or the exception's
   * message) for each iteration, counted from 1, and context; the registered
   * tool names; and each tool's result (or the exception's message) for its
   * parameters.
   */
  datatype AgentOracle = AgentOracle(
    llm: nat -> string -> Result<string, string>,
    tools: set<string>,
    execute: string -> string -> Result<ToolOutput, string>)

  /** `_execute_tool`: an exception becomes a result dictionary instead of propagating. */
  function ExecuteTool(o: AgentOracle, name: string, params: string): (r: ToolOutput)
    ensures o.execute(name)(params).Ok? ==> r == o.execute(name)(params).value
    ensures o.execute(name)(params).Err? ==>
              r.Keys == {"error", "success"} && r["success"] == Flag(false) && r["error"] == Str(o.execute(name)(params).error)
  {
    match o.execute(name)(params)
    case Ok(out) => out
    case Err(e) => map["error" := Str(e), "success" := Flag(false)]
  }

  function UserEvent(prompt: string): Event {
    Event(UserMessage, Some(prompt), None, None, None, None)
  }

  function ErrorEvent(msg: string): Event {
    Event(Error, None, None, None, None, Some(msg))
  }

  /** The event recorded after a tool call: its name and result, no `results` list. */
  function ToolEvent(name: string, out: ToolOutput): Event {
    Event(ToolResult, None, None, Some(name), Some(out), None)
  }

  // ---------------------------------------------------------------------------
  // The loop
  // ---------------------------------------------------------------------------

  datatype Decision = Finish | Record(event: Event)

  /**
   * One iteration after the context is built: a failed model call records
   * an error, `finish` stops without an event, a registered tool records
   * exactly one tool result and any other intent records an error.
   */
  function Decide(o: AgentOracle, iteration: nat, context: string): (d: Decision)
    ensures o.llm(iteration)(context).Err? ==> d == Record(ErrorEvent(o.llm(iteration)(context).error))
    ensures o.llm(iteration)(context).Ok? ==>
              var intent := ParseLlmResponse(o.llm(iteration)(context).value).intent;
              && (d.Finish? <==> intent == "finish")
              && (intent != "finish" && intent in o.tools ==> d.event.kind == ToolResult && d.event.toolName == Some(intent))
              && (intent != "finish" && intent !in o.tools ==> d == Record(ErrorEvent("Unknown intent: " + intent)))
    ensures d.Record? ==> d.event.kind == ToolResult || d.event.kind == Error
  {
    match o.llm(iteration)(context)
    case Err(e) => Record(ErrorEvent(e))
    case Ok(reply) =>
      var p := ParseLlmResponse(reply);
      if p.intent == "finish" then Finish
      else if p.intent in o.tools then Record(ToolEvent(p.intent, ExecuteTool(o, p.intent, p.params)))
      else Record(ErrorEvent("Unknown intent: " + p.intent))
  }

  /**
   * The rest of a run from `events` after `iteration` rounds: the final
   * events and the number of rounds. Every round records at most one tool
   * result or error; the run ends early only on `finish`.
   */
  function RunFrom(b: ContextBuilder, o: AgentOracle, events: seq<Event>, iteration: nat, max: nat): (r: (seq<Event>, nat))
    requires iteration <= max
    ensures iteration <= r.1 <= max
    ensures events <= r.0
    ensures |r.0| - |events| == r.1 - iteration || |r.0| - |events| == r.1 - iteration - 1
    ensures r.1 < max ==> |r.0| - |events| == r.1 - iteration - 1
    ensures forall j | |events| <= j < |r.0| :: r.0[j].kind == ToolResult || r.0[j].kind == Error
    decreases max - iteration
  {
    if iteration == max then (events, iteration)
    else
      var d := Decide(o, iteration + 1, b.ContextFor(events));
      if d.Finish? then (events, iteration + 1)
      else
        var r := RunFrom(b, o, events + [d.event], iteration + 1, max);
        assert (events + [d.event])[|events|] == d.event;
        r
  }

  /** One round of the run, unfolded. */
  lemma RunFromStep(b: ContextBuilder, o: AgentOracle, events: seq<Event>, iteration: nat, max: nat)
    requires iteration < max
    ensures var d := Decide(o, iteration + 1, b.ContextFor(events));
            RunFrom(b, o, events, iteration, max) ==
              if d.Finish? then (events, iteration + 1) else RunFrom(b, o, events + [d.event], iteration + 1, max)
  {
  }

  /**
   * Nothing the loop records shows in the history: tool events carry no
   * `results` list and errors are not rendered, so the model is shown the
   * same context in every round.
   */
  lemma {:induction false} RunHistoryUnchanged(b: ContextBuilder, o: AgentOracle, events: seq<Event>, iteration: nat, max: nat)
    requires iteration <= max
    ensures HistoryLines(RunFrom(b, o, events, iteration, max).0) == HistoryLines(events)
    decreases max - iteration
  {
    if iteration < max {
      RunFromStep(b, o, events, iteration, max);
      var d := Decide(o, iteration + 1, b.ContextFor(events));
      if d.Record? {
        var e := d.event;
        RecordedEventsSilent(o, iteration + 1, b.ContextFor(events));
        HistoryAppend(events, [e]);
        HistorySingle(e);
        RunHistoryUnchanged(b, o, events + [e], iteration + 1, max);
      }
    }
  }

  /** The events the agent records are rendered by nothing. */
  lemma RecordedEventsSilent(o: AgentOracle, iteration: nat, context: string)
    ensures Decide(o, iteration, context).Record? ==> EventLines(Decide(o, iteration, context).event) == []
  {
  }

  /** `Agent`: the event log its state manager keeps, and the loop's bound. */
  class Agent {
    const builder: ContextBuilder
    const maxIterations: nat
    var events: seq<Event>

    /** The builder is `ContextBuilder()`, so its limit is the default one. */
    constructor(builder: ContextBuilder)
      requires builder.maxContextLength == DefaultMaxContextLength
      ensures this.builder == builder && this.builder.maxContextLength == 8000
      ensures maxIterations == 20 && events == []
    {
      this.builder := builder;
      maxIterations := 20;
      events := [];
    }

    /** `run`: returns the number of rounds it made. */
    method Run(prompt: string, o: AgentOracle) returns (iterations: nat)
      modifies this
      ensures (events, iterations) == RunFrom(builder, o, old(events) + [UserEvent(prompt)], 0, maxIterations)
      ensures iterations <= maxIterations
      ensures |events| > |old(events)| && events[..|old(events)|] == old(events) && events[|old(events)|] == UserEvent(prompt)
    {
      ghost var start := old(events) + [UserEvent(prompt)];
      ghost var final := RunFrom(builder, o, start, 0, maxIterations);
      events := events + [UserEvent(prompt)];
      var iteration := 0;
      while iteration < maxIterations
        invariant iteration <= maxIterations
        invariant RunFrom(builder, o, events, iteration, maxIterations) == final
        decreases maxIterations - iteration
      {
        ghost var before := events;
        RunFromStep(builder, o, before, iteration, maxIterations);
        iteration := iteration + 1;
        var context := CreateContextFromState(builder, events);
        ghost var d := Decide(o, iteration, context);
        var reply := o.llm(iteration)(context);
        match reply {
          case Err(e) =>
            events := events + [ErrorEvent(e)];
          case Ok(text) =>
            var parsed := ParseLlmResponse(text);
            if parsed.intent == "finish" {
              break;
            } else if parsed.intent in o.tools {
              var result := ExecuteTool(o, parsed.intent, parsed.params);
              assert d == Record(ToolEvent(parsed.intent, result));
              events := events + [ToolEvent(parsed.intent, result)];
            } else {
              events := events + [ErrorEvent("Unknown intent: " + parsed.intent)];
            }
        }
      }
      iterations := iteration;
      assert start[|old(events)|] == UserEvent(prompt);
    }
  }
}
