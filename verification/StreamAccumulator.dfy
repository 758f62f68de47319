/** StreamAccumulator (src/core/agent_stream.rs): the incremental interpreter of one attempt, proved
    to end with what StreamChunks.dfy says the whole list of inputs means. */
module StreamAccumulator {
  import opened Utf8
  import opened StreamChunks

  datatype StreamEvent =
    | VisibleText(text: string)
    | ReasoningText(text: string)
    | PrepareToolCall(callId: string, name: string)
    | ToolCallReceived
    | UsageUpdated(usage: UsageInfo)
    | StreamError(error: string, retryable: bool, substantiveOutput: bool, visibleOutput: bool)

  datatype StreamOutcome = StreamOutcome(
    text: string, filteredText: string, filteredTail: string, reasoning: string,
    signature: Option<string>, textSignature: Option<string>, redactedData: seq<string>,
    toolCallOrder: seq<string>, toolCalls: map<string, ToolCall>, usage: Option<UsageInfo>,
    substantiveOutput: bool, errored: bool,
    retryableErrorBeforeOutput: Option<string>, retryableErrorBeforeVisibleOutput: Option<string>,
    nonRetryableError: Option<string>)

  // ---- what the texts of a list of inputs are

  /** The pieces that the inputs contribute, one after the other. */
  function Collected<T>(log: Log, piece: Input -> seq<T>): seq<T> {
    if log == [] then [] else Collected(log[..|log| - 1], piece) + piece(log[|log| - 1])
  }

  /** The last value that an input contributes. */
  function Last<T>(log: Log, piece: Input -> Option<T>): Option<T> {
    if log == [] then None
    else if piece(log[|log| - 1]).Some? then piece(log[|log| - 1])
    else Last(log[..|log| - 1], piece)
  }

  function TextOf(c: Input): string { if c.Text? then c.text else "" }
  function ProcessedOf(c: Input): string { if c.Text? then c.processed else "" }
  function ReasoningOf(c: Input): string { if c.Reasoning? then c.reasoning else "" }
  function RedactedOf(c: Input): seq<string> { if c.Reasoning? && c.redactedData.Some? then [c.redactedData.value] else [] }
  function TextSignatureOf(c: Input): Option<string> { if c.Text? then c.signature else None }
  function SignatureOf(c: Input): Option<string> { if c.Reasoning? then c.signature else None }

  ghost function Announced(log: Log): set<string> {
    set c | c in log && c.ToolCallStarted? :: c.startedId
  }

  datatype Texts = Texts(text: string, filtered: string, reasoning: string, signature: Option<string>,
                         textSignature: Option<string>, redacted: seq<string>)

  ghost function TextsOf(log: Log): Texts {
    Texts(Collected(log, TextOf), Collected(log, ProcessedOf), Collected(log, ReasoningOf),
          Last(log, SignatureOf), Last(log, TextSignatureOf), Collected(log, RedactedOf))
  }

  /** The value is that of the last input that gives one. */
  ghost predicate IsLastOf<T>(log: Log, piece: Input -> Option<T>, v: Option<T>) {
    match v
    case None => forall i | 0 <= i < |log| :: piece(log[i]).None?
    case Some(_) => exists i :: 0 <= i < |log| && piece(log[i]) == v && forall j | i < j < |log| :: piece(log[j]).None?
  }

  lemma {:induction false} LastIs<T>(log: Log, piece: Input -> Option<T>, field: Input -> Option<T>)
    requires forall c :: piece(c) == field(c)
    ensures IsLastOf(log, field, Last(log, piece))
  {
    if log != [] && piece(log[|log| - 1]).None? {
      var init := log[..|log| - 1];
      LastIs(init, piece, field);
      if Last(init, piece).Some? {
        var i :| 0 <= i < |init| && field(init[i]) == Last(init, piece) && forall j | i < j < |init| :: field(init[j]).None?;
        assert field(log[i]) == Last(init, piece);
      }
    } else if log != [] {
      assert field(log[|log| - 1]) == Last(log, piece);
    }
  }

  lemma {:induction false} CollectedAgrees<T>(log: Log, piece: Input -> seq<T>, field: Input -> seq<T>)
    requires forall c :: piece(c) == field(c)
    ensures Collected(log, piece) == Collected(log, field)
  {
    if log != [] { CollectedAgrees(log[..|log| - 1], piece, field); }
  }

  /** The texts of the text chunks, and of the reasoning chunks, one after the other; of the signatures
      the last one given of each kind; and all redacted data. */
  lemma TextsAreCollected(log: Log)
    ensures var t := TextsOf(log);
            && t.text == Collected(log, (c: Input) => if c.Text? then c.text else "")
            && t.filtered == Collected(log, (c: Input) => if c.Text? then c.processed else "")
            && t.reasoning == Collected(log, (c: Input) => if c.Reasoning? then c.reasoning else "")
            && t.redacted == Collected(log, (c: Input) => if c.Reasoning? && c.redactedData.Some? then [c.redactedData.value] else [])
            && IsLastOf(log, (c: Input) => if c.Reasoning? then c.signature else None, t.signature)
            && IsLastOf(log, (c: Input) => if c.Text? then c.signature else None, t.textSignature)
  {
    CollectedAgrees(log, TextOf, (c: Input) => if c.Text? then c.text else "");
    CollectedAgrees(log, ProcessedOf, (c: Input) => if c.Text? then c.processed else "");
    CollectedAgrees(log, ReasoningOf, (c: Input) => if c.Reasoning? then c.reasoning else "");
    CollectedAgrees(log, RedactedOf, (c: Input) => if c.Reasoning? && c.redactedData.Some? then [c.redactedData.value] else []);
    LastIs(log, SignatureOf, (c: Input) => if c.Reasoning? then c.signature else None);
    LastIs(log, TextSignatureOf, (c: Input) => if c.Text? then c.signature else None);
  }

  function TextsAfter(t: Texts, c: Input): Texts {
    Texts(t.text + TextOf(c), t.filtered + ProcessedOf(c), t.reasoning + ReasoningOf(c),
          OrElse(SignatureOf(c), t.signature), OrElse(TextSignatureOf(c), t.textSignature), t.redacted + RedactedOf(c))
  }

  lemma TextsPush(log: Log, c: Input)
    ensures TextsOf(log + [c]) == TextsAfter(TextsOf(log), c)
  {
    assert (log + [c])[..|log|] == log;
  }

  lemma AnnouncedPush(log: Log, c: Input)
    ensures Announced(log + [c]) == Announced(log) + if c.ToolCallStarted? then {c.startedId} else {}
  {
    assert forall x | x in log :: x in log + [c];
    assert c in log + [c];
  }

  lemma KeysMatch(log: Log)
    ensures forall k :: k in Calls(log) <==> k in Order(log)
  {
    forall k ensures k in Calls(log) <==> k in Order(log) { CallsAt(log, k); OrderIsKeySet(log, k); }
  }

  /** What one input tells the loop, given the state before it and the usage after it. */
  function EventsOf(c: Input, e: Errors, announced: set<string>, usage: Option<UsageInfo>): seq<StreamEvent> {
    match c
    case Text(_, processed, _) => [VisibleText(processed)]
    case Reasoning(reasoning, _, _) => [ReasoningText(reasoning)]
    case ToolCallStarted(id, name) => if id in announced then [] else [PrepareToolCall(id, name)]
    case ToolCalls(_, _) => if IsAccepted(c) then [ToolCallReceived] else []
    case Usage(u) => if IsMeasurement(u) && usage.Some? then [UsageUpdated(usage.value)] else []
    case Error(m) =>
      if !IsRetryable(m) || (e.nonRetryable.None? && e.substantive)
      then [StreamError(m, IsRetryable(m), e.substantive, e.visible)] else []
    case _ => []
  }

  class StreamAccumulator {
    const jsonOutput: bool
    var accumulatedText: string
    var filteredText: string
    var accumulatedReasoning: string
    var accumulatedSignature: Option<string>
    var accumulatedTextSignature: Option<string>
    var accumulatedRedactedData: seq<string>
    var toolCallsMap: map<string, ToolCall>
    var toolCallOrder: seq<string>
    var announcedToolCallIds: set<string>
    var substantiveOutput: bool
    var visibleOutput: bool
    var streamErrored: bool
    var retryableErrorBeforeOutput: Option<string>
    var retryableErrorBeforeVisibleOutput: Option<string>
    var nonRetryableError: Option<string>
    var streamUsage: Option<UsageInfo>

    ghost var log: Log   // everything pushed so far

    ghost function ErrorsNow(): Errors
      reads this
    {
      Errors(substantiveOutput, visibleOutput, streamErrored, retryableErrorBeforeOutput,
                          retryableErrorBeforeVisibleOutput, nonRetryableError)
    }

    ghost function TextsNow(): Texts
      reads this
    {
      Texts(accumulatedText, filteredText, accumulatedReasoning, accumulatedSignature,
                  accumulatedTextSignature, accumulatedRedactedData)
    }

    ghost predicate Valid()
      reads this
    {
      && Classifies(jsonOutput, log, ErrorsNow())
      && toolCallOrder == Order(log) && toolCallsMap == Calls(log)
      && ReportsUsage(log, streamUsage)
      && TextsNow() == TextsOf(log)
      && announcedToolCallIds == Announced(log)
    }

    constructor (json: bool)
      ensures Valid() && log == [] && jsonOutput == json
    {
      jsonOutput := json;
      accumulatedText, filteredText, accumulatedReasoning := "", "", "";
      accumulatedSignature, accumulatedTextSignature, accumulatedRedactedData := None, None, [];
      toolCallsMap, toolCallOrder, announcedToolCallIds := map[], [], {};
      substantiveOutput, visibleOutput, streamErrored := false, false, false;
      retryableErrorBeforeOutput, retryableErrorBeforeVisibleOutput, nonRetryableError := None, None, None;
      streamUsage := None;
      log := [];
    }

    ghost method Record(c: Input, before: Errors, beforeTexts: Texts, calls: map<string, ToolCall>, order: seq<string>,
                        usage: Option<UsageInfo>, announced: set<string>)
      requires Classifies(jsonOutput, log, before) && ErrorsNow() == After(jsonOutput, c, before)
      requires beforeTexts == TextsOf(log) && TextsNow() == TextsAfter(beforeTexts, c)
      requires calls == Calls(log) && toolCallsMap == CallsAfter(calls, c)
      requires order == Order(log) && toolCallOrder == if IsAccepted(c) && Key(c) !in order then order + [Key(c)] else order
      requires ReportsUsage(log, usage) && streamUsage == UsageAfter(usage, c)
      requires announced == Announced(log)
      requires announcedToolCallIds == announced + if c.ToolCallStarted? then {c.startedId} else {}
      modifies this`log
      ensures Valid() && log == old(log) + [c]
    {
      AfterClassifies(jsonOutput, log, c, before);
      TextsPush(log, c);
      CallsPush(log, c);
      OrderPush(log, c);
      UsageAfterReports(log, usage, c);
      AnnouncedPush(log, c);
      log := log + [c];
    }

    method Push(c: Input) returns (events: seq<StreamEvent>)
      requires Valid() && !c.PreoutputFailure?
      modifies this
      ensures Valid() && log == old(log) + [c]
      ensures c.Text? ==> events == [VisibleText(c.processed)]
      ensures c.Reasoning? ==> events == [ReasoningText(c.reasoning)]
      ensures c.ToolCallStarted? ==>
                events == if c.startedId in Announced(old(log)) then [] else [PrepareToolCall(c.startedId, c.startedName)]
      ensures c.ToolCalls? ==> events == if IsAccepted(c) then [ToolCallReceived] else []
      ensures c.Usage? && IsMeasurement(c.usage) ==> streamUsage.Some? && events == [UsageUpdated(streamUsage.value)]
      ensures c.Usage? && !IsMeasurement(c.usage) ==> events == []
      ensures c.Timing? ==> events == []
      ensures c.Error? && Breaks(jsonOutput, old(log) + [c], |old(log)|) ==>
                events == [StreamError(c.message, IsRetryable(c.message),
                                       SubstantiveBefore(jsonOutput, old(log), |old(log)|),
                                       VisibleBefore(jsonOutput, old(log), |old(log)|))]
      ensures c.Error? && !Breaks(jsonOutput, old(log) + [c], |old(log)|) ==> events == []
    {
      ghost var before, texts, calls, order, usage, announced :=
        ErrorsNow(), TextsNow(), toolCallsMap, toolCallOrder, streamUsage, announcedToolCallIds;
      KeysMatch(log);
      events := Interpret(c);
      if c.Error? { ErrorBreaks(jsonOutput, log, c.message, before); }
      Record(c, before, texts, calls, order, usage, announced);
    }

    /** What an input does to the fields, and what it tells the loop. */
    twostate predicate Interprets(c: Input, events: seq<StreamEvent>)
      requires !c.PreoutputFailure?
      reads this
    {
      && log == old(log)
      && ErrorsNow() == After(jsonOutput, c, old(ErrorsNow()))
      && TextsNow() == TextsAfter(old(TextsNow()), c)
      && toolCallsMap == CallsAfter(old(toolCallsMap), c)
      && toolCallOrder == (if IsAccepted(c) && Key(c) !in old(toolCallOrder) then old(toolCallOrder) + [Key(c)] else old(toolCallOrder))
      && streamUsage == UsageAfter(old(streamUsage), c)
      && announcedToolCallIds == old(announcedToolCallIds) + (if c.ToolCallStarted? then {c.startedId} else {})
      && events == EventsOf(c, old(ErrorsNow()), old(announcedToolCallIds), streamUsage)
    }

    method Interpret(c: Input) returns (events: seq<StreamEvent>)
      requires !c.PreoutputFailure?
      requires forall k :: k in toolCallsMap <==> k in toolCallOrder
      requires visibleOutput ==> substantiveOutput
      modifies this
      ensures Interprets(c, events)
    {
      match c {
        case Text(_, _, _) => events := InterpretProse(c);
        case Reasoning(_, _, _) => events := InterpretProse(c);
        case ToolCallStarted(_, _) => events := InterpretTool(c);
        case ToolCalls(_, _) => events := InterpretTool(c);
        case Usage(_) => events := InterpretRest(c);
        case Timing => events := InterpretRest(c);
        case Error(_) => events := InterpretRest(c);
      }
    }

    method InterpretProse(c: Input) returns (events: seq<StreamEvent>)
      requires c.Text? || c.Reasoning?
      modifies this
      ensures Interprets(c, events)
    {
      if c.Text? { events := PushText(c); } else { events := PushReasoning(c); }
    }

    method InterpretTool(c: Input) returns (events: seq<StreamEvent>)
      requires c.ToolCallStarted? || c.ToolCalls?
      requires forall k :: k in toolCallsMap <==> k in toolCallOrder
      modifies this
      ensures Interprets(c, events)
    {
      if c.ToolCalls? { events := PushToolCalls(c); } else { events := PushToolCallStarted(c.startedId, c.startedName); }
    }

    method InterpretRest(c: Input) returns (events: seq<StreamEvent>)
      requires c.Usage? || c.Timing? || c.Error?
      requires visibleOutput ==> substantiveOutput
      modifies this
      ensures Interprets(c, events)
    {
      if c.Error? { events := InterpretError(c); } else if c.Usage? { events := PushUsage(c); } else { events := []; }
    }

    method InterpretError(c: Input) returns (events: seq<StreamEvent>)
      requires c.Error? && (visibleOutput ==> substantiveOutput)
      modifies this
      ensures Interprets(c, events)
    {
      events := PushError(c.message);
    }

    method NotePreoutputFailure(message: string)
      requires Valid()
      modifies this
      ensures Valid() && log == old(log) + [PreoutputFailure(message)]
    {
      ghost var before, texts := ErrorsNow(), TextsNow();
      retryableErrorBeforeOutput := Some(message);
      retryableErrorBeforeVisibleOutput := Some(message);
      Record(PreoutputFailure(message), before, texts, toolCallsMap, toolCallOrder, streamUsage, announcedToolCallIds);
    }

    method PushText(c: Input) returns (events: seq<StreamEvent>)
      requires c.Text?
      modifies this`filteredText, this`substantiveOutput, this`visibleOutput, this`accumulatedTextSignature, this`accumulatedText
      ensures ErrorsNow() == After(jsonOutput, c, old(ErrorsNow())) && TextsNow() == TextsAfter(old(TextsNow()), c)
      ensures events == [VisibleText(c.processed)]
    {
      filteredText := filteredText + c.processed;
      if jsonOutput {
        substantiveOutput := substantiveOutput || c.text != "";
        visibleOutput := visibleOutput || c.text != "";
      } else if c.processed != "" {
        substantiveOutput := true;
        visibleOutput := true;
      }
      if c.signature.Some? {
        accumulatedTextSignature := c.signature;
      }
      accumulatedText := accumulatedText + c.text;
      events := [VisibleText(c.processed)];
    }

    method PushReasoning(c: Input) returns (events: seq<StreamEvent>)
      requires c.Reasoning?
      modifies this`substantiveOutput, this`accumulatedReasoning, this`accumulatedSignature, this`accumulatedRedactedData
      ensures ErrorsNow() == After(jsonOutput, c, old(ErrorsNow())) && TextsNow() == TextsAfter(old(TextsNow()), c)
      ensures events == [ReasoningText(c.reasoning)]
    {
      substantiveOutput := substantiveOutput || c.reasoning != "";
      accumulatedReasoning := accumulatedReasoning + c.reasoning;
      if c.signature.Some? {
        accumulatedSignature := c.signature;
      }
      if c.redactedData.Some? {
        accumulatedRedactedData := accumulatedRedactedData + [c.redactedData.value];
      }
      events := [ReasoningText(c.reasoning)];
    }

    method PushToolCallStarted(id: string, name: string) returns (events: seq<StreamEvent>)
      modifies this`announcedToolCallIds
      ensures announcedToolCallIds == old(announcedToolCallIds) + {id}
      ensures events == if id in old(announcedToolCallIds) then [] else [PrepareToolCall(id, name)]
    {
      if id !in announcedToolCallIds {
        announcedToolCallIds := announcedToolCallIds + {id};
        return [PrepareToolCall(id, name)];
      }
      events := [];
    }

    method PushToolCalls(c: Input) returns (events: seq<StreamEvent>)
      requires c.ToolCalls?
      requires forall k :: k in toolCallsMap <==> k in toolCallOrder
      modifies this`substantiveOutput, this`visibleOutput, this`toolCallsMap, this`toolCallOrder
      ensures ErrorsNow() == After(jsonOutput, c, old(ErrorsNow()))
      ensures toolCallsMap == CallsAfter(old(toolCallsMap), c)
      ensures toolCallOrder == if IsAccepted(c) && Key(c) !in old(toolCallOrder) then old(toolCallOrder) + [Key(c)] else old(toolCallOrder)
      ensures events == if IsAccepted(c) then [ToolCallReceived] else []
    {
      substantiveOutput := true;
      visibleOutput := true;
      var tc := c.call;
      var key := if tc.callId.Some? then tc.callId.value else OrEmpty(tc.functionId);
      if key == "" {
        key := c.freshKey;
      }
      var argsAbsent := tc.arguments.None? || tc.arguments.value == "";
      if (tc.name.None? || tc.name.value == "") && argsAbsent {
        return [];
      }
      if key in toolCallsMap {
        var existing := toolCallsMap[key];
        if tc.arguments.Some? && tc.arguments.value != "" {
          var merged := if existing.arguments.Some? then existing.arguments.value + tc.arguments.value else tc.arguments.value;
          assert "" + tc.arguments.value == tc.arguments.value;
          existing := existing.(arguments := Some(merged));
        }
        if tc.name.Some? {
          existing := existing.(name := tc.name);
        }
        if tc.callId.Some? {
          existing := existing.(callId := tc.callId);
        }
        toolCallsMap := toolCallsMap[key := existing];
      } else {
        toolCallOrder := toolCallOrder + [key];
        toolCallsMap := toolCallsMap[key := tc];
      }
      events := [ToolCallReceived];
    }

    method PushUsage(c: Input) returns (events: seq<StreamEvent>)
      requires c.Usage?
      modifies this`streamUsage
      ensures streamUsage == UsageAfter(old(streamUsage), c)
      ensures IsMeasurement(c.usage) ==> streamUsage.Some?
      ensures events == if IsMeasurement(c.usage) then [UsageUpdated(streamUsage.value)] else []
    {
      var u := c.usage;
      if !IsMeasurement(u) {
        return [];
      }
      var tokensIn := if u.inputTokens > 0 then u.inputTokens else if streamUsage.Some? then streamUsage.value.tokensIn else 0;
      var tokensOut := if u.outputTokens > 0 then u.outputTokens else if streamUsage.Some? then streamUsage.value.tokensOut else 0;
      var cacheWrites := OrElse(u.cacheWriteTokens, if streamUsage.Some? then streamUsage.value.cacheWrites else None);
      var cacheReads := OrElse(u.cacheReadTokens, if streamUsage.Some? then streamUsage.value.cacheReads else None);
      var reasoning := OrElse(u.reasoningTokens, if streamUsage.Some? then streamUsage.value.reasoningTokens else None);
      var cost := OrElse(u.totalCost, if streamUsage.Some? then streamUsage.value.cost else None);
      streamUsage := Some(UsageInfo(tokensIn, tokensOut, cacheWrites, cacheReads, reasoning, cost));
      events := [UsageUpdated(streamUsage.value)];
    }

    method PushError(err: string) returns (events: seq<StreamEvent>)
      requires visibleOutput ==> substantiveOutput
      modifies this`streamErrored, this`nonRetryableError, this`retryableErrorBeforeOutput, this`retryableErrorBeforeVisibleOutput
      ensures ErrorsNow() == After(jsonOutput, Error(err), old(ErrorsNow()))
      ensures events == if !IsRetryable(err) || (old(nonRetryableError).None? && substantiveOutput)
                        then [StreamError(err, IsRetryable(err), substantiveOutput, visibleOutput)] else []
    {
      if !IsRetryable(err) {
        streamErrored := true;
        if nonRetryableError.None? {
          nonRetryableError := Some(err);
        }
        return [StreamError(err, false, substantiveOutput, visibleOutput)];
      }
      if nonRetryableError.Some? {
        return [];
      }
      if !substantiveOutput {
        retryableErrorBeforeOutput := Some(err);
        retryableErrorBeforeVisibleOutput := Some(err);
        return [];
      }
      if !visibleOutput {
        retryableErrorBeforeVisibleOutput := Some(err);
      }
      streamErrored := true;
      events := [StreamError(err, true, substantiveOutput, visibleOutput)];
    }

    /** The outcome of the attempt; `tail` is what the filter still lets through at the end. */
    method Finish(tail: string) returns (o: StreamOutcome)
      requires Valid()
      ensures Classifies(jsonOutput, log, Errors(o.substantiveOutput, visibleOutput, o.errored,
                o.retryableErrorBeforeOutput, o.retryableErrorBeforeVisibleOutput, o.nonRetryableError))
      ensures o.toolCallOrder == Order(log) && o.toolCalls == Calls(log)
      ensures ReportsUsage(log, o.usage)
      ensures TextsOf(log) == Texts(o.text, Collected(log, ProcessedOf), o.reasoning, o.signature, o.textSignature, o.redactedData)
      ensures o.filteredText == Collected(log, ProcessedOf) + tail && o.filteredTail == tail
    {
      o := StreamOutcome(accumulatedText, filteredText + tail, tail, accumulatedReasoning, accumulatedSignature,
                         accumulatedTextSignature, accumulatedRedactedData, toolCallOrder, toolCallsMap, streamUsage,
                         substantiveOutput, streamErrored, retryableErrorBeforeOutput,
                         retryableErrorBeforeVisibleOutput, nonRetryableError);
    }
  }

  /** The event of an error chunk is shown exactly when the error breaks the attempt. */
  lemma ErrorBreaks(json: bool, log: Log, message: string, e: Errors)
    requires Classifies(json, log, e)
    ensures Breaks(json, log + [Error(message)], |log|) <==>
            !IsRetryable(message) || (e.nonRetryable.None? && e.substantive)
  {
    assert (log + [Error(message)])[|log|] == Error(message);
    PrefixMeansTheSame(json, log, Error(message));
    FatalKnown(log, e.nonRetryable);
  }
}
