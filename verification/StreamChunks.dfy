/** What one provider-stream attempt delivers (src/core/agent_stream.rs), and what a list of such
    inputs means, said without reference to how it is accumulated. */
module StreamChunks {
  import opened Utf8

  datatype ToolCall = ToolCall(callId: Option<string>, functionId: Option<string>, name: Option<string>,
                               arguments: Option<string>, signature: Option<string>)

  datatype UsageChunk = UsageChunk(inputTokens: nat, outputTokens: nat, cacheWriteTokens: Option<nat>,
                                   cacheReadTokens: Option<nat>, reasoningTokens: Option<nat>,
                                   totalCost: Option<real>, id: Option<string>)

  /** Stream chunks, and the loop's note of a failure before any output. `processed` is what the
      thinking-tag filter lets through for that text; `freshKey` is the id that would be generated
      for a tool call without one. */
  datatype Input =
    | Text(text: string, processed: string, signature: Option<string>)
    | Reasoning(reasoning: string, signature: Option<string>, redactedData: Option<string>)
    | ToolCallStarted(startedId: string, startedName: string)
    | ToolCalls(call: ToolCall, freshKey: string)
    | Usage(usage: UsageChunk)
    | Timing
    | Error(message: string)
    | PreoutputFailure(message: string)

  type Log = seq<Input>

  // ---- output and errors

  const MARKER := "(retryable)"

  predicate StartsAt(s: string, sub: string, i: nat) { i + |sub| <= |s| && s[i..i + |sub|] == sub }

  predicate IsRetryable(error: string) {
    exists i | 0 <= i <= |error| :: StartsAt(error, MARKER, i)
  }

  predicate IsVisible(json: bool, c: Input) {
    c.ToolCalls? || (c.Text? && (if json then c.text != "" else c.processed != ""))
  }

  predicate IsSubstantive(json: bool, c: Input) {
    IsVisible(json, c) || (c.Reasoning? && c.reasoning != "")
  }

  predicate IsFatal(c: Input) { c.Error? && !IsRetryable(c.message) }

  predicate IsTransient(c: Input) { c.Error? && IsRetryable(c.message) }

  ghost predicate SubstantiveBefore(json: bool, log: Log, n: nat)
    requires n <= |log|
  {
    exists i :: 0 <= i < n && IsSubstantive(json, log[i])
  }

  ghost predicate VisibleBefore(json: bool, log: Log, n: nat)
    requires n <= |log|
  {
    exists i :: 0 <= i < n && IsVisible(json, log[i])
  }

  ghost predicate FatalBefore(log: Log, n: nat)
    requires n <= |log|
  {
    exists i :: 0 <= i < n && IsFatal(log[i])
  }

  /** The input at `i` is a failure that a retry could hide: nothing of the kind asked for (any
      output, or visible output) and no fatal error came before it. */
  ghost predicate IsHideable(json: bool, log: Log, i: nat, visible: bool)
    requires i < |log|
  {
    || log[i].PreoutputFailure?
    || (&& IsTransient(log[i]) && !FatalBefore(log, i)
        && (if visible then !VisibleBefore(json, log, i) else !SubstantiveBefore(json, log, i)))
  }

  /** `m` is the message of the last hideable failure, if there is one. */
  ghost predicate IsLastHideable(json: bool, log: Log, visible: bool, m: Option<string>) {
    match m
    case None => forall i | 0 <= i < |log| :: !IsHideable(json, log, i, visible)
    case Some(msg) =>
      exists i :: && 0 <= i < |log| && IsHideable(json, log, i, visible) && log[i].message == msg
                  && forall j | i < j < |log| :: !IsHideable(json, log, j, visible)
  }

  /** `m` is the message of the first fatal error, if there is one. */
  ghost predicate IsFirstFatal(log: Log, m: Option<string>) {
    match m
    case None => !FatalBefore(log, |log|)
    case Some(msg) => exists i :: 0 <= i < |log| && IsFatal(log[i]) && log[i].message == msg && !FatalBefore(log, i)
  }

  /** An error the turn cannot get over: fatal, or transient after output with no fatal one before. */
  ghost predicate Breaks(json: bool, log: Log, i: nat)
    requires i < |log|
  {
    IsFatal(log[i]) || (IsTransient(log[i]) && SubstantiveBefore(json, log, i) && !FatalBefore(log, i))
  }

  ghost predicate IsErrored(json: bool, log: Log) {
    exists i :: 0 <= i < |log| && Breaks(json, log, i)
  }

  datatype Errors = Errors(substantive: bool, visible: bool, errored: bool, beforeOutput: Option<string>,
                           beforeVisibleOutput: Option<string>, nonRetryable: Option<string>)

  /** The error outcome that a list of inputs means. */
  ghost predicate Classifies(json: bool, log: Log, e: Errors) {
    && e.substantive == SubstantiveBefore(json, log, |log|)
    && e.visible == VisibleBefore(json, log, |log|)
    && e.errored == IsErrored(json, log)
    && IsLastHideable(json, log, false, e.beforeOutput)
    && IsLastHideable(json, log, true, e.beforeVisibleOutput)
    && IsFirstFatal(log, e.nonRetryable)
  }

  /** One more input changes nothing about the places before it. */
  lemma PrefixMeansTheSame(json: bool, log: Log, c: Input)
    ensures var log' := log + [c];
            forall n | 0 <= n <= |log| ::
              && SubstantiveBefore(json, log', n) == SubstantiveBefore(json, log, n)
              && VisibleBefore(json, log', n) == VisibleBefore(json, log, n)
              && FatalBefore(log', n) == FatalBefore(log, n)
  {
    assert forall i | 0 <= i < |log| :: (log + [c])[i] == log[i];
  }

  lemma PrefixJudgesTheSame(json: bool, log: Log, c: Input, visible: bool)
    ensures var log' := log + [c];
            forall i | 0 <= i < |log| :: IsHideable(json, log', i, visible) == IsHideable(json, log, i, visible)
    ensures var log' := log + [c];
            forall i | 0 <= i < |log| :: Breaks(json, log', i) == Breaks(json, log, i)
  {
    PrefixMeansTheSame(json, log, c);
  }

  lemma OutputAfter(json: bool, log: Log, c: Input)
    ensures var log' := log + [c];
            && SubstantiveBefore(json, log', |log'|) == (SubstantiveBefore(json, log, |log|) || IsSubstantive(json, c))
            && VisibleBefore(json, log', |log'|) == (VisibleBefore(json, log, |log|) || IsVisible(json, c))
            && FatalBefore(log', |log'|) == (FatalBefore(log, |log|) || IsFatal(c))
  {
    var log' := log + [c];
    assert log'[|log|] == c;
    assert forall i | 0 <= i < |log| :: log'[i] == log[i];
  }

  lemma LastHideableAfter(json: bool, log: Log, c: Input, visible: bool, m: Option<string>)
    requires IsLastHideable(json, log, visible, m)
    ensures var log' := log + [c];
            IsLastHideable(json, log', visible, if IsHideable(json, log', |log|, visible) then Some(c.message) else m)
  {
    PrefixJudgesTheSame(json, log, c, visible);
    var log' := log + [c];
    assert forall i | 0 <= i < |log| :: log'[i] == log[i];
    if IsHideable(json, log', |log|, visible) {
      assert log'[|log|].message == c.message;
    } else if m.Some? {
      var i :| 0 <= i < |log| && IsHideable(json, log, i, visible) && log[i].message == m.value
               && forall j | i < j < |log| :: !IsHideable(json, log, j, visible);
      assert IsHideable(json, log', i, visible) && log'[i].message == m.value;
    }
  }

  lemma FirstFatalAfter(log: Log, c: Input, m: Option<string>)
    requires IsFirstFatal(log, m)
    ensures IsFirstFatal(log + [c], if m.None? && IsFatal(c) then Some(c.message) else m)
  {
    var log' := log + [c];
    PrefixMeansTheSame(false, log, c);
    OutputAfter(false, log, c);
    assert forall i | 0 <= i < |log| :: log'[i] == log[i];
    if m.None? {
      if IsFatal(c) { assert log'[|log|] == c; }
    } else {
      var i :| 0 <= i < |log| && IsFatal(log[i]) && log[i].message == m.value && !FatalBefore(log, i);
      assert IsFatal(log'[i]) && log'[i].message == m.value && !FatalBefore(log', i);
    }
  }

  lemma ErroredAfter(json: bool, log: Log, c: Input)
    ensures IsErrored(json, log + [c]) == (IsErrored(json, log) || Breaks(json, log + [c], |log|))
  {
    PrefixJudgesTheSame(json, log, c, false);
  }

  /** How one input changes the classification; `substantive` and `visible` are the flags before it. */
  function After(json: bool, c: Input, e: Errors): Errors {
    var transient := IsTransient(c) && e.nonRetryable.None?;
    Errors(
      e.substantive || IsSubstantive(json, c),
      e.visible || IsVisible(json, c),
      e.errored || IsFatal(c) || (transient && e.substantive),
      if c.PreoutputFailure? || (transient && !e.substantive) then Some(c.message) else e.beforeOutput,
      if c.PreoutputFailure? || (transient && !e.visible) then Some(c.message) else e.beforeVisibleOutput,
      if e.nonRetryable.None? && IsFatal(c) then Some(c.message) else e.nonRetryable)
  }

  lemma FatalKnown(log: Log, m: Option<string>)
    requires IsFirstFatal(log, m)
    ensures m.Some? <==> FatalBefore(log, |log|)
  {
  }

  /** The incremental step keeps the classification of the whole list. */
  lemma AfterClassifies(json: bool, log: Log, c: Input, e: Errors)
    requires Classifies(json, log, e)
    ensures Classifies(json, log + [c], After(json, c, e))
  {
    assert (log + [c])[|log|] == c;
    PrefixMeansTheSame(json, log, c);
    OutputAfter(json, log, c);
    FatalKnown(log, e.nonRetryable);
    LastHideableAfter(json, log, c, false, e.beforeOutput);
    LastHideableAfter(json, log, c, true, e.beforeVisibleOutput);
    FirstFatalAfter(log, c, e.nonRetryable);
    ErroredAfter(json, log, c);
  }

  /** The classification of a list of inputs is unique, so the outcome is a function of the list. */
  lemma ClassificationIsUnique(json: bool, log: Log, e: Errors, f: Errors)
    requires Classifies(json, log, e) && Classifies(json, log, f)
    ensures e == f
  {
    LastHideableUnique(json, log, false, e.beforeOutput, f.beforeOutput);
    LastHideableUnique(json, log, true, e.beforeVisibleOutput, f.beforeVisibleOutput);
    FirstFatalUnique(log, e.nonRetryable, f.nonRetryable);
  }

  lemma LastHideableUnique(json: bool, log: Log, visible: bool, m: Option<string>, m': Option<string>)
    requires IsLastHideable(json, log, visible, m) && IsLastHideable(json, log, visible, m')
    ensures m == m'
  {
  }

  lemma FirstFatalUnique(log: Log, m: Option<string>, m': Option<string>)
    requires IsFirstFatal(log, m) && IsFirstFatal(log, m')
    ensures m == m'
  {
  }

  /** Visible output is substantive output, at every point of the stream. */
  lemma VisibleIsSubstantive(json: bool, log: Log, n: nat)
    requires n <= |log| && VisibleBefore(json, log, n)
    ensures SubstantiveBefore(json, log, n)
  {
    var i :| 0 <= i < n && IsVisible(json, log[i]);
    assert IsSubstantive(json, log[i]);
  }

  // ---- tool calls

  function OrEmpty(s: Option<string>): string { if s.Some? then s.value else "" }

  /** A delta with neither a name nor arguments is skipped. */
  predicate IsAccepted(c: Input) {
    c.ToolCalls? && !(OrEmpty(c.call.name) == "" && OrEmpty(c.call.arguments) == "")
  }

  function Key(c: Input): string
    requires c.ToolCalls?
  {
    var key := if c.call.callId.Some? then c.call.callId.value else OrEmpty(c.call.functionId);
    if key == "" then c.freshKey else key
  }

  /** The accepted deltas of one call, in arrival order. */
  function Fragments(log: Log, key: string): (r: seq<ToolCall>) {
    if log == [] then [] else
    var last := log[|log| - 1];
    Fragments(log[..|log| - 1], key) + if IsAccepted(last) && Key(last) == key then [last.call] else []
  }

  /** A later delta appends its arguments and overrides the name and call id it carries. */
  function MergeCall(existing: ToolCall, delta: ToolCall): ToolCall {
    existing.(
      arguments := if OrEmpty(delta.arguments) == "" then existing.arguments
                   else Some(OrEmpty(existing.arguments) + delta.arguments.value),
      name := if delta.name.Some? then delta.name else existing.name,
      callId := if delta.callId.Some? then delta.callId else existing.callId)
  }

  function Assemble(fragments: seq<ToolCall>): ToolCall
    requires fragments != []
  {
    var n := |fragments| - 1;
    if n == 0 then fragments[0] else MergeCall(Assemble(fragments[..n]), fragments[n])
  }

  function JoinedArguments(fragments: seq<ToolCall>): string {
    if fragments == [] then ""
    else JoinedArguments(fragments[..|fragments| - 1]) + OrEmpty(fragments[|fragments| - 1].arguments)
  }

  /** The keys in order of their first accepted delta. */
  function Order(log: Log): (r: seq<string>) {
    if log == [] then [] else
    var init := Order(log[..|log| - 1]);
    var last := log[|log| - 1];
    if IsAccepted(last) && Key(last) !in init then init + [Key(last)] else init
  }

  function Calls(log: Log): map<string, ToolCall> {
    map k | k in Order(log) && Fragments(log, k) != [] :: Assemble(Fragments(log, k))
  }

  lemma {:induction false} OrderIsKeySet(log: Log, k: string)
    ensures k in Order(log) <==> Fragments(log, k) != []
  {
    if log != [] { OrderIsKeySet(log[..|log| - 1], k); }
  }

  lemma {:induction false} OrderIsDistinct(log: Log)
    ensures forall i, j | 0 <= i < j < |Order(log)| :: Order(log)[i] != Order(log)[j]
  {
    if log != [] { OrderIsDistinct(log[..|log| - 1]); }
  }

  /** A call that precedes another in the order had its first delta when the other had none. */
  lemma {:induction false} OrderIsArrival(log: Log, i: nat, j: nat)
    requires i < j < |Order(log)|
    ensures exists n :: 0 <= n <= |log| && Fragments(log[..n], Order(log)[i]) != [] && Fragments(log[..n], Order(log)[j]) == []
  {
    var log' := log[..|log| - 1];
    if j < |Order(log')| {
      OrderIsArrival(log', i, j);
      var n :| 0 <= n <= |log'| && Fragments(log'[..n], Order(log')[i]) != [] && Fragments(log'[..n], Order(log')[j]) == [];
      assert log[..n] == log'[..n];
      assert Order(log)[i] == Order(log')[i] && Order(log)[j] == Order(log')[j];
    } else {
      OrderIsKeySet(log', Order(log)[i]);
      OrderIsKeySet(log', Order(log)[j]);
      assert Order(log)[i] == Order(log')[i] && Order(log)[j] !in Order(log');
      assert log' == log[..|log| - 1];
    }
  }

  /** The assembled arguments are the concatenation of the fragments in arrival order. */
  lemma {:induction false} ArgumentsAreConcatenated(fragments: seq<ToolCall>)
    requires fragments != []
    ensures OrEmpty(Assemble(fragments).arguments) == JoinedArguments(fragments)
  {
    var n := |fragments| - 1;
    if n == 0 {
      assert JoinedArguments(fragments[..0]) == "" && "" + OrEmpty(fragments[0].arguments) == OrEmpty(fragments[0].arguments);
    } else {
      ArgumentsAreConcatenated(fragments[..n]);
      if OrEmpty(fragments[n].arguments) == "" {
        assert JoinedArguments(fragments[..n]) + "" == JoinedArguments(fragments[..n]);
      }
    }
  }

  /** Any reinterleaving that keeps each call's deltas in order yields the same calls. */
  lemma ReinterleavingKeepsCalls(a: Log, b: Log)
    requires forall k :: Fragments(a, k) == Fragments(b, k)
    ensures Calls(a) == Calls(b)
  {
    forall k ensures k in Calls(a) <==> k in Calls(b) {
      OrderIsKeySet(a, k);
      OrderIsKeySet(b, k);
    }
  }

  /** In particular, adjacent inputs that do not feed the same call may be swapped. */
  lemma SwapKeepsCalls(a: Log, c: Input, d: Input, b: Log)
    requires !(IsAccepted(c) && IsAccepted(d) && Key(c) == Key(d))
    ensures Calls(a + [c, d] + b) == Calls(a + [d, c] + b)
  {
    forall k ensures Fragments(a + [c, d] + b, k) == Fragments(a + [d, c] + b, k) {
      SwapKeepsFragments(a, c, d, b, k);
    }
    ReinterleavingKeepsCalls(a + [c, d] + b, a + [d, c] + b);
  }

  lemma FragmentsPush(log: Log, c: Input, k: string)
    ensures Fragments(log + [c], k) == Fragments(log, k) + if IsAccepted(c) && Key(c) == k then [c.call] else []
  {
    assert (log + [c])[..|log|] == log;
  }

  lemma FragmentsLast(a: Log, b: Log, k: string)
    requires b != []
    ensures var init, c := b[..|b| - 1], b[|b| - 1];
            Fragments(a + b, k) == Fragments(a + init, k) + if IsAccepted(c) && Key(c) == k then [c.call] else []
  {
    var n := |b| - 1;
    assert a + b == (a + b[..n]) + [b[n]];
    FragmentsPush(a + b[..n], b[n], k);
  }

  lemma {:induction false} SwapKeepsFragments(a: Log, c: Input, d: Input, b: Log, k: string)
    requires !(IsAccepted(c) && IsAccepted(d) && Key(c) == Key(d))
    ensures Fragments(a + [c, d] + b, k) == Fragments(a + [d, c] + b, k)
    decreases |b|
  {
    if b == [] {
      assert a + [c, d] + b == a + [c] + [d] && a + [d, c] + b == a + [d] + [c];
      FragmentsPush(a, c, k);
      FragmentsPush(a + [c], d, k);
      FragmentsPush(a, d, k);
      FragmentsPush(a + [d], c, k);
    } else {
      SwapKeepsFragments(a, c, d, b[..|b| - 1], k);
      FragmentsLast(a + [c, d], b, k);
      FragmentsLast(a + [d, c], b, k);
    }
  }

  lemma OrderPush(log: Log, c: Input)
    ensures Order(log + [c]) == if IsAccepted(c) && Key(c) !in Order(log) then Order(log) + [Key(c)] else Order(log)
  {
    assert (log + [c])[..|log|] == log;
  }

  lemma CallsAt(log: Log, k: string)
    ensures k in Calls(log) <==> Fragments(log, k) != []
    ensures k in Calls(log) ==> Calls(log)[k] == Assemble(Fragments(log, k))
  {
    OrderIsKeySet(log, k);
  }

  function CallsAfter(calls: map<string, ToolCall>, c: Input): map<string, ToolCall> {
    if !IsAccepted(c) then calls
    else if Key(c) in calls then calls[Key(c) := MergeCall(calls[Key(c)], c.call)]
    else calls[Key(c) := c.call]
  }

  lemma CallsPushAt(log: Log, c: Input, k: string)
    ensures k in Calls(log + [c]) <==> k in CallsAfter(Calls(log), c)
    ensures k in Calls(log + [c]) ==> Calls(log + [c])[k] == CallsAfter(Calls(log), c)[k]
  {
    CallsAt(log + [c], k);
    CallsAt(log, k);
    FragmentsPush(log, c, k);
    var f := Fragments(log, k);
    if IsAccepted(c) && Key(c) == k {
      if f != [] { assert (f + [c.call])[..|f|] == f; } else { assert f + [c.call] == [c.call]; }
    } else {
      assert f + [] == f;
    }
  }

  /** How one input changes the calls. */
  lemma CallsPush(log: Log, c: Input)
    ensures Calls(log + [c]) == CallsAfter(Calls(log), c)
  {
    forall k ensures k in Calls(log + [c]) <==> k in CallsAfter(Calls(log), c) { CallsPushAt(log, c, k); }
    forall k | k in Calls(log + [c]) ensures Calls(log + [c])[k] == CallsAfter(Calls(log), c)[k] { CallsPushAt(log, c, k); }
  }

  // ---- what an assembled call holds

  /** The input at `i` is a delta of call `k` with a name or arguments; one without ids is a call of
      its own. */
  ghost predicate Feeds(log: Log, i: nat, k: string) {
    && i < |log| && log[i].ToolCalls?
    && var c := log[i].call;
       && (c.name !in {None, Some("")} || c.arguments !in {None, Some("")})
       && k == match c.callId
               case Some(id) => if id == "" then log[i].freshKey else id
               case None => if c.functionId in {None, Some("")} then log[i].freshKey else c.functionId.value
  }

  ghost predicate IsFirstDelta(log: Log, i: nat, k: string) {
    Feeds(log, i, k) && forall j: nat | j < i :: !Feeds(log, j, k)
  }

  /** The value is that of the last delta of the call that gives one. */
  ghost predicate IsLastGiven(log: Log, k: string, field: ToolCall -> Option<string>, v: Option<string>) {
    match v
    case None => forall i: nat | Feeds(log, i, k) :: field(log[i].call).None?
    case Some(_) =>
      exists i: nat :: && Feeds(log, i, k) && field(log[i].call) == v
                       && forall j: nat | j > i && Feeds(log, j, k) :: field(log[j].call).None?
  }

  /** The name and the call id are the last ones given, the function id and the signature those of the
      first delta, and there are arguments unless the first delta has none and no later one has text. */
  ghost predicate IsCall(log: Log, k: string, c: ToolCall) {
    && IsLastGiven(log, k, (d: ToolCall) => d.name, c.name)
    && IsLastGiven(log, k, (d: ToolCall) => d.callId, c.callId)
    && exists i: nat :: StartedAt(log, i, k, c)
  }

  /** Delta `i` is the first one of the call and gives it its function id and signature. */
  ghost predicate StartedAt(log: Log, i: nat, k: string, c: ToolCall) {
    && IsFirstDelta(log, i, k)
    && c.functionId == log[i].call.functionId && c.signature == log[i].call.signature
    && (c.arguments.None? <==>
          log[i].call.arguments.None? && forall j: nat | j > i && Feeds(log, j, k) :: log[j].call.arguments in {None, Some("")})
  }

  lemma FeedsIff(log: Log, i: nat, k: string)
    requires i < |log|
    ensures Feeds(log, i, k) <==> IsAccepted(log[i]) && Key(log[i]) == k
  {
  }

  lemma FeedsBefore(log: Log, x: Input, k: string)
    ensures forall i: nat | i < |log| :: Feeds(log + [x], i, k) == Feeds(log, i, k) && (log + [x])[i] == log[i]
    ensures (log + [x])[|log|] == x
    ensures forall i: nat | Feeds(log + [x], i, k) :: i <= |log|
  {
  }

  lemma LastGivenAfter(log: Log, x: Input, k: string, field: ToolCall -> Option<string>, v: Option<string>)
    requires IsLastGiven(log, k, field, v)
    ensures IsLastGiven(log + [x], k, field, if Feeds(log + [x], |log|, k) && field(x.call).Some? then field(x.call) else v)
  {
    FeedsBefore(log, x, k);
    if Feeds(log + [x], |log|, k) && field(x.call).Some? {
      assert Feeds(log + [x], |log|, k);
    } else if v.Some? {
      var i: nat :| Feeds(log, i, k) && field(log[i].call) == v && forall j: nat | j > i && Feeds(log, j, k) :: field(log[j].call).None?;
      assert Feeds(log + [x], i, k);
    }
  }

  lemma OnlyDelta(log: Log, x: Input, k: string, field: ToolCall -> Option<string>)
    requires Feeds(log + [x], |log|, k) && forall i: nat | i < |log| :: !Feeds(log, i, k)
    ensures IsFirstDelta(log + [x], |log|, k) && IsLastGiven(log + [x], k, field, field(x.call))
  {
    FeedsBefore(log, x, k);
  }

  lemma CallAfterFirst(log: Log, x: Input, k: string)
    requires Feeds(log + [x], |log|, k) && forall i: nat | i < |log| :: !Feeds(log, i, k)
    ensures IsCall(log + [x], k, x.call)
  {
    FeedsBefore(log, x, k);
    OnlyDelta(log, x, k, (d: ToolCall) => d.name);
    OnlyDelta(log, x, k, (d: ToolCall) => d.callId);
    assert StartedAt(log + [x], |log|, k, x.call);
  }

  lemma CallAfterMerge(log: Log, x: Input, k: string, c: ToolCall)
    requires Feeds(log + [x], |log|, k) && IsCall(log, k, c)
    ensures IsCall(log + [x], k, MergeCall(c, x.call))
  {
    FeedsBefore(log, x, k);
    LastGivenAfter(log, x, k, (d: ToolCall) => d.name, c.name);
    LastGivenAfter(log, x, k, (d: ToolCall) => d.callId, c.callId);
    var i: nat :| StartedAt(log, i, k, c);
    StartedAfterMerge(log, x, k, c, i);
  }

  lemma StartedAfterMerge(log: Log, x: Input, k: string, c: ToolCall, i: nat)
    requires Feeds(log + [x], |log|, k) && StartedAt(log, i, k, c)
    ensures StartedAt(log + [x], i, k, MergeCall(c, x.call))
  {
    FeedsBefore(log, x, k);
  }

  lemma StartedAfterOther(log: Log, x: Input, k: string, c: ToolCall, i: nat)
    requires !Feeds(log + [x], |log|, k) && StartedAt(log, i, k, c)
    ensures StartedAt(log + [x], i, k, c)
  {
    FeedsBefore(log, x, k);
  }

  lemma CallAfterOther(log: Log, x: Input, k: string, c: ToolCall)
    requires !Feeds(log + [x], |log|, k) && IsCall(log, k, c)
    ensures IsCall(log + [x], k, c)
  {
    FeedsBefore(log, x, k);
    LastGivenAfter(log, x, k, (d: ToolCall) => d.name, c.name);
    LastGivenAfter(log, x, k, (d: ToolCall) => d.callId, c.callId);
    var i: nat :| StartedAt(log, i, k, c);
    StartedAfterOther(log, x, k, c, i);
  }

  /** There is a call for exactly the keys that some delta feeds, and it holds what those deltas give. */
  lemma {:induction false} CallsHold(log: Log, k: string)
    ensures k in Calls(log) <==> exists i: nat :: Feeds(log, i, k)
    ensures k in Calls(log) ==> IsCall(log, k, Calls(log)[k])
    decreases |log|
  {
    if log != [] {
      var n := |log| - 1;
      var init, x := log[..n], log[n];
      assert log == init + [x];
      CallsHold(init, k);
      CallsPush(init, x);
      FeedsIff(log, n, k);
      FeedsBefore(init, x, k);
      if k in Calls(init) {
        if Feeds(log, n, k) { CallAfterMerge(init, x, k, Calls(init)[k]); } else { CallAfterOther(init, x, k, Calls(init)[k]); }
      } else if Feeds(log, n, k) {
        CallAfterFirst(init, x, k);
      }
    }
  }

  /** The texts of a call's arguments, one after the other in arrival order. */
  ghost function JoinedDeltas(log: Log, k: string): string {
    if log == [] then "" else
    var n := |log| - 1;
    JoinedDeltas(log[..n], k) + if Feeds(log, n, k) && log[n].call.arguments.Some? then log[n].call.arguments.value else ""
  }

  lemma {:induction false} DeltasAreFragments(log: Log, k: string)
    ensures JoinedDeltas(log, k) == JoinedArguments(Fragments(log, k))
  {
    if log != [] {
      var n := |log| - 1;
      DeltasAreFragments(log[..n], k);
      FeedsIff(log, n, k);
      var f := Fragments(log[..n], k);
      if Feeds(log, n, k) {
        assert (f + [log[n].call])[..|f|] == f;
      } else {
        assert f + [] == f && JoinedDeltas(log[..n], k) + "" == JoinedDeltas(log[..n], k);
      }
    }
  }

  /** Its arguments are exactly that text. */
  lemma ArgumentsHold(log: Log, k: string)
    requires k in Calls(log)
    ensures (if Calls(log)[k].arguments.Some? then Calls(log)[k].arguments.value else "") == JoinedDeltas(log, k)
  {
    CallsAt(log, k);
    DeltasAreFragments(log, k);
    ArgumentsAreConcatenated(Fragments(log, k));
  }

  // ---- usage

  /** A chunk that only says "no data" is not a measurement. */
  predicate IsMeasurement(u: UsageChunk) {
    !(u.inputTokens == 0 && u.outputTokens == 0 && u.cacheWriteTokens == Some(0) && u.cacheReadTokens.None?
      && u.reasoningTokens.None? && u.totalCost.None? && u.id.None?)
  }

  datatype UsageInfo = UsageInfo(tokensIn: nat, tokensOut: nat, cacheWrites: Option<nat>, cacheReads: Option<nat>,
                                 reasoningTokens: Option<nat>, cost: Option<real>)

  function Positive(n: nat): Option<nat> { if n > 0 then Some(n) else None }

  /** `v` is the last value that `field` has on a measurement of the log. */
  ghost predicate IsLatest<T>(log: Log, field: UsageChunk -> Option<T>, v: Option<T>) {
    match v
    case None => forall i | 0 <= i < |log| && log[i].Usage? && IsMeasurement(log[i].usage) :: field(log[i].usage).None?
    case Some(_) =>
      exists i :: && 0 <= i < |log| && log[i].Usage? && IsMeasurement(log[i].usage) && field(log[i].usage) == v
                  && forall j | i < j < |log| && log[j].Usage? && IsMeasurement(log[j].usage) :: field(log[j].usage).None?
  }

  lemma LatestAfter<T>(log: Log, c: Input, field: UsageChunk -> Option<T>, v: Option<T>)
    requires IsLatest(log, field, v)
    ensures IsLatest(log + [c], field,
                     if c.Usage? && IsMeasurement(c.usage) && field(c.usage).Some? then field(c.usage) else v)
  {
    var log' := log + [c];
    assert log'[|log|] == c && forall i | 0 <= i < |log| :: log'[i] == log[i];
    if c.Usage? && IsMeasurement(c.usage) && field(c.usage).Some? {
      assert field(log'[|log|].usage) == field(c.usage);
    } else if v.Some? {
      var i :| 0 <= i < |log| && log[i].Usage? && IsMeasurement(log[i].usage) && field(log[i].usage) == v
               && forall j | i < j < |log| && log[j].Usage? && IsMeasurement(log[j].usage) :: field(log[j].usage).None?;
      assert field(log'[i].usage) == v;
    }
  }

  /** Each figure is the last one that was actually reported. */
  ghost predicate ReportsUsage(log: Log, info: Option<UsageInfo>) {
    && (info.Some? <==> exists i :: 0 <= i < |log| && log[i].Usage? && IsMeasurement(log[i].usage))
    && var u := if info.Some? then info.value else UsageInfo(0, 0, None, None, None, None);
       && IsLatest(log, (c: UsageChunk) => Positive(c.inputTokens), Positive(u.tokensIn))
       && IsLatest(log, (c: UsageChunk) => Positive(c.outputTokens), Positive(u.tokensOut))
       && IsLatest(log, (c: UsageChunk) => c.cacheWriteTokens, u.cacheWrites)
       && IsLatest(log, (c: UsageChunk) => c.cacheReadTokens, u.cacheReads)
       && IsLatest(log, (c: UsageChunk) => c.reasoningTokens, u.reasoningTokens)
       && IsLatest(log, (c: UsageChunk) => c.totalCost, u.cost)
  }

  function OrElse<T>(a: Option<T>, b: Option<T>): Option<T> { if a.Some? then a else b }

  function UsageAfter(info: Option<UsageInfo>, c: Input): Option<UsageInfo> {
    if !c.Usage? || !IsMeasurement(c.usage) then info else
    var p := if info.Some? then info.value else UsageInfo(0, 0, None, None, None, None);
    var u := c.usage;
    Some(UsageInfo(
      if u.inputTokens > 0 then u.inputTokens else p.tokensIn,
      if u.outputTokens > 0 then u.outputTokens else p.tokensOut,
      OrElse(u.cacheWriteTokens, p.cacheWrites),
      OrElse(u.cacheReadTokens, p.cacheReads),
      OrElse(u.reasoningTokens, p.reasoningTokens),
      OrElse(u.totalCost, p.cost)))
  }

  lemma UsageAfterReports(log: Log, info: Option<UsageInfo>, c: Input)
    requires ReportsUsage(log, info)
    ensures ReportsUsage(log + [c], UsageAfter(info, c))
  {
    var log' := log + [c];
    var u := if info.Some? then info.value else UsageInfo(0, 0, None, None, None, None);
    LatestAfter(log, c, (c: UsageChunk) => Positive(c.inputTokens), Positive(u.tokensIn));
    LatestAfter(log, c, (c: UsageChunk) => Positive(c.outputTokens), Positive(u.tokensOut));
    LatestAfter(log, c, (c: UsageChunk) => c.cacheWriteTokens, u.cacheWrites);
    LatestAfter(log, c, (c: UsageChunk) => c.cacheReadTokens, u.cacheReads);
    LatestAfter(log, c, (c: UsageChunk) => c.reasoningTokens, u.reasoningTokens);
    LatestAfter(log, c, (c: UsageChunk) => c.totalCost, u.cost);
    assert log'[|log|] == c && forall i | 0 <= i < |log| :: log'[i] == log[i];
  }
}
