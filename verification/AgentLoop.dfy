/**
  The agent's conversation with a model (Run and complete in
  internal/agent/agent.go).  The provider, the tools, cancellation and the test
  for a tool call written out as prose are functions of the step.
*/
module AgentLoop {
  import opened Wrappers
  import Positions
  import Strings

  // ---- messages ---------------------------------------------------------------------

  datatype Role = User | Assistant

  datatype Part =
    | Prose(text: string)
    | Thinking(text: string)
    | ToolUse(id: string, name: string, input: string)
    | ToolResult(id: string, result: string, isError: bool)

  datatype Message = Message(role: Role, parts: seq<Part>)

  function Text(parts: seq<Part>): string {
    if parts == [] then ""
    else
      var before := Text(parts[..|parts| - 1]);
      match parts[|parts| - 1]
      case Prose(text) => before + (if before == "" then "" else "\n") + text
      case _ => before
  }

  function LastThought(parts: seq<Part>): string {
    if parts == [] then ""
    else
      match parts[|parts| - 1]
      case Thinking(text) => if text != "" then text else LastThought(parts[..|parts| - 1])
      case _ => LastThought(parts[..|parts| - 1])
  }

  function ToolCalls(parts: seq<Part>): (calls: seq<Part>)
    ensures forall i :: 0 <= i < |calls| ==> calls[i].ToolUse?
  {
    if parts == [] then []
    else
      ToolCalls(parts[..|parts| - 1]) + (if parts[|parts| - 1].ToolUse? then [parts[|parts| - 1]] else [])
  }

  ghost function CallsIn(parts: seq<Part>): set<nat> { set i: nat | i < |parts| && parts[i].ToolUse? }

  /** Every tool use of a message, each as often as it occurs and in its order. */
  lemma {:induction false} ToolCallsAre(parts: seq<Part>) returns (at: seq<nat>)
    ensures Positions.Lists(at, CallsIn(parts)) && |at| == |ToolCalls(parts)|
    ensures forall k :: 0 <= k < |at| ==> at[k] < |parts| && ToolCalls(parts)[k] == parts[at[k]]
    decreases |parts|
  {
    at := [];
    if parts != [] {
      var n := |parts| - 1;
      at := ToolCallsAre(parts[..n]);
      assert CallsIn(parts) == CallsIn(parts[..n]) + (if parts[n].ToolUse? then {n} else {});
      if parts[n].ToolUse? {
        Positions.OneMoreListed(at, CallsIn(parts[..n]), n);
        at := at + [n];
      }
    }
  }

  ghost function ProseIn(parts: seq<Part>): set<nat> { set i: nat | i < |parts| && parts[i].Prose? }

  lemma LastProse(parts: seq<Part>)
    requires parts != []
    ensures var n := |parts| - 1; ProseIn(parts) == ProseIn(parts[..n]) + (if parts[n].Prose? then {n} else {})
  {
  }

  function TextsAt(parts: seq<Part>, at: seq<nat>): (texts: seq<string>)
    requires forall k :: 0 <= k < |at| ==> at[k] < |parts| && parts[at[k]].Prose?
    ensures |texts| == |at|
  {
    seq(|at|, k requires 0 <= k < |at| => parts[at[k]].text)
  }

  function DropBlank(texts: seq<string>): seq<string> {
    if texts != [] && texts[0] == "" then DropBlank(texts[1..]) else texts
  }

  /** The prose of a message, on lines of its own; blanks before the first are dropped. */
  lemma {:induction false} TextIsJoined(parts: seq<Part>) returns (at: seq<nat>)
    ensures Positions.Lists(at, ProseIn(parts))
    ensures forall k :: 0 <= k < |at| ==> at[k] < |parts| && parts[at[k]].Prose?
    ensures Text(parts) == Strings.Join(DropBlank(TextsAt(parts, at)), "\n")
    decreases |parts|
  {
    at := [];
    if parts != [] {
      var n := |parts| - 1;
      at := TextIsJoined(parts[..n]);
      LastProse(parts);
      assert TextsAt(parts, at) == TextsAt(parts[..n], at);
      if parts[n].Prose? {
        Positions.OneMoreListed(at, ProseIn(parts[..n]), n);
        OneMoreLine(TextsAt(parts, at), parts[n].text);
        assert TextsAt(parts, at + [n]) == TextsAt(parts, at) + [parts[n].text];
        at := at + [n];
      }
    }
  }

  lemma {:induction false} OneMoreLine(texts: seq<string>, text: string)
    ensures var before := Strings.Join(DropBlank(texts), "\n");
      Strings.Join(DropBlank(texts + [text]), "\n") == before + (if before == "" then "" else "\n") + text
    decreases |texts|
  {
    if texts != [] && texts[0] == "" {
      OneMoreLine(texts[1..], text);
      assert (texts + [text])[1..] == texts[1..] + [text];
    } else if texts != [] {
      JoinLast(texts, text);
      assert Strings.Join(texts, "\n") != "";
    } else {
      assert texts + [text] == [text] && [text][1..] == [];
    }
  }

  lemma {:induction false} JoinLast(texts: seq<string>, text: string)
    requires texts != []
    ensures Strings.Join(texts + [text], "\n") == Strings.Join(texts, "\n") + "\n" + text
    decreases |texts|
  {
    assert (texts + [text])[1..] == texts[1..] + [text];
    if |texts| > 1 {
      JoinLast(texts[1..], text);
    } else {
      assert texts[1..] + [text] == [text];
    }
  }

  ghost predicate Thought(parts: seq<Part>, i: nat) { i < |parts| && parts[i].Thinking? && parts[i].text != "" }

  /** The last thought that says anything. */
  lemma {:induction false} LastThoughtMeans(parts: seq<Part>)
    ensures if forall i: nat :: !Thought(parts, i) then LastThought(parts) == ""
            else exists i: nat :: Thought(parts, i) && LastThought(parts) == parts[i].text &&
                                  forall j: nat :: i < j ==> !Thought(parts, j)
    decreases |parts|
  {
    if parts != [] {
      var n := |parts| - 1;
      LastThoughtMeans(parts[..n]);
      assert forall i: nat :: i < n ==> (Thought(parts[..n], i) <==> Thought(parts, i));
      if Thought(parts, n) {
        assert forall j: nat :: n < j ==> !Thought(parts, j);
      }
    }
  }

  // ---- usage --------------------------------------------------------------------------

  datatype Usage = Usage(input: nat, output: nat, cacheRead: nat, cacheWrite: nat, reasoning: nat) {
    /** Reasoning tokens are recorded but not billed twice. */
    function Total(): nat { input + output + cacheRead + cacheWrite }

    function Plus(o: Usage): (u: Usage)
      ensures u.Total() == Total() + o.Total()
    {
      Usage(input + o.input, output + o.output, cacheRead + o.cacheRead, cacheWrite + o.cacheWrite,
            reasoning + o.reasoning)
    }
  }

  const NOTHING := Usage(0, 0, 0, 0, 0)

  /** Each token billed for counts once towards a budget, a reasoning token not at all. */
  lemma WhatCounts(u: Usage, n: nat)
    ensures u.(input := u.input + n).Total() == u.(output := u.output + n).Total() == u.Total() + n
    ensures u.(cacheRead := u.cacheRead + n).Total() == u.(cacheWrite := u.cacheWrite + n).Total() == u.Total() + n
    ensures u.(reasoning := n).Total() == u.Total() && NOTHING.Total() == 0
  {
  }

  // ---- the run's surroundings -----------------------------------------------------------

  datatype StopReason = EndTurn | AwaitsTools | MaxTokens | Refusal | OtherReason(name: string)

  datatype Response = Response(message: Message, stop: StopReason, usage: Usage)

  datatype Reply = Answer(response: Response) | Failure(why: string)

  datatype Outcome = Outcome(payload: string, isError: bool)

  datatype World = World(
    provider: (nat, seq<Message>) -> Reply,
    canceled: nat -> bool,
    written: string -> Option<string>,
    correction: string -> string,
    invoke: (nat, nat, string, string) -> Outcome)

  datatype Options = Options(maxSteps: int, tokenBudget: int)

  const DEFAULT_MAX_STEPS := 40

  function Limit(o: Options): nat { if o.maxSteps <= 0 then DEFAULT_MAX_STEPS else o.maxSteps }

  // ---- the trace -------------------------------------------------------------------------

  datatype TraceCall = TraceCall(tool: string, arguments: string, result: string, isError: bool)

  datatype Step = Step(
    n: nat, text: string, thinking: string, stop: StopReason, usage: Usage, correction: Option<string>, calls: seq<TraceCall>)

  datatype Stopped = ModelFinished | Refused | Canceled | StepBudget | TokenBudget | ProviderError(why: string)

  datatype Trace = Trace(steps: seq<Step>, usage: Usage, stopped: Stopped)

  function Spent(steps: seq<Step>): Usage {
    if steps == [] then NOTHING else Spent(steps[..|steps| - 1]).Plus(steps[|steps| - 1].usage)
  }

  ghost predicate Corrected(steps: seq<Step>) { exists s :: s in steps && s.correction.Some? }

  // ---- what a run records ------------------------------------------------------------------

  predicate OverBudget(o: Options, spent: Usage) { o.tokenBudget > 0 && spent.Total() >= o.tokenBudget }

  predicate MayStart(w: World, o: Options, before: seq<Step>) {
    !w.canceled(|before| + 1) && |before| < Limit(o) && !OverBudget(o, Spent(before))
  }

  /** The step records an answer to exactly the conversation before it. */
  predicate Records(w: World, before: seq<Step>, said: seq<Message>, step: Step, answer: Message) {
    var reply := w.provider(|before| + 1, said);
    && reply.Answer? && reply.response.message == answer
    && step.n == |before| + 1 && step.text == Text(answer.parts) && step.thinking == LastThought(answer.parts)
    && step.stop == reply.response.stop && step.usage == reply.response.usage
  }

  /** One result for each call, in order, each the bytes the trace records. */
  ghost predicate CallsAnswered(w: World, n: nat, calls: seq<Part>, logged: seq<TraceCall>, results: seq<Part>)
    requires forall i :: 0 <= i < |calls| ==> calls[i].ToolUse?
  {
    && |logged| == |calls| && |results| == |calls|
    && forall i :: 0 <= i < |calls| ==> CallAnswered(w, n, i, calls[i], logged[i], results[i])
  }

  predicate CallAnswered(w: World, n: nat, i: nat, call: Part, logged: TraceCall, result: Part)
    requires call.ToolUse?
  {
    var out := w.invoke(n, i, call.name, call.input);
    && logged == TraceCall(call.name, call.input, out.payload, out.isError)
    && result == ToolResult(call.id, out.payload, out.isError)
  }

  ghost predicate Answered(w: World, before: seq<Step>, step: Step, answer: Message, next: Message) {
    var calls := ToolCalls(answer.parts);
    && next.role == User
    && (if calls == [] then
          && !Corrected(before) && w.written(step.text).Some? && step.calls == []
          && step.correction == Some(w.correction(w.written(step.text).value))
          && next.parts == [Prose(step.correction.value)]
        else
          step.correction == None && CallsAnswered(w, step.n, calls, step.calls, next.parts))
  }

  ghost predicate LastWord(w: World, before: seq<Step>, step: Step, answer: Message) {
    && ToolCalls(answer.parts) == [] && step.calls == [] && step.correction == None
    && (Corrected(before) || w.written(step.text).None?)
  }

  ghost predicate Turn(w: World, o: Options, steps: seq<Step>, messages: seq<Message>, k: nat)
    requires k < |steps| && 2 * k + 1 < |messages|
  {
    && MayStart(w, o, steps[..k])
    && Records(w, steps[..k], messages[..2 * k + 1], steps[k], messages[2 * k + 1])
    && if 2 * k + 2 < |messages| then Answered(w, steps[..k], steps[k], messages[2 * k + 1], messages[2 * k + 2])
       else LastWord(w, steps[..k], steps[k], messages[2 * k + 1])
  }

  function Opening(brief: string): Message { Message(User, [Prose(brief)]) }

  /** Every step so far is a turn, and the model has the floor. */
  ghost predicate Ongoing(w: World, o: Options, brief: string, steps: seq<Step>, messages: seq<Message>) {
    && |messages| == 2 * |steps| + 1 && messages[0] == Opening(brief)
    && forall k :: 0 <= k < |steps| ==> Turn(w, o, steps, messages, k)
  }

  /** The model said its last word in the last step. */
  ghost predicate Over(w: World, o: Options, brief: string, steps: seq<Step>, messages: seq<Message>) {
    && steps != [] && |messages| == 2 * |steps| && messages[0] == Opening(brief)
    && forall k :: 0 <= k < |steps| ==> Turn(w, o, steps, messages, k)
  }

  ghost predicate RunOf(w: World, o: Options, brief: string, trace: Trace, messages: seq<Message>) {
    var n := |trace.steps| + 1;
    && trace.usage == Spent(trace.steps)
    && match trace.stopped
       case ModelFinished => Over(w, o, brief, trace.steps, messages) && trace.steps[n - 2].stop != Refusal
       case Refused => Over(w, o, brief, trace.steps, messages) && trace.steps[n - 2].stop == Refusal
       case Canceled => Ongoing(w, o, brief, trace.steps, messages) && w.canceled(n)
       case StepBudget => Ongoing(w, o, brief, trace.steps, messages) && !w.canceled(n) && n > Limit(o)
       case TokenBudget =>
         && Ongoing(w, o, brief, trace.steps, messages) && !w.canceled(n) && n <= Limit(o) && OverBudget(o, trace.usage)
       case ProviderError(why) =>
         && Ongoing(w, o, brief, trace.steps, messages) && MayStart(w, o, trace.steps)
         && w.provider(n, messages) == Failure(why)
  }

  // ---- the loop ------------------------------------------------------------------------------

  /** The tool calls of one answer, each invoked and logged. */
  method InvokeAll(w: World, n: nat, calls: seq<Part>) returns (logged: seq<TraceCall>, results: seq<Part>)
    requires forall i :: 0 <= i < |calls| ==> calls[i].ToolUse?
    ensures CallsAnswered(w, n, calls, logged, results)
  {
    logged, results := [], [];
    for i := 0 to |calls|
      invariant |logged| == i && |results| == i
      invariant forall j :: 0 <= j < i ==> CallAnswered(w, n, j, calls[j], logged[j], results[j])
    {
      var call := calls[i];
      var out := w.invoke(n, i, call.name, call.input);
      logged := logged + [TraceCall(call.name, call.input, out.payload, out.isError)];
      results := results + [ToolResult(call.id, out.payload, out.isError)];
    }
  }

  /** Run, from the opening brief to the last word or the first budget reached. */
  method Run(w: World, o: Options, brief: string) returns (trace: Trace, messages: seq<Message>)
    ensures RunOf(w, o, brief, trace, messages)
  {
    var limit := Limit(o);
    messages := [Opening(brief)];
    var steps: seq<Step>, usage, corrected, step := [], NOTHING, false, 1;
    while true
      invariant step == |steps| + 1 && step <= limit + 1
      invariant usage == Spent(steps) && (corrected <==> Corrected(steps))
      invariant Ongoing(w, o, brief, steps, messages)
      decreases limit + 1 - step
    {
      if w.canceled(step) {
        return Trace(steps, usage, Canceled), messages;
      }
      if step > limit {
        return Trace(steps, usage, StepBudget), messages;
      }
      if o.tokenBudget > 0 && usage.Total() >= o.tokenBudget {
        return Trace(steps, usage, TokenBudget), messages;
      }
      var reply := w.provider(step, messages);
      if reply.Failure? {
        return Trace(steps, usage, ProviderError(reply.why)), messages;
      }
      var res := reply.response;
      ghost var before, said := steps, messages;
      usage := usage.Plus(res.usage);
      var entry := Step(step, Text(res.message.parts), LastThought(res.message.parts), res.stop, res.usage, None, []);
      messages := messages + [res.message];
      var calls := ToolCalls(res.message.parts);
      if calls == [] {
        var tool := w.written(entry.text);
        if tool.Some? && !corrected {
          corrected := true;
          entry := entry.(correction := Some(w.correction(tool.value)));
          steps := steps + [entry];
          messages := messages + [Message(User, [Prose(entry.correction.value)])];
          OneMoreTurn(w, o, brief, before, said, entry, [res.message, messages[|messages| - 1]]);
          assert messages == said + [res.message, messages[|messages| - 1]];
          OneMoreCorrected(before, entry);
          step := step + 1;
          continue;
        }
        steps := steps + [entry];
        LastTurn(w, o, brief, before, said, entry, res.message);
        return Trace(steps, usage, if res.stop == Refusal then Refused else ModelFinished), messages;
      }
      var logged, results := InvokeAll(w, step, calls);
      entry := entry.(calls := logged);
      steps := steps + [entry];
      messages := messages + [Message(User, results)];
      OneMoreTurn(w, o, brief, before, said, entry, [res.message, messages[|messages| - 1]]);
      assert messages == said + [res.message, messages[|messages| - 1]];
      OneMoreCorrected(before, entry);
      step := step + 1;
    }
  }

  /** A turn says nothing about what comes after it. */
  lemma TurnKept(w: World, o: Options, steps: seq<Step>, messages: seq<Message>, more: seq<Step>, said: seq<Message>, k: nat)
    requires k < |steps| && 2 * k + 2 < |messages| && Turn(w, o, steps, messages, k)
    ensures Turn(w, o, steps + more, messages + said, k)
  {
    assert (steps + more)[..k] == steps[..k];
    assert (messages + said)[..2 * k + 1] == messages[..2 * k + 1];
  }

  lemma TurnsKept(w: World, o: Options, brief: string, steps: seq<Step>, messages: seq<Message>, entry: Step, said: seq<Message>)
    requires Ongoing(w, o, brief, steps, messages) && said != []
    ensures forall k :: 0 <= k < |steps| ==> Turn(w, o, steps + [entry], messages + said, k)
  {
    forall k | 0 <= k < |steps| ensures Turn(w, o, steps + [entry], messages + said, k) {
      TurnKept(w, o, steps, messages, [entry], said, k);
    }
  }

  lemma OneMoreTurn(w: World, o: Options, brief: string, steps: seq<Step>, messages: seq<Message>, entry: Step, said: seq<Message>)
    requires Ongoing(w, o, brief, steps, messages) && |said| == 2
    requires MayStart(w, o, steps) && Records(w, steps, messages, entry, said[0])
    requires Answered(w, steps, entry, said[0], said[1])
    ensures Ongoing(w, o, brief, steps + [entry], messages + said)
    ensures Spent(steps + [entry]) == Spent(steps).Plus(entry.usage)
  {
    TurnsKept(w, o, brief, steps, messages, entry, said);
    assert (steps + [entry])[..|steps|] == steps;
    assert (messages + said)[..2 * |steps| + 1] == messages;
    assert Turn(w, o, steps + [entry], messages + said, |steps|);
  }

  lemma LastTurn(w: World, o: Options, brief: string, steps: seq<Step>, messages: seq<Message>, entry: Step, answer: Message)
    requires Ongoing(w, o, brief, steps, messages)
    requires MayStart(w, o, steps) && Records(w, steps, messages, entry, answer) && LastWord(w, steps, entry, answer)
    ensures Over(w, o, brief, steps + [entry], messages + [answer])
    ensures Spent(steps + [entry]) == Spent(steps).Plus(entry.usage)
  {
    TurnsKept(w, o, brief, steps, messages, entry, [answer]);
    assert (steps + [entry])[..|steps|] == steps;
    assert (messages + [answer])[..2 * |steps| + 1] == messages;
    assert Turn(w, o, steps + [entry], messages + [answer], |steps|);
  }

  lemma OneMoreCorrected(steps: seq<Step>, entry: Step)
    ensures Corrected(steps + [entry]) <==> Corrected(steps) || entry.correction.Some?
  {
    assert entry in steps + [entry];
    forall s | s in steps ensures s in steps + [entry] {
    }
  }

  // ---- what every run keeps --------------------------------------------------------------------

  lemma TurnsOf(w: World, o: Options, brief: string, trace: Trace, messages: seq<Message>, k: nat)
    requires RunOf(w, o, brief, trace, messages) && k < |trace.steps|
    ensures 2 * k + 1 < |messages| && Turn(w, o, trace.steps, messages, k)
  {
  }

  /** No more steps than the limit, numbered from one. */
  lemma WithinStepBudget(w: World, o: Options, brief: string, trace: Trace, messages: seq<Message>)
    requires RunOf(w, o, brief, trace, messages)
    ensures |trace.steps| <= Limit(o) && (trace.stopped == StepBudget ==> |trace.steps| == Limit(o))
    ensures Limit(o) == 40 || Limit(o) == o.maxSteps
    ensures o.maxSteps > 0 ==> |trace.steps| <= o.maxSteps
    ensures forall k :: 0 <= k < |trace.steps| ==> trace.steps[k].n == k + 1
  {
    forall k | 0 <= k < |trace.steps| ensures trace.steps[k].n == k + 1 && k < Limit(o) {
      TurnsOf(w, o, brief, trace, messages, k);
    }
    if trace.steps != [] {
      assert |trace.steps| - 1 < Limit(o) by {
        TurnsOf(w, o, brief, trace, messages, |trace.steps| - 1);
      }
    }
  }

  /** The model is corrected at most once. */
  lemma CorrectedAtMostOnce(w: World, o: Options, brief: string, trace: Trace, messages: seq<Message>, j: nat, k: nat)
    requires RunOf(w, o, brief, trace, messages)
    requires j < k < |trace.steps| && trace.steps[j].correction.Some?
    ensures trace.steps[k].correction.None?
  {
    TurnsOf(w, o, brief, trace, messages, k);
    assert trace.steps[j] in trace.steps[..k];
  }

  /** User and assistant take turns, the user first, when the provider answers as
      the assistant. */
  lemma Alternates(w: World, o: Options, brief: string, trace: Trace, messages: seq<Message>, i: nat)
    requires RunOf(w, o, brief, trace, messages) && i < |messages|
    requires forall n, said :: w.provider(n, said).Answer? ==> w.provider(n, said).response.message.role == Assistant
    ensures messages[i].role == (if i % 2 == 0 then User else Assistant)
  {
    var k := i / 2;
    if i == 2 * k + 1 {
      TurnRoles(w, o, brief, trace, messages, k);
    } else if i > 0 {
      TurnRoles(w, o, brief, trace, messages, k - 1);
    }
  }

  lemma TurnRoles(w: World, o: Options, brief: string, trace: Trace, messages: seq<Message>, k: nat)
    requires RunOf(w, o, brief, trace, messages) && k < |trace.steps|
    requires forall n, said :: w.provider(n, said).Answer? ==> w.provider(n, said).response.message.role == Assistant
    ensures 2 * k + 1 < |messages| && messages[2 * k + 1].role == Assistant
    ensures 2 * k + 2 < |messages| ==> messages[2 * k + 2].role == User
  {
    TurnsOf(w, o, brief, trace, messages, k);
    assert w.provider(k + 1, messages[..2 * k + 1]).response.message == messages[2 * k + 1];
  }

  /** An answer that uses tools is followed by their results and nothing else: for its
      i-th use the i-th result carries its id, and the step records the call and the
      same bytes. */
  lemma ToolTurnsAreAnswered(w: World, o: Options, brief: string, trace: Trace, messages: seq<Message>, k: nat)
    returns (at: seq<nat>)
    requires RunOf(w, o, brief, trace, messages) && k < |trace.steps|
    requires 2 * k + 1 < |messages| && exists p :: p in messages[2 * k + 1].parts && p.ToolUse?
    ensures Positions.Lists(at, CallsIn(messages[2 * k + 1].parts))
    ensures 2 * k + 2 < |messages| && messages[2 * k + 2].role == User
    ensures var uses, results, logged := messages[2 * k + 1].parts, messages[2 * k + 2].parts, trace.steps[k].calls;
      |results| == |at| && |logged| == |at| &&
      forall i :: 0 <= i < |at| ==>
        at[i] < |uses| && uses[at[i]].ToolUse? && results[i].ToolResult? && results[i].id == uses[at[i]].id &&
        logged[i] == TraceCall(uses[at[i]].name, uses[at[i]].input, results[i].result, results[i].isError)
  {
    TurnsOf(w, o, brief, trace, messages, k);
    var uses := messages[2 * k + 1].parts;
    SomeUseIsCalled(uses);
    at := ResultsFollow(w, trace.steps[k].n, uses, trace.steps[k].calls, messages[2 * k + 2].parts);
  }

  lemma SomeUseIsCalled(uses: seq<Part>)
    requires exists p :: p in uses && p.ToolUse?
    ensures ToolCalls(uses) != []
  {
    var at := ToolCallsAre(uses);
    var p :| p in uses && p.ToolUse?;
    var j :| 0 <= j < |uses| && uses[j] == p;
    assert j in at;
  }

  lemma ResultsFollow(w: World, n: nat, uses: seq<Part>, logged: seq<TraceCall>, results: seq<Part>) returns (at: seq<nat>)
    requires CallsAnswered(w, n, ToolCalls(uses), logged, results)
    ensures Positions.Lists(at, CallsIn(uses)) && |results| == |at| && |logged| == |at|
    ensures forall i :: 0 <= i < |at| ==>
      at[i] < |uses| && uses[at[i]].ToolUse? && results[i].ToolResult? && results[i].id == uses[at[i]].id &&
      logged[i] == TraceCall(uses[at[i]].name, uses[at[i]].input, results[i].result, results[i].isError)
  {
    at := ToolCallsAre(uses);
    forall i | 0 <= i < |at| ensures CallAnswered(w, n, i, uses[at[i]], logged[i], results[i]) {
      assert ToolCalls(uses)[i] == uses[at[i]];
    }
  }

  /** An answer that uses none is the last word, unless it is the one corrected. */
  lemma OtherTurnsEnd(w: World, o: Options, brief: string, trace: Trace, messages: seq<Message>, k: nat)
    requires RunOf(w, o, brief, trace, messages) && k < |trace.steps|
    requires 2 * k + 1 < |messages| && forall p :: p in messages[2 * k + 1].parts ==> !p.ToolUse?
    ensures trace.steps[k].calls == []
    ensures 2 * k + 2 < |messages| <==> trace.steps[k].correction.Some?
    ensures 2 * k + 2 < |messages| ==> messages[2 * k + 2] == Message(User, [Prose(trace.steps[k].correction.value)])
  {
    TurnsOf(w, o, brief, trace, messages, k);
    var at := ToolCallsAre(messages[2 * k + 1].parts);
    assert CallsIn(messages[2 * k + 1].parts) == {};
    Positions.ListedAll(at, {});
  }

  function SumOfTotals(steps: seq<Step>): nat {
    if steps == [] then 0 else SumOfTotals(steps[..|steps| - 1]) + steps[|steps| - 1].usage.Total()
  }

  lemma {:induction false} SpentIsTheSum(steps: seq<Step>)
    ensures Spent(steps).Total() == SumOfTotals(steps)
    decreases |steps|
  {
    if steps != [] {
      SpentIsTheSum(steps[..|steps| - 1]);
    }
  }

  /** A run stopped for its token budget has one, and has spent it. */
  lemma TokenBudgetIsSpent(w: World, o: Options, brief: string, trace: Trace, messages: seq<Message>)
    requires RunOf(w, o, brief, trace, messages) && trace.stopped == TokenBudget
    ensures 0 < o.tokenBudget <= trace.usage.Total() && trace.usage.Total() == SumOfTotals(trace.steps)
  {
    SpentIsTheSum(trace.steps);
  }

  /** What was spent is the sum over the recorded steps, and a run with a budget
      goes past it by less than its last answer cost, plus one. */
  lemma WithinTokenBudget(w: World, o: Options, brief: string, trace: Trace, messages: seq<Message>)
    requires RunOf(w, o, brief, trace, messages)
    ensures trace.usage.Total() == SumOfTotals(trace.steps)
    ensures o.tokenBudget > 0 && trace.steps != [] ==>
      trace.usage.Total() < o.tokenBudget + trace.steps[|trace.steps| - 1].usage.Total()
  {
    SpentIsTheSum(trace.steps);
    if o.tokenBudget > 0 && trace.steps != [] {
      var n := |trace.steps| - 1;
      StepWasTaken(w, o, brief, trace, messages, n);
      LastAnswerOverruns(o, trace.steps);
    }
  }

  lemma LastAnswerOverruns(o: Options, steps: seq<Step>)
    requires steps != [] && o.tokenBudget > 0 && !OverBudget(o, Spent(steps[..|steps| - 1]))
    ensures Spent(steps).Total() < o.tokenBudget + steps[|steps| - 1].usage.Total()
  {
    assert Spent(steps) == Spent(steps[..|steps| - 1]).Plus(steps[|steps| - 1].usage);
  }

  // ---- the contract leaves no choice ----------------------------------------------------------------

  lemma CallsAnsweredOneWay(w: World, n: nat, calls: seq<Part>, l1: seq<TraceCall>, r1: seq<Part>, l2: seq<TraceCall>, r2: seq<Part>)
    requires forall i :: 0 <= i < |calls| ==> calls[i].ToolUse?
    requires CallsAnswered(w, n, calls, l1, r1) && CallsAnswered(w, n, calls, l2, r2)
    ensures l1 == l2 && r1 == r2
  {
    forall i | 0 <= i < |calls| ensures l1[i] == l2[i] && r1[i] == r2[i] {
      assert CallAnswered(w, n, i, calls[i], l1[i], r1[i]) && CallAnswered(w, n, i, calls[i], l2[i], r2[i]);
    }
  }

  ghost predicate TurnsAgree(t1: Trace, m1: seq<Message>, t2: Trace, m2: seq<Message>, n: nat) {
    && n <= |t1.steps| && n <= |t2.steps| && t1.steps[..n] == t2.steps[..n]
    && 2 * n <= |m1| && 2 * n <= |m2|
    && (if 2 * n < |m1| then 2 * n < |m2| && m1[..2 * n + 1] == m2[..2 * n + 1] else m1 == m2)
  }

  /** Whether the model has the last word is settled by its answer. */
  lemma SameEnding(w: World, before: seq<Step>, s1: Step, s2: Step, answer: Message, next: Message)
    requires LastWord(w, before, s1, answer) && s1.text == s2.text
    ensures !Answered(w, before, s2, answer, next)
  {
  }

  lemma SameAnswer(w: World, before: seq<Step>, s1: Step, s2: Step, answer: Message, next1: Message, next2: Message)
    requires s1.n == s2.n && s1.text == s2.text
    requires Answered(w, before, s1, answer, next1) && Answered(w, before, s2, answer, next2)
    ensures s1.calls == s2.calls && s1.correction == s2.correction && next1 == next2
  {
    var calls := ToolCalls(answer.parts);
    if calls != [] {
      CallsAnsweredOneWay(w, s1.n, calls, s1.calls, next1.parts, s2.calls, next2.parts);
    }
  }

  lemma SameStep(w: World, o: Options, brief: string, t1: Trace, m1: seq<Message>, t2: Trace, m2: seq<Message>, k: nat)
    requires RunOf(w, o, brief, t1, m1) && RunOf(w, o, brief, t2, m2)
    requires k < |t1.steps| && k < |t2.steps| && TurnsAgree(t1, m1, t2, m2, k)
    ensures t1.steps[k] == t2.steps[k]
    ensures 2 * k + 1 < |m1| && 2 * k + 1 < |m2| && m1[2 * k + 1] == m2[2 * k + 1]
    ensures (2 * k + 2 < |m1| <==> 2 * k + 2 < |m2|)
    ensures 2 * k + 2 < |m1| ==> m1[2 * k + 2] == m2[2 * k + 2]
  {
    TurnsOf(w, o, brief, t1, m1, k);
    TurnsOf(w, o, brief, t2, m2, k);
    var before, s1, s2, answer := t1.steps[..k], t1.steps[k], t2.steps[k], m1[2 * k + 1];
    if 2 * k + 2 < |m1| && 2 * k + 2 < |m2| {
      SameAnswer(w, before, s1, s2, answer, m1[2 * k + 2], m2[2 * k + 2]);
    } else if 2 * k + 2 < |m1| {
      SameEnding(w, before, s2, s1, answer, m1[2 * k + 2]);
    } else if 2 * k + 2 < |m2| {
      SameEnding(w, before, s1, s2, answer, m2[2 * k + 2]);
    }
  }

  lemma SameTurn(w: World, o: Options, brief: string, t1: Trace, m1: seq<Message>, t2: Trace, m2: seq<Message>, k: nat)
    requires RunOf(w, o, brief, t1, m1) && RunOf(w, o, brief, t2, m2)
    requires k < |t1.steps| && k < |t2.steps| && TurnsAgree(t1, m1, t2, m2, k)
    ensures TurnsAgree(t1, m1, t2, m2, k + 1)
  {
    SameStep(w, o, brief, t1, m1, t2, m2, k);
    assert t1.steps[..k + 1] == t1.steps[..k] + [t1.steps[k]];
    assert t2.steps[..k + 1] == t2.steps[..k] + [t2.steps[k]];
    if 2 * k + 2 < |m1| {
      assert m1[..2 * k + 3] == m1[..2 * k + 1] + [m1[2 * k + 1], m1[2 * k + 2]];
      assert m2[..2 * k + 3] == m2[..2 * k + 1] + [m2[2 * k + 1], m2[2 * k + 2]];
    } else {
      assert m1 == m1[..2 * k + 1] + [m1[2 * k + 1]];
      assert m2 == m2[..2 * k + 1] + [m2[2 * k + 1]];
    }
  }

  lemma {:induction false} TurnsAgreeUpTo(w: World, o: Options, brief: string, t1: Trace, m1: seq<Message>,
                                         t2: Trace, m2: seq<Message>, n: nat)
    requires RunOf(w, o, brief, t1, m1) && RunOf(w, o, brief, t2, m2)
    requires n <= |t1.steps| && n <= |t2.steps|
    ensures TurnsAgree(t1, m1, t2, m2, n)
  {
    if n > 0 {
      TurnsAgreeUpTo(w, o, brief, t1, m1, t2, m2, n - 1);
      SameTurn(w, o, brief, t1, m1, t2, m2, n - 1);
    } else {
      assert m1[..1] == [Opening(brief)] && m2[..1] == [Opening(brief)];
    }
  }

  /** A run that stopped before the model's last word could not have gone on. */
  lemma StoppedForGood(w: World, o: Options, brief: string, t: Trace, m: seq<Message>)
    requires RunOf(w, o, brief, t, m)
    ensures 2 * |t.steps| <= |m| <= 2 * |t.steps| + 1
    ensures |m| == 2 * |t.steps| + 1 ==> !(MayStart(w, o, t.steps) && w.provider(|t.steps| + 1, m).Answer?)
  {
  }

  /** A recorded step was permitted and answered. */
  lemma StepWasTaken(w: World, o: Options, brief: string, t: Trace, m: seq<Message>, k: nat)
    requires RunOf(w, o, brief, t, m) && k < |t.steps|
    ensures 2 * k + 1 < |m| && MayStart(w, o, t.steps[..k]) && w.provider(k + 1, m[..2 * k + 1]).Answer?
  {
    TurnsOf(w, o, brief, t, m, k);
  }

  lemma AgreedToTheEnd(t1: Trace, m1: seq<Message>, t2: Trace, m2: seq<Message>, n: nat)
    requires n == |t1.steps| && 2 * n <= |m1| <= 2 * n + 1 && TurnsAgree(t1, m1, t2, m2, n)
    ensures t2.steps[..n] == t1.steps
    ensures if 2 * n < |m1| then 2 * n < |m2| && m2[..2 * n + 1] == m1 else m2 == m1
  {
    assert t1.steps[..n] == t1.steps;
    if 2 * n < |m1| {
      assert m1[..2 * n + 1] == m1;
    }
  }

  lemma NoFurtherTurn(w: World, o: Options, brief: string, t1: Trace, m1: seq<Message>, t2: Trace, m2: seq<Message>)
    requires RunOf(w, o, brief, t1, m1) && RunOf(w, o, brief, t2, m2)
    ensures |t1.steps| >= |t2.steps|
  {
    var n := |t1.steps|;
    StoppedForGood(w, o, brief, t1, m1);
    if n < |t2.steps| {
      TurnsAgreeUpTo(w, o, brief, t1, m1, t2, m2, n);
      AgreedToTheEnd(t1, m1, t2, m2, n);
      StepWasTaken(w, o, brief, t2, m2, n);
    }
  }

  /** The same surroundings give the same run: RunOf describes it completely. */
  lemma RunIsDetermined(w: World, o: Options, brief: string, t1: Trace, m1: seq<Message>, t2: Trace, m2: seq<Message>)
    requires RunOf(w, o, brief, t1, m1) && RunOf(w, o, brief, t2, m2)
    ensures t1 == t2 && m1 == m2
  {
    NoFurtherTurn(w, o, brief, t1, m1, t2, m2);
    NoFurtherTurn(w, o, brief, t2, m2, t1, m1);
    var n := |t1.steps|;
    TurnsAgreeUpTo(w, o, brief, t1, m1, t2, m2, n);
    assert t1.steps[..n] == t1.steps && t2.steps[..n] == t2.steps;
    assert 2 * n < |m1| ==> m1[..2 * n + 1] == m1 && m2[..2 * n + 1] == m2;
  }

  // ---- one model call ---------------------------------------------------------------------------------

  /** What one try at a model call came to: expired when the request's own deadline
      fired while the run itself was not canceled. */
  datatype Attempt =
    | Replied(response: Response)
    | Broke(expired: bool, retryable: bool, canceled: bool, canceledWaiting: bool)

  datatype Completion = Got(response: Response) | TimedOut | NotRetried | CanceledWaiting | GaveUp

  const MAX_RETRIES := 3

  predicate Transient(a: Attempt) { a.Broke? && !a.expired && a.retryable && !a.canceled && !a.canceledWaiting }

  /** How a call ends that is not tried again after its n-th attempt. */
  function Verdict(a: Attempt, n: nat): Completion {
    match a
    case Replied(response) => Got(response)
    case Broke(expired, retryable, canceled, waiting) =>
      if expired then TimedOut
      else if !retryable || canceled then NotRetried
      else if n < MAX_RETRIES then CanceledWaiting
      else GaveUp
  }

  /** What each way a call ends says of its last attempt. */
  predicate EndsAs(a: Attempt, n: nat, out: Completion) {
    match out
    case Got(response) => a == Replied(response)
    case TimedOut => a.Broke? && a.expired
    case NotRetried => a.Broke? && !a.expired && (!a.retryable || a.canceled)
    case CanceledWaiting => a.Broke? && !a.expired && a.retryable && !a.canceled && a.canceledWaiting && n < 3
    case GaveUp => a.Broke? && !a.expired && a.retryable && !a.canceled && n == 3
  }

  /** complete: every attempt before the last failed for the moment only, and the
      last one replied, failed for good, or was the third. */
  method Complete(attempts: nat -> Attempt) returns (out: Completion, tries: nat)
    ensures 1 <= tries <= MAX_RETRIES
    ensures forall n :: 1 <= n < tries ==> Transient(attempts(n))
    ensures Transient(attempts(tries)) ==> tries == MAX_RETRIES
    ensures out == Verdict(attempts(tries), tries)
    ensures EndsAs(attempts(tries), tries, out)
  {
    var attempt := 1;
    while attempt <= MAX_RETRIES
      invariant 1 <= attempt <= MAX_RETRIES
      invariant forall n :: 1 <= n < attempt ==> Transient(attempts(n))
      decreases MAX_RETRIES - attempt
    {
      var a := attempts(attempt);
      if a.Replied? {
        return Got(a.response), attempt;
      }
      if a.expired {
        return TimedOut, attempt;
      }
      if !a.retryable || a.canceled {
        return NotRetried, attempt;
      }
      if attempt == MAX_RETRIES {
        break;
      }
      if a.canceledWaiting {
        return CanceledWaiting, attempt;
      }
      attempt := attempt + 1;
    }
    return GaveUp, attempt;
  }
}
