/** The tool-calling chat loop (`chat_with_tools_loop`). The provider and the tool registry
    are parameters; each may answer differently every time it is called. */
module ToolLoop {
  import opened JsonScan
  import opened JsonValues
  import opened LenientCalls
  import opened PyText

  const FINDINGS_MAX := 6
  const SUMMARY_CHARS := 240

  /** The refusal of a tool's malformed arguments, which asks for valid JSON; or any other text. */
  datatype Warning = Malformed(tool: string) | Other(text: string)

  datatype ToolResult = ToolResult(ok: bool, status: string, data: Json, warnings: seq<Warning>)

  /** What the provider gives back: it crashes, it fails, or it takes a turn. */
  datatype Answer =
    | Crash
    | Failure(status: string)
    | Turn(status: string, model: string, reply: string, calls: seq<Json>)

  datatype Message =
    | Given(content: Json)
    | Assistant(reply: string, calls: seq<Json>)
    | ToolReply(result: ToolResult, callId: Option<Json>)

  /** One entry of `tool_calls_made`. */
  datatype Made = Made(tool: string, args: Option<Json>, repaired: bool, ok: bool, status: string)

  datatype Invocation = Invocation(tool: string, args: Json)

  datatype Finding = Finding(tool: string, ok: bool, status: string, summary: string)

  /** The loop's surroundings: the provider by call number and messages, the registry by
      invocation number, the JSON functions, and `str` of a value. */
  datatype World = World(ask: (nat, seq<Message>) -> Answer,
                         invoke: (nat, string, Json) -> ToolResult,
                         parser: Parser,
                         show: Json -> string)

  datatype Progress = Progress(messages: seq<Message>, made: seq<Made>, findings: seq<Finding>,
                               invoked: seq<Invocation>)

  /** How the loop ends; `Raised` is an exception that leaves it. */
  datatype Ending =
    | Unavailable
    | Raised
    | Failed(status: string)
    | Text(status: string, reply: string)
    | LimitReached(findings: seq<Finding>)

  /** The outcome, the last model named, and how often the provider was asked. */
  datatype Outcome = Outcome(ending: Ending, progress: Progress, model: string, asked: nat)

  // ---- one call ----

  /** `_repair_tool_arguments`: the arguments, if they can be recovered, and whether they were repaired. */
  function Repair(p: Parser, raw: Json): (Option<Json>, bool) {
    if raw.Dict? then (Some(raw), false)
    else if raw.Null? || (raw.Str? && Strip(raw.s) == "") then (Some(Dict(map[])), false)
    else
      var parsed := if raw.Str? then p.loads(Strip(raw.s)) else None;
      if parsed.Some? then (if parsed.value.Dict? then parsed else None, false)
      else
        var lenient := LenientLoads(p, raw);
        (if lenient.Some? && lenient.value.Dict? then lenient else None, true)
  }

  /** Reading the call fails: its `function` is there and is not an object. */
  predicate Raises(call: Json) {
    call.Dict? && var f := Get(call.entries, "function"); Truthy(f) && !f.Dict?
  }

  predicate Readable(calls: seq<Json>) { forall i :: 0 <= i < |calls| ==> !Raises(calls[i]) }

  /** The calls before the first that cannot be read. */
  function Read(calls: seq<Json>): seq<Json> {
    if calls == [] || Raises(calls[0]) then [] else [calls[0]] + Read(calls[1..])
  }

  lemma {:induction false} ReadAll(calls: seq<Json>)
    requires Readable(calls)
    ensures Read(calls) == calls
  {
    if calls != [] {
      assert forall i :: 0 <= i < |calls| - 1 ==> calls[1..][i] == calls[i + 1];
      ReadAll(calls[1..]);
    }
  }

  lemma {:induction false} ReadUpTo(calls: seq<Json>, i: nat)
    requires i < |calls| && Raises(calls[i]) && forall k :: 0 <= k < i ==> !Raises(calls[k])
    ensures Read(calls) == calls[..i]
  {
    if i > 0 {
      assert forall k :: 0 <= k < i - 1 ==> calls[1..][k] == calls[k + 1];
      ReadUpTo(calls[1..], i - 1);
      assert calls[..i] == [calls[0]] + calls[1..][..i - 1];
    }
  }

  /** The `function` object of a call, if it has one. */
  function Inner(call: map<string, Json>): map<string, Json> {
    var f := Get(call, "function");
    if f.Dict? then f.entries else map[]
  }

  function ToolName(show: Json -> string, call: map<string, Json>): string {
    var inner, outer := Get(Inner(call), "name"), Get(call, "name");
    if Truthy(inner) then show(inner) else if Truthy(outer) then show(outer) else ""
  }

  function RawArguments(call: map<string, Json>): Json {
    if "arguments" in Inner(call) then Inner(call)["arguments"] else Get(call, "arguments")
  }

  /** The id a reply carries, if the call has one. */
  function CallId(call: map<string, Json>): Option<Json> {
    var id := Get(call, "id");
    if Truthy(id) then Some(id) else None
  }

  function InvalidArgs(tool: string): ToolResult { ToolResult(false, "invalid_args", Null, [Malformed(tool)]) }

  /** The excerpt of a result that the limit reply may carry. */
  function PartialFinding(dumps: Json -> string, tool: string, result: ToolResult): Finding {
    var text := if Truthy(result.data) then dumps(result.data) else "";
    Finding(tool, result.ok, result.status,
            if |text| > SUMMARY_CHARS then text[..SUMMARY_CHARS - 1] + "\U{2026}" else text)
  }

  /** The progress after a call of a tool with recovered arguments, or none. */
  function AfterUse(w: World, pr: Progress, tool: string, args: Option<Json>, repaired: bool, callId: Option<Json>)
    : Progress
  {
    var result := if args.None? then InvalidArgs(tool) else w.invoke(|pr.invoked|, tool, args.value);
    Progress(pr.messages + [ToolReply(result, callId)],
             pr.made + [Made(tool, args, repaired, result.ok, result.status)],
             pr.findings + [PartialFinding(w.parser.dumps, tool, result)],
             pr.invoked + if args.None? then [] else [Invocation(tool, args.value)])
  }

  function AfterCall(w: World, pr: Progress, call: Json): Progress {
    if !call.Dict? then pr
    else
      var (args, repaired) := Repair(w.parser, RawArguments(call.entries));
      AfterUse(w, pr, ToolName(w.show, call.entries), args, repaired, CallId(call.entries))
  }

  /** Taking a step for each call in turn. */
  function EachCall(step: (Progress, Json) -> Progress, pr: Progress, calls: seq<Json>): Progress {
    if calls == [] then pr
    else step(EachCall(step, pr, calls[..|calls| - 1]), calls[|calls| - 1])
  }

  function Calling(w: World): (Progress, Json) -> Progress { (pr: Progress, call: Json) => AfterCall(w, pr, call) }

  function AfterCalls(w: World, pr: Progress, calls: seq<Json>): Progress { EachCall(Calling(w), pr, calls) }

  // ---- the loop ----

  function Limit(pr: Progress): Ending {
    LimitReached(if |pr.findings| <= FINDINGS_MAX then pr.findings else pr.findings[..FINDINGS_MAX])
  }

  /** One turn with calls, as far as they can be read. */
  function AfterTurn(w: World, pr: Progress, turn: Message): Progress
    requires turn.Assistant?
  {
    AfterCalls(w, pr.(messages := pr.messages + [turn]), Read(turn.calls))
  }

  /** The rounds from the `asked`th on, `budget` of them at most. */
  function Rounds(w: World, pr: Progress, model: string, asked: nat, budget: nat): Outcome
    decreases budget
  {
    if budget == 0 then Outcome(Limit(pr), pr, model, asked)
    else
      match w.ask(asked, pr.messages)
      case Crash => Outcome(Unavailable, pr, model, asked + 1)
      case Failure(status) => Outcome(Failed(status), pr, model, asked + 1)
      case Turn(status, named, reply, calls) =>
        var last := if named == "" then model else named;
        if calls == [] then Outcome(Text(status, reply), pr, last, asked + 1)
        else
          var next := AfterTurn(w, pr, Assistant(reply, calls));
          if Readable(calls) then Rounds(w, next, last, asked + 1, budget - 1)
          else Outcome(Raised, next, last, asked + 1)
  }

  function Begin(messages: seq<Message>): Progress { Progress(messages, [], [], []) }

  function Loop(w: World, messages: seq<Message>, maxRounds: nat): Outcome {
    Rounds(w, Begin(messages), "unknown", 0, maxRounds)
  }

  method ChatWithToolsLoop(w: World, messages: seq<Message>, maxRounds: nat) returns (outcome: Outcome)
    ensures outcome == Loop(w, messages, maxRounds)
  {
    var pr, lastModel := Begin(messages), "unknown";
    for round := 0 to maxRounds
      invariant Loop(w, messages, maxRounds) == Rounds(w, pr, lastModel, round, maxRounds - round)
    {
      var answer := w.ask(round, pr.messages);
      if answer.Crash? {
        return Outcome(Unavailable, pr, lastModel, round + 1);
      }
      if answer.Failure? {
        return Outcome(Failed(answer.status), pr, lastModel, round + 1);
      }
      lastModel := if answer.model == "" then lastModel else answer.model;
      if answer.calls == [] {
        return Outcome(Text(answer.status, answer.reply), pr, lastModel, round + 1);
      }
      var raised;
      pr, raised := RunCalls(w, pr.(messages := pr.messages + [Assistant(answer.reply, answer.calls)]), answer.calls);
      if raised {
        return Outcome(Raised, pr, lastModel, round + 1);
      }
    }
    return Outcome(Limit(pr), pr, lastModel, maxRounds);
  }

  /** The inner loop over one turn's calls; an exception ends it. */
  method RunCalls(w: World, before: Progress, calls: seq<Json>) returns (pr: Progress, raised: bool)
    ensures pr == AfterCalls(w, before, Read(calls)) && raised == !Readable(calls)
  {
    var messages, made, findings, invoked := before.messages, before.made, before.findings, before.invoked;
    for i := 0 to |calls|
      invariant Progress(messages, made, findings, invoked) == EachCall(Calling(w), before, calls[..i])
      invariant forall k :: 0 <= k < i ==> !Raises(calls[k])
    {
      assert calls[..i + 1][..i] == calls[..i];
      var sofar := Progress(messages, made, findings, invoked);
      assert EachCall(Calling(w), before, calls[..i + 1]) == AfterCall(w, sofar, calls[i]);
      if !calls[i].Dict? {
        continue;
      }
      if Raises(calls[i]) {
        ReadUpTo(calls, i);
        return sofar, true;
      }
      var call := calls[i].entries;
      var tool := ToolName(w.show, call);
      var (args, repaired) := Repair(w.parser, RawArguments(call));
      var result;
      if args.None? {
        result := InvalidArgs(tool);
      } else {
        result := w.invoke(|invoked|, tool, args.value);
        invoked := invoked + [Invocation(tool, args.value)];
      }
      made := made + [Made(tool, args, repaired, result.ok, result.status)];
      findings := findings + [PartialFinding(w.parser.dumps, tool, result)];
      messages := messages + [ToolReply(result, CallId(call))];
    }
    assert calls[..|calls|] == calls;
    ReadAll(calls);
    return Progress(messages, made, findings, invoked), false;
  }

  // ---- what a transcript must look like ----

  /** The calls of a turn that are objects at all. */
  function Shaped(calls: seq<Json>): seq<Json> {
    if calls == [] then []
    else
      var last := calls[|calls| - 1];
      Shaped(calls[..|calls| - 1]) + if last.Dict? then [last] else []
  }

  /** The id of the call, unless it has none that is true. */
  predicate Under(call: map<string, Json>, id: Option<Json>) {
    id == if Truthy(Get(call, "id")) then Some(Get(call, "id")) else None
  }

  /** `replies` answers `calls` one by one. */
  predicate Answers(replies: seq<Message>, calls: seq<Json>) {
    && |replies| == |calls|
    && forall i :: 0 <= i < |calls| ==>
         calls[i].Dict? && replies[i].ToolReply? && Under(calls[i].entries, replies[i].callId)
  }

  /** Assistant turns with calls, each followed by exactly the replies to those that could be read. */
  ghost predicate Paired(tail: seq<Message>) {
    tail == [] ||
    exists k :: 0 <= k < |tail| && tail[k].Assistant? && tail[k].calls != []
                && Answers(tail[k + 1..], Shaped(Read(tail[k].calls))) && Paired(tail[..k])
  }

  /** The calls of a transcript that are to be answered, turn after turn. */
  function CallsIn(messages: seq<Message>): seq<Json> {
    if messages == [] then []
    else
      var last := messages[|messages| - 1];
      CallsIn(messages[..|messages| - 1]) + if last.Assistant? then Shaped(Read(last.calls)) else []
  }

  /** The tool a call names: in its `function` object, else on the call itself. */
  predicate Names(show: Json -> string, call: map<string, Json>, tool: string) {
    var f := Get(call, "function");
    var inner := if f.Dict? then Get(f.entries, "name") else Null;
    && (Truthy(inner) ==> tool == show(inner))
    && (!Truthy(inner) && Truthy(Get(call, "name")) ==> tool == show(Get(call, "name")))
    && (!Truthy(inner) && !Truthy(Get(call, "name")) ==> tool == "")
  }

  /** The arguments a call sends: those in its `function` object, if it has any, else its own. */
  predicate Sends(call: map<string, Json>, raw: Json) {
    var f := Get(call, "function");
    if f.Dict? && "arguments" in f.entries then raw == f.entries["arguments"]
    else if "arguments" in call then raw == call["arguments"] else raw == Null
  }

  /** What sent arguments come to. An object is used as it is; nothing, or blank text, is the empty
      object; text that reads as an object is that object, and text that reads as anything else is
      refused. Only text that does not read is repaired, by the lenient reader; a value of another
      kind is refused. */
  predicate Understood(p: Parser, raw: Json, args: Option<Json>, repaired: bool) {
    match raw
    case Dict(_) => args == Some(raw) && !repaired
    case Null => args == Some(Dict(map[])) && !repaired
    case Str(text) =>
      if forall c :: c in text ==> IsSpace(c) then args == Some(Dict(map[])) && !repaired
      else
        var read := p.loads(Strip(text));
        && (read.Some? && read.value.Dict? ==> args == read && !repaired)
        && (read.Some? && !read.value.Dict? ==> args == None && !repaired)
        && (read.None? ==> args == LenientLoads(p, raw) && repaired)
    case _ => args == None && repaired
  }

  lemma RepairMeans(p: Parser, raw: Json)
    ensures var (args, repaired) := Repair(p, raw); Understood(p, raw, args, repaired)
  {
    if raw.Str? {
      StripBlank(raw.s);
      LenientIsDict(p, raw);
    }
  }

  lemma LenientIsDict(p: Parser, raw: Json)
    requires raw.Str?
    ensures LenientLoads(p, raw).Some? ==> LenientLoads(p, raw).value.Dict?
  {
    var text := FromFirstBrace(Strip(raw.s));
    FirstDictIsFirst(p.loads, [text, DropCommas(text), Balanced(DropCommas(text))]);
    FirstDictIsFirst(p.literal, [Balanced(text)]);
  }

  /** The entry tells of the call: its tool, and what its arguments come to. */
  predicate Tells(w: World, call: map<string, Json>, entry: Made) {
    && Names(w.show, call, entry.tool)
    && Sends(call, RawArguments(call))
    && Understood(w.parser, RawArguments(call), entry.args, entry.repaired)
  }

  type Telling = (map<string, Json>, Made) -> bool

  function TellingOf(w: World): Telling { (call: map<string, Json>, entry: Made) => Tells(w, call, entry) }

  /** Each entry tells of the call at its place. */
  predicate Records(tells: Telling, made: seq<Made>, calls: seq<Json>) {
    && |made| == |calls|
    && forall i :: 0 <= i < |calls| ==> calls[i].Dict? && tells(calls[i].entries, made[i])
  }

  /** The call can be read: what it has as its `function`, if anything, is an object. */
  predicate Legible(call: Json) {
    call.Dict? && "function" in call.entries ==>
      call.entries["function"].Dict? || !Truthy(call.entries["function"])
  }

  /** No turn of the transcript holds a call that could not be read. */
  predicate AllReadable(messages: seq<Message>) {
    forall i, c :: 0 <= i < |messages| && messages[i].Assistant? && c in messages[i].calls ==> Legible(c)
  }

  /** The calls that are taken are those before the first that cannot be read. */
  lemma {:induction false} ReadMeans(calls: seq<Json>)
    ensures Read(calls) <= calls && forall c :: c in Read(calls) ==> Legible(c)
    ensures |Read(calls)| < |calls| ==> !Legible(calls[|Read(calls)|])
    ensures Readable(calls) <==> forall c :: c in calls ==> Legible(c)
  {
    forall c ensures Raises(c) <==> !Legible(c) {
      CannotRead(c);
    }
    if calls != [] && !Raises(calls[0]) {
      ReadMeans(calls[1..]);
      assert calls == [calls[0]] + calls[1..];
    }
  }

  lemma CannotRead(call: Json)
    ensures Raises(call) <==> !Legible(call)
  {
  }

  function Replies(messages: seq<Message>): seq<ToolResult> {
    if messages == [] then []
    else
      var last := messages[|messages| - 1];
      Replies(messages[..|messages| - 1]) + if last.ToolReply? then [last.result] else []
  }

  /** The invocations that entries of `tool_calls_made` stand for. */
  function InvocationsOf(made: seq<Made>): seq<Invocation> {
    if made == [] then []
    else
      var last := made[|made| - 1];
      InvocationsOf(made[..|made| - 1]) + if last.args.Some? then [Invocation(last.tool, last.args.value)] else []
  }

  /** The results those entries must have: the registry's own, or the refusal of bad arguments. */
  function ResultsOf(w: World, made: seq<Made>): seq<ToolResult> {
    if made == [] then []
    else
      var before, last := made[..|made| - 1], made[|made| - 1];
      ResultsOf(w, before) + [if last.args.None? then ToolResult(false, "invalid_args", Null, [Malformed(last.tool)])
                              else w.invoke(|InvocationsOf(before)|, last.tool, last.args.value)]
  }

  /** Between calls: what stands after the given messages, and how the records agree with it. */
  ghost predicate Honest(w: World, given: seq<Message>, pr: Progress) {
    && given <= pr.messages
    && pr.invoked == InvocationsOf(pr.made)
    && Replies(pr.messages[|given|..]) == ResultsOf(w, pr.made)
    && Agree(w.parser.dumps, pr.made, pr.findings, ResultsOf(w, pr.made))
  }

  /** Each record and each finding tells of the result at its place. */
  ghost predicate Agree(dumps: Json -> string, made: seq<Made>, findings: seq<Finding>, results: seq<ToolResult>) {
    && |findings| == |made| == |results|
    && forall i :: 0 <= i < |made| ==>
         && made[i].ok == results[i].ok && made[i].status == results[i].status
         && findings[i] == PartialFinding(dumps, made[i].tool, results[i])
  }

  /** What one more record must be to keep the records honest. */
  ghost predicate Fits(w: World, pr: Progress, result: ToolResult, entry: Made, finding: Finding) {
    && result == (if entry.args.None? then InvalidArgs(entry.tool)
                  else w.invoke(|pr.invoked|, entry.tool, entry.args.value))
    && entry.ok == result.ok && entry.status == result.status
    && finding == PartialFinding(w.parser.dumps, entry.tool, result)
  }

  lemma AgreePush(dumps: Json -> string, made: seq<Made>, findings: seq<Finding>, results: seq<ToolResult>,
                  entry: Made, finding: Finding, result: ToolResult)
    requires Agree(dumps, made, findings, results)
    requires entry.ok == result.ok && entry.status == result.status
    requires finding == PartialFinding(dumps, entry.tool, result)
    ensures Agree(dumps, made + [entry], findings + [finding], results + [result])
  {
  }

  lemma MadePush(w: World, made: seq<Made>, entry: Made)
    ensures InvocationsOf(made + [entry]) ==
            InvocationsOf(made) + if entry.args.None? then [] else [Invocation(entry.tool, entry.args.value)]
    ensures ResultsOf(w, made + [entry]) ==
            ResultsOf(w, made) + [if entry.args.None? then InvalidArgs(entry.tool)
                                  else w.invoke(|InvocationsOf(made)|, entry.tool, entry.args.value)]
  {
    assert (made + [entry])[..|made|] == made;
  }

  lemma HonestPush(w: World, given: seq<Message>, pr: Progress, result: ToolResult, callId: Option<Json>, entry: Made,
                   finding: Finding)
    requires Honest(w, given, pr) && Fits(w, pr, result, entry, finding)
    ensures Honest(w, given, Progress(pr.messages + [ToolReply(result, callId)], pr.made + [entry],
                                      pr.findings + [finding],
                                      pr.invoked + if entry.args.None? then []
                                                   else [Invocation(entry.tool, entry.args.value)]))
  {
    var reply := ToolReply(result, callId);
    RepliesAfter(|given|, pr.messages, reply);
    MadePush(w, pr.made, entry);
    AgreePush(w.parser.dumps, pr.made, pr.findings, ResultsOf(w, pr.made), entry, finding, result);
  }

  lemma HonestUse(w: World, given: seq<Message>, pr: Progress, tool: string, args: Option<Json>, repaired: bool,
                  callId: Option<Json>)
    requires Honest(w, given, pr)
    ensures Honest(w, given, AfterUse(w, pr, tool, args, repaired, callId))
  {
    var result := if args.None? then InvalidArgs(tool) else w.invoke(|pr.invoked|, tool, args.value);
    HonestPush(w, given, pr, result, callId, Made(tool, args, repaired, result.ok, result.status),
               PartialFinding(w.parser.dumps, tool, result));
  }

  lemma HonestCall(w: World, given: seq<Message>, pr: Progress, call: Json)
    requires Honest(w, given, pr)
    ensures Honest(w, given, AfterCall(w, pr, call))
  {
    if call.Dict? {
      var (args, repaired) := Repair(w.parser, RawArguments(call.entries));
      HonestUse(w, given, pr, ToolName(w.show, call.entries), args, repaired, CallId(call.entries));
    }
  }

  /** What every call keeps, a turn's calls keep. */
  lemma {:induction false} EachCallKeeps(step: (Progress, Json) -> Progress, kept: Progress -> bool, pr: Progress,
                                         calls: seq<Json>)
    requires kept(pr)
    requires forall p, c :: kept(p) ==> kept(step(p, c))
    ensures kept(EachCall(step, pr, calls))
  {
    if calls != [] { EachCallKeeps(step, kept, pr, calls[..|calls| - 1]); }
  }

  lemma HonestCalls(w: World, given: seq<Message>, pr: Progress, calls: seq<Json>)
    requires Honest(w, given, pr)
    ensures Honest(w, given, AfterCalls(w, pr, calls))
  {
    forall p, c | Honest(w, given, p) ensures Honest(w, given, AfterCall(w, p, c)) {
      HonestCall(w, given, p, c);
    }
    EachCallKeeps(Calling(w), p => Honest(w, given, p), pr, calls);
  }

  /** The step answers a call that is an object with one reply and one entry, and adds nothing
      for another. */
  ghost predicate AnswersEach(tells: Telling, step: (Progress, Json) -> Progress) {
    forall p, c :: Adds(tells, p, step(p, c), if c.Dict? then [c] else [])
  }

  /** The later progress has replies to the calls, and entries that record them. */
  ghost predicate Adds(tells: Telling, before: Progress, after: Progress, calls: seq<Json>) {
    exists replies, made :: AddsThese(tells, before, after, calls, replies, made)
  }

  ghost predicate AddsThese(tells: Telling, before: Progress, after: Progress, calls: seq<Json>,
                            replies: seq<Message>, made: seq<Made>)
  {
    && after.messages == before.messages + replies && Answers(replies, calls)
    && after.made == before.made + made && Records(tells, made, calls)
  }

  lemma AddsJoin(tells: Telling, a: Progress, b: Progress, c: Progress, calls: seq<Json>, more: seq<Json>)
    requires Adds(tells, a, b, calls) && Adds(tells, b, c, more)
    ensures Adds(tells, a, c, calls + more)
  {
    var replies, made :| AddsThese(tells, a, b, calls, replies, made);
    var others, further :| AddsThese(tells, b, c, more, others, further);
    RecordsJoin(tells, made, calls, further, more);
    assert c.messages == a.messages + (replies + others) && c.made == a.made + (made + further);
    assert AddsThese(tells, a, c, calls + more, replies + others, made + further);
  }

  lemma RecordsJoin(tells: Telling, made: seq<Made>, calls: seq<Json>, more: seq<Made>, others: seq<Json>)
    requires Records(tells, made, calls) && Records(tells, more, others)
    ensures Records(tells, made + more, calls + others)
  {
  }

  lemma AddsNothing(tells: Telling, pr: Progress)
    ensures Adds(tells, pr, pr, [])
  {
    assert pr.messages == pr.messages + [] && pr.made == pr.made + [];
    assert AddsThese(tells, pr, pr, [], [], []);
  }

  lemma {:induction false} EachCallAdds(tells: Telling, step: (Progress, Json) -> Progress, pr: Progress,
                                        calls: seq<Json>)
    requires AnswersEach(tells, step)
    ensures Adds(tells, pr, EachCall(step, pr, calls), Shaped(calls))
  {
    if calls == [] {
      AddsNothing(tells, pr);
    } else {
      var n := |calls| - 1;
      var before := EachCall(step, pr, calls[..n]);
      EachCallAdds(tells, step, pr, calls[..n]);
      AddsJoin(tells, pr, before, step(before, calls[n]), Shaped(calls[..n]),
               if calls[n].Dict? then [calls[n]] else []);
    }
  }

  lemma UseAdds(tells: Telling, w: World, pr: Progress, call: Json, tool: string, args: Option<Json>, repaired: bool)
    requires call.Dict?
    requires forall ok, status :: tells(call.entries, Made(tool, args, repaired, ok, status))
    ensures Adds(tells, pr, AfterUse(w, pr, tool, args, repaired, CallId(call.entries)), [call])
  {
    var after := AfterUse(w, pr, tool, args, repaired, CallId(call.entries));
    var reply, entry := after.messages[|pr.messages|], after.made[|pr.made|];
    assert AddsThese(tells, pr, after, [call], [reply], [entry]);
  }

  lemma CallIsAnswered(w: World, pr: Progress, call: Json)
    ensures Adds(TellingOf(w), pr, AfterCall(w, pr, call), if call.Dict? then [call] else [])
  {
    if call.Dict? {
      var (args, repaired) := Repair(w.parser, RawArguments(call.entries));
      RepairMeans(w.parser, RawArguments(call.entries));
      UseAdds(TellingOf(w), w, pr, call, ToolName(w.show, call.entries), args, repaired);
    } else {
      AddsNothing(TellingOf(w), pr);
    }
  }

  /** Calls add exactly one reply to each that is an object, in order, and one entry that records it. */
  lemma CallsAreAnswered(w: World, pr: Progress, calls: seq<Json>)
    ensures Adds(TellingOf(w), pr, AfterCalls(w, pr, calls), Shaped(calls))
  {
    forall p, c ensures Adds(TellingOf(w), p, Calling(w)(p, c), if c.Dict? then [c] else []) {
      CallIsAnswered(w, p, c);
    }
    EachCallAdds(TellingOf(w), Calling(w), pr, calls);
  }

  /** A transcript after given messages that is paired up and agrees with the records. */
  ghost predicate SoundTranscript(w: World, given: seq<Message>, pr: Progress) {
    && Honest(w, given, pr)
    && Paired(pr.messages[|given|..]) && Records(TellingOf(w), pr.made, CallsIn(pr.messages[|given|..]))
  }

  lemma HonestTurn(w: World, given: seq<Message>, pr: Progress, turn: Message)
    requires Honest(w, given, pr) && turn.Assistant?
    ensures Honest(w, given, pr.(messages := pr.messages + [turn]))
  {
    RepliesAfter(|given|, pr.messages, turn);
  }

  lemma RepliesAfter(n: nat, messages: seq<Message>, m: Message)
    requires n <= |messages|
    ensures Replies((messages + [m])[n..]) == Replies(messages[n..]) + if m.ToolReply? then [m.result] else []
  {
    assert (messages + [m])[n..] == messages[n..] + [m];
  }

  /** What a turn adds to the transcript and to the records. */
  lemma TurnAdds(w: World, given: seq<Message>, pr: Progress, turn: Message)
    returns (replies: seq<Message>, made: seq<Made>)
    requires given <= pr.messages && turn.Assistant?
    ensures given <= AfterTurn(w, pr, turn).messages
    ensures AfterTurn(w, pr, turn).messages[|given|..] == pr.messages[|given|..] + [turn] + replies
    ensures AfterTurn(w, pr, turn).made == pr.made + made
    ensures Answers(replies, Shaped(Read(turn.calls))) && Records(TellingOf(w), made, Shaped(Read(turn.calls)))
  {
    var mid := pr.(messages := pr.messages + [turn]);
    CallsAreAnswered(w, mid, Read(turn.calls));
    replies, made :| AddsThese(TellingOf(w), mid, AfterTurn(w, pr, turn), Shaped(Read(turn.calls)), replies, made);
  }

  lemma PairedTurn(tail: seq<Message>, turn: Message, replies: seq<Message>)
    requires Paired(tail) && turn.Assistant? && turn.calls != [] && Answers(replies, Shaped(Read(turn.calls)))
    ensures Paired(tail + [turn] + replies)
  {
    var all := tail + [turn] + replies;
    assert all[..|tail|] == tail && all[|tail|] == turn && all[|tail| + 1..] == replies;
  }

  lemma {:induction false} CallsInTurn(tail: seq<Message>, turn: Message, replies: seq<Message>)
    requires turn.Assistant? && forall i :: 0 <= i < |replies| ==> replies[i].ToolReply?
    ensures CallsIn(tail + [turn] + replies) == CallsIn(tail) + Shaped(Read(turn.calls))
  {
    var all := tail + [turn] + replies;
    if replies == [] {
      assert all == tail + [turn] && all[..|tail|] == tail;
    } else {
      CallsInTurn(tail, turn, replies[..|replies| - 1]);
      assert all[..|all| - 1] == tail + [turn] + replies[..|replies| - 1];
      assert all[|all| - 1] == replies[|replies| - 1];
    }
  }

  lemma TurnKeepsTranscript(w: World, given: seq<Message>, pr: Progress, turn: Message)
    requires SoundTranscript(w, given, pr) && turn.Assistant? && turn.calls != []
    ensures SoundTranscript(w, given, AfterTurn(w, pr, turn))
  {
    HonestTurn(w, given, pr, turn);
    HonestCalls(w, given, pr.(messages := pr.messages + [turn]), Read(turn.calls));
    var replies, made := TurnAdds(w, given, pr, turn);
    PairedTurn(pr.messages[|given|..], turn, replies);
    CallsInTurn(pr.messages[|given|..], turn, replies);
    RecordsJoin(TellingOf(w), pr.made, CallsIn(pr.messages[|given|..]), made, Shaped(Read(turn.calls)));
  }

  /** What every turn with calls keeps, the whole loop keeps. */
  lemma {:induction false} RoundsKeep(w: World, kept: Progress -> bool, pr: Progress, model: string, asked: nat,
                                      budget: nat)
    requires kept(pr)
    requires forall p, m: Message :: kept(p) && m.Assistant? && m.calls != [] ==> kept(AfterTurn(w, p, m))
    ensures kept(Rounds(w, pr, model, asked, budget).progress)
    decreases budget
  {
    if budget > 0 {
      var answer := w.ask(asked, pr.messages);
      if answer.Turn? && answer.calls != [] && Readable(answer.calls) {
        RoundsKeep(w, kept, AfterTurn(w, pr, Assistant(answer.reply, answer.calls)),
                   if answer.model == "" then model else answer.model, asked + 1, budget - 1);
      }
    }
  }

  lemma RoundsKeepTranscript(w: World, given: seq<Message>, pr: Progress, model: string, asked: nat, budget: nat)
    requires SoundTranscript(w, given, pr)
    ensures SoundTranscript(w, given, Rounds(w, pr, model, asked, budget).progress)
  {
    forall p, m: Message | SoundTranscript(w, given, p) && m.Assistant? && m.calls != []
      ensures SoundTranscript(w, given, AfterTurn(w, p, m))
    {
      TurnKeepsTranscript(w, given, p, m);
    }
    RoundsKeep(w, p => SoundTranscript(w, given, p), pr, model, asked, budget);
  }

  lemma ReadableTurn(tail: seq<Message>, turn: Message, replies: seq<Message>)
    requires AllReadable(tail) && turn.Assistant? && forall i :: 0 <= i < |replies| ==> replies[i].ToolReply?
    ensures AllReadable(tail + [turn] + replies) <==> Readable(turn.calls)
  {
    var all := tail + [turn] + replies;
    ReadMeans(turn.calls);
    assert all[|tail|] == turn;
    assert forall i :: 0 <= i < |all| ==>
             all[i] == if i < |tail| then tail[i] else if i == |tail| then turn else replies[i - |tail| - 1];
  }

  lemma TurnReadable(w: World, given: seq<Message>, pr: Progress, turn: Message)
    requires given <= pr.messages && AllReadable(pr.messages[|given|..]) && turn.Assistant?
    ensures given <= AfterTurn(w, pr, turn).messages
    ensures AllReadable(AfterTurn(w, pr, turn).messages[|given|..]) <==> Readable(turn.calls)
  {
    var replies, made := TurnAdds(w, given, pr, turn);
    ReadableTurn(pr.messages[|given|..], turn, replies);
  }

  /** An exception leaves the loop exactly when some turn held a call that could not be read. */
  lemma {:induction false} RaisedIff(w: World, given: seq<Message>, pr: Progress, model: string, asked: nat,
                                     budget: nat)
    requires given <= pr.messages && AllReadable(pr.messages[|given|..])
    ensures var o := Rounds(w, pr, model, asked, budget);
            given <= o.progress.messages
            && (o.ending.Raised? <==> !AllReadable(o.progress.messages[|given|..]))
    decreases budget
  {
    if budget > 0 {
      var answer := w.ask(asked, pr.messages);
      if answer.Turn? && answer.calls != [] {
        var turn := Assistant(answer.reply, answer.calls);
        TurnReadable(w, given, pr, turn);
        if Readable(answer.calls) {
          RaisedIff(w, given, AfterTurn(w, pr, turn), if answer.model == "" then model else answer.model,
                    asked + 1, budget - 1);
        }
      }
    }
  }

  lemma {:induction false} RoundsCount(w: World, pr: Progress, model: string, asked: nat, budget: nat)
    ensures asked <= Rounds(w, pr, model, asked, budget).asked <= asked + budget
    ensures var o := Rounds(w, pr, model, asked, budget);
            o.ending.LimitReached? ==> o.ending == Limit(o.progress) && o.asked == asked + budget
    decreases budget
  {
    if budget > 0 {
      var answer := w.ask(asked, pr.messages);
      if answer.Turn? && answer.calls != [] && Readable(answer.calls) {
        RoundsCount(w, AfterTurn(w, pr, Assistant(answer.reply, answer.calls)),
                    if answer.model == "" then model else answer.model, asked + 1, budget - 1);
      }
    }
  }

  /** Whatever the provider and the tools do: the provider is asked at most `maxRounds` times;
      the transcript keeps the given messages and is paired up after them; each recorded entry
      is of the call at its place, with its tool and arguments; the registry was invoked once,
      in order, for each entry whose arguments were recovered and for no other; every reply to
      the model is the registry's own result or the refusal; and an exception leaves the loop
      exactly when a turn held a call that could not be read. */
  lemma LoopIsSound(w: World, messages: seq<Message>, maxRounds: nat)
    ensures var o := Loop(w, messages, maxRounds);
            && o.asked <= maxRounds
            && messages <= o.progress.messages && Paired(o.progress.messages[|messages|..])
            && Records(TellingOf(w), o.progress.made, CallsIn(o.progress.messages[|messages|..]))
            && o.progress.invoked == InvocationsOf(o.progress.made)
            && Replies(o.progress.messages[|messages|..]) == ResultsOf(w, o.progress.made)
            && (o.ending.Raised? <==> !AllReadable(o.progress.messages[|messages|..]))
  {
    RoundsKeepTranscript(w, messages, Begin(messages), "unknown", 0, maxRounds);
    RoundsCount(w, Begin(messages), "unknown", 0, maxRounds);
    RaisedIff(w, messages, Begin(messages), "unknown", 0, maxRounds);
  }

  // ---- what reaches the registry ----

  predicate ObjectArgs(pr: Progress) { forall i :: 0 <= i < |pr.invoked| ==> pr.invoked[i].args.Dict? }

  lemma CallsKeepObjects(w: World, pr: Progress, calls: seq<Json>)
    requires ObjectArgs(pr)
    ensures ObjectArgs(AfterCalls(w, pr, calls))
  {
    forall p, c | ObjectArgs(p) ensures ObjectArgs(AfterCall(w, p, c)) {
    }
    EachCallKeeps(Calling(w), p => ObjectArgs(p), pr, calls);
  }

  /** Whatever a model sends as arguments, the registry is only ever invoked with an object. */
  lemma OnlyObjectsReachTheRegistry(w: World, messages: seq<Message>, maxRounds: nat)
    ensures ObjectArgs(Loop(w, messages, maxRounds).progress)
  {
    forall p, m: Message | ObjectArgs(p) && m.Assistant? && m.calls != [] ensures ObjectArgs(AfterTurn(w, p, m)) {
      CallsKeepObjects(w, p.(messages := p.messages + [m]), Read(m.calls));
    }
    RoundsKeep(w, p => ObjectArgs(p), Begin(messages), "unknown", 0, maxRounds);
  }

  /** The excerpt of a text: all of it, or its first 239 characters and an ellipsis. */
  predicate Excerpt(text: string, summary: string) {
    if |text| <= 240 then summary == text else summary == text[..239] + "\U{2026}"
  }

  /** The finding tells of the tool and of its result. */
  predicate Finds(dumps: Json -> string, tool: string, result: ToolResult, finding: Finding) {
    && finding.tool == tool && finding.ok == result.ok && finding.status == result.status
    && Excerpt(if Truthy(result.data) then dumps(result.data) else "", finding.summary)
  }

  lemma SharedFindings(dumps: Json -> string, pr: Progress, results: seq<ToolResult>)
    requires Agree(dumps, pr.made, pr.findings, results)
    ensures var shared := Limit(pr).findings;
            && |shared| == (if |pr.made| <= 6 then |pr.made| else 6)
            && forall i :: 0 <= i < |shared| ==>
                 Finds(dumps, pr.made[i].tool, results[i], shared[i]) && |shared[i].summary| <= 240
  {
  }

  /** The limit reply carries the first findings that were made, six at most, each a bounded
      excerpt of the result the model saw. */
  lemma LimitFindings(w: World, messages: seq<Message>, maxRounds: nat)
    requires Loop(w, messages, maxRounds).ending.LimitReached?
    ensures var o := Loop(w, messages, maxRounds);
            var shared := o.ending.findings;
            && o.asked == maxRounds
            && |shared| == (if |o.progress.made| <= 6 then |o.progress.made| else 6)
            && |ResultsOf(w, o.progress.made)| == |o.progress.made|
            && forall i :: 0 <= i < |shared| ==>
                 && Finds(w.parser.dumps, o.progress.made[i].tool, ResultsOf(w, o.progress.made)[i], shared[i])
                 && |shared[i].summary| <= 240
  {
    RoundsKeepTranscript(w, messages, Begin(messages), "unknown", 0, maxRounds);
    RoundsCount(w, Begin(messages), "unknown", 0, maxRounds);
    var pr := Loop(w, messages, maxRounds).progress;
    SharedFindings(w.parser.dumps, pr, ResultsOf(w, pr.made));
  }

  // ---- what the provider was asked, and what came of it ----

  /** After the `i`th answer, a turn with calls, stands that turn, and replies. */
  ghost predicate Extends(w: World, i: nat, before: seq<Message>, after: seq<Message>) {
    var answer := w.ask(i, before);
    && answer.Turn? && answer.calls != []
    && |before| < |after| && before == after[..|before|] && after[|before|] == Assistant(answer.reply, answer.calls)
    && forall k :: |before| < k < |after| ==> after[k].ToolReply?
  }

  /** The transcripts the provider was shown, one after another. */
  ghost predicate Shown(w: World, given: seq<Message>, shown: seq<seq<Message>>) {
    && shown != [] && shown[0] == given
    && forall i :: 0 <= i < |shown| - 1 ==> Extends(w, i, shown[i], shown[i + 1])
  }

  /** The last model that the answers to these transcripts name. */
  function NamedBy(w: World, shown: seq<seq<Message>>): string {
    if shown == [] then "unknown"
    else
      var n := |shown| - 1;
      var answer := w.ask(n, shown[n]);
      if answer.Turn? && answer.model != "" then answer.model else NamedBy(w, shown[..n])
  }

  /** The outcome is what the last answer makes it. */
  ghost predicate EndsAs(w: World, shown: seq<seq<Message>>, o: Outcome) {
    var n := |shown| - 1;
    && n >= 0 && o.progress.messages == shown[n]
    && n <= o.asked <= n + 1 && o.model == NamedBy(w, shown[..o.asked])
    && (o.asked == n + 1 <==> o.ending.Unavailable? || o.ending.Failed? || o.ending.Text?)
    && (o.ending.Unavailable? ==> w.ask(n, shown[n]).Crash?)
    && (o.ending.Failed? ==> w.ask(n, shown[n]) == Failure(o.ending.status))
    && (o.ending.Text? ==>
          exists named :: w.ask(n, shown[n]) == Turn(o.ending.status, named, o.ending.reply, []))
  }

  lemma ShownNext(w: World, given: seq<Message>, shown: seq<seq<Message>>, next: seq<Message>)
    requires Shown(w, given, shown) && Extends(w, |shown| - 1, shown[|shown| - 1], next)
    ensures Shown(w, given, shown + [next])
  {
  }

  lemma TurnExtends(w: World, pr: Progress, i: nat)
    requires w.ask(i, pr.messages).Turn? && w.ask(i, pr.messages).calls != []
    ensures var answer := w.ask(i, pr.messages);
            Extends(w, i, pr.messages, AfterTurn(w, pr, Assistant(answer.reply, answer.calls)).messages)
  {
    var answer := w.ask(i, pr.messages);
    var replies, made := TurnAdds(w, pr.messages, pr, Assistant(answer.reply, answer.calls));
    assert pr.messages[|pr.messages|..] == [];
  }

  lemma {:induction false} RoundsFollow(w: World, given: seq<Message>, pr: Progress, model: string, asked: nat,
                                        budget: nat, shown: seq<seq<Message>>)
    returns (all: seq<seq<Message>>)
    requires Shown(w, given, shown) && |shown| == asked + 1 && shown[asked] == pr.messages
    requires model == NamedBy(w, shown[..asked])
    ensures Shown(w, given, all) && EndsAs(w, all, Rounds(w, pr, model, asked, budget))
    decreases budget
  {
    all := shown;
    if budget > 0 {
      var answer := w.ask(asked, pr.messages);
      assert shown[..asked + 1][..asked] == shown[..asked];
      if answer.Turn? && answer.calls != [] {
        var next := AfterTurn(w, pr, Assistant(answer.reply, answer.calls));
        TurnExtends(w, pr, asked);
        ShownNext(w, given, shown, next.messages);
        all := shown + [next.messages];
        assert all[..asked + 1] == shown[..asked + 1];
        if Readable(answer.calls) {
          all := RoundsFollow(w, given, next, if answer.model == "" then model else answer.model,
                              asked + 1, budget - 1, all);
        }
      }
    }
  }

  /** The loop follows the provider: it is first shown the given messages; each answer with calls
      is followed by that turn and the replies to it; and the first other answer, if it comes in
      time, is what the loop ends with. The model is the last one named. */
  lemma LoopFollowsProvider(w: World, messages: seq<Message>, maxRounds: nat) returns (shown: seq<seq<Message>>)
    ensures Shown(w, messages, shown) && EndsAs(w, shown, Loop(w, messages, maxRounds))
  {
    shown := RoundsFollow(w, messages, Begin(messages), "unknown", 0, maxRounds, [messages]);
  }
}
