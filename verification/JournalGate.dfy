/** The closed door onto the journal (`journal_gate.py`): what may come out, whatever model answers.
    Lower-casing, retrieval and the model are parameters. */
module JournalGate {
  import opened JsonValues
  import opened PyText

  const RUN_LEN: nat := 5

  /** `str.split()` */
  function Words(s: string): (words: seq<string>)
    decreases |s|
  {
    if s == "" then []
    else if IsSpace(s[0]) then Words(s[1..])
    else
      var n := Run(s, c => !IsSpace(c));
      RunBounded(s, c => !IsSpace(c));
      [s[..n]] + Words(s[n..])
  }

  // ---- the leak check ----

  function Window(words: seq<string>, i: nat, run: nat): seq<string>
    requires i + run <= |words|
  {
    words[i..i + run]
  }

  /** The lists have `run` consecutive words in common. */
  ghost predicate SharesRun(a: seq<string>, b: seq<string>, run: nat) {
    exists i: nat, j: nat :: i + run <= |a| && j + run <= |b| && Window(a, i, run) == Window(b, j, run)
  }

  method SharesLongRun(candidate: seq<string>, texts: seq<seq<string>>, run: nat) returns (shares: bool)
    ensures shares <==> exists e :: 0 <= e < |texts| && SharesRun(candidate, texts[e], run)
  {
    if |candidate| < run {
      return false;
    }
    var windows: set<seq<string>> := {};
    for i := 0 to |candidate| - run + 1
      invariant windows == set k | 0 <= k < i :: Window(candidate, k, run)
    {
      windows := windows + {Window(candidate, i, run)};
    }
    for e := 0 to |texts|
      invariant forall d :: 0 <= d < e ==> !SharesRun(candidate, texts[d], run)
    {
      var words := texts[e];
      var j := 0;
      while j + run <= |words|
        invariant forall k: nat :: k < j && k + run <= |words| ==> Window(words, k, run) !in windows
      {
        if Window(words, j, run) in windows {
          return true;
        }
        j := j + 1;
      }
    }
    return false;
  }

  // ---- the closed answers ----

  datatype Answer = Answer(answer: string, strength: Option<string>, when: Option<string>, count: string)

  const UNSURE := Answer("unsure", None, None, "0")

  predicate IsAnswer(w: string) { w == "yes" || w == "no" || w == "unsure" }

  predicate IsStrength(w: string) { w == "weak" || w == "strong" }

  predicate IsTime(w: string) { w == "this_week" || w == "this_month" || w == "older" }

  predicate IsCount(w: string) { w == "0" || w == "1-2" || w == "3-9" || w == "10+" }

  predicate ClosedWord(w: string) { IsAnswer(w) || IsStrength(w) || IsTime(w) || IsCount(w) }

  predicate Closed(a: Answer) {
    && IsAnswer(a.answer) && IsCount(a.count)
    && (a.strength.Some? ==> IsStrength(a.strength.value))
    && (a.when.Some? ==> IsTime(a.when.value))
  }

  function Optional(j: Json): Option<string> { if j.Str? then Some(j.s) else None }

  /** The answer a model's reply spells, if it fits the schema. */
  function Schema(raw: Json): Option<Answer> {
    if !raw.Dict? then None
    else
      var answer, strength, when, count :=
        Get(raw.entries, "answer"), Get(raw.entries, "strength"), Get(raw.entries, "when"), Get(raw.entries, "count");
      if && raw.entries.Keys <= {"answer", "strength", "when", "count"}
         && answer.Str? && IsAnswer(answer.s) && count.Str? && IsCount(count.s)
         && (strength.Null? || (strength.Str? && IsStrength(strength.s)))
         && (when.Null? || (when.Str? && IsTime(when.s)))
      then Some(Answer(answer.s, Optional(strength), Optional(when), count.s))
      else None
  }

  /** Lower-casing leaves the closed answers as they are. */
  ghost predicate KeepsAnswers(lower: string -> string) {
    forall w: string :: ClosedWord(w) ==> lower(w) == w
  }

  lemma {:induction false} OneWord(w: string)
    requires SpaceFree(w)
    ensures |Words(w)| <= 1
  {
    if w != "" {
      WholeRun(w);
      assert w[|w|..] == "";
    }
  }

  lemma {:induction false} WholeRun(w: string)
    requires SpaceFree(w)
    ensures Run(w, c => !IsSpace(c)) == |w|
  {
    if w != "" {
      assert forall i :: 0 <= i < |w| - 1 ==> w[1..][i] == w[i + 1];
      WholeRun(w[1..]);
    }
  }

  lemma AnswerIsOneWord(w: string)
    requires IsAnswer(w) || IsStrength(w)
    ensures |Words(w)| <= 1
  {
    OneWord(w);
  }

  lemma TimeIsOneWord(w: string)
    requires IsTime(w)
    ensures |Words(w)| <= 1
  {
    OneWord(w);
  }

  lemma CountIsOneWord(w: string)
    requires IsCount(w)
    ensures |Words(w)| <= 1
  {
    OneWord(w);
  }

  lemma ClosedIsOneWord(w: string)
    requires ClosedWord(w)
    ensures |Words(w)| <= 1
  {
    if IsTime(w) { TimeIsOneWord(w); } else if IsCount(w) { CountIsOneWord(w); } else { AnswerIsOneWord(w); }
  }

  /** No closed word shares five words with any text. */
  lemma ClosedSharesNothing(w: string, text: seq<string>)
    requires ClosedWord(w)
    ensures !SharesRun(Words(w), text, RUN_LEN)
  {
    ClosedIsOneWord(w);
  }

  method LowerWords(texts: seq<string>, lower: string -> string) returns (words: seq<seq<string>>)
    ensures |words| == |texts| && forall i :: 0 <= i < |texts| ==> words[i] == Words(lower(texts[i]))
  {
    words := [];
    for i := 0 to |texts|
      invariant |words| == i && forall k :: 0 <= k < i ==> words[k] == Words(lower(texts[k]))
    {
      words := words + [Words(lower(texts[i]))];
    }
  }

  /** The schema alone decides: an answer that fits it is passed on whatever the entries say, for
      no closed word is long enough for the leak check to hold it back. */
  method Validate(raw: Json, texts: seq<string>, lower: string -> string) returns (answer: Answer)
    requires KeepsAnswers(lower)
    ensures Closed(answer)
    ensures answer == if Schema(raw).Some? then Schema(raw).value else UNSURE
  {
    var schema := Schema(raw);
    if schema.None? {
      return UNSURE;
    }
    answer := schema.value;
    var entries := LowerWords(texts, lower);
    var values := [Some(answer.answer), answer.strength, answer.when, Some(answer.count)];
    for i := 0 to |values| {
      if values[i].Some? {
        ClosedIsOneWord(values[i].value);
        var leaks := SharesLongRun(Words(lower(values[i].value)), entries, RUN_LEN);
        if leaks {
          return UNSURE;
        }
      }
    }
  }

  // ---- the gate ----

  datatype Ask = Ask(ask: string, topic: string, windowDays: nat)

  datatype Denylist = Denylist(agents: seq<string>, topics: seq<string>)

  predicate Denied(ask: Ask, caller: string, deny: Denylist, lower: string -> string) {
    || caller in deny.agents
    || exists i :: 0 <= i < |deny.topics| && deny.topics[i] != "" && Contains(lower(ask.topic), lower(deny.topics[i]))
  }

  /** Only closed answers come out; a denied ask is answered the same whatever the journal holds
      and the model says. `ask` is None when it does not fit its schema, `deny` when there is no
      list. A model that gives None has raised, and then, and only then, the gate raises. */
  method Gate(ask: Option<Ask>, caller: string, deny: Option<Denylist>, retrieve: Ask -> seq<string>,
              model: (Ask, seq<string>) -> Option<Json>, lower: string -> string) returns (answer: Option<Answer>)
    requires KeepsAnswers(lower)
    ensures answer.Some? ==> Closed(answer.value)
    ensures answer ==
            if ask.None? || (deny.Some? && Denied(ask.value, caller, deny.value, lower)) then Some(UNSURE)
            else match model(ask.value, retrieve(ask.value))
              case None => None
              case Some(raw) => Some(if Schema(raw).Some? then Schema(raw).value else UNSURE)
  {
    if ask.None? {
      return Some(UNSURE);
    }
    if deny.Some? && Denied(ask.value, caller, deny.value, lower) {
      return Some(UNSURE);
    }
    var hits := retrieve(ask.value);
    var raw := model(ask.value, hits);
    if raw.None? {
      return None;
    }
    var closed := Validate(raw.value, hits, lower);
    answer := Some(closed);
  }

  // ---- the model that is asked over the network ----

  /** What a subscript gives: a value, an error that is caught (no such key or index), or one
      that is not (the value has no subscripts of that kind). */
  datatype Got = Value(j: Json) | Missing | Raises

  function AtKey(j: Json, key: string): Got {
    if !j.Dict? then Raises else if key in j.entries then Value(j.entries[key]) else Missing
  }

  function AtFirst(j: Json): Got {
    match j
    case List(items) => if items == [] then Missing else Value(items[0])
    case Str(s) => if s == "" then Missing else Value(Str([s[0]]))
    case Dict(_) => Missing
    case _ => Raises
  }

  function Then(g: Got, next: Json -> Got): Got { if g.Value? then next(g.j) else g }

  function Message(body: Json): Got { Then(Then(AtKey(body, "choices"), AtFirst), first => AtKey(first, "message")) }

  function Content(body: Json): Got { Then(Message(body), message => AtKey(message, "content")) }

  const UNSURE_JSON := Dict(map["answer" := Str("unsure"), "strength" := Null, "when" := Null, "count" := Str("0")])

  const NOTHING_JSON := Dict(map["answer" := Str("no"), "strength" := Null, "when" := Null, "count" := Str("0")])

  /** `s.rfind("}")` */
  function LastBrace(s: string): Option<nat> {
    if s == "" then None else if s[|s| - 1] == '}' then Some(|s| - 1) else LastBrace(s[..|s| - 1])
  }

  /** What is read from the reply's text: the stretch from the first brace to the last, if it parses. */
  function ReadText(text: string, loads: string -> Option<Json>): Json {
    match (Find(text, "{", 0), LastBrace(text))
    case (Some(start), Some(end)) =>
      if end < start then UNSURE_JSON
      else var j := loads(Slice(text, start, end + 1)); if j.Some? then j.value else UNSURE_JSON
    case _ => UNSURE_JSON
  }

  /** `real_model`: `body` is None when the request fails or its reply does not parse. */
  function RealModel(hits: seq<string>, body: Option<Json>, loads: string -> Option<Json>): Option<Json> {
    if hits == [] then Some(NOTHING_JSON)
    else if body.None? then Some(UNSURE_JSON)
    else
      match Content(body.value)
      case Missing => Some(UNSURE_JSON)
      case Raises => None
      case Value(text) => if text.Str? then Some(ReadText(text.s, loads)) else None
  }

  /** The reply has a part of the wrong kind on the way to its text: the body is no object, its
      choices no list, the first of them or its message no object, or the content no text. */
  predicate Misshapen(body: Json) {
    || !body.Dict?
    || ("choices" in body.entries && MisshapenChoices(body.entries["choices"]))
  }

  predicate MisshapenChoices(choices: Json) {
    || choices.Null? || choices.Bool? || choices.Number? || (choices.Str? && choices.s != "")
    || (choices.List? && choices.items != [] && MisshapenChoice(choices.items[0]))
  }

  predicate MisshapenChoice(choice: Json) {
    || !choice.Dict?
    || ("message" in choice.entries && MisshapenMessage(choice.entries["message"]))
  }

  predicate MisshapenMessage(message: Json) {
    !message.Dict? || ("content" in message.entries && !message.entries["content"].Str?)
  }

  /** The asked model raises exactly on replies with a part of the wrong kind, once there is
      something to ask it about and the request goes through. */
  lemma RealModelRaisesIff(hits: seq<string>, body: Option<Json>, loads: string -> Option<Json>)
    ensures RealModel(hits, body, loads).None? <==> hits != [] && body.Some? && Misshapen(body.value)
  {
    if body.Some? && body.value.Dict? && "choices" in body.value.entries {
      var choices := body.value.entries["choices"];
      var first := AtFirst(choices);
      if first.Value? && first.j.Dict? && "message" in first.j.entries {
        assert Message(body.value) == Value(first.j.entries["message"]);
      }
    }
  }

  /** The case that fails: a reply whose content is null. */
  lemma NullContentRaises(hits: seq<string>, loads: string -> Option<Json>)
    requires hits != []
    ensures var message := Dict(map["content" := Null]);
            var body := Dict(map["choices" := List([Dict(map["message" := message])])]);
            RealModel(hits, Some(body), loads).None?
  {
    var message := Dict(map["content" := Null]);
    RealModelRaisesIff(hits, Some(Dict(map["choices" := List([Dict(map["message" := message])])])), loads);
  }

  // ---- what is read, word for word ----

  /** A part of an answer that may be missing is null, or one of its words. */
  predicate Part(entries: map<string, Json>, key: string, words: set<string>, part: Option<string>) {
    match part
    case None => key !in entries || entries[key] == Null
    case Some(w) => key in entries && entries[key] == Str(w) && w in words
  }

  /** The reply is an object with these parts and no other. */
  ghost predicate Spells(raw: Json, a: Answer) {
    && raw.Dict?
    && (forall key :: key in raw.entries ==> key == "answer" || key == "strength" || key == "when" || key == "count")
    && Part(raw.entries, "answer", {"yes", "no", "unsure"}, Some(a.answer))
    && Part(raw.entries, "strength", {"weak", "strong"}, a.strength)
    && Part(raw.entries, "when", {"this_week", "this_month", "older"}, a.when)
    && Part(raw.entries, "count", {"0", "1-2", "3-9", "10+"}, Some(a.count))
  }

  lemma PartStrength(entries: map<string, Json>, part: Option<string>)
    ensures Part(entries, "strength", {"weak", "strong"}, part) <==>
            var j := Get(entries, "strength"); (j.Null? || (j.Str? && IsStrength(j.s))) && part == Optional(j)
  {
  }

  lemma PartTime(entries: map<string, Json>, part: Option<string>)
    ensures Part(entries, "when", {"this_week", "this_month", "older"}, part) <==>
            var j := Get(entries, "when"); (j.Null? || (j.Str? && IsTime(j.s))) && part == Optional(j)
  {
  }

  lemma PartAnswer(entries: map<string, Json>, w: string)
    ensures Part(entries, "answer", {"yes", "no", "unsure"}, Some(w)) <==>
            var j := Get(entries, "answer"); j.Str? && IsAnswer(j.s) && w == j.s
  {
  }

  lemma PartCount(entries: map<string, Json>, w: string)
    ensures Part(entries, "count", {"0", "1-2", "3-9", "10+"}, Some(w)) <==>
            var j := Get(entries, "count"); j.Str? && IsCount(j.s) && w == j.s
  {
  }

  lemma FourKeys(keys: set<string>)
    ensures keys <= {"answer", "strength", "when", "count"} <==>
            forall key :: key in keys ==> key == "answer" || key == "strength" || key == "when" || key == "count"
  {
  }

  /** A reply fits the schema exactly when it spells an answer, and then it is that one. */
  lemma SchemaIff(raw: Json, a: Answer)
    ensures Schema(raw) == Some(a) <==> Spells(raw, a)
  {
    if raw.Dict? {
      FourKeys(raw.entries.Keys);
      PartAnswer(raw.entries, a.answer);
      PartCount(raw.entries, a.count);
      PartStrength(raw.entries, a.strength);
      PartTime(raw.entries, a.when);
    }
  }

  /** An ask is denied exactly when its caller is listed, or some listed topic that is not empty
      stands in its topic, in lower case. */
  lemma DeniedIff(ask: Ask, caller: string, deny: Denylist, lower: string -> string)
    ensures Denied(ask, caller, deny, lower) <==>
            || caller in deny.agents
            || exists topic, front, back ::
                 topic in deny.topics && topic != "" && lower(ask.topic) == front + lower(topic) + back
  {
    forall topic ensures Contains(lower(ask.topic), lower(topic)) <==>
                         exists front, back :: lower(ask.topic) == front + lower(topic) + back
    {
      StandsIn(lower(ask.topic), lower(topic));
    }
    if Denied(ask, caller, deny, lower) && caller !in deny.agents {
      var i :| 0 <= i < |deny.topics| && deny.topics[i] != "" && Contains(lower(ask.topic), lower(deny.topics[i]));
      assert deny.topics[i] in deny.topics;
    }
  }

  lemma StandsIn(s: string, w: string)
    ensures Contains(s, w) <==> exists front, back :: s == front + w + back
  {
    if Contains(s, w) {
      var i: nat :| i <= |s| && OccursAt(s, w, i);
      assert s == s[..i] + w + s[i + |w|..];
    }
    if front, back :| s == front + w + back {
      assert OccursAt(s, w, |front|);
    }
  }

  lemma {:induction false} LastBraceIs(s: string)
    ensures match LastBrace(s)
            case None => '}' !in s
            case Some(i) => i < |s| && s[i] == '}' && '}' !in s[i + 1..]
  {
    if s != "" && s[|s| - 1] != '}' {
      var front := s[..|s| - 1];
      LastBraceIs(front);
      if LastBrace(front).Some? {
        var i := LastBrace(front).value;
        assert s[i + 1..] == front[i + 1..] + [s[|s| - 1]];
      } else {
        assert s == front + [s[|s| - 1]];
      }
    }
  }

  lemma {:induction false} LastBraceAt(a: string, b: string)
    requires a != "" && a[|a| - 1] == '}' && '}' !in b
    ensures LastBrace(a + b) == Some(|a| - 1)
  {
    if b == "" {
      assert a + b == a;
    } else {
      var n := |b| - 1;
      assert (a + b)[..|a + b| - 1] == a + b[..n];
      LastBraceAt(a, b[..n]);
    }
  }

  /** From the model's text, what is parsed is the stretch from the first brace to the last. */
  lemma TextMeans(front: string, inner: string, back: string, loads: string -> Option<Json>)
    requires '{' !in front && '}' !in back
    requires inner != "" && inner[0] == '{' && inner[|inner| - 1] == '}'
    ensures ReadText(front + inner + back, loads) == if loads(inner).Some? then loads(inner).value else UNSURE_JSON
  {
    var s := front + inner + back;
    FirstBrace(front, inner + back);
    assert s == front + (inner + back);
    LastBraceAt(front + inner, back);
    assert Slice(s, |front|, |front + inner|) == inner;
  }

  lemma FirstBrace(front: string, rest: string)
    requires '{' !in front && rest != "" && rest[0] == '{'
    ensures Find(front + rest, "{", 0) == Some(|front|)
  {
    var s := front + rest;
    CharOccurs(s, "{", |front|);
    FindFirst(s, "{", 0);
    forall j: nat | j < |front| ensures !OccursAt(s, "{", j) {
      assert s[j + 0] == front[j] != "{"[0];
    }
  }

  /** Without a brace in front of another, the text says nothing. */
  lemma TextWithout(text: string, loads: string -> Option<Json>)
    requires '{' !in text || '}' !in text
    ensures ReadText(text, loads) == UNSURE_JSON
  {
    LastBraceIs(text);
    FindFirst(text, "{", 0);
    if Find(text, "{", 0).Some? {
      assert text[Find(text, "{", 0).value + 0] == "{"[0];
      assert text[Find(text, "{", 0).value] in text;
    }
  }

  lemma TextBackwards(front: string, back: string, loads: string -> Option<Json>)
    requires '{' !in front && '}' !in back
    ensures ReadText(front + back, loads) == UNSURE_JSON
  {
    var s := front + back;
    assert forall i :: 0 <= i < |front| ==> s[i] in front;
    assert forall k :: |front| <= k < |s| ==> s[k] in back;
    LastBraceIs(s);
    FindFirst(s, "{", 0);
    if Find(s, "{", 0).Some? {
      assert s[Find(s, "{", 0).value + 0] == "{"[0];
    }
  }

  /** What the asked model says when its reply has the usual shape. */
  lemma ModelSays(hits: seq<string>, body: Json, choice: Json, message: Json, rest: seq<Json>, text: string,
                  loads: string -> Option<Json>)
    requires hits != [] && body.Dict? && choice.Dict? && message.Dict?
    requires "choices" in body.entries && body.entries["choices"] == List([choice] + rest)
    requires "message" in choice.entries && choice.entries["message"] == message
    requires "content" in message.entries && message.entries["content"] == Str(text)
    ensures RealModel(hits, Some(body), loads) == Some(ReadText(text, loads))
  {
    assert AtFirst(body.entries["choices"]) == Value(choice);
    assert Message(body) == Value(message);
  }

  /** It says no without asking when the journal has nothing, and is unsure when nothing came back. */
  lemma ModelWithout(hits: seq<string>, body: Option<Json>, loads: string -> Option<Json>)
    requires hits == [] || body.None?
    ensures var said := Dict(map["answer" := Str(if hits == [] then "no" else "unsure"), "strength" := Null,
                                 "when" := Null, "count" := Str("0")]);
            RealModel(hits, body, loads) == Some(said)
  {
  }
}
