/** Recovering tool calls from raw model text (`_lenient_json_loads`, `_coerce_tool_call`,
    `lenient_tool_calls`). What `json.loads`, `ast.literal_eval` and `json.dumps` do is a parameter. */
module LenientCalls {
  import opened JsonScan
  import opened JsonValues
  import opened ObjectSplit
  import opened PyText
  import opened TextOrder

  datatype Parser = Parser(loads: string -> Option<Json>, literal: string -> Option<Json>, dumps: Json -> string)

  datatype Call = Call(id: string, name: string, arguments: string)

  datatype Reply = Reply(calls: seq<Call>, text: string)

  // ---- one chunk ----

  function CommaHit(s: string): nat {
    if s != "" && s[0] == ',' then
      var n := 1 + Run(s[1..], IsSpace);
      if n < |s| && IsCloser(s[n]) then n else 0
    else 0
  }

  /** Commas before a closer are dropped, with the white space between. */
  function DropCommas(s: string): string { Sub(s, CommaHit, "") }

  /** The first candidate that parses to an object. */
  function FirstDict(parse: string -> Option<Json>, candidates: seq<string>): Option<Json> {
    if candidates == [] then None
    else
      var j := parse(candidates[0]);
      if j.Some? && j.value.Dict? then j else FirstDict(parse, candidates[1..])
  }

  function FromFirstBrace(text: string): string {
    match Find(text, "{", 0)
    case Some(i) => text[i..]
    case None => text
  }

  function LenientLoads(p: Parser, raw: Json): Option<Json> {
    if raw.Dict? || raw.List? then Some(raw)
    else if !raw.Str? || Strip(raw.s) == "" then None
    else
      var text := FromFirstBrace(Strip(raw.s));
      var plain := FirstDict(p.loads, [text, DropCommas(text), Balanced(DropCommas(text))]);
      if plain.Some? then plain else FirstDict(p.literal, [Balanced(text)])
  }

  predicate Named(j: Json) { j.Str? && Strip(j.s) != "" }

  function FirstNamed(entries: map<string, Json>, keys: seq<string>): Json {
    if keys == [] then Null
    else if Named(Get(entries, keys[0])) then entries[keys[0]]
    else FirstNamed(entries, keys[1..])
  }

  function FirstPresent(entries: map<string, Json>, keys: seq<string>, default: Json): Json {
    if keys == [] then default
    else if keys[0] in entries then entries[keys[0]]
    else FirstPresent(entries, keys[1..], default)
  }

  function Coerce(p: Parser, obj: Json): Option<Call> {
    if !obj.Dict? then None
    else
      var nested := Get(obj.entries, "function");
      var inner := if nested.Dict? then Get(nested.entries, "name") else Null;
      var name := if Named(inner) then inner else FirstNamed(obj.entries, ["name", "tool", "tool_name"]);
      if !Named(name) then None
      else
        var innerArgs := if nested.Dict? then FirstPresent(nested.entries, ["arguments"], Dict(map[])) else Dict(map[]);
        var args := FirstPresent(obj.entries, ["arguments", "args", "parameters", "inputs"], innerArgs);
        Some(Call("", Strip(name.s),
                  if args.Str? then args.s else p.dumps(if args.Null? then Dict(map[]) else args)))
  }

  function Recover(p: Parser, chunk: string): Option<Call> {
    match LenientLoads(p, Str(chunk))
    case None => None
    case Some(obj) => Coerce(p, obj)
  }

  // ---- whole replies ----

  const MARKERS: seq<string> := [
    "<|tool_call_start|>", "<|tool_call_end|>", "<|tool_calls|>", "<|tool_call|>",
    "<tool_response>", "<|fim_middle|>", "<|end|>"]

  const OPENERS: seq<string> := ["<|tool_call_start|>", "<|tool_call|>", "<tool_response>"]

  const ENDERS: seq<string> := ["<|tool_call_end|>", "<|fim_middle|>", "<|end|>", "</tool_response>"]

  const CALL_WORDS: seq<string> := ["\"name\"", "\"function\"", "\"tool\""]

  predicate HasAny(content: string, words: seq<string>) {
    exists k :: 0 <= k < |words| && Contains(content, words[k])
  }

  /** The markers replaced by a space, one kind after another. */
  function Stripped(text: string, markers: seq<string>): string {
    if markers == [] then text
    else Replace(Stripped(text, markers[..|markers| - 1]), markers[|markers| - 1], " ")
  }

  method StripMarkers(text: string) returns (r: string)
    ensures r == Stripped(text, MARKERS)
  {
    r := text;
    for i := 0 to |MARKERS|
      invariant r == Stripped(text, MARKERS[..i])
    {
      assert MARKERS[..i + 1][..i] == MARKERS[..i];
      r := Replace(r, MARKERS[i], " ");
    }
    assert MARKERS[..|MARKERS|] == MARKERS;
  }

  function OpenerHit(s: string): nat {
    if OPENERS[0] <= s then |OPENERS[0]|
    else if OPENERS[1] <= s then |OPENERS[1]|
    else if OPENERS[2] <= s then |OPENERS[2]|
    else 0
  }

  function Segments(content: string): (segs: seq<string>)
    ensures segs != []
  {
    Split("", content, OpenerHit)
  }

  /** `seg.partition(w)` without its middle. */
  function Partition(seg: string, w: string): (string, string) {
    match Find(seg, w, 0)
    case Some(i) => (seg[..i], seg[i + |w|..])
    case None => (seg, "")
  }

  /** A call segment up to its end marker, and what comes after it. */
  function CutSegment(seg: string, enders: seq<string>): (string, string) {
    if enders == [] then (seg, "")
    else if Contains(seg, enders[0]) then Partition(seg, enders[0])
    else CutSegment(seg, enders[1..])
  }

  /** What each item gives in calls, in order. */
  function Gather(items: seq<string>, calls: string -> seq<Call>): seq<Call> {
    if items == [] then [] else Gather(items[..|items| - 1], calls) + calls(items[|items| - 1])
  }

  function ChunkCall(p: Parser): string -> seq<Call> {
    chunk => match Recover(p, chunk) case None => [] case Some(c) => [c]
  }

  /** The calls recovered from chunks. */
  function CallsOf(p: Parser, chunks: seq<string>): seq<Call> { Gather(chunks, ChunkCall(p)) }

  /** The parser makes a call of the chunk. */
  function IsCall(p: Parser): string -> bool { chunk => Recover(p, chunk).Some? }

  /** Each chunk that `cut` names replaced, once, by a space. */
  function Replaced(cut: string -> bool, chunks: seq<string>, text: string): string {
    if chunks == [] then text
    else
      var chunk, before := chunks[|chunks| - 1], Replaced(cut, chunks[..|chunks| - 1], text);
      if cut(chunk) then ReplaceFirst(before, chunk, " ") else before
  }

  /** The text with its recovered chunks replaced. */
  function Blanked(p: Parser, chunks: seq<string>, text: string): string { Replaced(IsCall(p), chunks, text) }

  /** The calls of a wrapper segment. */
  function CallsInside(p: Parser, enders: seq<string>, seg: string): seq<Call> {
    CallsOf(p, SplitObjects(CutSegment(seg, enders).0))
  }

  function InnerCalls(p: Parser, enders: seq<string>): string -> seq<Call> { seg => CallsInside(p, enders, seg) }

  function SegmentCalls(p: Parser, segs: seq<string>, enders: seq<string>): seq<Call> {
    Gather(segs, InnerCalls(p, enders))
  }

  function Kept(segs: seq<string>, enders: seq<string>): seq<string>
    requires segs != []
  {
    if |segs| == 1 then segs else Kept(segs[..|segs| - 1], enders) + [CutSegment(segs[|segs| - 1], enders).1]
  }

  function NonBlank(parts: seq<string>): seq<string> {
    if parts == [] then []
    else NonBlank(parts[..|parts| - 1]) + if Strip(parts[|parts| - 1]) != "" then [parts[|parts| - 1]] else []
  }

  predicate IsBlank(c: char) { c == ' ' || c == '\t' }

  function BlankHit(s: string): nat { RunOf(IsBlank, 2)(s) }

  function NewlineHit(s: string): nat { RunOf(IsNewline, 3)(s) }

  function Tidied(text: string): string {
    Strip(Sub(Sub(text, BlankHit, " "), NewlineHit, "\n\n"))
  }

  function Numbered(calls: seq<Call>): seq<Call> {
    seq(|calls|, i requires 0 <= i < |calls| => calls[i].(id := "lenient-" + Decimal(i)))
  }

  /** What the wrapper segments hold in calls; without markers there are none. */
  function Wrapped(p: Parser, content: string): seq<Call> {
    if HasAny(content, MARKERS) then SegmentCalls(p, Segments(content)[1..], ENDERS) else []
  }

  /** What stands outside the wrapper segments. */
  function Prose(content: string): string {
    if HasAny(content, MARKERS) then Join("\n", NonBlank(Kept(Segments(content), ENDERS))) else content
  }

  function Finished(calls: seq<Call>, left: string, content: string): Reply {
    var text := Tidied(Stripped(left, MARKERS));
    Reply(Numbered(calls), if text == "" && calls == [] then Strip(Stripped(content, MARKERS)) else text)
  }

  function Lenient(p: Parser, content: string): Reply {
    if !HasAny(content, MARKERS) && !HasAny(content, CALL_WORDS) then Reply([], content)
    else
      var wrapped, prose := Wrapped(p, content), Prose(content);
      if wrapped != [] then Finished(wrapped, prose, content)
      else Finished(CallsOf(p, SplitObjects(prose)), Blanked(p, SplitObjects(prose), prose), content)
  }

  /** The loop over one text's chunks, recovering calls and blanking them out. */
  method CollectCalls(p: Parser, text: string) returns (calls: seq<Call>, left: string)
    ensures calls == CallsOf(p, SplitObjects(text))
    ensures left == Blanked(p, SplitObjects(text), text)
  {
    calls, left := [], text;
    var chunks := SplitIntoObjects(text);
    for c := 0 to |chunks|
      invariant calls == CallsOf(p, chunks[..c])
      invariant left == Blanked(p, chunks[..c], text)
    {
      assert chunks[..c + 1][..c] == chunks[..c];
      var call := Recover(p, chunks[c]);
      if call.Some? {
        calls := calls + [call.value];
        left := ReplaceFirst(left, chunks[c], " ");
      }
    }
    assert chunks[..|chunks|] == chunks;
  }

  /** The loop over the wrapper segments. What is blanked out of a segment is not kept. */
  method CollectSegments(p: Parser, segs: seq<string>, enders: seq<string>)
    returns (calls: seq<Call>, kept: seq<string>)
    requires segs != []
    ensures calls == SegmentCalls(p, segs[1..], enders) && kept == Kept(segs, enders)
  {
    calls, kept := [], [segs[0]];
    assert segs[..1] == [segs[0]];
    for i := 1 to |segs|
      invariant kept == Kept(segs[..i], enders)
      invariant calls == SegmentCalls(p, segs[1..i], enders)
    {
      KeptNext(segs, i, enders);
      SegmentCallsNext(p, segs, i, enders);
      var cut := CutSegment(segs[i], enders);
      kept := kept + [cut.1];
      var found, seg := CollectCalls(p, cut.0);
      calls := calls + found;
    }
    assert segs[..|segs|] == segs && segs[1..|segs|] == segs[1..];
  }

  lemma GatherNext(items: seq<string>, calls: string -> seq<Call>, i: nat)
    requires i < |items|
    ensures Gather(items[..i + 1], calls) == Gather(items[..i], calls) + calls(items[i])
  {
    assert items[..i + 1][..i] == items[..i];
  }

  lemma KeptNext(segs: seq<string>, i: nat, enders: seq<string>)
    requires 1 <= i < |segs|
    ensures Kept(segs[..i + 1], enders) == Kept(segs[..i], enders) + [CutSegment(segs[i], enders).1]
  {
    assert segs[..i + 1][..i] == segs[..i];
  }

  lemma SegmentCallsNext(p: Parser, segs: seq<string>, i: nat, enders: seq<string>)
    requires 1 <= i < |segs|
    ensures SegmentCalls(p, segs[1..i + 1], enders) ==
            SegmentCalls(p, segs[1..i], enders) + CallsInside(p, enders, segs[i])
  {
    assert segs[1..][..i - 1] == segs[1..i] && segs[1..][..i] == segs[1..i + 1];
    GatherNext(segs[1..], InnerCalls(p, enders), i - 1);
  }

  method NumberCalls(found: seq<Call>) returns (calls: seq<Call>)
    ensures calls == Numbered(found)
  {
    calls := found;
    for i := 0 to |calls|
      invariant |calls| == |found|
      invariant forall k :: 0 <= k < i ==> calls[k] == Numbered(found)[k]
      invariant forall k :: i <= k < |calls| ==> calls[k] == found[k]
    {
      calls := calls[i := calls[i].(id := "lenient-" + Decimal(i))];
    }
  }

  method LenientToolCalls(p: Parser, content: string) returns (calls: seq<Call>, remaining: string)
    ensures Reply(calls, remaining) == Lenient(p, content)
  {
    if content == "" {
      NothingInNothing(MARKERS);
      NothingInNothing(CALL_WORDS);
      return [], "";
    }
    var hasMarker := HasAny(content, MARKERS);
    if !hasMarker && !HasAny(content, CALL_WORDS) {
      return [], content;
    }
    calls, remaining := [], content;
    if hasMarker {
      var kept;
      calls, kept := CollectSegments(p, Segments(content), ENDERS);
      remaining := Join("\n", NonBlank(kept));
    }
    if calls == [] {
      calls, remaining := CollectCalls(p, remaining);
    }
    calls := NumberCalls(calls);
    remaining := StripMarkers(remaining);
    remaining := Tidied(remaining);
    if remaining == "" && calls == [] {
      remaining := StripMarkers(content);
      remaining := Strip(remaining);
    }
  }

  lemma NothingInNothing(words: seq<string>)
    requires forall k :: 0 <= k < |words| ==> words[k] != ""
    ensures !HasAny("", words)
  {
  }

  // ---- no marker reaches the reader ----

  lemma MarkerLetters()
    ensures SpaceFree("<|tool_call_start|>") && SpaceFree("<|tool_call_end|>") && SpaceFree("<|tool_calls|>")
    ensures SpaceFree("<|tool_call|>") && SpaceFree("<tool_response>") && SpaceFree("<|fim_middle|>")
    ensures SpaceFree("<|end|>")
  {
  }

  lemma MarkersAreWords(k: nat)
    requires k < |MARKERS|
    ensures MARKERS[k] != "" && SpaceFree(MARKERS[k])
  {
    MarkerLetters();
  }

  lemma {:induction false} StrippedWords(text: string, n: nat)
    requires n <= |MARKERS|
    ensures WordsOf(Stripped(text, MARKERS[..n]), text)
    ensures forall k :: 0 <= k < n ==> !Contains(Stripped(text, MARKERS[..n]), MARKERS[k])
  {
    if n == 0 {
      WholeWords(text);
    } else {
      StrippedWords(text, n - 1);
      assert MARKERS[..n][..n - 1] == MARKERS[..n - 1];
      var before, w := Stripped(text, MARKERS[..n - 1]), MARKERS[n - 1];
      MarkersAreWords(n - 1);
      SubWords(before, Literal(w), " ");
      ReplaceRemoves(before, w);
      forall k | 0 <= k < n ensures !Contains(Stripped(text, MARKERS[..n]), MARKERS[k]) {
        MarkersAreWords(k);
      }
    }
  }

  lemma TidiedWords(text: string)
    ensures WordsOf(Tidied(text), text)
  {
    var once := Sub(text, BlankHit, " ");
    var twice := Sub(once, NewlineHit, "\n\n");
    SubWords(text, BlankHit, " ");
    SubWords(once, NewlineHit, "\n\n");
    StripTrims(twice);
    PieceWords(Strip(twice), twice);
  }

  lemma WordsKeepMarkersOut(text: string, source: string)
    requires WordsOf(text, source) && !HasAny(source, MARKERS)
    ensures !HasAny(text, MARKERS)
  {
    forall k | 0 <= k < |MARKERS| ensures !Contains(text, MARKERS[k]) {
      MarkersAreWords(k);
    }
  }

  /** Whatever the model wrote and whatever the parser makes of it, the visible reply
      holds none of the wrapper markers. */
  lemma NoMarkerSurvives(p: Parser, content: string)
    ensures !HasAny(Lenient(p, content).text, MARKERS)
  {
    if HasAny(content, MARKERS) || HasAny(content, CALL_WORDS) {
      forall t: string ensures !HasAny(Tidied(Stripped(t, MARKERS)), MARKERS)
      {
        StrippedClean(t);
        TidiedWords(Stripped(t, MARKERS));
        WordsKeepMarkersOut(Tidied(Stripped(t, MARKERS)), Stripped(t, MARKERS));
      }
      var bare := Stripped(content, MARKERS);
      StrippedClean(content);
      StripTrims(bare);
      PieceWords(Strip(bare), bare);
      WordsKeepMarkersOut(Strip(bare), bare);
    }
  }

  lemma StrippedClean(text: string)
    ensures WordsOf(Stripped(text, MARKERS), text) && !HasAny(Stripped(text, MARKERS), MARKERS)
  {
    StrippedWords(text, |MARKERS|);
    assert MARKERS[..|MARKERS|] == MARKERS;
  }

  // ---- the visible reply is made of the content's own words ----

  lemma PartitionPieces(seg: string, w: string)
    ensures Contains(seg, Partition(seg, w).0) && Contains(seg, Partition(seg, w).1)
  {
    match Find(seg, w, 0)
    case Some(i) =>
      ContainsPart(seg, 0, i);
      ContainsPart(seg, i + |w|, |seg|);
      assert seg[i + |w|..|seg|] == seg[i + |w|..];
    case None =>
      WholePieces(seg);
  }

  lemma WholePieces(seg: string)
    ensures Contains(seg, seg) && Contains(seg, "")
  {
    ContainsPart(seg, 0, |seg|);
    assert seg[0..|seg|] == seg;
    ContainsPart(seg, 0, 0);
  }

  lemma {:induction false} CutSegmentPieces(seg: string, enders: seq<string>)
    ensures Contains(seg, CutSegment(seg, enders).0) && Contains(seg, CutSegment(seg, enders).1)
  {
    if enders == [] {
      WholePieces(seg);
    } else if Contains(seg, enders[0]) {
      PartitionPieces(seg, enders[0]);
    } else {
      CutSegmentPieces(seg, enders[1..]);
    }
  }

  lemma {:induction false} KeptWords(segs: seq<string>, enders: seq<string>, source: string)
    requires segs != [] && forall part :: part in segs ==> Contains(source, part)
    ensures forall part :: part in Kept(segs, enders) ==> Contains(source, part)
  {
    if |segs| > 1 {
      var last := segs[|segs| - 1];
      KeptWords(segs[..|segs| - 1], enders, source);
      CutSegmentPieces(last, enders);
      assert last in segs;
      ContainsTrans(source, last, CutSegment(last, enders).1);
    }
  }

  lemma {:induction false} NonBlankOf(parts: seq<string>)
    ensures forall part :: part in NonBlank(parts) ==> part in parts
  {
    if parts != [] { NonBlankOf(parts[..|parts| - 1]); }
  }

  /** What is kept of wrapped content, before calls are blanked out. */
  lemma ProseWords(content: string)
    ensures WordsOf(Join("\n", NonBlank(Kept(Segments(content), ENDERS))), content)
  {
    var segs := Segments(content);
    assert "" + content == content;
    forall part | part in segs ensures Contains(content, part) {
      SplitParts("", content, OpenerHit, part);
    }
    KeptWords(segs, ENDERS, content);
    var parts := NonBlank(Kept(segs, ENDERS));
    NonBlankOf(Kept(segs, ENDERS));
    forall k | 0 <= k < |parts| ensures WordsOf(parts[k], content) {
      PieceWords(parts[k], content);
    }
    JoinWords("\n", parts, content);
  }

  lemma {:induction false} BlankedWords(p: Parser, chunks: seq<string>, text: string)
    ensures WordsOf(Blanked(p, chunks, text), text)
  {
    if chunks == [] {
      WholeWords(text);
    } else {
      var before := Blanked(p, chunks[..|chunks| - 1], text);
      BlankedWords(p, chunks[..|chunks| - 1], text);
      ReplaceFirstWords(before, chunks[|chunks| - 1]);
    }
  }

  lemma {:induction false} KeptInk(segs: seq<string>, enders: seq<string>)
    requires segs != []
    ensures InkFrom(Glued(Kept(segs, enders)), Glued(segs))
  {
    var front, last := segs[..|segs| - 1], segs[|segs| - 1];
    if front == [] {
      InkSame(Glued(segs));
    } else {
      KeptInk(front, enders);
      CutSegmentPieces(last, enders);
      InkContained(last, CutSegment(last, enders).1);
      InkBoth(Glued(Kept(front, enders)), Glued(front), CutSegment(last, enders).1, last);
    }
  }

  lemma {:induction false} NonBlankInk(parts: seq<string>)
    ensures InkFrom(Glued(NonBlank(parts)), Glued(parts))
  {
    if parts != [] {
      var front, last := parts[..|parts| - 1], parts[|parts| - 1];
      NonBlankInk(front);
      InkSame(last);
      InkNone("", last);
      InkBoth(Glued(NonBlank(front)), Glued(front), if Strip(last) != "" then last else "", last);
      assert Glued(NonBlank(front)) + "" == Glued(NonBlank(front));
      assert NonBlank(front) + [] == NonBlank(front);
    }
  }

  lemma ProseInk(content: string)
    ensures InkFrom(Prose(content), content)
  {
    InkSame(content);
    if HasAny(content, MARKERS) {
      var segs := Segments(content);
      var kept := Kept(segs, ENDERS);
      InkSplit("", content, OpenerHit);
      assert "" + content == content;
      KeptInk(segs, ENDERS);
      NonBlankInk(kept);
      InkJoined("\n", NonBlank(kept));
      InkTrans(Glued(kept), Glued(segs), content);
      InkTrans(Glued(NonBlank(kept)), Glued(kept), content);
      InkTrans(Prose(content), Glued(NonBlank(kept)), content);
    }
  }

  lemma {:induction false} StrippedInk(text: string, markers: seq<string>)
    ensures InkFrom(Stripped(text, markers), text)
  {
    InkSame(text);
    if markers != [] {
      var before := Stripped(text, markers[..|markers| - 1]);
      StrippedInk(text, markers[..|markers| - 1]);
      InkSub(before, Literal(markers[|markers| - 1]), " ");
      InkTrans(Stripped(text, markers), before, text);
    }
  }

  lemma {:induction false} BlankedInk(p: Parser, chunks: seq<string>, text: string)
    ensures InkFrom(Blanked(p, chunks, text), text)
  {
    InkSame(text);
    if chunks != [] {
      var before := Blanked(p, chunks[..|chunks| - 1], text);
      BlankedInk(p, chunks[..|chunks| - 1], text);
      InkReplaceFirst(before, chunks[|chunks| - 1]);
      if Recover(p, chunks[|chunks| - 1]).Some? { InkTrans(Blanked(p, chunks, text), before, text); }
    }
  }

  lemma TidiedInk(text: string)
    ensures InkFrom(Tidied(text), text)
  {
    var once := Sub(text, BlankHit, " ");
    var twice := Sub(once, NewlineHit, "\n\n");
    InkSub(text, BlankHit, " ");
    InkSub(once, NewlineHit, "\n\n");
    InkStrip(twice);
    InkTrans(twice, once, text);
    InkTrans(Tidied(text), twice, text);
  }

  lemma FinishedInk(calls: seq<Call>, left: string, content: string)
    requires InkFrom(left, content)
    ensures InkFrom(Finished(calls, left, content).text, content)
  {
    var bare := Stripped(left, MARKERS);
    StrippedInk(left, MARKERS);
    TidiedInk(bare);
    InkTrans(bare, left, content);
    InkTrans(Tidied(bare), bare, content);
    StrippedInk(content, MARKERS);
    InkStrip(Stripped(content, MARKERS));
    InkTrans(Strip(Stripped(content, MARKERS)), Stripped(content, MARKERS), content);
  }

  /** Nothing is put in the model's mouth and nothing is moved: the reply without its white
      space is the content without its white space, some of it crossed out. */
  lemma ReplyInOrder(p: Parser, content: string)
    ensures InkFrom(Lenient(p, content).text, content)
  {
    InkSame(content);
    if HasAny(content, MARKERS) || HasAny(content, CALL_WORDS) {
      var prose := Prose(content);
      var left := Blanked(p, SplitObjects(prose), prose);
      ProseInk(content);
      BlankedInk(p, SplitObjects(prose), prose);
      InkTrans(left, prose, content);
      FinishedInk(Wrapped(p, content), prose, content);
      FinishedInk(CallsOf(p, SplitObjects(prose)), left, content);
    }
  }

  lemma WordsTrans(a: string, b: string, c: string)
    requires WordsOf(a, b) && WordsOf(b, c)
    ensures WordsOf(a, c)
  {
  }

  lemma CleanedWords(left: string, content: string)
    requires WordsOf(left, content)
    ensures WordsOf(Tidied(Stripped(left, MARKERS)), content)
  {
    var bare := Stripped(left, MARKERS);
    StrippedClean(left);
    TidiedWords(bare);
    WordsTrans(bare, left, content);
    WordsTrans(Tidied(bare), bare, content);
  }

  lemma BareWords(content: string)
    ensures WordsOf(Strip(Stripped(content, MARKERS)), content)
  {
    var bare := Stripped(content, MARKERS);
    StrippedClean(content);
    StripTrims(bare);
    PieceWords(Strip(bare), bare);
    WordsTrans(Strip(bare), bare, content);
  }

  lemma FinishedWords(calls: seq<Call>, left: string, content: string)
    requires WordsOf(left, content)
    ensures WordsOf(Finished(calls, left, content).text, content)
  {
    CleanedWords(left, content);
    BareWords(content);
  }

  /** The reply is made of the content's own words: every unbroken stretch of it stands there. */
  lemma ReplyWords(p: Parser, content: string)
    ensures WordsOf(Lenient(p, content).text, content)
  {
    WholeWords(content);
    ProseWords(content);
    var prose := Prose(content);
    var left := Blanked(p, SplitObjects(prose), prose);
    BlankedWords(p, SplitObjects(prose), prose);
    WordsTrans(left, prose, content);
    FinishedWords(Wrapped(p, content), prose, content);
    FinishedWords(CallsOf(p, SplitObjects(prose)), left, content);
  }

  // ---- prose passes through ----

  function BlanksAt(text: string): nat -> bool {
    (i: nat) => i + 1 < |text| && IsBlank(text[i]) && IsBlank(text[i + 1])
  }

  function GapAt(text: string): nat -> bool {
    (i: nat) => i + 2 < |text| && IsNewline(text[i]) && IsNewline(text[i + 1]) && IsNewline(text[i + 2])
  }

  predicate Doubled(text: string) { exists i :: 0 <= i < |text| && BlanksAt(text)(i) }

  predicate Gapped(text: string) { exists i :: 0 <= i < |text| && GapAt(text)(i) }

  /** Already in the shape the final clean-up gives. */
  predicate Tidy(text: string) { Trimmed(text) && !Doubled(text) && !Gapped(text) }

  lemma BlankHitAt(text: string, i: nat)
    requires i < |text|
    ensures 0 < BlankHit(text[i..]) <= |text| - i <==> BlanksAt(text)(i)
  {
    RunBounded(text[i..], IsBlank);
  }

  lemma NewlineHitAt(text: string, i: nat)
    requires i < |text|
    ensures 0 < NewlineHit(text[i..]) <= |text| - i <==> GapAt(text)(i)
  {
    RunBounded(text[i..], IsNewline);
  }

  lemma HitsAreLong(t: string)
    ensures 0 < BlankHit(t) <= |t| ==> BlankHit(t) > 1
    ensures 0 < NewlineHit(t) <= |t| ==> NewlineHit(t) > 2
  {
  }

  lemma BlankHits(text: string)
    ensures Sub(text, BlankHit, " ") == text <==> !Doubled(text)
    ensures Sub(text, BlankHit, " ") == text || |Sub(text, BlankHit, " ")| < |text|
  {
    forall t: string ensures 0 < BlankHit(t) <= |t| ==> |" "| < BlankHit(t) { HitsAreLong(t); }
    forall i: nat | i < |text| ensures 0 < BlankHit(text[i..]) <= |text| - i <==> BlanksAt(text)(i) {
      BlankHitAt(text, i);
    }
    SubIdentityAt(text, BlankHit, " ", BlanksAt(text));
  }

  lemma NewlineHits(text: string)
    ensures Sub(text, NewlineHit, "\n\n") == text <==> !Gapped(text)
    ensures Sub(text, NewlineHit, "\n\n") == text || |Sub(text, NewlineHit, "\n\n")| < |text|
  {
    forall t: string ensures 0 < NewlineHit(t) <= |t| ==> |"\n\n"| < NewlineHit(t) { HitsAreLong(t); }
    forall i: nat | i < |text| ensures 0 < NewlineHit(text[i..]) <= |text| - i <==> GapAt(text)(i) {
      NewlineHitAt(text, i);
    }
    SubIdentityAt(text, NewlineHit, "\n\n", GapAt(text));
  }

  /** The clean-up leaves exactly the tidy texts alone. */
  lemma TidiedIdentity(text: string)
    ensures Tidied(text) == text <==> Tidy(text)
  {
    var once := Sub(text, BlankHit, " ");
    var twice := Sub(once, NewlineHit, "\n\n");
    BlankHits(text);
    NewlineHits(once);
    StripTrims(twice);
    SameLengthPiece(twice);
  }

  /** A stripped text of full length is the text. */
  lemma SameLengthPiece(text: string)
    ensures |Strip(text)| == |text| ==> Strip(text) == text
  {
    var i := StripPiece(text, IsSpace);
    if |Strip(text)| == |text| { assert text[0..|text|] == text; }
  }

  lemma {:induction false} NothingBlanked(p: Parser, chunks: seq<string>, text: string)
    requires CallsOf(p, chunks) == []
    ensures Blanked(p, chunks, text) == text
  {
    if chunks != [] { NothingBlanked(p, chunks[..|chunks| - 1], text); }
  }

  lemma {:induction false} NothingStripped(text: string, markers: seq<string>)
    requires forall k :: 0 <= k < |markers| ==> |markers[k]| > 1
    requires !HasAny(text, markers)
    ensures Stripped(text, markers) == text
  {
    if markers != [] {
      var before, w := markers[..|markers| - 1], markers[|markers| - 1];
      assert forall k :: 0 <= k < |before| ==> before[k] == markers[k];
      NothingStripped(text, before);
      assert markers[|before|] == w;
      ReplaceAbsent(text, w, " ");
    }
  }

  lemma {:induction false} RStripKeeps(s: string)
    requires s != "" && !IsSpace(s[0])
    ensures RStrip(s) != ""
  {
    if IsSpace(s[|s| - 1]) { RStripKeeps(s[..|s| - 1]); }
  }

  lemma TidiedNonEmpty(text: string)
    requires text != "" && !IsSpace(text[0])
    ensures Tidied(text) != ""
  {
    var once := Sub(text, BlankHit, " ");
    RunBounded(text, IsBlank);
    assert once != "" && once[0] == text[0];
    RunBounded(once, IsNewline);
    var twice := Sub(once, NewlineHit, "\n\n");
    assert twice != "" && twice[0] == text[0];
    RStripKeeps(twice);
  }

  lemma CallFreeText(p: Parser, content: string)
    requires !HasAny(content, MARKERS) && HasAny(content, CALL_WORDS) && Lenient(p, content).calls == []
    ensures Lenient(p, content).text == if Tidied(content) == "" then Strip(content) else Tidied(content)
  {
    var chunks := SplitObjects(content);
    assert |Numbered(CallsOf(p, chunks))| == |CallsOf(p, chunks)|;
    NothingBlanked(p, chunks, content);
    NoMarkerNoChange(content);
  }

  lemma NoMarkerNoChange(content: string)
    requires !HasAny(content, MARKERS)
    ensures Stripped(content, MARKERS) == content
  {
    NothingStripped(content, MARKERS);
  }

  /** Content with no marker from which no call is recovered comes back unchanged exactly
      when it has no call word in it or is already tidy. */
  lemma ProseUnchanged(p: Parser, content: string)
    requires !HasAny(content, MARKERS) && Lenient(p, content).calls == []
    ensures Lenient(p, content).text == content <==> !HasAny(content, CALL_WORDS) || Tidy(content)
  {
    if HasAny(content, CALL_WORDS) {
      CallFreeText(p, content);
      TidiedIdentity(content);
      if Tidied(content) == "" { TidiedToNothing(content); }
    }
  }

  lemma TidiedToNothing(content: string)
    requires Tidied(content) == ""
    ensures Strip(content) == content ==> content == ""
  {
    StripTrims(content);
    if content != "" && !IsSpace(content[0]) { TidiedNonEmpty(content); }
  }

  lemma LacksMarkers(content: string)
    requires '<' !in content
    ensures !HasAny(content, MARKERS)
  {
    forall k | 0 <= k < |MARKERS| ensures !Contains(content, MARKERS[k]) {
      assert MARKERS[k][0] == '<';
      LacksFirst(content, MARKERS[k]);
    }
  }

  lemma NoBraceNoCall(p: Parser, content: string)
    requires !HasAny(content, MARKERS) && '{' !in content
    ensures Lenient(p, content).calls == []
  {
    NoBraceNoChunk(content, |content|);
  }

  /** The case that fails: plain prose that mentions a call word loses its double space. */
  lemma ProseWithCallWordIsTidied(p: Parser)
    ensures var content := "a \"name\"  here"; Lenient(p, content).calls == [] && Lenient(p, content).text != content
  {
    var content := "a \"name\"  here";
    assert BlanksAt(content)(8);
    assert Doubled(content);
    assert OccursAt(content, CALL_WORDS[0], 2);
    LacksMarkers(content);
    NoBraceNoCall(p, content);
    ProseUnchanged(p, content);
  }

  // ---- the wrapper token that is not a marker ----

  const RESPONSE_END := "</tool_response>"

  predicate OpensTag(m: string, next: char) {
    |m| > 1 && m[0] == '<' && m[1] == next && forall i :: 0 < i < |m| ==> m[i] != '<'
  }

  lemma TagsMiss(m: string, c: char, w: string, d: char)
    requires OpensTag(m, c) && OpensTag(w, d) && c != d
    ensures Misses(Literal(m), w)
  {
    forall t: string | 0 < Literal(m)(t) <= |t|
      ensures forall k :: 0 < k < |m| ==> t[k] != w[0]
      ensures forall k :: 0 <= k < |w| ==> !(w[k..] <= t)
    {
      assert forall k :: 0 <= k < |m| ==> t[k] == m[k];
      forall k | 0 <= k < |w| ensures !(w[k..] <= t) {
        assert w[k..][0] == w[k];
        assert k == 0 ==> w[k..][1] == w[1];
      }
    }
  }

  lemma MarkerTags()
    ensures OpensTag("<|tool_call_start|>", '|') && OpensTag("<|tool_call_end|>", '|')
    ensures OpensTag("<|tool_calls|>", '|') && OpensTag("<|tool_call|>", '|')
    ensures OpensTag("<|fim_middle|>", '|') && OpensTag("<|end|>", '|') && OpensTag("<tool_response>", 't')
  {
  }

  lemma EndIsTag()
    ensures OpensTag(RESPONSE_END, '/') && SpaceFree(RESPONSE_END)
  {
  }

  lemma MarkersMiss(k: nat, w: string)
    requires k < |MARKERS| && OpensTag(w, '/')
    ensures Misses(Literal(MARKERS[k]), w)
  {
    MarkerTags();
    TagsMiss(MARKERS[k], if k == 4 then 't' else '|', w, '/');
  }

  lemma {:induction false} StrippedKeeps(text: string, markers: seq<string>, w: string)
    requires w != "" && Contains(text, w)
    requires forall k :: 0 <= k < |markers| ==> Misses(Literal(markers[k]), w)
    ensures Contains(Stripped(text, markers), w)
  {
    if markers != [] {
      var before, last := markers[..|markers| - 1], markers[|markers| - 1];
      StrippedKeeps(text, before, w);
      SubKeepsWord(Stripped(text, before), Literal(last), " ", w);
    }
  }

  lemma TidiedKeeps(text: string, w: string)
    requires w != "" && SpaceFree(w) && Contains(text, w)
    ensures Contains(Tidied(text), w)
  {
    RunMisses(IsBlank, 2, w);
    SubKeepsWord(text, BlankHit, " ", w);
    RunMisses(IsNewline, 3, w);
    SubKeepsWord(Sub(text, BlankHit, " "), NewlineHit, "\n\n", w);
    StripKeepsWord(Sub(Sub(text, BlankHit, " "), NewlineHit, "\n\n"), w);
  }

  lemma CleanKeeps(text: string, w: string)
    requires OpensTag(w, '/') && SpaceFree(w) && Contains(text, w)
    ensures Contains(Tidied(Stripped(text, MARKERS)), w) && Contains(Strip(Stripped(text, MARKERS)), w)
  {
    forall k | 0 <= k < |MARKERS| ensures Misses(Literal(MARKERS[k]), w) { MarkersMiss(k, w); }
    StrippedKeeps(text, MARKERS, w);
    TidiedKeeps(Stripped(text, MARKERS), w);
    StripKeepsWord(Stripped(text, MARKERS), w);
  }

  lemma CleanTakesNone(text: string, w: string)
    requires w != "" && SpaceFree(w) && Contains(Tidied(Stripped(text, MARKERS)), w)
    ensures Contains(text, w)
  {
    StrippedClean(text);
    TidiedWords(Stripped(text, MARKERS));
  }

  /** Nothing visible stands outside the wrappers. */
  predicate NothingOutside(content: string) { Tidied(Stripped(Prose(content), MARKERS)) == "" }

  lemma CallFreeReply(p: Parser, content: string)
    requires Lenient(p, content).calls == []
    ensures var text := Lenient(p, content).text;
            || (text == content && !HasAny(content, MARKERS))
            || text == if NothingOutside(content) then Strip(Stripped(content, MARKERS))
                       else Tidied(Stripped(Prose(content), MARKERS))
  {
    if HasAny(content, MARKERS) || HasAny(content, CALL_WORDS) {
      var chunks := SplitObjects(Prose(content));
      assert |Numbered(Wrapped(p, content))| == |Wrapped(p, content)|;
      assert |Numbered(CallsOf(p, chunks))| == |CallsOf(p, chunks)|;
      NothingBlanked(p, chunks, Prose(content));
    }
  }

  /** One wrapper token is never stripped. A reply without calls shows it exactly when it stands
      outside the wrappers, or when nothing else does and it stands anywhere. */
  lemma EndTokenShownIff(p: Parser, content: string)
    requires Lenient(p, content).calls == []
    ensures Contains(Lenient(p, content).text, RESPONSE_END) <==>
            Contains(content, RESPONSE_END) && (Contains(Prose(content), RESPONSE_END) || NothingOutside(content))
  {
    var text, outside := Lenient(p, content).text, Prose(content);
    EndIsTag();
    ReplyWords(p, content);
    CallFreeReply(p, content);
    if text != content || HasAny(content, MARKERS) {
      if Contains(content, RESPONSE_END) { CleanKeeps(content, RESPONSE_END); }
      if Contains(outside, RESPONSE_END) { CleanKeeps(outside, RESPONSE_END); }
      if Contains(Tidied(Stripped(outside, MARKERS)), RESPONSE_END) { CleanTakesNone(outside, RESPONSE_END); }
    }
  }

  lemma NoMarkerBeside(content: string)
    requires forall i :: 0 <= i < |content| && content[i] == '<' ==> i + 1 < |content| && content[i + 1] == '/'
    ensures !HasAny(content, MARKERS)
  {
    MarkerTags();
    forall k, i: nat | 0 <= k < |MARKERS| ensures !OccursAt(content, MARKERS[k], i) {
      assert OpensTag(MARKERS[k], if k == 4 then 't' else '|');
      OccursStart(content, MARKERS[k], i);
    }
  }

  lemma OccursStart(s: string, w: string, i: nat)
    requires |w| > 1
    ensures OccursAt(s, w, i) ==> i + 1 < |s| && s[i] == w[0] && s[i + 1] == w[1]
  {
    if OccursAt(s, w, i) { assert s[i + 0] == w[0]; }
  }

  lemma EndLetters(i: nat)
    requires i < |RESPONSE_END|
    ensures RESPONSE_END[i] != '{' && (RESPONSE_END[i] == '<' ==> i == 0) && RESPONSE_END[1] == '/'
  {
  }

  /** The case that fails: behind any text without angle brackets and braces, the closing wrapper
      token reaches the reader. */
  lemma EndTokenIsShown(p: Parser, before: string)
    requires '<' !in before && '{' !in before
    ensures Contains(Lenient(p, before + RESPONSE_END).text, RESPONSE_END)
  {
    var content := before + RESPONSE_END;
    forall i | |before| <= i < |content|
      ensures content[i] != '{' && (content[i] == '<' ==> i == |before|) && content[|before| + 1] == '/'
    {
      EndLetters(i - |before|);
    }
    NoMarkerBeside(content);
    NoBraceNoCall(p, content);
    assert OccursAt(content, RESPONSE_END, |before|);
    EndTokenShownIff(p, content);
  }

  // ---- no call is invented ----

  function Lookup(entries: map<string, Json>, key: string): Option<Json> {
    if key in entries then Some(entries[key]) else None
  }

  function Nested(entries: map<string, Json>): map<string, Json> {
    var f := Get(entries, "function");
    if f.Dict? then f.entries else map[]
  }

  /** The places a tool name may stand in, and those for its arguments, in the order they count. */
  function NamePlaces(entries: map<string, Json>): seq<Option<Json>> {
    [Lookup(Nested(entries), "name"), Lookup(entries, "name"), Lookup(entries, "tool"), Lookup(entries, "tool_name")]
  }

  function ArgumentPlaces(entries: map<string, Json>): seq<Option<Json>> {
    [Lookup(entries, "arguments"), Lookup(entries, "args"), Lookup(entries, "parameters"), Lookup(entries, "inputs"),
     Lookup(Nested(entries), "arguments")]
  }

  /** A text that is not blank. */
  predicate IsName(place: Option<Json>) {
    place.Some? && place.value.Str? && exists c :: c in place.value.s && !IsSpace(c)
  }

  lemma NamedIsName(place: Option<Json>)
    ensures IsName(place) <==> place.Some? && Named(place.value)
  {
    if place.Some? && place.value.Str? { StripBlank(place.value.s); }
  }

  lemma PlacesNamed(places: seq<Option<Json>>)
    ensures forall k :: 0 <= k < |places| ==> (IsName(places[k]) <==> places[k].Some? && Named(places[k].value))
  {
    forall k | 0 <= k < |places| ensures IsName(places[k]) <==> places[k].Some? && Named(places[k].value) {
      NamedIsName(places[k]);
    }
  }

  /** The name in the first of the places that holds one. */
  predicate FirstName(places: seq<Option<Json>>, name: string) {
    exists k :: 0 <= k < |places| && IsName(places[k]) && name == Strip(places[k].value.s)
                && forall l :: 0 <= l < k ==> !IsName(places[l])
  }

  /** The first place that is there at all, or an empty object. */
  predicate FirstThere(places: seq<Option<Json>>, args: Json) {
    || (args == Dict(map[]) && forall k :: 0 <= k < |places| ==> places[k].None?)
    || (exists k :: 0 <= k < |places| && places[k] == Some(args) && forall l :: 0 <= l < k ==> places[l].None?)
  }

  function Printed(p: Parser, args: Json): string {
    if args.Str? then args.s else p.dumps(if args.Null? then Dict(map[]) else args)
  }

  lemma FirstNamedIs(entries: map<string, Json>)
    ensures FirstNamed(entries, ["name", "tool", "tool_name"]) ==
            if Named(Get(entries, "name")) then Get(entries, "name")
            else if Named(Get(entries, "tool")) then Get(entries, "tool")
            else if Named(Get(entries, "tool_name")) then Get(entries, "tool_name")
            else Null
  {
    var three, two, one := ["name", "tool", "tool_name"], ["tool", "tool_name"], ["tool_name"];
    assert three[1..] == two && two[1..] == one && one[1..] == [];
    assert FirstNamed(entries, one) == if Named(Get(entries, "tool_name")) then entries["tool_name"] else Null;
    assert FirstNamed(entries, two)
        == if Named(Get(entries, "tool")) then entries["tool"] else FirstNamed(entries, one);
  }

  lemma NameOfCall(p: Parser, entries: map<string, Json>)
    ensures var call, places := Coerce(p, Dict(entries)), NamePlaces(entries);
            if call.Some? then FirstName(places, call.value.name) else forall k :: 0 <= k < 4 ==> !IsName(places[k])
  {
    FirstNamedIs(entries);
    var places := NamePlaces(entries);
    PlacesNamed(places);
    assert IsName(places[0]) || IsName(places[1]) || IsName(places[2]) || IsName(places[3])
           || Coerce(p, Dict(entries)).None?;
  }

  lemma ArgumentsOfCall(p: Parser, entries: map<string, Json>)
    requires Coerce(p, Dict(entries)).Some?
    ensures exists args :: FirstThere(ArgumentPlaces(entries), args)
                           && Coerce(p, Dict(entries)).value.arguments == Printed(p, args)
  {
    var places := ArgumentPlaces(entries);
    var inner := if places[4].Some? then places[4].value else Dict(map[]);
    var args := FirstPresent(entries, ["arguments", "args", "parameters", "inputs"], inner);
    PresentIsFirst(entries, inner);
    assert ["arguments"][1..] == [];
    assert FirstPresent(Nested(entries), ["arguments"], Dict(map[])) == inner;
    assert Coerce(p, Dict(entries)).value.arguments == Printed(p, args);
  }

  lemma PresentIsFirst(entries: map<string, Json>, inner: Json)
    requires var place := Lookup(Nested(entries), "arguments");
             inner == if place.Some? then place.value else Dict(map[])
    ensures FirstThere(ArgumentPlaces(entries),
                       FirstPresent(entries, ["arguments", "args", "parameters", "inputs"], inner))
  {
    var four, three, two, one := ["arguments", "args", "parameters", "inputs"], ["args", "parameters", "inputs"],
                                 ["parameters", "inputs"], ["inputs"];
    assert four[1..] == three && three[1..] == two && two[1..] == one && one[1..] == [];
    assert FirstPresent(entries, one, inner) == if "inputs" in entries then entries["inputs"] else inner;
    assert FirstPresent(entries, two, inner)
        == if "parameters" in entries then entries["parameters"] else FirstPresent(entries, one, inner);
    var places := ArgumentPlaces(entries);
    assert places[0].Some? || places[1].Some? || places[2].Some? || places[3].Some? || places[4].Some?
           || forall k :: 0 <= k < |places| ==> places[k].None?;
  }

  /** A call is recovered exactly from an object in which one of the four places holds a tool
      name. It carries the name from the first such place, and the arguments from the first
      place for them that is there, or an empty object. */
  lemma CoerceNeedsName(p: Parser, obj: Json)
    ensures Coerce(p, obj).Some? <==> obj.Dict? && exists k :: 0 <= k < 4 && IsName(NamePlaces(obj.entries)[k])
    ensures Coerce(p, obj).Some? ==> FirstName(NamePlaces(obj.entries), Coerce(p, obj).value.name)
    ensures Coerce(p, obj).Some? ==>
              exists args :: FirstThere(ArgumentPlaces(obj.entries), args)
                             && Coerce(p, obj).value.arguments == Printed(p, args)
  {
    if obj.Dict? {
      NameOfCall(p, obj.entries);
      if Coerce(p, obj).Some? { ArgumentsOfCall(p, obj.entries); }
    }
  }

  /** A candidate that reads as an object. */
  predicate ReadsAsDict(parse: string -> Option<Json>, candidate: string) {
    parse(candidate).Some? && parse(candidate).value.Dict?
  }

  /** What is read is the first candidate that reads as an object, if one does. */
  lemma {:induction false} FirstDictIsFirst(parse: string -> Option<Json>, candidates: seq<string>)
    ensures match FirstDict(parse, candidates)
            case None => forall k :: 0 <= k < |candidates| ==> !ReadsAsDict(parse, candidates[k])
            case Some(j) =>
              exists k :: 0 <= k < |candidates| && ReadsAsDict(parse, candidates[k]) && parse(candidates[k]) == Some(j)
                          && forall l :: 0 <= l < k ==> !ReadsAsDict(parse, candidates[l])
  {
    if candidates != [] && !ReadsAsDict(parse, candidates[0]) {
      var rest := candidates[1..];
      FirstDictIsFirst(parse, rest);
      assert forall k :: 0 < k < |candidates| ==> candidates[k] == rest[k - 1];
      match FirstDict(parse, rest)
      case None =>
      case Some(j) =>
        var k :| 0 <= k < |rest| && ReadsAsDict(parse, rest[k]) && parse(rest[k]) == Some(j)
                 && forall l :: 0 <= l < k ==> !ReadsAsDict(parse, rest[l]);
        assert candidates[k + 1] == rest[k];
    }
  }

  // ---- no call is missed ----

  /** The parser makes the call of one of the chunks of the piece. */
  predicate CalledIn(p: Parser, piece: string, call: Call) {
    exists chunk :: chunk in SplitObjects(piece) && Recover(p, chunk) == Some(call)
  }

  /** The call stands in a wrapper segment, before the end marker. */
  predicate CalledInWrapper(p: Parser, content: string, call: Call) {
    && HasAny(content, MARKERS)
    && exists seg :: seg in Segments(content)[1..] && CalledIn(p, CutSegment(seg, ENDERS).0, call)
  }

  /** The call is one of these, whatever its id. */
  predicate Among(calls: seq<Call>, call: Call) { exists i :: 0 <= i < |calls| && calls[i].(id := "") == call }

  lemma {:induction false} GatherExactly(items: seq<string>, calls: string -> seq<Call>, call: Call)
    ensures call in Gather(items, calls) <==> exists item :: item in items && call in calls(item)
  {
    if items != [] {
      var front, last := items[..|items| - 1], items[|items| - 1];
      GatherExactly(front, calls, call);
      assert items == front + [last];
      assert last in items;
    }
  }

  lemma CallsOfExactly(p: Parser, piece: string, call: Call)
    ensures call in CallsOf(p, SplitObjects(piece)) <==> CalledIn(p, piece, call)
  {
    GatherExactly(SplitObjects(piece), ChunkCall(p), call);
    forall chunk ensures call in ChunkCall(p)(chunk) <==> Recover(p, chunk) == Some(call) {
      ChunkCallIs(p, chunk, call);
    }
  }

  lemma ChunkCallIs(p: Parser, chunk: string, call: Call)
    ensures call in ChunkCall(p)(chunk) <==> Recover(p, chunk) == Some(call)
  {
  }

  lemma WrappedExactly(p: Parser, content: string, call: Call)
    ensures call in Wrapped(p, content) <==> CalledInWrapper(p, content, call)
  {
    GatherExactly(Segments(content)[1..], InnerCalls(p, ENDERS), call);
    forall seg ensures call in InnerCalls(p, ENDERS)(seg) <==> CalledIn(p, CutSegment(seg, ENDERS).0, call) {
      CallsOfExactly(p, CutSegment(seg, ENDERS).0, call);
    }
  }

  lemma NumberedAmong(found: seq<Call>, call: Call)
    requires forall c :: c in found ==> c.id == ""
    ensures Among(Numbered(found), call) <==> call in found
  {
    forall i | 0 <= i < |found| ensures Numbered(found)[i].(id := "") == found[i] {
      assert found[i] in found;
    }
    if call in found {
      var i :| 0 <= i < |found| && found[i] == call;
      assert Numbered(found)[i].(id := "") == call;
    }
  }

  lemma CalledBare(p: Parser, piece: string, call: Call)
    requires CalledIn(p, piece, call)
    ensures call.id == ""
  {
  }

  lemma RecoveredBare(p: Parser, content: string)
    ensures forall c :: c in Wrapped(p, content) ==> c.id == ""
    ensures forall c :: c in CallsOf(p, SplitObjects(Prose(content))) ==> c.id == ""
  {
    forall c | c in Wrapped(p, content) ensures c.id == "" {
      WrappedExactly(p, content, c);
      var seg :| seg in Segments(content)[1..] && CalledIn(p, CutSegment(seg, ENDERS).0, c);
      CalledBare(p, CutSegment(seg, ENDERS).0, c);
    }
    forall c | c in CallsOf(p, SplitObjects(Prose(content))) ensures c.id == "" {
      CallsOfExactly(p, Prose(content), c);
      CalledBare(p, Prose(content), c);
    }
  }

  /** Exactly which calls are returned: those of the wrapper segments, or, if these hold none,
      those of the text outside them; and none without a marker or a call word. */
  lemma CallsAreExactly(p: Parser, content: string, call: Call)
    ensures Among(Lenient(p, content).calls, call) <==>
            && (HasAny(content, MARKERS) || HasAny(content, CALL_WORDS))
            && (|| CalledInWrapper(p, content, call)
                || (CalledIn(p, Prose(content), call) && forall other :: !CalledInWrapper(p, content, other)))
  {
    var wrapped, outside := Wrapped(p, content), CallsOf(p, SplitObjects(Prose(content)));
    RecoveredBare(p, content);
    NumberedAmong(wrapped, call);
    NumberedAmong(outside, call);
    CallsOfExactly(p, Prose(content), call);
    WrappedExactly(p, content, call);
    if wrapped == [] {
      forall other ensures !CalledInWrapper(p, content, other) { WrappedExactly(p, content, other); }
    } else {
      WrappedExactly(p, content, wrapped[0]);
    }
  }

  /** What calls are looked for in: a stretch of the content, or all that stands outside its
      wrappers. */
  ghost predicate Searched(content: string, piece: string) { Contains(content, piece) || piece == Prose(content) }

  /** A call found in the model's text: what the parser makes of one split-off chunk. */
  ghost predicate FoundIn(p: Parser, content: string, call: Call) {
    exists piece :: Searched(content, piece) && CalledIn(p, piece, call.(id := ""))
  }

  lemma WrapperFound(p: Parser, content: string, call: Call)
    requires CalledInWrapper(p, content, call.(id := ""))
    ensures FoundIn(p, content, call)
  {
    var seg :| seg in Segments(content)[1..] && CalledIn(p, CutSegment(seg, ENDERS).0, call.(id := ""));
    assert "" + content == content;
    SplitParts("", content, OpenerHit, seg);
    CutSegmentPieces(seg, ENDERS);
    ContainsTrans(content, seg, CutSegment(seg, ENDERS).0);
  }

  /** Every returned call was found in the text, and its id tells it from the others. */
  lemma CallsAreFound(p: Parser, content: string)
    ensures var calls := Lenient(p, content).calls;
            && (forall i :: 0 <= i < |calls| ==> FoundIn(p, content, calls[i]))
            && (forall i, j :: 0 <= i < j < |calls| ==> calls[i].id != calls[j].id)
  {
    var calls := Lenient(p, content).calls;
    forall i | 0 <= i < |calls| ensures FoundIn(p, content, calls[i]) {
      CallsAreExactly(p, content, calls[i].(id := ""));
      if CalledInWrapper(p, content, calls[i].(id := "")) { WrapperFound(p, content, calls[i]); }
    }
    NumberedApart(if Wrapped(p, content) != [] then Wrapped(p, content) else CallsOf(p, SplitObjects(Prose(content))));
  }

  lemma NumberedApart(found: seq<Call>)
    ensures var calls := Numbered(found); forall i, j :: 0 <= i < j < |calls| ==> calls[i].id != calls[j].id
  {
    var calls := Numbered(found);
    forall i, j | 0 <= i < j < |calls| ensures calls[i].id != calls[j].id {
      assert calls[i].id[8..] == Decimal(i) && calls[j].id[8..] == Decimal(j);
      if Decimal(i) == Decimal(j) { DecimalInjective(i, j); }
    }
  }

  /** In text without markers, a chunk of which the parser makes a call is recovered exactly
      when a call word stands somewhere in the text. */
  lemma ChunkIsCalledIff(p: Parser, content: string, chunk: string)
    requires !HasAny(content, MARKERS) && chunk in SplitObjects(content) && Recover(p, chunk).Some?
    ensures Among(Lenient(p, content).calls, Recover(p, chunk).value) <==> HasAny(content, CALL_WORDS)
  {
    assert CalledIn(p, content, Recover(p, chunk).value);
    CallsAreExactly(p, content, Recover(p, chunk).value);
  }

  /** So is a call that stands in the open, whole or broken off where the text ends. */
  lemma ObjectIsCalledIff(p: Parser, before: string, n: Nest, piece: string, after: string)
    requires Proper(n) && EndsOpen(before)
    requires piece == Object(n) || (piece != "" && piece < Object(n) && after == "")
    requires !HasAny(before + piece + after, MARKERS) && Recover(p, piece).Some?
    ensures var content := before + piece + after;
            Among(Lenient(p, content).calls, Recover(p, piece).value) <==> HasAny(content, CALL_WORDS)
  {
    if piece == Object(n) {
      ObjectSplitOffIff(before, n, after);
    } else {
      CutObjectSplitOff(before, n, piece);
      assert before + piece + after == before + piece;
    }
    ChunkIsCalledIff(p, before + piece + after, piece);
  }

  /** The case that is lost: an object in single quotes, which the parser may well read. */
  lemma SingleQuotedCallIsLost(p: Parser)
    ensures Lenient(p, "{'name': 'x'}").calls == []
  {
    var content := "{'name': 'x'}";
    LacksMarkers(content);
    forall k | 0 <= k < |CALL_WORDS| ensures !Contains(content, CALL_WORDS[k]) {
      assert CALL_WORDS[k][0] == '"';
      LacksFirst(content, CALL_WORDS[k]);
    }
  }
}
