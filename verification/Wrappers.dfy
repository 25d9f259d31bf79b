/** Replies with wrapped calls, as they are written: what is looked for calls, and what the reader
    sees (`lenient_tool_calls`). */
module Wrappers {
  import opened LenientCalls
  import opened ObjectSplit
  import opened PyText

  /** A wrapper as it stands in a reply, and the text up to the next one. A wrapper without an end
      marker runs up to the next one. */
  datatype Wrap =
    | Closed(opener: string, inner: string, end: string, after: string)
    | Unclosed(opener: string, inner: string)
  {
    function Body(): string {
      match this
      case Closed(_, inner, end, after) => inner + end + after
      case Unclosed(_, inner) => inner
    }

    function After(): string { if Closed? then after else "" }
  }

  /** The wrappers one after another. */
  function Rest(wraps: seq<Wrap>): string {
    if wraps == [] then "" else wraps[0].opener + (wraps[0].Body() + Rest(wraps[1..]))
  }

  function Written(before: string, wraps: seq<Wrap>): string { before + Rest(wraps) }

  predicate OpensWrap(o: string) { o in {"<|tool_call_start|>", "<|tool_call|>", "<tool_response>"} }

  predicate NoOpener(s: string) {
    !Contains(s, "<|tool_call_start|>") && !Contains(s, "<|tool_call|>") && !Contains(s, "<tool_response>")
  }

  /** The end marker that counts for the text: the first of the four, in this order, that it holds. */
  predicate Ends(body: string, end: string) {
    if Contains(body, "<|tool_call_end|>") then end == "<|tool_call_end|>"
    else if Contains(body, "<|fim_middle|>") then end == "<|fim_middle|>"
    else if Contains(body, "<|end|>") then end == "<|end|>"
    else Contains(body, "</tool_response>") && end == "</tool_response>"
  }

  /** The wrapper is taken apart as the reader takes it: no further one opens in it, and it is cut
      at the first place of the end marker that counts, if there is one. */
  predicate Cut(w: Wrap) {
    && OpensWrap(w.opener) && NoOpener(w.Body())
    && match w
       case Closed(_, inner, end, after) =>
         Ends(w.Body(), end) && forall i: nat :: i < |inner| ==> !OccursAt(w.Body(), end, i)
       case Unclosed(_, inner) =>
         && !Contains(inner, "<|tool_call_end|>") && !Contains(inner, "<|fim_middle|>")
         && !Contains(inner, "<|end|>") && !Contains(inner, "</tool_response>")
  }

  /** The text is read as these wrappers after that beginning. */
  predicate ReadsAs(before: string, wraps: seq<Wrap>) {
    NoOpener(before) && forall i :: 0 <= i < |wraps| ==> Cut(wraps[i])
  }

  function Bodies(wraps: seq<Wrap>): seq<string> { seq(|wraps|, i requires 0 <= i < |wraps| => wraps[i].Body()) }

  // ---- where wrappers open ----

  predicate OneBracket(o: string) { o != "" && o[0] == '<' && forall i :: 0 < i < |o| ==> o[i] != '<' }

  lemma OpenersOneBracket(o: string)
    requires OpensWrap(o)
    ensures OneBracket(o)
  {
    MarkerTags();
  }

  lemma HitOpens(s: string)
    ensures OpenerHit(s) > 0 ==> exists o :: OpensWrap(o) && o <= s && OpenerHit(s) == |o|
  {
    assert OpensWrap(OPENERS[0]) && OpensWrap(OPENERS[1]) && OpensWrap(OPENERS[2]);
  }

  lemma OpensHit(o: string, rest: string)
    requires OpensWrap(o)
    ensures OpenerHit(o + rest) == |o|
  {
    var s := o + rest;
    assert o <= s;
    assert s[1] == o[1] && s[11] == o[11];
  }

  /** Before a bracket, or at the end, no opener starts in a text that holds none. */
  lemma NoneOpens(a: string, s: string)
    requires NoOpener(a) && (s == "" || s[0] == '<')
    ensures NoHitIn(a, s, OpenerHit)
  {
    forall i | 0 <= i < |a| ensures OpenerHit((a + s)[i..]) == 0 {
      if OpenerHit((a + s)[i..]) > 0 {
        HitOpens((a + s)[i..]);
        var o :| OpensWrap(o) && o <= (a + s)[i..];
        OpenersOneBracket(o);
        NotAcross(a, s, o, i);
      }
    }
  }

  lemma NotAcross(a: string, s: string, o: string, i: nat)
    requires OneBracket(o) && i < |a| && o <= (a + s)[i..] && (s == "" || s[0] == '<')
    ensures Contains(a, o)
  {
    var t := a + s;
    assert forall k :: 0 <= k < |o| ==> o[k] == t[i..][k] == t[i + k];
    if |a| - i < |o| {
      BracketFirst(o, |a| - i);
    }
    assert OccursAt(a, o, i);
  }

  lemma BracketFirst(o: string, k: nat)
    requires OneBracket(o) && 0 < k < |o|
    ensures o[k] != '<'
  {
  }

  lemma FirstSegment(before: string, o: string, rest: string)
    requires NoOpener(before) && OpensWrap(o)
    ensures Segments(before + (o + rest)) == [before] + Segments(rest)
  {
    OpenersOneBracket(o);
    NoneOpens(before, o + rest);
    OpensHit(o, rest);
    SplitFirst(before, o, rest, OpenerHit);
  }

  lemma LastSegment(before: string)
    requires NoOpener(before)
    ensures Segments(before + "") == [before]
  {
    NoneOpens(before, "");
    SplitWhole(before, OpenerHit);
    assert before + "" == before;
  }

  lemma BodiesNext(wraps: seq<Wrap>)
    requires wraps != []
    ensures Bodies(wraps) == [wraps[0].Body()] + Bodies(wraps[1..])
  {
  }

  lemma {:induction false} SegmentsOf(before: string, wraps: seq<Wrap>)
    requires ReadsAs(before, wraps)
    ensures Segments(Written(before, wraps)) == [before] + Bodies(wraps)
    decreases |wraps|
  {
    if wraps == [] {
      LastSegment(before);
    } else {
      FirstSegment(before, wraps[0].opener, wraps[0].Body() + Rest(wraps[1..]));
      SegmentsOf(wraps[0].Body(), wraps[1..]);
      BodiesNext(wraps);
    }
  }

  // ---- where wrappers end ----

  lemma {:induction false} CutAt(seg: string, enders: seq<string>, k: nat)
    requires k < |enders| && Contains(seg, enders[k]) && forall j :: 0 <= j < k ==> !Contains(seg, enders[j])
    ensures CutSegment(seg, enders) == Partition(seg, enders[k])
  {
    if k > 0 {
      assert forall j :: 0 <= j < k - 1 ==> enders[1..][j] == enders[j + 1];
      CutAt(seg, enders[1..], k - 1);
    }
  }

  lemma {:induction false} NotCut(seg: string, enders: seq<string>)
    requires forall j :: 0 <= j < |enders| ==> !Contains(seg, enders[j])
    ensures CutSegment(seg, enders) == (seg, "")
  {
    if enders != [] {
      assert forall j :: 0 <= j < |enders| - 1 ==> enders[1..][j] == enders[j + 1];
      NotCut(seg, enders[1..]);
    }
  }

  /** The text before the first place of the marker, and the text behind it. */
  lemma PartitionAt(inner: string, end: string, after: string)
    requires forall i: nat :: i < |inner| ==> !OccursAt(inner + end + after, end, i)
    ensures Partition(inner + end + after, end) == (inner, after)
  {
    var seg := inner + end + after;
    assert OccursAt(seg, end, |inner|);
    FindFirst(seg, end, 0);
    assert seg[..|inner|] == inner && seg[|inner| + |end|..] == after;
  }

  lemma EndIsCut(seg: string, end: string)
    requires Ends(seg, end)
    ensures CutSegment(seg, ENDERS) == Partition(seg, end)
  {
    if Contains(seg, ENDERS[0]) {
      CutAt(seg, ENDERS, 0);
    } else if Contains(seg, ENDERS[1]) {
      CutAt(seg, ENDERS, 1);
    } else if Contains(seg, ENDERS[2]) {
      CutAt(seg, ENDERS, 2);
    } else {
      CutAt(seg, ENDERS, 3);
    }
  }

  lemma WrapIsCut(w: Wrap)
    requires Cut(w)
    ensures CutSegment(w.Body(), ENDERS) == (w.inner, w.After())
  {
    match w
    case Closed(_, inner, end, after) =>
      EndIsCut(w.Body(), end);
      PartitionAt(inner, end, after);
    case Unclosed(_, inner) =>
      NotCut(inner, ENDERS);
  }

  // ---- what is looked for calls, and what is kept ----

  /** The calls of the objects in the wrappers, in order. */
  function CallsIn(p: Parser, wraps: seq<Wrap>): seq<Call> {
    if wraps == [] then []
    else CallsIn(p, wraps[..|wraps| - 1]) + CallsOf(p, SplitObjects(wraps[|wraps| - 1].inner))
  }

  /** What stands outside the wrappers. */
  function Pieces(before: string, wraps: seq<Wrap>): seq<string> {
    [before] + seq(|wraps|, i requires 0 <= i < |wraps| => wraps[i].After())
  }

  predicate Blank(s: string) { forall c :: c in s ==> IsSpace(c) }

  predicate NothingSeen(pieces: seq<string>) { forall i :: 0 <= i < |pieces| ==> Blank(pieces[i]) }

  /** The pieces with something to see, on lines of their own. */
  function OnLines(pieces: seq<string>): string {
    if pieces == [] then ""
    else
      var front, last := pieces[..|pieces| - 1], pieces[|pieces| - 1];
      if Blank(last) then OnLines(front)
      else if NothingSeen(front) then last
      else OnLines(front) + "\n" + last
  }

  lemma {:induction false} WrappedCalls(p: Parser, wraps: seq<Wrap>)
    requires forall i :: 0 <= i < |wraps| ==> Cut(wraps[i])
    ensures SegmentCalls(p, Bodies(wraps), ENDERS) == CallsIn(p, wraps)
  {
    if wraps != [] {
      var n := |wraps| - 1;
      WrappedCalls(p, wraps[..n]);
      WrapIsCut(wraps[n]);
      assert Bodies(wraps)[..n] == Bodies(wraps[..n]);
    }
  }

  lemma PiecesNext(before: string, wraps: seq<Wrap>, n: nat)
    requires n + 1 == |wraps|
    ensures ([before] + Bodies(wraps))[..n + 1] == [before] + Bodies(wraps[..n])
    ensures ([before] + Bodies(wraps))[n + 1] == wraps[n].Body()
    ensures Pieces(before, wraps) == Pieces(before, wraps[..n]) + [wraps[n].After()]
  {
  }

  lemma {:induction false} KeptPieces(before: string, wraps: seq<Wrap>)
    requires forall i :: 0 <= i < |wraps| ==> Cut(wraps[i])
    ensures Kept([before] + Bodies(wraps), ENDERS) == Pieces(before, wraps)
  {
    var segs := [before] + Bodies(wraps);
    if wraps != [] {
      var n := |wraps| - 1;
      KeptPieces(before, wraps[..n]);
      WrapIsCut(wraps[n]);
      PiecesNext(before, wraps, n);
    }
  }

  lemma {:induction false} NonBlankNone(pieces: seq<string>)
    ensures NonBlank(pieces) == [] <==> NothingSeen(pieces)
  {
    if pieces != [] {
      NonBlankNone(pieces[..|pieces| - 1]);
      StripBlank(pieces[|pieces| - 1]);
    }
  }

  lemma {:induction false} JoinPush(lines: seq<string>, last: string)
    requires lines != []
    ensures Join("\n", lines + [last]) == Join("\n", lines) + "\n" + last
  {
    var all := lines + [last];
    assert all[1..] == lines[1..] + [last];
    if |lines| == 1 {
      assert all[1..] == [last];
    } else {
      JoinPush(lines[1..], last);
      assert all[0] == lines[0];
    }
  }

  lemma {:induction false} OnLinesJoins(pieces: seq<string>)
    ensures Join("\n", NonBlank(pieces)) == OnLines(pieces)
  {
    if pieces != [] {
      var front, last := pieces[..|pieces| - 1], pieces[|pieces| - 1];
      OnLinesJoins(front);
      NonBlankNone(front);
      StripBlank(last);
      LineAdded(NonBlank(front), last);
    }
  }

  lemma LineAdded(lines: seq<string>, last: string)
    ensures lines + [] == lines
    ensures Join("\n", lines + [last]) == if lines == [] then last else Join("\n", lines) + "\n" + last
  {
    if lines != [] {
      JoinPush(lines, last);
    } else {
      assert lines + [last] == [last];
    }
  }

  // ---- the whole reply ----

  /** The calls are numbered in the order they were found. */
  predicate NumberedFrom(calls: seq<Call>, found: seq<Call>) {
    |calls| == |found| && forall i :: 0 <= i < |calls| ==> calls[i] == found[i].(id := "lenient-" + Decimal(i))
  }

  function Clean(text: string): string { Tidied(Stripped(text, MARKERS)) }

  // ---- every reply can be written so ----

  lemma NoOpenerCons(c: char, s: string, more: string)
    requires NoOpener(s) && forall o :: OpensWrap(o) ==> !(o <= [c] + (s + more))
    ensures NoOpener([c] + s)
  {
    var t := [c] + s;
    assert t + more == [c] + (s + more);
    forall o, i: nat | OpensWrap(o) ensures !OccursAt(t, o, i) {
      if OccursAt(t, o, i) {
        if i == 0 {
          OccursFirst(t, o, more);
        } else {
          OccursTail([c], s, o, i);
          OpenerOccurs(s, o, i - 1);
        }
      }
    }
  }

  lemma OpenerOccurs(s: string, o: string, i: nat)
    requires OpensWrap(o) && OccursAt(s, o, i)
    ensures !NoOpener(s)
  {
  }

  lemma OccursFirst(t: string, o: string, more: string)
    requires OccursAt(t, o, 0)
    ensures o <= t + more
  {
    assert forall k :: 0 <= k < |o| ==> o[k] == t[0 + k] == (t + more)[k];
  }

  lemma SomeEnd(body: string) returns (end: Option<string>)
    ensures end.Some? ==> Ends(body, end.value) && Contains(body, end.value)
    ensures end.None? ==> && !Contains(body, "<|tool_call_end|>") && !Contains(body, "<|fim_middle|>")
                          && !Contains(body, "<|end|>") && !Contains(body, "</tool_response>")
  {
    if Contains(body, "<|tool_call_end|>") {
      end := Some("<|tool_call_end|>");
    } else if Contains(body, "<|fim_middle|>") {
      end := Some("<|fim_middle|>");
    } else if Contains(body, "<|end|>") {
      end := Some("<|end|>");
    } else if Contains(body, "</tool_response>") {
      end := Some("</tool_response>");
    } else {
      end := None;
    }
  }

  /** A text that holds a marker, parted at its first place. */
  lemma PartedAt(body: string, end: string) returns (inner: string, after: string)
    requires Contains(body, end)
    ensures body == inner + end + after && forall i: nat :: i < |inner| ==> !OccursAt(body, end, i)
  {
    FindFirst(body, end, 0);
    var i := Find(body, end, 0).value;
    inner, after := body[..i], body[i + |end|..];
    assert forall k :: 0 <= k < |end| ==> body[i + k] == end[k];
    assert body[i..i + |end|] == end;
  }

  lemma CutOf(o: string, body: string) returns (w: Wrap)
    requires OpensWrap(o) && NoOpener(body)
    ensures Cut(w) && w.opener == o && w.Body() == body
  {
    var end := SomeEnd(body);
    if end.Some? {
      var inner, after := PartedAt(body, end.value);
      w := Closed(o, inner, end.value, after);
    } else {
      w := Unclosed(o, body);
    }
  }

  lemma WrapFirst(w: Wrap, body: string, wraps: seq<Wrap>)
    requires Cut(w) && w.Body() == body && ReadsAs(body, wraps)
    ensures ReadsAs("", [w] + wraps) && Written("", [w] + wraps) == w.opener + Written(body, wraps)
  {
    var all := [w] + wraps;
    assert all[1..] == wraps && all[0] == w;
    assert forall i :: 0 < i < |all| ==> all[i] == wraps[i - 1];
    assert NoOpener("") by { NothingOpens(); }
    assert "" + (w.opener + (body + Rest(wraps))) == w.opener + (body + Rest(wraps));
  }

  lemma NothingOpens()
    ensures NoOpener("")
  {
  }

  lemma OneCharMore(content: string, before: string, wraps: seq<Wrap>)
    requires content != "" && ReadsAs(before, wraps) && Written(before, wraps) == content[1..]
    requires forall o :: OpensWrap(o) ==> !(o <= content)
    ensures ReadsAs([content[0]] + before, wraps) && Written([content[0]] + before, wraps) == content
  {
    assert content == [content[0]] + content[1..];
    NoOpenerCons(content[0], before, Rest(wraps));
    WrittenCons(content[0], before, wraps);
  }

  lemma WrittenCons(c: char, before: string, wraps: seq<Wrap>)
    ensures Written([c] + before, wraps) == [c] + Written(before, wraps)
  {
  }

  lemma OneWrapMore(content: string, o: string, body: string, wraps: seq<Wrap>) returns (all: seq<Wrap>)
    requires OpensWrap(o) && o <= content && ReadsAs(body, wraps) && Written(body, wraps) == content[|o|..]
    ensures ReadsAs("", all) && Written("", all) == content
  {
    var w := CutOf(o, body);
    WrapFirst(w, body, wraps);
    assert content == o + content[|o|..];
    all := [w] + wraps;
  }

  /** Whatever a model writes, it is some text, and wrappers, as the reader takes it. */
  lemma {:induction false} EveryReply(content: string) returns (before: string, wraps: seq<Wrap>)
    ensures ReadsAs(before, wraps) && Written(before, wraps) == content
    decreases |content|
  {
    if content == "" {
      before, wraps := "", [];
      NothingOpens();
    } else if o :| OpensWrap(o) && o <= content {
      OpenersOneBracket(o);
      before, wraps := EveryReply(content[|o|..]);
      wraps := OneWrapMore(content, o, before, wraps);
      before := "";
    } else {
      before, wraps := EveryReply(content[1..]);
      OneCharMore(content, before, wraps);
      before := [content[0]] + before;
    }
  }

  // ---- the markers and the call words, one by one ----

  predicate Marked(s: string) {
    || Contains(s, "<|tool_call_start|>") || Contains(s, "<|tool_call_end|>") || Contains(s, "<|tool_calls|>")
    || Contains(s, "<|tool_call|>") || Contains(s, "<tool_response>") || Contains(s, "<|fim_middle|>")
    || Contains(s, "<|end|>")
  }

  predicate Worded(s: string) { Contains(s, "\"name\"") || Contains(s, "\"function\"") || Contains(s, "\"tool\"") }

  lemma MarkedIff(s: string)
    ensures Marked(s) <==> HasAny(s, MARKERS)
  {
    assert MARKERS[0] == "<|tool_call_start|>" && MARKERS[1] == "<|tool_call_end|>" && MARKERS[2] == "<|tool_calls|>";
    assert MARKERS[3] == "<|tool_call|>" && MARKERS[4] == "<tool_response>" && MARKERS[5] == "<|fim_middle|>";
    assert MARKERS[6] == "<|end|>" && |MARKERS| == 7;
  }

  lemma WordedIff(s: string)
    ensures Worded(s) <==> HasAny(s, CALL_WORDS)
  {
    assert CALL_WORDS[0] == "\"name\"" && CALL_WORDS[1] == "\"function\"" && CALL_WORDS[2] == "\"tool\"";
    assert |CALL_WORDS| == 3;
  }

  /** No reader sees any of the seven markers. */
  lemma NoneOfTheSeven(p: Parser, content: string)
    ensures !Marked(Lenient(p, content).text)
  {
    NoMarkerSurvives(p, content);
    MarkedIff(Lenient(p, content).text);
  }

  /** What a reply without markers comes to: without a call word it is the reader's as it stands;
      with one it is searched for calls, which are cut out, and cleaned up. */
  lemma PlainReply(p: Parser, content: string)
    requires !Marked(content)
    ensures var reply, found := Lenient(p, content), CallsOf(p, SplitObjects(content));
            var text := Tidied(Blanked(p, SplitObjects(content), content));
            && (!Worded(content) ==> reply == Reply([], content))
            && (Worded(content) ==> NumberedFrom(reply.calls, found))
            && (Worded(content) && found == [] ==>
                  reply.text == if Tidied(content) == "" then Strip(content) else Tidied(content))
            && (Worded(content) && !Marked(Blanked(p, SplitObjects(content), content)) && found != [] ==>
                  reply.text == text)
  {
    MarkedIff(content);
    WordedIff(content);
    if Worded(content) {
      var left := Blanked(p, SplitObjects(content), content);
      MarkedIff(left);
      if !Marked(left) { NoMarkerNoChange(left); }
      if CallsOf(p, SplitObjects(content)) == [] { CallFreeText(p, content); }
    }
  }

  /** A reply with these calls, whose text is what is left, cleaned up; or, without calls and with
      nothing left to see, the content without its markers. */
  ghost predicate Comes(reply: Reply, calls: seq<Call>, left: string, content: string) {
    && NumberedFrom(reply.calls, calls)
    && (calls != [] || Clean(left) != "" ==> reply.text == Clean(left))
    && (calls == [] && Clean(left) == "" ==> reply.text == Strip(Stripped(content, MARKERS)))
  }

  lemma FinishedComes(calls: seq<Call>, left: string, content: string)
    ensures Comes(Finished(calls, left, content), calls, left, content)
  {
  }

  lemma MarkedReply(p: Parser, content: string)
    requires HasAny(content, MARKERS)
    ensures var inside := SegmentCalls(p, Segments(content)[1..], ENDERS);
            var outside := Join("\n", NonBlank(Kept(Segments(content), ENDERS)));
            Lenient(p, content) ==
            if inside != [] then Finished(inside, outside, content)
            else Finished(CallsOf(p, SplitObjects(outside)), Blanked(p, SplitObjects(outside), outside), content)
  {
  }

  /** What a reply with wrappers comes to. Its calls are those in the wrappers, and the reader sees
      what stands outside them, line by line and cleaned up; if the wrappers hold no call, what stands
      outside is searched for calls in turn. */
  lemma WrappedReply(p: Parser, before: string, wraps: seq<Wrap>)
    requires ReadsAs(before, wraps) && (wraps != [] || Marked(before))
    ensures var content, outside := Written(before, wraps), OnLines(Pieces(before, wraps));
            var reply := Lenient(p, content);
            if CallsIn(p, wraps) != [] then Comes(reply, CallsIn(p, wraps), outside, content)
            else Comes(reply, CallsOf(p, SplitObjects(outside)), Blanked(p, SplitObjects(outside), outside), content)
  {
    var content, outside := Written(before, wraps), OnLines(Pieces(before, wraps));
    WrapsAreMarked(before, wraps);
    SegmentsOf(before, wraps);
    assert Segments(content)[1..] == Bodies(wraps);
    WrappedCalls(p, wraps);
    KeptPieces(before, wraps);
    OnLinesJoins(Pieces(before, wraps));
    MarkedReply(p, content);
    FinishedComes(CallsIn(p, wraps), outside, content);
    FinishedComes(CallsOf(p, SplitObjects(outside)), Blanked(p, SplitObjects(outside), outside), content);
  }

  lemma WrapsAreMarked(before: string, wraps: seq<Wrap>)
    requires ReadsAs(before, wraps) && (wraps != [] || Marked(before))
    ensures HasAny(Written(before, wraps), MARKERS)
  {
    if wraps == [] {
      MarkedIff(before);
      assert Written(before, wraps) == before;
    } else {
      var content, o := Written(before, wraps), wraps[0].opener;
      assert OccursAt(content, o, |before|);
      OpenersAreMarkers(o);
    }
  }

  lemma OpenersAreMarkers(o: string)
    requires OpensWrap(o)
    ensures exists k :: 0 <= k < |MARKERS| && MARKERS[k] == o
  {
    assert MARKERS[0] == "<|tool_call_start|>" && MARKERS[3] == "<|tool_call|>" && MARKERS[4] == "<tool_response>";
  }

  lemma OneWrap(p: Parser, before: string, w: Wrap)
    ensures Written(before, [w]) == before + (w.opener + w.Body())
    ensures CallsIn(p, [w]) == CallsOf(p, SplitObjects(w.inner))
    ensures Pieces(before, [w]) == [before, w.After()]
  {
    assert [w][..0] == [] && [w][1..] == [];
    assert CallsIn(p, [w]) == CallsIn(p, []) + CallsOf(p, SplitObjects(w.inner));
    assert w.Body() + Rest([]) == w.Body();
  }

  lemma TwoLines(before: string, after: string)
    ensures OnLines([before, after]) == if Blank(before) then (if Blank(after) then "" else after)
                                        else if Blank(after) then before else before + "\n" + after
  {
    assert [before, after][..1] == [before] && [before][..0] == [];
    assert OnLines([before]) == if Blank(before) then "" else before;
  }

  /** One wrapper around calls: the calls are those between its markers, and the reader sees what
      stands before it and what stands behind it, on two lines if there is something on both sides. */
  lemma OneWrapper(p: Parser, before: string, o: string, inner: string, e: string, after: string)
    requires NoOpener(before) && Cut(Closed(o, inner, e, after)) && CallsOf(p, SplitObjects(inner)) != []
    ensures var reply := Lenient(p, before + (o + (inner + e + after)));
            && NumberedFrom(reply.calls, CallsOf(p, SplitObjects(inner)))
            && reply.text == Clean(if Blank(before) then (if Blank(after) then "" else after)
                                   else if Blank(after) then before else before + "\n" + after)
  {
    var w := Closed(o, inner, e, after);
    OneWrap(p, before, w);
    WrappedReply(p, before, [w]);
    TwoLines(before, after);
  }
}
