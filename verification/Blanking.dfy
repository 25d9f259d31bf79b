/** Where the recovered calls are cut out of the text (`lenient_tool_calls`): each is replaced by
    its text, which need not stand only where the call was found. */
module Blanking {
  import opened JsonScan
  import opened LenientCalls
  import opened ObjectSplit
  import opened PyText

  /** The chunks of a text in order, each opening with a brace. */
  predicate InLine(text: string, spans: seq<Span>) {
    && InOrder(spans)
    && forall j :: 0 <= j < |spans| ==> spans[j].from < spans[j].to <= |text| && text[spans[j].from] == '{'
  }

  function EndOf(spans: seq<Span>): nat { if spans == [] then 0 else spans[|spans| - 1].to }

  /** The text up to the end of the last chunk, with each chunk that `cut` names replaced by a
      space where it stands. */
  function CutOut(cut: string -> bool, text: string, spans: seq<Span>): string
    decreases |spans|, 0
  {
    if spans == [] then ""
    else
      var front, sp := spans[..|spans| - 1], spans[|spans| - 1];
      CutUpTo(cut, text, front, sp.from) + if cut(Chunk(text, sp)) then " " else Chunk(text, sp)
  }

  /** The same up to a later place. */
  function CutUpTo(cut: string -> bool, text: string, spans: seq<Span>, to: nat): string
    decreases |spans|, 1
  {
    CutOut(cut, text, spans) + Slice(text, EndOf(spans), to)
  }

  /** When its turn comes, the text of the `j`-th chunk stands nowhere before the chunk. */
  predicate FirstHere(cut: string -> bool, text: string, spans: seq<Span>, j: nat)
    requires j < |spans|
  {
    var chunk := Chunk(text, spans[j]);
    cut(chunk) ==>
      Find(CutUpTo(cut, text, spans[..j], |text|), chunk, 0) == Some(|CutUpTo(cut, text, spans[..j], spans[j].from)|)
  }

  /** The text has a space where `whole` has a brace, and agrees with it before that. */
  ghost predicate Diverged(text: string, whole: string) {
    exists d: nat :: DivergedAt(text, whole, d)
  }

  predicate DivergedAt(text: string, whole: string, d: nat) {
    && d < |text| && d < |whole| && text[d] == ' ' && whole[d] == '{'
    && forall k :: 0 <= k < d ==> text[k] == whole[k]
  }

  lemma ReplacedAt(text: string, w: string)
    requires w != "" && Find(text, w, 0).Some?
    ensures var i, after := Find(text, w, 0).value, ReplaceFirst(text, w, " ");
            && i < |after| && i < |text| && after[i] == ' ' && text[i] == w[0]
            && forall k :: 0 <= k < i ==> after[k] == text[k]
  {
    FindFirst(text, w, 0);
    assert text[Find(text, w, 0).value + 0] == w[0];
  }

  /** Replacing one more chunk does not undo that. */
  lemma DivergedStays(text: string, whole: string, chunk: string)
    requires Diverged(text, whole) && chunk != "" && chunk[0] == '{'
    ensures Diverged(ReplaceFirst(text, chunk, " "), whole)
  {
    var d: nat :| DivergedAt(text, whole, d);
    match Find(text, chunk, 0)
    case None =>
    case Some(i) =>
      ReplacedAt(text, chunk);
      assert DivergedAt(ReplaceFirst(text, chunk, " "), whole, if i < d then i else d);
  }

  /** Replacing a chunk anywhere but in its own place diverges. */
  lemma WrongPlace(a: string, chunk: string, b: string, whole: string)
    requires chunk != "" && chunk[0] == '{' && a <= whole
    requires Find(a + chunk + b, chunk, 0) != Some(|a|)
    ensures Diverged(ReplaceFirst(a + chunk + b, chunk, " "), whole)
  {
    var text := a + chunk + b;
    FoundBefore(a, chunk, b);
    ReplacedAt(text, chunk);
    assert forall k :: 0 <= k < |a| ==> text[k] == a[k] == whole[k];
    assert DivergedAt(ReplaceFirst(text, chunk, " "), whole, Find(text, chunk, 0).value);
  }

  lemma FoundBefore(a: string, chunk: string, b: string)
    ensures Find(a + chunk + b, chunk, 0).Some? && Find(a + chunk + b, chunk, 0).value <= |a|
  {
    assert OccursAt(a + chunk + b, chunk, |a|);
    FindFirst(a + chunk + b, chunk, 0);
  }

  lemma RightPlace(a: string, chunk: string, b: string)
    requires Find(a + chunk + b, chunk, 0) == Some(|a|)
    ensures ReplaceFirst(a + chunk + b, chunk, " ") == a + " " + b
  {
    var text := a + chunk + b;
    assert text[..|a|] == a && text[|a| + |chunk|..] == b;
  }

  lemma SliceParts(text: string, from: nat, mid: nat, to: nat)
    requires from <= mid <= to <= |text|
    ensures Slice(text, from, |text|) == Slice(text, from, mid) + Slice(text, mid, to) + Slice(text, to, |text|)
  {
  }

  /** The text with the first `j` chunks cut out, parted around the next one. */
  lemma Around(cut: string -> bool, text: string, spans: seq<Span>, j: nat)
    requires InLine(text, spans) && j < |spans|
    ensures var a, sp := CutUpTo(cut, text, spans[..j], spans[j].from), spans[j];
            && CutUpTo(cut, text, spans[..j], |text|) == a + Chunk(text, sp) + Slice(text, sp.to, |text|)
            && CutUpTo(cut, text, spans[..j + 1], |text|)
               == a + (if cut(Chunk(text, sp)) then " " else Chunk(text, sp)) + Slice(text, sp.to, |text|)
  {
    var done, sp := CutOut(cut, text, spans[..j]), spans[j];
    assert spans[..j + 1][..j] == spans[..j];
    assert j > 0 ==> spans[j - 1].to <= sp.from;
    SliceParts(text, EndOf(spans[..j]), sp.from, sp.to);
    Regroup(done, Slice(text, EndOf(spans[..j]), sp.from), Chunk(text, sp), Slice(text, sp.to, |text|));
  }

  lemma Regroup(a: string, b: string, c: string, d: string)
    ensures a + (b + c + d) == (a + b) + c + d
  {
  }

  lemma ChunkHead(text: string, spans: seq<Span>, j: nat)
    requires InLine(text, spans) && j < |spans|
    ensures Chunk(text, spans[j]) != "" && Chunk(text, spans[j])[0] == '{'
  {
  }

  lemma {:induction false} CutOutGrows(cut: string -> bool, text: string, spans: seq<Span>, j: nat, n: nat)
    requires j < n <= |spans|
    ensures CutUpTo(cut, text, spans[..j], spans[j].from) <= CutOut(cut, text, spans[..n])
    decreases n - j
  {
    assert spans[..n][..n - 1] == spans[..n - 1];
    if j + 1 < n { CutOutGrows(cut, text, spans, j, n - 1); }
  }

  /** One turn of the loop. */
  lemma ReplaceStep(cut: string -> bool, text: string, spans: seq<Span>, j: nat, before: string, whole: string)
    requires InLine(text, spans) && j < |spans| && cut(Chunk(text, spans[j]))
    requires whole == CutUpTo(cut, text, spans, |text|)
    requires before == CutUpTo(cut, text, spans[..j], |text|)
    ensures var after := ReplaceFirst(before, Chunk(text, spans[j]), " ");
            if FirstHere(cut, text, spans, j) then after == CutUpTo(cut, text, spans[..j + 1], |text|)
            else Diverged(after, whole)
  {
    var a, chunk := CutUpTo(cut, text, spans[..j], spans[j].from), Chunk(text, spans[j]);
    var b := Slice(text, spans[j].to, |text|);
    Around(cut, text, spans, j);
    ChunkHead(text, spans, j);
    if FirstHere(cut, text, spans, j) {
      RightPlace(a, chunk, b);
    } else {
      CutOutGrows(cut, text, spans, j, |spans|);
      assert spans[..|spans|] == spans;
      WrongPlace(a, chunk, b, whole);
    }
  }

  predicate AllFirst(cut: string -> bool, text: string, spans: seq<Span>, n: nat)
    requires n <= |spans|
  {
    forall j: nat :: j < n ==> FirstHere(cut, text, spans, j)
  }

  /** After `n` turns: the chunks are cut out where they stand, or that can no longer be. */
  ghost predicate OnTrack(cut: string -> bool, text: string, spans: seq<Span>, n: nat, left: string)
    requires n <= |spans|
  {
    if AllFirst(cut, text, spans, n) then left == CutUpTo(cut, text, spans[..n], |text|)
    else Diverged(left, CutUpTo(cut, text, spans, |text|))
  }

  lemma CutTurn(cut: string -> bool, text: string, spans: seq<Span>, n: nat, before: string)
    requires InLine(text, spans) && n < |spans| && OnTrack(cut, text, spans, n, before) && cut(Chunk(text, spans[n]))
    ensures OnTrack(cut, text, spans, n + 1, ReplaceFirst(before, Chunk(text, spans[n]), " "))
  {
    var whole := CutUpTo(cut, text, spans, |text|);
    if AllFirst(cut, text, spans, n) {
      ReplaceStep(cut, text, spans, n, before, whole);
    } else {
      ChunkHead(text, spans, n);
      DivergedStays(before, whole, Chunk(text, spans[n]));
    }
  }

  lemma KeptTurn(cut: string -> bool, text: string, spans: seq<Span>, n: nat, before: string)
    requires InLine(text, spans) && n < |spans| && OnTrack(cut, text, spans, n, before) && !cut(Chunk(text, spans[n]))
    ensures OnTrack(cut, text, spans, n + 1, before)
  {
    Around(cut, text, spans, n);
  }

  /** What holds of the text at first and stays through each turn holds after all of them. */
  lemma {:induction false} ReplacedKeeps(cut: string -> bool, chunks: seq<string>, text: string, n: nat,
                                         holds: (nat, string) -> bool)
    requires n <= |chunks| && holds(0, text)
    requires forall j: nat, left {:trigger chunks[j], holds(j, left)} :: j < |chunks| && holds(j, left) ==>
               holds(j + 1, if cut(chunks[j]) then ReplaceFirst(left, chunks[j], " ") else left)
    ensures holds(n, Replaced(cut, chunks[..n], text))
  {
    if n > 0 {
      ReplacedKeeps(cut, chunks, text, n - 1, holds);
      assert chunks[..n][..n - 1] == chunks[..n - 1] && chunks[..n][n - 1] == chunks[n - 1];
    }
  }

  lemma NothingCut(cut: string -> bool, text: string, spans: seq<Span>)
    ensures OnTrack(cut, text, spans, 0, text)
  {
    assert Slice(text, 0, |text|) == text;
  }

  ghost function Track(cut: string -> bool, text: string, spans: seq<Span>): (nat, string) -> bool {
    (n: nat, left: string) => n <= |spans| && OnTrack(cut, text, spans, n, left)
  }

  lemma OneTurn(cut: string -> bool, text: string, spans: seq<Span>, n: nat, chunk: string, left: string)
    requires InLine(text, spans) && n < |spans| && chunk == Chunk(text, spans[n]) && Track(cut, text, spans)(n, left)
    ensures Track(cut, text, spans)(n + 1, if cut(chunk) then ReplaceFirst(left, chunk, " ") else left)
  {
    if cut(chunk) {
      CutTurn(cut, text, spans, n, left);
    } else {
      KeptTurn(cut, text, spans, n, left);
    }
  }

  lemma TurnsKeepTrack(cut: string -> bool, text: string, spans: seq<Span>, chunks: seq<string>,
                       track: (nat, string) -> bool)
    requires InLine(text, spans) && chunks == Chunks(text, spans) && track == Track(cut, text, spans)
    ensures track(0, text)
    ensures forall j: nat, left :: j < |chunks| && track(j, left) ==>
              track(j + 1, if cut(chunks[j]) then ReplaceFirst(left, chunks[j], " ") else left)
  {
    NothingCut(cut, text, spans);
    forall j: nat, left | j < |chunks| && track(j, left)
      ensures track(j + 1, if cut(chunks[j]) then ReplaceFirst(left, chunks[j], " ") else left)
    {
      OneTurn(cut, text, spans, j, chunks[j], left);
    }
  }

  lemma StaysOnTrack(cut: string -> bool, text: string, spans: seq<Span>, chunks: seq<string>)
    requires InLine(text, spans) && chunks == Chunks(text, spans)
    ensures Track(cut, text, spans)(|spans|, Replaced(cut, chunks, text))
  {
    TurnsKeepTrack(cut, text, spans, chunks, Track(cut, text, spans));
    ReplacedKeeps(cut, chunks, text, |chunks|, Track(cut, text, spans));
    assert chunks[..|chunks|] == chunks;
  }

  lemma NotDiverged(text: string)
    ensures !Diverged(text, text)
  {
  }

  /** Replacing every named chunk by its text cuts each out where it stands exactly when the text
      of none stands before it. */
  lemma ReplacedInPlaceIff(cut: string -> bool, text: string, spans: seq<Span>)
    requires InLine(text, spans)
    ensures Replaced(cut, Chunks(text, spans), text) == CutUpTo(cut, text, spans, |text|) <==>
            AllFirst(cut, text, spans, |spans|)
  {
    StaysOnTrack(cut, text, spans, Chunks(text, spans));
    assert spans[..|spans|] == spans;
    NotDiverged(CutUpTo(cut, text, spans, |text|));
  }

  // ---- the calls ----

  lemma SplitInLine(text: string)
    ensures InLine(text, Spans(text))
  {
    SplitSound(text);
  }

  /** The text with its calls cut out, each where it stands. */
  function CallsCutOut(p: Parser, text: string): string { CutUpTo(IsCall(p), text, Spans(text), |text|) }

  /** The calls are cut out of the text where they stand exactly when each of them is, at its
      turn, the first place with its text. */
  lemma BlankedInPlaceIff(p: Parser, text: string)
    ensures Blanked(p, SplitObjects(text), text) == CallsCutOut(p, text) <==>
            AllFirst(IsCall(p), text, Spans(text), |Spans(text)|)
  {
    SplitInLine(text);
    ReplacedInPlaceIff(IsCall(p), text, Spans(text));
  }

  // ---- a call cut out in the wrong place ----

  lemma TwoChunks(text: string, at: nat)
    requires at < |text| && IsChunk(text, Span(0, at)) && IsChunk(text, Span(at + 1, |text|)) && Flat(text, at)
    ensures Spans(text) == [Span(0, at), Span(at + 1, |text|)]
  {
    var spans := [Span(0, at), Span(at + 1, |text|)];
    forall i: nat | i < |text| ensures Covered(spans, i) || i == at {
      if i < at {
        assert spans[0].from <= i < spans[0].to;
      } else if i > at {
        assert spans[1].from <= i < spans[1].to;
      }
    }
    SplitUnique(text, spans);
  }

  lemma SpaceStands(text: string, at: nat)
    requires at < |text| && text[at] == ' ' && StandOf(text)(at) == Stand(false, false, 0)
    ensures StandOf(text)(at + 1) == Stand(false, false, 0) && Flat(text, at)
  {
    TurnOf(text, at);
    StandDepth(text, at);
    StandDepth(text, at + 1);
  }

  lemma TwoObjects(m: Nest, n: Nest, text: string, at: nat)
    requires Proper(m) && Proper(n) && OccursAt(text, Object(m), 0) && OccursAt(text, Object(n), at + 1)
    requires at == |Object(m)| && text[at] == ' ' && |text| == at + 1 + |Object(n)|
    ensures Spans(text) == [Span(0, at), Span(at + 1, |text|)]
  {
    ObjectIsChunk(text, m, 0);
    SpaceStands(text, at);
    ObjectIsChunk(text, n, at + 1);
    TwoChunks(text, at);
  }

  /** What stands behind the replaced word stays. */
  lemma ReplaceKeepsBehind(text: string, w: string, v: string, k: nat)
    requires Find(text, w, 0).Some? && Find(text, w, 0).value + |w| <= k && OccursAt(text, v, k)
    ensures Contains(ReplaceFirst(text, w, " "), v)
  {
    var i := Find(text, w, 0).value;
    OccursBehind(text, i + |w|, v, k);
    OccursAfter(text[..i] + " ", text[i + |w|..], v, k - i - |w|);
  }

  lemma FoundInFront(text: string, w: string, i: nat)
    requires OccursAt(text, w, i)
    ensures Find(text, w, 0).Some? && Find(text, w, 0).value <= i
  {
    FindFirst(text, w, 0);
  }

  lemma UncutFront(cut: string -> bool, text: string, at: nat, to: nat)
    requires at <= to <= |text| && !cut(text[..at])
    ensures CutUpTo(cut, text, [Span(0, at)], to) == text[..to]
  {
    var front := [Span(0, at)];
    assert front[..|front| - 1] == [] && front[|front| - 1] == Span(0, at);
    assert Chunk(text, Span(0, at)) == text[..at];
    assert CutUpTo(cut, text, [], 0) == "";
    assert CutOut(cut, text, [Span(0, at)]) == text[..at];
  }

  lemma SecondIsNotFirst(cut: string -> bool, text: string, at: nat, i: nat)
    requires at < |text| && !cut(text[..at]) && cut(text[at + 1..])
    requires OccursAt(text, text[at + 1..], i) && i < at
    ensures !FirstHere(cut, text, [Span(0, at), Span(at + 1, |text|)], 1)
  {
    var spans := [Span(0, at), Span(at + 1, |text|)];
    assert spans[..1] == [Span(0, at)];
    assert Chunk(text, spans[1]) == text[at + 1..];
    UncutFront(cut, text, at, |text|);
    UncutFront(cut, text, at, at + 1);
    assert text[..|text|] == text;
    FoundInFront(text, text[at + 1..], i);
  }

  lemma ReplacedTwo(cut: string -> bool, m: string, n: string, text: string)
    requires !cut(m) && cut(n)
    ensures Replaced(cut, [m, n], text) == ReplaceFirst(text, n, " ")
  {
    assert [m, n][..1] == [m] && [m][..0] == [];
    assert Replaced(cut, [m], text) == text;
  }

  lemma Sides(m: string, n: string, i: nat)
    requires OccursAt(m, n, i) && n != ""
    ensures var text, at := m + " " + n, |m|;
            && text[..at] == m && text[at] == ' ' && text[at + 1..] == n && i < at
            && OccursAt(text, m, 0) && OccursAt(text, n, at + 1) && OccursAt(text, n, i)
  {
    var text := m + " " + n;
    assert forall k :: 0 <= k < |n| ==> n[k] == m[i + k] == text[i + k];
  }

  lemma TwoSplit(text: string, at: nat)
    requires at < |text| && Spans(text) == [Span(0, at), Span(at + 1, |text|)]
    ensures SplitObjects(text) == [text[..at], text[at + 1..]]
  {
    assert SplitObjects(text)[0] == Chunk(text, Span(0, at)) == text[..at];
    assert SplitObjects(text)[1] == Chunk(text, Span(at + 1, |text|)) == text[at + 1..];
  }

  lemma SecondCopyStays(p: Parser, text: string, at: nat, i: nat)
    requires at < |text| && Spans(text) == [Span(0, at), Span(at + 1, |text|)]
    requires Recover(p, text[..at]).None? && Recover(p, text[at + 1..]).Some?
    requires OccursAt(text, text[at + 1..], i) && i + |text[at + 1..]| <= at && i < at
    ensures Blanked(p, SplitObjects(text), text) != CallsCutOut(p, text)
    ensures Contains(Blanked(p, SplitObjects(text), text), text[at + 1..])
  {
    TwoSplit(text, at);
    ReplacedTwo(IsCall(p), text[..at], text[at + 1..], text);
    FoundInFront(text, text[at + 1..], i);
    ReplaceKeepsBehind(text, text[at + 1..], text[at + 1..], at + 1);
    SecondIsNotFirst(IsCall(p), text, at, i);
    BlankedInPlaceIff(p, text);
  }

  /** The case that fails: where an object that is no call holds the text of the call behind it,
      the copy in the object is cut, and the call stays in the text. */
  lemma CopyIsCutInstead(p: Parser, m: Nest, n: Nest, i: nat)
    requires Proper(m) && Proper(n) && OccursAt(Object(m), Object(n), i)
    requires Recover(p, Object(m)).None? && Recover(p, Object(n)).Some?
    ensures var text := Object(m) + " " + Object(n);
            && Blanked(p, SplitObjects(text), text) != CallsCutOut(p, text)
            && Contains(Blanked(p, SplitObjects(text), text), Object(n))
  {
    var text, at := Object(m) + " " + Object(n), |Object(m)|;
    Sides(Object(m), Object(n), i);
    TwoObjects(m, n, text, at);
    SecondCopyStays(p, text, at, i);
  }
}
