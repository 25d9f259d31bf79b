/** Splitting model text into candidate top-level objects (`_split_objects`). */
module ObjectSplit {
  import opened JsonScan
  import opened PyText

  /** A chunk of a text, from its first index up to but not including `to`. */
  datatype Span = Span(from: nat, to: nat)

  /** What the loop has found: the brace depth, where the open chunk began, the finished chunks. */
  datatype Found = Found(depth: nat, start: nat, spans: seq<Span>)

  /** The scanner after the first `i` characters. */
  function ScanAt(text: string, i: nat): Scan
    requires i <= |text|
  {
    ScanFrom(START, text[..i])
  }

  lemma ScanNext(text: string, i: nat)
    requires i < |text|
    ensures ScanAt(text, i + 1) == Step(ScanAt(text, i), text[i])
  {
    assert text[..i + 1][..i] == text[..i];
  }

  /** One turn of the loop at index `i`. */
  function FindStep(f: Found, i: nat, c: char, inString: bool): Found {
    if inString then f
    else if c == '{' then f.(depth := f.depth + 1, start := if f.depth == 0 then i else f.start)
    else if c == '}' && f.depth > 0 then
      f.(depth := f.depth - 1, spans := if f.depth == 1 then f.spans + [Span(f.start, i + 1)] else f.spans)
    else f
  }

  /** What the loop has found after the first `i` characters. */
  function FoundAt(text: string, i: nat): Found
    requires i <= |text|
  {
    if i == 0 then Found(0, 0, [])
    else FindStep(FoundAt(text, i - 1), i - 1, text[i - 1], ScanAt(text, i - 1).inString)
  }

  /** Brace depth after the first `i` characters. */
  function Depth(text: string, i: nat): nat
    requires i <= |text|
  {
    FoundAt(text, i).depth
  }

  function Spans(text: string): seq<Span> {
    var f := FoundAt(text, |text|);
    if f.depth > 0 then f.spans + [Span(f.start, |text|)] else f.spans
  }

  function Chunk(text: string, sp: Span): string { Slice(text, sp.from, sp.to) }

  function Chunks(text: string, spans: seq<Span>): seq<string> {
    seq(|spans|, j requires 0 <= j < |spans| => Chunk(text, spans[j]))
  }

  /** What `_split_objects` returns. */
  function SplitObjects(text: string): seq<string> { Chunks(text, Spans(text)) }

  method SplitIntoObjects(text: string) returns (chunks: seq<string>)
    ensures chunks == SplitObjects(text)
  {
    chunks := [];
    var depth: nat, start: int, inString, escaped := 0, -1, false, false;
    for i := 0 to |text|
      invariant ScanAt(text, i).inString == inString && ScanAt(text, i).escaped == escaped
      invariant escaped ==> inString
      invariant FoundAt(text, i).depth == depth
      invariant depth > 0 ==> 0 <= start < i && start == FoundAt(text, i).start
      invariant chunks == Chunks(text, FoundAt(text, i).spans)
    {
      var ch := text[i];
      ghost var f := FoundAt(text, i);
      assert FoundAt(text, i + 1) == FindStep(f, i, ch, inString);
      ScanNext(text, i);
      if inString {
        if escaped {
          escaped := false;
        } else if ch == '\\' {
          escaped := true;
        } else if ch == '"' {
          inString := false;
        }
        continue;
      }
      if ch == '"' {
        inString := true;
      } else if ch == '{' {
        if depth == 0 {
          start := i;
        }
        depth := depth + 1;
      } else if ch == '}' {
        if depth > 0 {
          depth := depth - 1;
          if depth == 0 && start >= 0 {
            assert Chunk(text, Span(start, i + 1)) == text[start..i + 1];
            chunks := chunks + [text[start..i + 1]];
          }
        }
      }
    }
    if depth > 0 && start >= 0 {
      assert Chunk(text, Span(start, |text|)) == text[start..];
      chunks := chunks + [text[start..]];
    }
  }

  // ---- what the split means ----

  /** A brace outside strings opens at `i`. */
  predicate Opens(text: string, i: nat) {
    i < |text| && text[i] == '{' && !ScanAt(text, i).inString
  }

  predicate Covered(spans: seq<Span>, i: nat) {
    exists j :: 0 <= j < |spans| && spans[j].from <= i < spans[j].to
  }

  /** A chunk starts at a structural brace at depth 0, is deep throughout, and ends at
      depth 0 for the first time, or with the text. */
  predicate IsChunk(text: string, sp: Span) {
    && sp.from < sp.to <= |text|
    && Opens(text, sp.from) && Depth(text, sp.from) == 0
    && (forall i :: sp.from < i < sp.to ==> Depth(text, i) > 0)
    && (Depth(text, sp.to) == 0 || sp.to == |text|)
  }

  predicate InOrder(spans: seq<Span>) {
    forall j, l :: 0 <= j < l < |spans| ==> spans[j].to <= spans[l].from
  }

  /** No depth at or after the character `i`. */
  predicate Flat(text: string, i: nat)
    requires i < |text|
  {
    Depth(text, i) == 0 && Depth(text, i + 1) == 0
  }

  /** The reference account: ordered disjoint chunks, and no depth outside them. */
  ghost predicate IsSplit(text: string, spans: seq<Span>) {
    && (forall j :: 0 <= j < |spans| ==> IsChunk(text, spans[j]))
    && InOrder(spans)
    && (forall i: nat :: i < |text| && !Covered(spans, i) ==> Flat(text, i))
  }

  /** What holds of the first `i` characters: the finished chunks, and the open one. */
  ghost predicate SplitSoFar(text: string, i: nat)
    requires i <= |text|
  {
    var f := FoundAt(text, i);
    && (forall j :: 0 <= j < |f.spans| ==> IsChunk(text, f.spans[j]) && f.spans[j].to <= i)
    && InOrder(f.spans)
    && (f.depth > 0 ==> && f.start < i && Opens(text, f.start) && Depth(text, f.start) == 0
                        && (forall k :: f.start < k <= i ==> Depth(text, k) > 0)
                        && (forall j :: 0 <= j < |f.spans| ==> f.spans[j].to <= f.start))
    && (forall k: nat :: k < i && !Covered(f.spans, k) && (f.depth > 0 ==> k < f.start) ==> Flat(text, k))
  }

  lemma CoveredPush(spans: seq<Span>, sp: Span)
    ensures forall k: nat :: Covered(spans + [sp], k) <==> Covered(spans, k) || sp.from <= k < sp.to
  {
    var all := spans + [sp];
    forall k: nat ensures Covered(all, k) <==> Covered(spans, k) || sp.from <= k < sp.to {
      if Covered(spans, k) {
        var j :| 0 <= j < |spans| && spans[j].from <= k < spans[j].to;
        assert all[j] == spans[j];
      }
      if sp.from <= k < sp.to {
        assert all[|spans|] == sp;
      }
    }
  }

  lemma ChunkPush(text: string, spans: seq<Span>, sp: Span)
    requires InOrder(spans) && forall j :: 0 <= j < |spans| ==> IsChunk(text, spans[j]) && spans[j].to <= sp.from
    requires IsChunk(text, sp)
    ensures var all := spans + [sp];
            InOrder(all) && forall j :: 0 <= j < |all| ==> IsChunk(text, all[j]) && all[j].to <= sp.to
  {
  }

  /** The loop turn that ends a chunk. */
  lemma CloseChunk(text: string, i: nat)
    requires i < |text| && SplitSoFar(text, i)
    requires FoundAt(text, i).depth == 1 && text[i] == '}' && !ScanAt(text, i).inString
    ensures SplitSoFar(text, i + 1)
  {
    var f := FoundAt(text, i);
    var sp := Span(f.start, i + 1);
    assert FoundAt(text, i + 1) == Found(0, f.start, f.spans + [sp]);
    assert Depth(text, i + 1) == 0;
    assert IsChunk(text, sp);
    CoveredPush(f.spans, sp);
    ChunkPush(text, f.spans, sp);
  }

  /** Any other loop turn. */
  lemma KeepChunks(text: string, i: nat)
    requires i < |text| && SplitSoFar(text, i)
    requires !(FoundAt(text, i).depth == 1 && text[i] == '}' && !ScanAt(text, i).inString)
    ensures SplitSoFar(text, i + 1)
  {
    var f, f' := FoundAt(text, i), FoundAt(text, i + 1);
    assert f' == FindStep(f, i, text[i], ScanAt(text, i).inString);
    assert f'.spans == f.spans;
    assert Depth(text, i) == f.depth && Depth(text, i + 1) == f'.depth;
    if f.depth > 0 {
      assert f'.depth > 0 && f'.start == f.start;
    } else if f'.depth > 0 {
      assert f'.start == i && Opens(text, i);
    } else {
      assert Flat(text, i);
    }
  }

  lemma SplitStep(text: string, i: nat)
    requires i < |text| && SplitSoFar(text, i)
    ensures SplitSoFar(text, i + 1)
  {
    if FoundAt(text, i).depth == 1 && text[i] == '}' && !ScanAt(text, i).inString {
      CloseChunk(text, i);
    } else {
      KeepChunks(text, i);
    }
  }

  lemma SplitStart(text: string)
    ensures SplitSoFar(text, 0)
  {
  }

  lemma {:induction false} SplitHolds(text: string, i: nat)
    requires i <= |text|
    ensures SplitSoFar(text, i)
  {
    if i == 0 {
      SplitStart(text);
    } else {
      SplitHolds(text, i - 1);
      SplitStep(text, i - 1);
    }
  }

  /** The split is a split in the reference sense. */
  lemma SplitSound(text: string)
    ensures IsSplit(text, Spans(text))
  {
    SplitHolds(text, |text|);
    var f := FoundAt(text, |text|);
    if f.depth > 0 {
      var sp := Span(f.start, |text|);
      assert Depth(text, |text|) == f.depth;
      assert IsChunk(text, sp);
      CoveredPush(f.spans, sp);
      ChunkPush(text, f.spans, sp);
    }
  }

  /** Outside the chunks no structural brace opens. */
  lemma NothingOpensOutside(text: string, i: nat)
    requires Opens(text, i)
    ensures Covered(Spans(text), i)
  {
    SplitSound(text);
    assert Depth(text, i + 1) > 0;
  }

  /** The first character of a chunk lies in some chunk of any other split. */
  lemma StartCovered(text: string, sp: Span, spans: seq<Span>) returns (j: nat)
    requires IsChunk(text, sp) && IsSplit(text, spans)
    ensures j < |spans| && spans[j].from <= sp.from < spans[j].to
  {
    assert Depth(text, sp.from + 1) > 0;
    assert Covered(spans, sp.from);
    j :| 0 <= j < |spans| && spans[j].from <= sp.from < spans[j].to;
  }

  lemma SameStart(text: string, sp: Span, tp: Span)
    requires IsChunk(text, sp) && IsChunk(text, tp) && sp.from == tp.from
    ensures sp == tp
  {
  }

  lemma CoveringSpan(a: seq<Span>, b: seq<Span>, j: nat, l: nat)
    requires InOrder(a) && InOrder(b) && j < |a| && l < |b| && j <= |b|
    requires forall k :: 0 <= k < |b| ==> b[k].from < b[k].to
    requires forall k :: 0 <= k < j ==> a[k] == b[k]
    requires b[l].from <= a[j].from < b[l].to
    ensures j < |b| && b[j].from <= a[j].from
  {
    assert forall k :: 0 <= k < j ==> b[k].to <= a[j].from;
    assert j < l ==> b[j].to <= b[l].from;
  }

  /** Where two splits agree before `j`, the other's chunk around the start of `a[j]` is not
      among those before `j`, so its own `j`-th chunk starts no later. */
  lemma StartsNoLater(text: string, a: seq<Span>, b: seq<Span>, j: nat)
    requires IsSplit(text, a) && IsSplit(text, b) && j < |a| && j <= |b|
    requires forall l :: 0 <= l < j ==> a[l] == b[l]
    ensures j < |b| && b[j].from <= a[j].from
  {
    var l := StartCovered(text, a[j], b);
    assert forall k :: 0 <= k < |b| ==> IsChunk(text, b[k]);
    CoveringSpan(a, b, j, l);
  }

  lemma SameChunkAt(text: string, a: seq<Span>, b: seq<Span>, j: nat)
    requires IsSplit(text, a) && IsSplit(text, b) && j < |a| && j <= |b|
    requires forall l :: 0 <= l < j ==> a[l] == b[l]
    ensures j < |b| && a[j] == b[j]
  {
    StartsNoLater(text, a, b, j);
    StartsNoLater(text, b, a, j);
    SameStart(text, a[j], b[j]);
  }

  /** How far two sequences agree. */
  lemma {:induction false} FirstDifference(a: seq<Span>, b: seq<Span>, n: nat) returns (j: nat)
    requires n <= |a| && n <= |b| && forall l :: 0 <= l < n ==> a[l] == b[l]
    ensures j <= |a| && j <= |b| && forall l :: 0 <= l < j ==> a[l] == b[l]
    ensures j < |a| && j < |b| ==> a[j] != b[j]
    decreases |a| - n
  {
    j := n;
    if n < |a| && n < |b| && a[n] == b[n] {
      j := FirstDifference(a, b, n + 1);
    }
  }

  lemma OneSplit(text: string, a: seq<Span>, b: seq<Span>)
    requires IsSplit(text, a) && IsSplit(text, b)
    ensures a == b
  {
    var j := FirstDifference(a, b, 0);
    if j < |a| {
      SameChunkAt(text, a, b, j);
    } else if j < |b| {
      SameChunkAt(text, b, a, j);
    }
  }

  /** The reference account determines the split: there is no other. */
  lemma SplitUnique(text: string, spans: seq<Span>)
    ensures IsSplit(text, spans) <==> spans == Spans(text)
  {
    SplitSound(text);
    if IsSplit(text, spans) { OneSplit(text, spans, Spans(text)); }
  }

  // ---- splitting a chunk again ----

  /** The same character takes scans in the same mode at the same depth to the same again. */
  lemma ScanSame(a: string, i: nat, b: string, j: nat)
    requires 0 < i <= |a| && 0 < j <= |b| && a[i - 1] == b[j - 1]
    requires ScanAt(a, i - 1).inString == ScanAt(b, j - 1).inString
    requires ScanAt(a, i - 1).escaped == ScanAt(b, j - 1).escaped
    requires Depth(a, i - 1) == Depth(b, j - 1)
    ensures ScanAt(a, i).inString == ScanAt(b, j).inString && ScanAt(a, i).escaped == ScanAt(b, j).escaped
    ensures Depth(a, i) == Depth(b, j)
  {
    ScanNext(a, i - 1);
    ScanNext(b, j - 1);
  }

  /** Starting at a place outside strings, a piece of the text is scanned as it was in place. */
  lemma {:induction false} ChunkInPlace(text: string, sp: Span, i: nat)
    requires IsChunk(text, sp) && i <= sp.to - sp.from
    ensures var piece, whole := ScanAt(Chunk(text, sp), i), ScanAt(text, sp.from + i);
            piece.inString == whole.inString && piece.escaped == whole.escaped
    ensures Depth(Chunk(text, sp), i) == Depth(text, sp.from + i)
  {
    if i == 0 {
      EscapedOnlyInString(text[..sp.from]);
    } else {
      ChunkInPlace(text, sp, i - 1);
      ScanSame(Chunk(text, sp), i, text, sp.from + i);
    }
  }

  lemma ChunkIsWhole(text: string, sp: Span)
    requires IsChunk(text, sp)
    ensures IsChunk(Chunk(text, sp), Span(0, |Chunk(text, sp)|))
  {
    var chunk := Chunk(text, sp);
    forall i: nat | i <= |chunk| ensures Depth(chunk, i) == Depth(text, sp.from + i) {
      ChunkInPlace(text, sp, i);
    }
    ChunkInPlace(text, sp, 0);
  }

  lemma WholeSplit(text: string)
    requires IsChunk(text, Span(0, |text|))
    ensures SplitObjects(text) == [text]
  {
    var alone := [Span(0, |text|)];
    forall i: nat | i < |text| ensures Covered(alone, i) {
      assert alone[0].from <= i < alone[0].to;
    }
    SplitUnique(text, alone);
    ChunkOfAll(text);
  }

  lemma ChunkOfAll(text: string)
    ensures Chunks(text, [Span(0, |text|)]) == [text]
  {
    assert text[0..|text|] == text;
  }

  /** Splitting any chunk of a split again gives exactly that chunk. */
  lemma ResplitIsIdentity(text: string, chunk: string)
    requires chunk in SplitObjects(text)
    ensures SplitObjects(chunk) == [chunk]
  {
    SplitSound(text);
    var j :| 0 <= j < |Spans(text)| && SplitObjects(text)[j] == chunk;
    ChunkIsWhole(text, Spans(text)[j]);
    WholeSplit(chunk);
  }

  lemma {:induction false} NoBraceNoChunk(text: string, i: nat)
    requires i <= |text| && '{' !in text
    ensures FoundAt(text, i) == Found(0, 0, [])
  {
    if i > 0 { NoBraceNoChunk(text, i - 1); }
  }

  // ---- every object in the open is split off ----

  /** The string state of the scan and the brace depth. */
  datatype Stand = Stand(inString: bool, escaped: bool, depth: nat)

  function Turn(s: Stand, c: char): Stand {
    if s.inString then
      if s.escaped then s.(escaped := false)
      else if c == '\\' then s.(escaped := true)
      else s.(inString := c != '"')
    else if c == '"' then s.(inString := true)
    else if c == '{' then s.(depth := s.depth + 1)
    else if c == '}' && s.depth > 0 then s.(depth := s.depth - 1)
    else s
  }

  function StandOf(text: string): nat -> Stand {
    (i: nat) => if i <= |text| then Stand(ScanAt(text, i).inString, ScanAt(text, i).escaped, Depth(text, i))
                else Stand(false, false, 0)
  }

  ghost predicate Follows(text: string, stand: nat -> Stand) {
    forall i: nat {:trigger text[i]} :: i < |text| ==> stand(i + 1) == Turn(stand(i), text[i])
  }

  lemma TurnOf(text: string, i: nat)
    requires i < |text|
    ensures StandOf(text)(i + 1) == Turn(StandOf(text)(i), text[i])
  {
    ScanNext(text, i);
    EscapedOnlyInString(text[..i]);
    assert FoundAt(text, i + 1) == FindStep(FoundAt(text, i), i, text[i], ScanAt(text, i).inString);
  }

  lemma StandsFollow(text: string)
    ensures Follows(text, StandOf(text))
  {
    forall i: nat | i < |text| ensures StandOf(text)(i + 1) == Turn(StandOf(text)(i), text[i]) {
      TurnOf(text, i);
    }
  }

  /** From one place to another, the stand is the same at both ends and no less deep between. */
  ghost predicate Level(stand: nat -> Stand, from: nat, to: nat, s: Stand) {
    stand(from) == stand(to) == s && forall i: nat :: from <= i <= to ==> stand(i).depth >= s.depth
  }

  lemma OccursCons(text: string, c: char, rest: string, at: nat)
    requires OccursAt(text, [c] + rest, at)
    ensures text[at] == c && OccursAt(text, rest, at + 1)
  {
    var w := [c] + rest;
    assert forall k :: 0 <= k < |rest| ==> text[at + 1 + k] == text[at + (k + 1)] == w[k + 1] == rest[k];
    assert text[at + 0] == w[0];
  }

  lemma OccursBoth(text: string, a: string, b: string, at: nat)
    requires OccursAt(text, a + b, at)
    ensures OccursAt(text, a, at) && OccursAt(text, b, at + |a|)
  {
    var w := a + b;
    assert forall k :: 0 <= k < |a| ==> text[at + k] == w[k] == a[k];
    assert forall k :: 0 <= k < |b| ==> text[at + |a| + k] == text[at + (|a| + k)] == w[|a| + k] == b[k];
  }

  lemma OccursWrap(text: string, open: char, inside: string, close: char, rest: string, at: nat)
    requires OccursAt(text, Wrap(open, inside, close, rest), at)
    ensures text[at] == open && OccursAt(text, inside, at + 1)
    ensures text[at + |inside| + 1] == close && OccursAt(text, rest, at + |inside| + 2)
  {
    assert Wrap(open, inside, close, rest) == [open] + (inside + ([close] + rest));
    OccursCons(text, open, inside + ([close] + rest), at);
    OccursBoth(text, inside, [close] + rest, at + 1);
    OccursCons(text, close, rest, at + 1 + |inside|);
  }

  lemma OccursEsc(text: string, e: char, rest: Body, at: nat)
    requires OccursAt(text, ShowBody(Esc(e, rest)), at)
    ensures text[at] == '\\' && text[at + 1] == e && OccursAt(text, ShowBody(rest), at + 2)
  {
    assert ShowBody(Esc(e, rest)) == ['\\'] + ([e] + ShowBody(rest));
    OccursCons(text, '\\', [e] + ShowBody(rest), at);
    OccursCons(text, e, ShowBody(rest), at + 1);
  }

  /** The inside of a string literal is passed over at one depth. */
  lemma {:induction false} BodyLevel(text: string, stand: nat -> Stand, b: Body, at: nat)
    requires Follows(text, stand) && OccursAt(text, ShowBody(b), at)
    requires stand(at).inString && !stand(at).escaped
    ensures Level(stand, at, at + |ShowBody(b)|, stand(at))
  {
    match b
    case End =>
    case Lit(c, rest) =>
      OccursCons(text, c, ShowBody(rest), at);
      BodyLevel(text, stand, rest, at + 1);
    case Esc(e, rest) =>
      OccursEsc(text, e, rest, at);
      BodyLevel(text, stand, rest, at + 2);
  }

  /** Outside strings, well-nested text ends as it began. */
  lemma {:induction false} NestLevel(text: string, stand: nat -> Stand, n: Nest, at: nat)
    requires Proper(n) && Follows(text, stand) && OccursAt(text, Show(n), at)
    requires !stand(at).inString && !stand(at).escaped
    ensures Level(stand, at, at + |Show(n)|, stand(at))
    decreases n, 2
  {
    match n
    case Nil =>
    case Plain(c, rest) =>
      OccursCons(text, c, Show(rest), at);
      NestLevel(text, stand, rest, at + 1);
    case Quoted(body, rest) =>
      QuotedFirst(text, stand, body, rest, at);
    case Group(opener, inner, rest) =>
      GroupFirst(text, stand, opener, inner, rest, at);
  }

  lemma {:induction false} QuotedFirst(text: string, stand: nat -> Stand, body: Body, rest: Nest, at: nat)
    requires Proper(rest) && Follows(text, stand) && OccursAt(text, Wrap('"', ShowBody(body), '"', Show(rest)), at)
    requires !stand(at).inString && !stand(at).escaped
    ensures Level(stand, at, at + |ShowBody(body)| + 2 + |Show(rest)|, stand(at))
    decreases Quoted(body, rest), 1
  {
    QuotedLevel(text, stand, body, Show(rest), at);
    NestLevel(text, stand, rest, at + |ShowBody(body)| + 2);
  }

  lemma {:induction false} GroupFirst(text: string, stand: nat -> Stand, opener: char, inner: Nest, rest: Nest, at: nat)
    requires IsOpener(opener) && Proper(inner) && Proper(rest) && Follows(text, stand)
    requires OccursAt(text, Wrap(opener, Show(inner), CloserOf(opener), Show(rest)), at)
    requires !stand(at).inString && !stand(at).escaped
    ensures Level(stand, at, at + |Show(inner)| + 2 + |Show(rest)|, stand(at))
    decreases Group(opener, inner, rest), 1
  {
    GroupLevel(text, stand, opener, inner, Show(rest), at);
    NestLevel(text, stand, rest, at + |Show(inner)| + 2);
  }

  lemma QuotedLevel(text: string, stand: nat -> Stand, body: Body, rest: string, at: nat)
    requires Follows(text, stand) && OccursAt(text, Wrap('"', ShowBody(body), '"', rest), at)
    requires !stand(at).inString && !stand(at).escaped
    ensures var to := at + |ShowBody(body)| + 2; Level(stand, at, to, stand(at)) && OccursAt(text, rest, to)
  {
    OccursWrap(text, '"', ShowBody(body), '"', rest, at);
    BodyLevel(text, stand, body, at + 1);
  }

  /** A group, too; within braces the text is deeper. */
  lemma {:induction false} GroupLevel(text: string, stand: nat -> Stand, opener: char, inner: Nest, rest: string,
                                      at: nat)
    requires IsOpener(opener) && Proper(inner) && Follows(text, stand)
    requires OccursAt(text, Wrap(opener, Show(inner), CloserOf(opener), rest), at)
    requires !stand(at).inString && !stand(at).escaped
    ensures var to := at + |Show(inner)| + 2; Level(stand, at, to, stand(at)) && OccursAt(text, rest, to)
    ensures opener == '{' ==>
              forall i: nat :: at < i < at + |Show(inner)| + 2 ==> stand(i).depth > stand(at).depth
    decreases inner, 3
  {
    OccursWrap(text, opener, Show(inner), CloserOf(opener), rest, at);
    NestLevel(text, stand, inner, at + 1);
  }

  /** Well-nested text in braces. */
  function Object(n: Nest): string { Wrap('{', Show(n), '}', "") }

  /** The scan of the text ends in the open: outside strings, with no brace open. */
  predicate EndsOpen(text: string) { StandOf(text)(|text|) == Stand(false, false, 0) }

  lemma {:induction false} FoundInPrefix(text: string, more: string, i: nat)
    requires i <= |text|
    ensures FoundAt(text + more, i) == FoundAt(text, i) && ScanAt(text + more, i) == ScanAt(text, i)
  {
    assert (text + more)[..i] == text[..i];
    if i > 0 { FoundInPrefix(text, more, i - 1); }
  }

  lemma ObjectLevel(text: string, stand: nat -> Stand, n: Nest, at: nat)
    requires Proper(n) && Follows(text, stand) && OccursAt(text, Object(n), at) && stand(at) == Stand(false, false, 0)
    ensures stand(at + |Object(n)|) == Stand(false, false, 0)
    ensures forall i: nat :: at < i < at + |Object(n)| ==> stand(i).depth > 0
  {
    GroupLevel(text, stand, '{', n, "", at);
  }

  lemma ObjectStands(text: string, n: Nest, at: nat)
    requires Proper(n) && OccursAt(text, Object(n), at) && StandOf(text)(at) == Stand(false, false, 0)
    ensures StandOf(text)(at + |Object(n)|) == Stand(false, false, 0)
    ensures forall i: nat :: at < i < at + |Object(n)| ==> StandOf(text)(i).depth > 0
  {
    StandsFollow(text);
    ObjectLevel(text, StandOf(text), n, at);
  }

  lemma StandDepth(text: string, i: nat)
    requires i <= |text|
    ensures StandOf(text)(i).depth == Depth(text, i) && StandOf(text)(i).inString == ScanAt(text, i).inString
  {
  }

  lemma ObjectIsChunk(text: string, n: Nest, at: nat)
    requires Proper(n) && OccursAt(text, Object(n), at) && StandOf(text)(at) == Stand(false, false, 0)
    ensures IsChunk(text, Span(at, at + |Object(n)|)) && StandOf(text)(at + |Object(n)|) == Stand(false, false, 0)
  {
    var to := at + |Object(n)|;
    OccursWrap(text, '{', Show(n), '}', "", at);
    ObjectStands(text, n, at);
    forall i: nat | at < i < to ensures Depth(text, i) > 0 { StandDepth(text, i); }
    StandDepth(text, at);
    StandDepth(text, to);
  }

  lemma ChunkIsSplitOff(text: string, sp: Span)
    requires IsChunk(text, sp)
    ensures sp in Spans(text) && Chunk(text, sp) in SplitObjects(text)
  {
    var spans := Spans(text);
    SplitSound(text);
    var j := StartCovered(text, sp, spans);
    SameStart(text, sp, spans[j]);
    assert SplitObjects(text)[j] == Chunk(text, sp);
  }

  lemma StandsBefore(before: string, more: string)
    ensures StandOf(before + more)(|before|) == StandOf(before)(|before|)
  {
    FoundInPrefix(before, more, |before|);
  }

  /** A well-nested object in a text is one of the chunks exactly when the scan of what stands
      before it ends in the open. */
  lemma ObjectSplitOffIff(before: string, n: Nest, after: string)
    requires Proper(n)
    ensures Span(|before|, |before| + |Object(n)|) in Spans(before + Object(n) + after) <==> EndsOpen(before)
    ensures EndsOpen(before) ==> Object(n) in SplitObjects(before + Object(n) + after)
  {
    var text, sp := before + Object(n) + after, Span(|before|, |before| + |Object(n)|);
    assert text == before + (Object(n) + after);
    StandsBefore(before, Object(n) + after);
    if EndsOpen(before) {
      assert OccursAt(text, Object(n), |before|);
      ObjectIsChunk(text, n, |before|);
      ChunkIsSplitOff(text, sp);
      assert Chunk(text, sp) == Object(n);
    }
    if sp in Spans(text) { ChunkInOpen(text, sp); }
  }

  lemma ChunkInOpen(text: string, sp: Span)
    requires sp in Spans(text)
    ensures StandOf(text)(sp.from) == Stand(false, false, 0)
  {
    SplitSound(text);
    EscapedOnlyInString(text[..sp.from]);
  }

  lemma StandsInPrefix(text: string, whole: string, i: nat)
    requires text <= whole && i <= |text|
    ensures StandOf(text)(i) == StandOf(whole)(i)
  {
    assert whole == text + whole[|text|..];
    FoundInPrefix(text, whole[|text|..], i);
  }

  /** An object that the text breaks off in is the last chunk. */
  lemma CutObjectSplitOff(before: string, n: Nest, cut: string)
    requires Proper(n) && EndsOpen(before) && cut != "" && cut < Object(n)
    ensures cut in SplitObjects(before + cut)
  {
    var text, whole, at := before + cut, before + Object(n), |before|;
    assert text <= whole;
    StandsBefore(before, Object(n));
    assert OccursAt(whole, Object(n), at);
    ObjectStands(whole, n, at);
    CutIsChunk(text, whole, at);
    ChunkIsSplitOff(text, Span(at, |text|));
    assert Chunk(text, Span(at, |text|)) == cut;
  }

  lemma CutIsChunk(text: string, whole: string, at: nat)
    requires text <= whole && at < |text| && text[at] == '{' && StandOf(whole)(at) == Stand(false, false, 0)
    requires forall i: nat :: at < i < |text| ==> StandOf(whole)(i).depth > 0
    ensures IsChunk(text, Span(at, |text|))
  {
    StandsInPrefix(text, whole, at);
    StandDepth(text, at);
    forall i | at < i < |text| ensures Depth(text, i) > 0 {
      StandsInPrefix(text, whole, i);
      StandDepth(text, i);
    }
  }
}
