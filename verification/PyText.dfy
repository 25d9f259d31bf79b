/** The Python string operations the modelled code rests on. */
module PyText {

  datatype Option<+T> = None | Some(value: T)

  // ---- slices and searching ----

  /** `s[from:to]` for non-negative bounds: slices clamp, they never fail. */
  function Slice(s: string, from: nat, to: nat): string {
    var hi := if to <= |s| then to else |s|;
    if from <= hi then s[from..hi] else ""
  }

  predicate OccursAt(s: string, w: string, i: nat) {
    i + |w| <= |s| && forall k :: 0 <= k < |w| ==> s[i + k] == w[k]
  }

  /** `w in s` */
  predicate Contains(s: string, w: string) {
    exists i: nat :: i <= |s| && OccursAt(s, w, i)
  }

  lemma ContainsTrans(a: string, b: string, c: string)
    requires Contains(a, b) && Contains(b, c)
    ensures Contains(a, c)
  {
    var i: nat :| i <= |a| && OccursAt(a, b, i);
    var j: nat :| j <= |b| && OccursAt(b, c, j);
    assert forall k :: 0 <= k < |c| ==> c[k] == b[j + k] == a[i + (j + k)];
    assert OccursAt(a, c, i + j);
  }

  /** An occurrence within a stretch is an occurrence in the text that stands there. */
  lemma OccursWithin(s: string, text: string, at: nat, w: string, j: nat)
    requires OccursAt(s, text, at) && OccursAt(s, w, j) && at <= j && j + |w| <= at + |text|
    ensures OccursAt(text, w, j - at)
  {
    assert forall k :: 0 <= k < |w| ==> w[k] == s[j + k] == s[at + (j - at + k)] == text[j - at + k];
  }

  lemma CharOccurs(s: string, w: string, i: nat)
    requires |w| == 1 && i < |s| && s[i] == w[0]
    ensures OccursAt(s, w, i)
  {
  }

  lemma OccursInPiece(s: string, i: nat, j: nat, w: string, k: nat)
    requires i <= j <= |s| && OccursAt(s[i..j], w, k)
    ensures OccursAt(s, w, i + k)
  {
    assert forall m :: 0 <= m < |w| ==> w[m] == s[i..j][k + m] == s[i + k + m];
  }

  lemma LacksFirst(s: string, w: string)
    requires w != "" && w[0] !in s
    ensures !Contains(s, w)
  {
    forall i: nat ensures !OccursAt(s, w, i) {
      assert i < |s| ==> s[i + 0] in s;
    }
  }

  lemma OccursTail(a: string, b: string, w: string, i: nat)
    requires i >= |a| && OccursAt(a + b, w, i)
    ensures OccursAt(b, w, i - |a|)
  {
    assert forall k :: 0 <= k < |w| ==> w[k] == (a + b)[i + k] == b[i - |a| + k];
  }

  lemma ContainsPart(s: string, i: nat, j: nat)
    requires i <= j <= |s|
    ensures Contains(s, s[i..j])
  {
    assert OccursAt(s, s[i..j], i);
  }

  /** `s.find(w, from)` */
  function Find(s: string, w: string, from: nat): (r: Option<nat>)
    ensures r.Some? ==> from <= r.value <= |s| - |w|
    decreases |s| - from
  {
    if from + |w| > |s| then None
    else if OccursAt(s, w, from) then Some(from)
    else Find(s, w, from + 1)
  }

  /** `Find` gives the first occurrence at or after `from`, if there is one. */
  lemma {:induction false} FindFirst(s: string, w: string, from: nat)
    ensures Find(s, w, from).Some? ==> OccursAt(s, w, Find(s, w, from).value)
    ensures forall j: nat :: from <= j && OccursAt(s, w, j) ==>
              Find(s, w, from).Some? && Find(s, w, from).value <= j
    decreases |s| - from
  {
    if from + |w| <= |s| && !OccursAt(s, w, from) {
      FindFirst(s, w, from + 1);
    }
  }

  lemma OccursMember(s: string, w: string, i: nat, m: nat)
    requires OccursAt(s, w, i) && i <= m < i + |w|
    ensures exists k :: 0 <= k < |w| && w[k] == s[m]
  {
    assert s[i + (m - i)] == w[m - i];
  }

  /** A text that neither holds `w` nor ends with a part of it, `w` being one character repeated. */
  predicate KeepsOff(text: string, w: string, c: char) {
    && !Contains(text, w)
    && (forall k :: 0 <= k < |w| ==> w[k] == c)
    && (text == "" || text[|text| - 1] != c)
  }

  lemma NoneBefore(s: string, text: string, at: nat, w: string, c: char, j: nat)
    requires OccursAt(s, text, at) && KeepsOff(text, w, c) && at <= j < at + |text|
    ensures !OccursAt(s, w, j)
  {
    if OccursAt(s, w, j) {
      var last := at + |text| - 1;
      assert s[at + (|text| - 1)] == text[|text| - 1];
      if j + |w| <= last + 1 {
        OccursWithin(s, text, at, w, j);
      } else {
        OccursMember(s, w, j, last);
      }
    }
  }

  /** The next occurrence after such a text is right behind it. */
  lemma FindNext(s: string, text: string, at: nat, w: string, c: char)
    requires OccursAt(s, text, at) && KeepsOff(text, w, c) && OccursAt(s, w, at + |text|)
    ensures Find(s, w, at) == Some(at + |text|)
  {
    FindFirst(s, w, at);
    var j := Find(s, w, at).value;
    if j < at + |text| {
      NoneBefore(s, text, at, w, c, j);
    }
  }

  // ---- white space ----

  /** `str.isspace` for one character. */
  predicate IsSpace(c: char) {
    || c == ' ' || '\t' <= c <= '\r' || '\U{1C}' <= c <= '\U{1F}' || c == '\U{85}' || c == '\U{A0}'
    || c == '\U{1680}' || '\U{2000}' <= c <= '\U{200A}' || c == '\U{2028}' || c == '\U{2029}'
    || c == '\U{202F}' || c == '\U{205F}' || c == '\U{3000}'
  }

  predicate IsNewline(c: char) { c == '\n' }

  function DropLeft(s: string, p: char -> bool): string {
    if s != "" && p(s[0]) then DropLeft(s[1..], p) else s
  }

  function DropRight(s: string, p: char -> bool): string {
    if s != "" && p(s[|s| - 1]) then DropRight(s[..|s| - 1], p) else s
  }

  /** `s.strip(chars)`, for the characters satisfying `p` */
  function StripAll(s: string, p: char -> bool): string { DropRight(DropLeft(s, p), p) }

  function LStrip(s: string): string { DropLeft(s, IsSpace) }

  function RStrip(s: string): string { DropRight(s, IsSpace) }

  function Strip(s: string): string { RStrip(LStrip(s)) }

  predicate Trimmed(s: string) {
    s == "" || (!IsSpace(s[0]) && !IsSpace(s[|s| - 1]))
  }

  lemma {:induction false} DropLeftSuffix(s: string, p: char -> bool) returns (i: nat)
    ensures i <= |s| && DropLeft(s, p) == s[i..]
    ensures i < |s| ==> !p(s[i])
  {
    i := 0;
    if s != "" && p(s[0]) {
      i := DropLeftSuffix(s[1..], p);
      assert s[1..][i..] == s[i + 1..];
      i := i + 1;
    }
  }

  lemma {:induction false} DropRightPrefix(s: string, p: char -> bool)
    ensures DropRight(s, p) <= s
    ensures DropRight(s, p) == "" || !p(DropRight(s, p)[|DropRight(s, p)| - 1])
  {
    if s != "" && p(s[|s| - 1]) {
      DropRightPrefix(s[..|s| - 1], p);
    }
  }

  lemma StripPiece(s: string, p: char -> bool) returns (i: nat)
    ensures i + |StripAll(s, p)| <= |s| && StripAll(s, p) == s[i..i + |StripAll(s, p)|]
  {
    i := DropLeftSuffix(s, p);
    DropRightPrefix(s[i..], p);
  }

  lemma StripIsPiece(s: string)
    ensures Contains(s, Strip(s)) && |Strip(s)| <= |s|
  {
    var i := StripPiece(s, IsSpace);
    ContainsPart(s, i, i + |Strip(s)|);
  }

  lemma StripIsTrimmed(s: string)
    ensures Trimmed(Strip(s))
  {
    var j := DropLeftSuffix(s, IsSpace);
    DropRightPrefix(s[j..], IsSpace);
    assert Strip(s) != "" ==> Strip(s)[0] == s[j];
  }

  /** Stripping takes a trimmed piece, and leaves exactly the trimmed texts alone. */
  lemma StripTrims(s: string)
    ensures Contains(s, Strip(s)) && Trimmed(Strip(s)) && |Strip(s)| <= |s|
    ensures Strip(s) == s <==> Trimmed(s)
  {
    StripIsPiece(s);
    StripIsTrimmed(s);
    if Trimmed(s) { assert LStrip(s) == s; }
  }

  /** Stripping leaves nothing of exactly the texts of white space. */
  lemma StripBlank(s: string)
    ensures Strip(s) == "" <==> forall c :: c in s ==> IsSpace(c)
  {
    if exists c :: c in s && !IsSpace(c) {
      var i :| 0 <= i < |s| && !IsSpace(s[i]);
      assert OccursAt(s, [s[i]], i);
      StripKeepsWord(s, [s[i]]);
    } else {
      AllBlank(s);
    }
  }

  lemma {:induction false} AllBlank(s: string)
    requires forall i :: 0 <= i < |s| ==> IsSpace(s[i])
    ensures DropLeft(s, IsSpace) == ""
  {
    if s != "" { AllBlank(s[1..]); }
  }

  // ---- rewriting ----

  /** `re.sub` (and `str.replace`): at each place where `match` finds a stretch, put `r`
      for it and go on after it. */
  function Sub(s: string, hit: string -> nat, r: string): string {
    if s == "" then ""
    else if 0 < hit(s) <= |s| then r + Sub(s[hit(s)..], hit, r)
    else [s[0]] + Sub(s[1..], hit, r)
  }

  /** How long a run of characters satisfying `p` the text starts with. */
  function Run(s: string, p: char -> bool): nat {
    if s != "" && p(s[0]) then 1 + Run(s[1..], p) else 0
  }

  function Literal(w: string): string -> nat { s => if w <= s then |w| else 0 }

  function RunOf(p: char -> bool, least: nat): string -> nat {
    s => if Run(s, p) >= least then Run(s, p) else 0
  }

  /** `s.replace(w, r)` */
  function Replace(s: string, w: string, r: string): string { Sub(s, Literal(w), r) }

  /** `s.replace(w, r, 1)` */
  function ReplaceFirst(s: string, w: string, r: string): string {
    match Find(s, w, 0)
    case None => s
    case Some(i) => s[..i] + r + s[i + |w|..]
  }

  /** `re.split` on the stretches `hit` finds; `done` is the piece being collected. */
  function Split(done: string, s: string, hit: string -> nat): (parts: seq<string>)
    ensures parts != []
    decreases |s|
  {
    if s == "" then [done]
    else if 0 < hit(s) <= |s| then [done] + Split("", s[hit(s)..], hit)
    else Split(done + [s[0]], s[1..], hit)
  }

  function Join(sep: string, parts: seq<string>): string {
    if parts == [] then ""
    else if |parts| == 1 then parts[0]
    else parts[0] + sep + Join(sep, parts[1..])
  }

  lemma {:induction false} SplitParts(done: string, s: string, hit: string -> nat, part: string)
    requires part in Split(done, s, hit)
    ensures Contains(done + s, part)
    decreases |s|
  {
    if s == "" {
      assert OccursAt(done + s, done, 0);
    } else if 0 < hit(s) <= |s| {
      if part == done {
        assert OccursAt(done + s, done, 0);
      } else {
        var rest := s[hit(s)..];
        SplitParts("", rest, hit, part);
        assert "" + rest == rest;
        assert OccursAt(done + s, rest, |done| + hit(s));
        ContainsTrans(done + s, rest, part);
      }
    } else {
      SplitParts(done + [s[0]], s[1..], hit, part);
      assert done + [s[0]] + s[1..] == done + s;
    }
  }

  lemma {:induction false} RunBounded(s: string, p: char -> bool)
    ensures Run(s, p) <= |s|
    ensures Run(s, p) >= 1 <==> s != "" && p(s[0])
    ensures Run(s, p) >= 2 <==> |s| >= 2 && p(s[0]) && p(s[1])
    ensures Run(s, p) >= 3 <==> |s| >= 3 && p(s[0]) && p(s[1]) && p(s[2])
  {
    if s != "" && p(s[0]) { RunBounded(s[1..], p); }
  }

  // ---- splitting ----

  /** Nothing is hit that starts within `a`, where `s` follows it. */
  predicate NoHitIn(a: string, s: string, hit: string -> nat) {
    forall i :: 0 <= i < |a| ==> !(0 < hit((a + s)[i..]) <= |a| + |s| - i)
  }

  lemma {:induction false} SplitPast(done: string, a: string, s: string, hit: string -> nat)
    requires NoHitIn(a, s, hit)
    ensures Split(done, a + s, hit) == Split(done + a, s, hit)
    decreases |a|
  {
    if a == "" {
      assert a + s == s && done + a == done;
    } else {
      var b := a[1..];
      assert (a + s)[0..] == a + s && (a + s)[1..] == b + s && (a + s)[0] == a[0];
      assert forall i :: 0 <= i < |b| ==> (b + s)[i..] == (a + s)[i + 1..];
      SplitPast(done + [a[0]], b, s, hit);
      assert done + [a[0]] + b == done + a;
    }
  }

  /** The piece up to the first hit, and the rest split in turn. */
  lemma SplitFirst(a: string, m: string, rest: string, hit: string -> nat)
    requires m != "" && hit(m + rest) == |m| && NoHitIn(a, m + rest, hit)
    ensures Split("", a + (m + rest), hit) == [a] + Split("", rest, hit)
  {
    assert "" + a == a && (m + rest)[|m|..] == rest;
    SplitPast("", a, m + rest, hit);
  }

  lemma SplitWhole(a: string, hit: string -> nat)
    requires NoHitIn(a, "", hit)
    ensures Split("", a, hit) == [a]
  {
    assert a + "" == a && "" + a == a;
    SplitPast("", a, "", hit);
  }

  lemma NoSeparatorIn(a: string, s: string, sep: string)
    requires |sep| == 1 && sep[0] !in a
    ensures NoHitIn(a, s, Literal(sep))
  {
    forall i | 0 <= i < |a| ensures Literal(sep)((a + s)[i..]) == 0 {
      assert (a + s)[i..][0] == a[i];
    }
  }

  /** Splitting what was joined gives the parts back. */
  lemma {:induction false} SplitJoined(sep: string, parts: seq<string>)
    requires |sep| == 1 && parts != [] && forall i :: 0 <= i < |parts| ==> sep[0] !in parts[i]
    ensures Split("", Join(sep, parts), Literal(sep)) == parts
  {
    var first, others := parts[0], parts[1..];
    if others == [] {
      NoSeparatorIn(first, "", sep);
      SplitWhole(first, Literal(sep));
      assert parts == [first];
    } else {
      SplitJoined(sep, others);
      NoSeparatorIn(first, sep + Join(sep, others), sep);
      SplitFirst(first, sep, Join(sep, others), Literal(sep));
      assert first + sep + Join(sep, others) == first + (sep + Join(sep, others));
      assert parts == [first] + others;
    }
  }

  // ---- text made of the words of another ----

  predicate SpaceFree(w: string) { forall i :: 0 <= i < |w| ==> !IsSpace(w[i]) }

  predicate AllSpace(w: string) { forall i :: 0 <= i < |w| ==> IsSpace(w[i]) }

  /** Every unbroken stretch of `text` stands in `source` too. */
  ghost predicate WordsOf(text: string, source: string) {
    forall w: string :: w != "" && SpaceFree(w) && Contains(text, w) ==> Contains(source, w)
  }

  lemma PieceWords(text: string, source: string)
    requires Contains(source, text)
    ensures WordsOf(text, source)
  {
    forall w: string | w != "" && SpaceFree(w) && Contains(text, w) ensures Contains(source, w) {
      ContainsTrans(source, text, w);
    }
  }

  lemma {:induction false} SubPrefix(s: string, hit: string -> nat, r: string, w: string)
    requires r != "" && AllSpace(r) && SpaceFree(w) && w <= Sub(s, hit, r)
    ensures w <= s
    ensures w != "" ==> !(0 < hit(s) <= |s|)
  {
    assert w != "" ==> w[0] == Sub(s, hit, r)[0];
    if w != "" && !(0 < hit(s) <= |s|) {
      assert Sub(s, hit, r)[1..] == Sub(s[1..], hit, r);
      SubPrefix(s[1..], hit, r, w[1..]);
      assert w == [s[0]] + w[1..] && s == [s[0]] + s[1..];
    }
  }

  /** A word of the rewritten text stands in the original, at a place with no match. */
  lemma {:induction false} SubWord(s: string, hit: string -> nat, r: string, w: string, i: nat) returns (j: nat)
    requires r != "" && AllSpace(r) && w != "" && SpaceFree(w) && OccursAt(Sub(s, hit, r), w, i)
    ensures OccursAt(s, w, j)
    ensures hit(s[j..]) == 0 || hit(s[j..]) > |s| - j
    decreases |s|
  {
    assert Sub(s, hit, r)[i + 0] == w[0];
    if 0 < hit(s) <= |s| {
      var n := hit(s);
      assert i >= |r|;
      OccursTail(r, Sub(s[n..], hit, r), w, i);
      j := SubWord(s[n..], hit, r, w, i - |r|);
      assert s[n..][j..] == s[n + j..];
      j := n + j;
    } else if i == 0 {
      assert w == Sub(s, hit, r)[..|w|];
      SubPrefix(s, hit, r, w);
      assert s[0..] == s;
      j := 0;
    } else {
      OccursTail([s[0]], Sub(s[1..], hit, r), w, i);
      j := SubWord(s[1..], hit, r, w, i - 1);
      assert s[1..][j..] == s[1 + j..];
      j := 1 + j;
    }
  }

  /** Putting white space for stretches of a text makes no new word. */
  lemma SubWords(s: string, hit: string -> nat, r: string)
    requires r != "" && AllSpace(r)
    ensures WordsOf(Sub(s, hit, r), s)
  {
    forall w: string | w != "" && SpaceFree(w) && Contains(Sub(s, hit, r), w) ensures Contains(s, w) {
      var i: nat :| i <= |Sub(s, hit, r)| && OccursAt(Sub(s, hit, r), w, i);
      var j := SubWord(s, hit, r, w, i);
    }
  }

  /** Replacing a word by a space leaves no occurrence of it, not even one put together
      from what stood around it. */
  lemma ReplaceRemoves(s: string, w: string)
    requires w != "" && SpaceFree(w)
    ensures !Contains(Replace(s, w, " "), w)
  {
    forall i: nat | i <= |Replace(s, w, " ")| ensures !OccursAt(Replace(s, w, " "), w, i) {
      if OccursAt(Replace(s, w, " "), w, i) {
        var j := SubWord(s, Literal(w), " ", w, i);
      }
    }
  }

  /** A word across a seam of white space lies on one side of it. */
  lemma SeamWord(a: string, r: string, b: string, w: string)
    requires r != "" && AllSpace(r) && w != "" && SpaceFree(w) && Contains(a + r + b, w)
    ensures Contains(a, w) || Contains(b, w)
  {
    var s := a + r + b;
    assert forall m :: |a| <= m < |a| + |r| ==> s[m] == r[m - |a|];
    var i: nat :| i <= |s| && OccursAt(s, w, i);
    if i + |w| <= |a| {
      assert OccursAt(s, a, 0);
      OccursWithin(s, a, 0, w, i);
    } else {
      var m := if i >= |a| then i else |a|;
      assert s[i + (m - i)] == w[m - i];
      OccursTail(a + r, b, w, i);
    }
  }

  lemma {:induction false} JoinWords(sep: string, parts: seq<string>, source: string)
    requires sep != "" && AllSpace(sep) && forall k :: 0 <= k < |parts| ==> WordsOf(parts[k], source)
    ensures WordsOf(Join(sep, parts), source)
  {
    if |parts| == 0 {
      assert forall w: string :: w != "" ==> !Contains("", w);
    } else if |parts| > 1 {
      JoinWords(sep, parts[1..], source);
      forall w: string | w != "" && SpaceFree(w) && Contains(Join(sep, parts), w) ensures Contains(source, w) {
        SeamWord(parts[0], sep, Join(sep, parts[1..]), w);
      }
    }
  }

  lemma CutWords(s: string, i: nat, j: nat)
    requires i <= j <= |s|
    ensures WordsOf(s[..i] + " " + s[j..], s)
  {
    assert OccursAt(s, s[..i], 0);
    assert OccursAt(s, s[j..], j);
    SeamWords(s[..i], s[j..], s);
  }

  lemma ReplaceFirstWords(s: string, w: string)
    ensures WordsOf(ReplaceFirst(s, w, " "), s)
  {
    match Find(s, w, 0)
    case None => WholeWords(s);
    case Some(i) => CutWords(s, i, i + |w|);
  }

  lemma WholeWords(text: string)
    ensures WordsOf(text, text)
  {
    ContainsPart(text, 0, |text|);
    assert text[0..|text|] == text;
    PieceWords(text, text);
  }

  lemma SeamWords(a: string, b: string, source: string)
    requires Contains(source, a) && Contains(source, b)
    ensures WordsOf(a + " " + b, source)
  {
    forall v: string | v != "" && SpaceFree(v) && Contains(a + " " + b, v) ensures Contains(source, v) {
      SeamWord(a, " ", b, v);
      if Contains(a, v) {
        ContainsTrans(source, a, v);
      } else {
        ContainsTrans(source, b, v);
      }
    }
  }

  // ---- rewriting piece by piece ----

  /** What stands before the first hit stays. */
  lemma {:induction false} SubPast(a: string, s: string, hit: string -> nat, r: string)
    requires NoHitIn(a, s, hit)
    ensures Sub(a + s, hit, r) == a + Sub(s, hit, r)
    decreases |a|
  {
    if a == "" {
      assert a + s == s;
    } else {
      var b := a[1..];
      assert (a + s)[0..] == a + s && (a + s)[1..] == b + s && (a + s)[0] == a[0];
      assert forall i :: 0 <= i < |b| ==> (b + s)[i..] == (a + s)[i + 1..];
      SubPast(b, s, hit, r);
      assert [a[0]] + (b + Sub(s, hit, r)) == a + Sub(s, hit, r);
    }
  }

  lemma SubHit(m: string, rest: string, hit: string -> nat, r: string)
    requires m != "" && hit(m + rest) == |m|
    ensures Sub(m + rest, hit, r) == r + Sub(rest, hit, r)
  {
    assert (m + rest)[|m|..] == rest;
  }

  /** How far one turn of a rewriting goes, and what it puts there. */
  function Width(s: string, hit: string -> nat): nat { if hit(s) > 0 then hit(s) else 1 }

  function Turned(s: string, hit: string -> nat, r: string): string
    requires s != ""
  {
    if hit(s) > 0 then r else [s[0]]
  }

  lemma SubOne(s: string, hit: string -> nat, r: string)
    requires s != "" && hit(s) <= |s|
    ensures Sub(s, hit, r) == Turned(s, hit, r) + Sub(s[Width(s, hit)..], hit, r)
  {
  }

  lemma TurnBoth(a: string, s: string, hit: string -> nat, r: string)
    requires a != "" && hit(a + s) == hit(a) <= |a|
    ensures Sub(a + s, hit, r) == Turned(a, hit, r) + Sub(a[Width(a, hit)..] + s, hit, r)
    ensures Sub(a, hit, r) == Turned(a, hit, r) + Sub(a[Width(a, hit)..], hit, r)
  {
    SubOne(a, hit, r);
    SubOne(a + s, hit, r);
    assert (a + s)[Width(a, hit)..] == a[Width(a, hit)..] + s && (a + s)[0] == a[0];
  }

  lemma Regroup(a: string, b: string, c: string)
    ensures a + (b + c) == (a + b) + c
  {
  }

  /** Where no hit in the first part depends on the second, the parts are rewritten apart. */
  lemma {:induction false} SubJoin(a: string, s: string, hit: string -> nat, r: string, apart: string -> bool)
    requires apart(a)
    requires forall x {:trigger apart(x)} :: apart(x) && x != "" ==>
               hit(x + s) == hit(x) <= |x| && apart(x[Width(x, hit)..])
    ensures Sub(a + s, hit, r) == Sub(a, hit, r) + Sub(s, hit, r)
    decreases |a|
  {
    if a == "" {
      assert a + s == s;
    } else {
      TurnBoth(a, s, hit, r);
      SubJoin(a[Width(a, hit)..], s, hit, r, apart);
      Regroup(Turned(a, hit, r), Sub(a[Width(a, hit)..], hit, r), Sub(s, hit, r));
    }
  }

  /** A run ends where the next character is of another kind. */
  lemma {:induction false} RunApart(a: string, s: string, p: char -> bool)
    requires a == "" || !p(a[|a| - 1]) || s == "" || !p(s[0])
    requires a != ""
    ensures Run(a + s, p) == Run(a, p)
    decreases |a|
  {
    assert (a + s)[0] == a[0] && (a + s)[1..] == a[1..] + s;
    if p(a[0]) {
      if |a| == 1 {
        assert a[1..] + s == s;
      } else {
        RunApart(a[1..], s, p);
      }
    }
  }

  /** Where runs do not go across, the parts are rewritten apart. */
  lemma SubRunsJoin(a: string, s: string, p: char -> bool, least: nat, r: string)
    requires a == "" || !p(a[|a| - 1]) || s == "" || !p(s[0])
    ensures Sub(a + s, RunOf(p, least), r) == Sub(a, RunOf(p, least), r) + Sub(s, RunOf(p, least), r)
  {
    var hit := RunOf(p, least);
    var apart := (x: string) => x == "" || !p(x[|x| - 1]) || s == "" || !p(s[0]);
    forall x | apart(x) && x != "" ensures hit(x + s) == hit(x) <= |x| && apart(x[Width(x, hit)..]) {
      RunApart(x, s, p);
      RunHolds(x, p);
    }
    SubJoin(a, s, hit, r, apart);
  }

  lemma {:induction false} RunWhole(run: string, p: char -> bool)
    requires forall i :: 0 <= i < |run| ==> p(run[i])
    ensures Run(run, p) == |run|
  {
    if run != "" { RunWhole(run[1..], p); }
  }

  /** A run is put together if it is long enough, and stays as it is if not. */
  lemma SubRun(run: string, p: char -> bool, least: nat, r: string)
    requires run != "" && forall i :: 0 <= i < |run| ==> p(run[i])
    ensures Sub(run, RunOf(p, least), r) == if |run| >= least then r else run
    decreases |run|
  {
    RunWhole(run, p);
    if |run| >= least {
      assert run[|run|..] == "";
      assert r + "" == r;
    } else if |run| > 1 {
      SubRun(run[1..], p, least, r);
      assert run == [run[0]] + run[1..];
    } else {
      assert run[1..] == "";
      assert [run[0]] + "" == run;
    }
  }

  // ---- rewriting that shortens ----

  /** A rewriting that shortens whatever it hits leaves a text alone exactly when nothing
      in it is hit, and makes every other text shorter. */
  lemma {:induction false} SubIdentity(s: string, hit: string -> nat, r: string)
    requires forall t: string :: 0 < hit(t) <= |t| ==> |r| < hit(t)
    ensures Sub(s, hit, r) == s || |Sub(s, hit, r)| < |s|
    ensures Sub(s, hit, r) == s <==> forall i :: 0 <= i < |s| ==> !(0 < hit(s[i..]) <= |s| - i)
  {
    if s == "" {
    } else if 0 < hit(s) <= |s| {
      SubIdentity(s[hit(s)..], hit, r);
      assert s[0..] == s;
    } else {
      SubIdentity(s[1..], hit, r);
      assert s == [s[0]] + s[1..] && s[0..] == s;
      assert forall i :: 0 <= i < |s| - 1 ==> s[1..][i..] == s[i + 1..];
      assert forall i :: 0 < i < |s| ==> s[i..] == s[1..][i - 1..];
    }
  }

  /** The same, where `at` says at which places there is something to rewrite. */
  lemma SubIdentityAt(s: string, hit: string -> nat, r: string, at: nat -> bool)
    requires forall t: string :: 0 < hit(t) <= |t| ==> |r| < hit(t)
    requires forall i: nat :: i < |s| ==> (0 < hit(s[i..]) <= |s| - i <==> at(i))
    ensures Sub(s, hit, r) == s || |Sub(s, hit, r)| < |s|
    ensures Sub(s, hit, r) == s <==> forall i: nat :: i < |s| ==> !at(i)
  {
    SubIdentity(s, hit, r);
  }

  lemma ReplaceAbsent(s: string, w: string, r: string)
    requires |r| < |w| && !Contains(s, w)
    ensures Replace(s, w, r) == s
  {
    SubIdentity(s, Literal(w), r);
    forall i | 0 <= i < |s| ensures Literal(w)(s[i..]) == 0 {
      if w <= s[i..] { assert OccursAt(s, w, i); }
    }
  }

  // ---- rewriting that keeps a word ----

  /** What `hit` finds neither starts before the word and runs into it, nor starts in it. */
  ghost predicate Misses(hit: string -> nat, w: string)
    requires w != ""
  {
    forall t: string :: 0 < hit(t) <= |t| ==>
      && (forall k :: 0 < k < hit(t) ==> t[k] != w[0])
      && (forall k :: 0 <= k < |w| ==> !(w[k..] <= t))
  }

  lemma {:induction false} SubKeepsRest(s: string, hit: string -> nat, r: string, w: string, k: nat)
    requires w != "" && Misses(hit, w) && k <= |w| && w[k..] <= s
    ensures w[k..] <= Sub(s, hit, r)
    decreases |w| - k
  {
    if k < |w| {
      assert w[k..] == [s[0]] + w[k + 1..] && s == [s[0]] + s[1..];
      SubKeepsRest(s[1..], hit, r, w, k + 1);
    }
  }

  lemma {:induction false} SubKeeps(s: string, hit: string -> nat, r: string, w: string, i: nat) returns (j: nat)
    requires w != "" && Misses(hit, w) && OccursAt(s, w, i)
    ensures OccursAt(Sub(s, hit, r), w, j)
    decreases |s|
  {
    assert s[i + 0] == w[0];
    if i == 0 {
      assert w[0..] == w && w <= s;
      SubKeepsRest(s, hit, r, w, 0);
      j := 0;
    } else {
      var n := if 0 < hit(s) <= |s| then hit(s) else 1;
      var front := if 0 < hit(s) <= |s| then r else [s[0]];
      OccursBehind(s, n, w, i);
      j := SubKeeps(s[n..], hit, r, w, i - n);
      OccursAfter(front, Sub(s[n..], hit, r), w, j);
      j := |front| + j;
    }
  }

  lemma OccursBehind(s: string, n: nat, w: string, i: nat)
    requires n <= i && n <= |s| && OccursAt(s, w, i)
    ensures OccursAt(s[n..], w, i - n)
  {
    assert s == s[..n] + s[n..];
    OccursTail(s[..n], s[n..], w, i);
  }

  lemma OccursAfter(a: string, b: string, w: string, j: nat)
    requires OccursAt(b, w, j)
    ensures OccursAt(a + b, w, |a| + j)
  {
    assert forall k :: 0 <= k < |w| ==> (a + b)[|a| + j + k] == b[j + k] == w[k];
  }

  /** A rewriting that misses the word keeps it. */
  lemma SubKeepsWord(s: string, hit: string -> nat, r: string, w: string)
    requires w != "" && Misses(hit, w) && Contains(s, w)
    ensures Contains(Sub(s, hit, r), w)
  {
    var i: nat :| i <= |s| && OccursAt(s, w, i);
    var j := SubKeeps(s, hit, r, w, i);
  }

  lemma {:induction false} RunHolds(s: string, p: char -> bool)
    ensures Run(s, p) <= |s| && forall k :: 0 <= k < Run(s, p) ==> p(s[k])
  {
    if s != "" && p(s[0]) {
      RunHolds(s[1..], p);
      assert forall k :: 1 <= k < Run(s, p) ==> s[k] == s[1..][k - 1];
    }
  }

  /** Runs of white space miss every word. */
  lemma RunMisses(p: char -> bool, least: nat, w: string)
    requires w != "" && SpaceFree(w) && least > 0 && forall c :: p(c) ==> IsSpace(c)
    ensures Misses(RunOf(p, least), w)
  {
    forall t: string | 0 < RunOf(p, least)(t) <= |t|
      ensures forall k :: 0 < k < RunOf(p, least)(t) ==> t[k] != w[0]
      ensures forall k :: 0 <= k < |w| ==> !(w[k..] <= t)
    {
      RunHolds(t, p);
      forall k | 0 <= k < |w| ensures !(w[k..] <= t) { assert w[k..][0] == w[k] != t[0]; }
    }
  }

  lemma {:induction false} DropLeftKeeps(s: string, w: string, i: nat)
    requires w != "" && SpaceFree(w) && OccursAt(s, w, i)
    ensures Contains(DropLeft(s, IsSpace), w)
  {
    assert s[i + 0] == w[0];
    if IsSpace(s[0]) {
      assert s == [s[0]] + s[1..];
      OccursTail([s[0]], s[1..], w, i);
      DropLeftKeeps(s[1..], w, i - 1);
    }
  }

  lemma {:induction false} DropRightKeeps(s: string, w: string, i: nat)
    requires w != "" && SpaceFree(w) && OccursAt(s, w, i)
    ensures Contains(DropRight(s, IsSpace), w)
  {
    if IsSpace(s[|s| - 1]) {
      assert s[i + (|w| - 1)] == w[|w| - 1];
      assert OccursAt(s[..|s| - 1], w, i);
      DropRightKeeps(s[..|s| - 1], w, i);
    }
  }

  lemma StripKeepsWord(s: string, w: string)
    requires w != "" && SpaceFree(w) && Contains(s, w)
    ensures Contains(Strip(s), w)
  {
    var i: nat :| i <= |s| && OccursAt(s, w, i);
    DropLeftKeeps(s, w, i);
    var left := LStrip(s);
    var j: nat :| j <= |left| && OccursAt(left, w, j);
    DropRightKeeps(left, w, j);
  }

  // ---- decimal numbers ----

  function Digit(d: nat): char
    requires d < 10
  {
    '0' + d as char
  }

  /** `str(n)` */
  function Decimal(n: nat): string {
    if n < 10 then [Digit(n)] else Decimal(n / 10) + [Digit(n % 10)]
  }

  predicate IsDigit(c: char) { '0' <= c <= '9' }

  lemma {:induction false} DecimalDigits(n: nat)
    ensures |Decimal(n)| > 0 && forall i :: 0 <= i < |Decimal(n)| ==> IsDigit(Decimal(n)[i])
  {
    if n >= 10 { DecimalDigits(n / 10); }
  }

  lemma {:induction false} DecimalInjective(m: nat, n: nat)
    requires Decimal(m) == Decimal(n)
    ensures m == n
  {
    var a, b := Decimal(m), Decimal(n);
    DecimalDigits(m / 10);
    DecimalDigits(n / 10);
    assert a[|a| - 1] == Digit(m % 10) && b[|b| - 1] == Digit(n % 10);
    if m >= 10 && n >= 10 {
      assert a[..|a| - 1] == Decimal(m / 10) && b[..|b| - 1] == Decimal(n / 10);
      DecimalInjective(m / 10, n / 10);
    }
  }

  /** A number from one on, without leading zeros. */
  predicate Numeral(d: string) {
    d != "" && d[0] != '0' && forall i :: 0 <= i < |d| ==> IsDigit(d[i])
  }

  lemma {:induction false} DecimalNumeral(n: nat)
    requires n >= 1
    ensures Numeral(Decimal(n))
  {
    if n >= 10 { DecimalNumeral(n / 10); }
  }

  lemma {:induction false} NumeralValue(d: string) returns (n: nat)
    requires Numeral(d)
    ensures n >= 1 && Decimal(n) == d
  {
    var last := d[|d| - 1] as int - '0' as int;
    assert d[|d| - 1] == Digit(last);
    if |d| == 1 {
      n := last;
    } else {
      var front := NumeralValue(d[..|d| - 1]);
      n := 10 * front + last;
      assert d == d[..|d| - 1] + [Digit(last)];
    }
  }

  lemma {:induction false} DecimalGrows(m: nat, n: nat)
    requires m <= n
    ensures |Decimal(m)| <= |Decimal(n)|
  {
    if n >= 10 && m >= 10 { DecimalGrows(m / 10, n / 10); }
  }

  // ---- sorted texts ----

  /** `a < b` for texts. */
  predicate TextBefore(a: string, b: string) {
    b != "" && (a == "" || a[0] < b[0] || (a[0] == b[0] && TextBefore(a[1..], b[1..])))
  }

  predicate Ascending(texts: seq<string>) { forall i, j :: 0 <= i < j < |texts| ==> TextBefore(texts[i], texts[j]) }

  lemma {:induction false} TextOrderTotal(a: string, b: string)
    ensures a == b || TextBefore(a, b) || TextBefore(b, a)
  {
    if a != "" && b != "" && a[0] == b[0] {
      TextOrderTotal(a[1..], b[1..]);
      assert a == [a[0]] + a[1..] && b == [b[0]] + b[1..];
    }
  }

  lemma {:induction false} TextOrderTrans(a: string, b: string, c: string)
    requires TextBefore(a, b) && TextBefore(b, c)
    ensures TextBefore(a, c)
  {
    if a != "" && a[0] == b[0] == c[0] { TextOrderTrans(a[1..], b[1..], c[1..]); }
  }

  function Inserted(x: string, texts: seq<string>): seq<string> {
    if texts == [] || TextBefore(x, texts[0]) then [x] + texts else [texts[0]] + Inserted(x, texts[1..])
  }

  lemma {:induction false} InsertedAscends(x: string, texts: seq<string>)
    requires Ascending(texts) && x !in texts
    ensures Ascending(Inserted(x, texts)) && forall y :: y in Inserted(x, texts) <==> y == x || y in texts
  {
    if texts == [] {
    } else if TextBefore(x, texts[0]) {
      forall j | 0 < j < |texts| ensures TextBefore(x, texts[j]) { TextOrderTrans(x, texts[0], texts[j]); }
    } else {
      var first, rest := texts[0], Inserted(x, texts[1..]);
      TextOrderTotal(first, x);
      InsertedAscends(x, texts[1..]);
      assert forall y :: y in texts <==> y == first || y in texts[1..];
      forall y | y in rest ensures TextBefore(first, y) {
        if y in texts[1..] {
          var j :| 0 <= j < |texts[1..]| && texts[1..][j] == y;
          assert texts[j + 1] == y;
        }
      }
      assert forall i :: 0 <= i < |rest| ==> rest[i] in rest;
    }
  }

  /** `sorted(texts)`, for texts that are all different. */
  method SortTexts(texts: set<string>) returns (sorted: seq<string>)
    ensures Ascending(sorted) && forall x :: x in sorted <==> x in texts
  {
    sorted := [];
    var todo := texts;
    while todo != {}
      invariant todo <= texts && Ascending(sorted) && forall x :: x in sorted <==> x in texts - todo
    {
      var x :| x in todo;
      InsertedAscends(x, sorted);
      sorted := Inserted(x, sorted);
      todo := todo - {x};
    }
  }
}
