/** Companion ids (`crew.py`): slugs of names, made unique against a roster. */
module CrewIds {
  import opened PyText

  const ID_MAX := 64
  const FALLBACK := "companion"

  predicate SlugStart(c: char) { 'a' <= c <= 'z' || IsDigit(c) }

  predicate SlugChar(c: char) { SlugStart(c) || c == '-' }

  /** `[a-z0-9][a-z0-9-]*` */
  predicate SlugText(s: string) {
    s != "" && SlugStart(s[0]) && forall i :: 0 <= i < |s| ==> SlugChar(s[i])
  }

  predicate Slug(s: string) { |s| <= ID_MAX && SlugText(s) }

  function Unbroken(s: string): string {
    if s != "" && s[|s| - 1] == '\n' then s[..|s| - 1] else s
  }

  /** `is_safe_id`: in the pattern, `$` also matches before a line break at the very end. */
  predicate IsSafeId(s: string) { 0 < |s| <= ID_MAX && SlugText(Unbroken(s)) }

  /** The check accepts exactly the slugs, and slugs with a line break behind them. */
  lemma SafeIdIsSlugOrBroken(s: string)
    ensures IsSafeId(s) && '\n' !in s <==> Slug(s)
    ensures IsSafeId(s) && '\n' in s <==> s != "" && s[|s| - 1] == '\n' && |s| <= ID_MAX && Slug(s[..|s| - 1])
  {
    assert !SlugChar('\n');
    if s != "" {
      var n := |s| - 1;
      if s[n] == '\n' {
        assert '\n' in s;
      } else if '\n' in s {
        var i :| 0 <= i < |s| && s[i] == '\n';
        assert !SlugChar(s[i]);
      }
    }
  }

  /** The case that fails: an id with a line break in it is called safe. */
  lemma BrokenIdIsSafe()
    ensures IsSafeId("bolt\n") && !Slug("bolt\n")
  {
    var id := "bolt\n";
    assert id[..4] == ['b', 'o', 'l', 't'] && id[4] == '\n';
    assert Slug(id[..4]);
    SafeIdIsSlugOrBroken(id);
  }

  // ---- slugs of names ----

  predicate Folds(c: char) { !SlugStart(c) }

  function FoldHit(s: string): nat { RunOf(Folds, 1)(s) }

  predicate IsDash(c: char) { c == '-' }

  /** `slugify`, with whatever lower-casing does as a parameter. */
  function Slugify(lower: string -> string, name: string): string {
    var folded := StripAll(Sub(lower(Strip(name)), FoldHit, "-"), IsDash);
    StripAll(Slice(folded, 0, ID_MAX), IsDash)
  }

  lemma {:induction false} FoldedChars(s: string)
    ensures forall i :: 0 <= i < |Sub(s, FoldHit, "-")| ==> SlugChar(Sub(s, FoldHit, "-")[i])
    decreases |s|
  {
    if s == "" {
    } else if 0 < FoldHit(s) <= |s| {
      FoldedChars(s[FoldHit(s)..]);
    } else {
      RunShort(s);
      FoldedChars(s[1..]);
    }
  }

  lemma RunShort(s: string)
    requires s != "" && !(0 < FoldHit(s) <= |s|)
    ensures SlugStart(s[0])
  {
    RunBounded(s, Folds);
  }

  /** Taking dashes off both ends of slug characters leaves a text that starts and ends without one. */
  lemma StripDashes(t: string)
    requires forall i :: 0 <= i < |t| ==> SlugChar(t[i])
    ensures var s := StripAll(t, IsDash);
            s != "" ==> SlugStart(s[0]) && SlugStart(s[|s| - 1]) && forall i :: 0 <= i < |s| ==> SlugChar(s[i])
  {
    var s := StripAll(t, IsDash);
    var i := StripPiece(t, IsDash);
    assert forall k :: 0 <= k < |s| ==> s[k] == t[i + k];
    var d := DropLeftSuffix(t, IsDash);
    DropRightPrefix(t[d..], IsDash);
    assert s != "" ==> s[0] == t[d];
  }

  /** Every name gives no slug at all, or a proper id that neither starts nor ends with a dash. */
  lemma SlugifyIsSlug(lower: string -> string, name: string)
    ensures var s := Slugify(lower, name); s == "" || (Slug(s) && s[|s| - 1] != '-')
  {
    var raw := Sub(lower(Strip(name)), FoldHit, "-");
    FoldedChars(lower(Strip(name)));
    StripDashes(raw);
    var cut := Slice(StripAll(raw, IsDash), 0, ID_MAX);
    StripDashes(cut);
    var _ := StripPiece(cut, IsDash);
  }

  // ---- what a slug is made of ----

  /** Words with something between them, and anything or nothing around them. */
  function Laid(words: seq<string>, gaps: seq<string>): string
    requires |gaps| == |words| + 1
  {
    if words == [] then gaps[0] else gaps[0] + (words[0] + Laid(words[1..], gaps[1..]))
  }

  /** The words are the stretches of `a` to `z` and digits, the gaps what is between them. */
  predicate Parted(words: seq<string>, gaps: seq<string>) {
    && |gaps| == |words| + 1
    && (forall i :: 0 <= i < |words| ==>
          words[i] != "" && forall c :: c in words[i] ==> 'a' <= c <= 'z' || '0' <= c <= '9')
    && (forall i :: 0 <= i < |gaps| ==> forall c :: c in gaps[i] ==> !('a' <= c <= 'z' || '0' <= c <= '9'))
    && (forall i :: 0 < i < |words| ==> gaps[i] != "")
  }

  /** The first 64 characters of the words joined by dashes, without dashes at the end. */
  ghost predicate Names(slug: string, words: seq<string>) {
    var joined := Join("-", words);
    && slug <= joined && |slug| <= 64
    && (slug != "" ==> slug[|slug| - 1] != '-')
    && (forall i :: |slug| <= i < |joined| && i < 64 ==> joined[i] == '-')
  }

  function Fold(s: string): string { Sub(s, FoldHit, "-") }

  function Dash(gap: string): string { if gap == "" then "" else "-" }

  lemma FoldIs(s: string)
    ensures Fold(s) == Sub(s, RunOf(Folds, 1), "-")
  {
    SameSub(s, FoldHit, RunOf(Folds, 1), "-");
  }

  lemma {:induction false} SameSub(s: string, hit: string -> nat, other: string -> nat, r: string)
    requires forall t :: hit(t) == other(t)
    ensures Sub(s, hit, r) == Sub(s, other, r)
    decreases |s|
  {
    if s != "" { SameSub(s[if 0 < hit(s) <= |s| then hit(s) else 1..], hit, other, r); }
  }

  lemma FoldJoin(a: string, s: string)
    requires a == "" || s == "" || SlugStart(a[|a| - 1]) || SlugStart(s[0])
    ensures Fold(a + s) == Fold(a) + Fold(s)
  {
    FoldIs(a);
    FoldIs(s);
    FoldIs(a + s);
    if s == "" {
      assert a + s == a && Fold(a) + "" == Fold(a);
    } else {
      SubRunsJoin(a, s, Folds, 1, "-");
    }
  }

  lemma FoldGap(gap: string)
    requires forall c :: c in gap ==> Folds(c)
    ensures Fold(gap) == Dash(gap)
  {
    FoldIs(gap);
    if gap != "" { SubRun(gap, Folds, 1, "-"); }
  }

  lemma {:induction false} FoldWord(word: string)
    requires forall c :: c in word ==> SlugStart(c)
    ensures Fold(word) == word
  {
    if word != "" {
      FoldWord(word[1..]);
      assert word == [word[0]] + word[1..];
    }
  }

  /** What the last gap adds, unless it is the first, too. */
  function DashAfter(words: seq<string>, gaps: seq<string>): string
    requires |gaps| == |words| + 1
  {
    if words == [] then "" else Dash(gaps[|words|])
  }

  lemma {:induction false} FoldLaid(words: seq<string>, gaps: seq<string>)
    requires Parted(words, gaps)
    ensures Fold(Laid(words, gaps)) == Dash(gaps[0]) + Join("-", words) + DashAfter(words, gaps)
  {
    FoldGap(gaps[0]);
    if words == [] {
      assert Dash(gaps[0]) + "" + "" == Dash(gaps[0]);
    } else {
      var rest := Laid(words[1..], gaps[1..]);
      FoldLaid(words[1..], gaps[1..]);
      FoldFront(gaps[0], words[0], rest);
      JoinedAgain(words, gaps);
      Regroup(Dash(gaps[0]), Join("-", words), DashAfter(words, gaps));
    }
  }

  lemma FoldFront(gap: string, word: string, rest: string)
    requires word != "" && forall c :: c in word ==> SlugStart(c)
    ensures Fold(gap + (word + rest)) == Fold(gap) + (word + Fold(rest))
  {
    assert word[0] in word && word[|word| - 1] in word;
    FoldJoin(gap, word + rest);
    FoldJoin(word, rest);
    FoldWord(word);
  }

  lemma JoinedAgain(words: seq<string>, gaps: seq<string>)
    requires Parted(words, gaps) && words != []
    ensures words[0] + (Dash(gaps[1]) + Join("-", words[1..]) + DashAfter(words[1..], gaps[1..])) ==
            Join("-", words) + DashAfter(words, gaps)
  {
    if |words| == 1 {
      OnlyGap(Dash(gaps[1]));
    } else {
      Regroup(words[0] + "-", Join("-", words[1..]), DashAfter(words, gaps));
      Nested(words[0], "-", Join("-", words[1..]), DashAfter(words, gaps));
    }
  }

  lemma OnlyGap(dash: string)
    ensures dash + "" + "" == dash
  {
  }

  lemma Nested(a: string, b: string, c: string, d: string)
    ensures a + (b + c + d) == a + b + c + d
  {
  }

  lemma {:induction false} JoinEnds(words: seq<string>, gaps: seq<string>)
    requires Parted(words, gaps) && words != []
    ensures var joined := Join("-", words);
            joined != "" && SlugStart(joined[0]) && SlugStart(joined[|joined| - 1])
  {
    assert words[0][0] in words[0] && words[0][|words[0]| - 1] in words[0];
    if |words| > 1 { JoinEnds(words[1..], gaps[1..]); }
  }

  lemma DashesOff(front: string, middle: string, behind: string)
    requires front == "" || front == "-"
    requires behind == "" || behind == "-"
    requires middle != "" && middle[0] != '-' && middle[|middle| - 1] != '-'
    ensures StripAll(front + middle + behind, IsDash) == middle
  {
    DashBefore(front, middle + behind);
    assert front + middle + behind == front + (middle + behind);
    DashBehind(middle, behind);
  }

  lemma DashBefore(front: string, s: string)
    requires front == "" || front == "-"
    requires s != "" && s[0] != '-'
    ensures DropLeft(front + s, IsDash) == s
  {
    if front == "-" {
      assert (front + s)[1..] == s;
    } else {
      assert front + s == s;
    }
  }

  lemma DashBehind(s: string, behind: string)
    requires behind == "" || behind == "-"
    requires s != "" && s[|s| - 1] != '-'
    ensures DropRight(s + behind, IsDash) == s
  {
    if behind == "-" {
      assert (s + behind)[..|s|] == s;
    } else {
      assert s + behind == s;
    }
  }

  lemma {:induction false} TrailingDashes(s: string)
    ensures var t := DropRight(s, IsDash);
            && t <= s && (t != "" ==> t[|t| - 1] != '-') && forall i :: |t| <= i < |s| ==> s[i] == '-'
  {
    if s != "" && s[|s| - 1] == '-' { TrailingDashes(s[..|s| - 1]); }
  }

  lemma CutNames(joined: string)
    requires joined == "" || joined[0] != '-'
    ensures var slug := StripAll(Slice(joined, 0, ID_MAX), IsDash);
            && slug <= joined && |slug| <= 64
            && (slug != "" ==> slug[|slug| - 1] != '-')
            && (forall i :: |slug| <= i < |joined| && i < 64 ==> joined[i] == '-')
  {
    var cut := Slice(joined, 0, ID_MAX);
    assert DropLeft(cut, IsDash) == cut;
    TrailingDashes(cut);
  }

  /** A slug is the name's words in lower case, joined by dashes and cut to size. */
  lemma SlugMeans(lower: string -> string, name: string, words: seq<string>, gaps: seq<string>)
    requires Parted(words, gaps) && lower(Strip(name)) == Laid(words, gaps)
    ensures Names(Slugify(lower, name), words)
  {
    FoldLaid(words, gaps);
    var joined := Join("-", words);
    if words == [] {
      assert StripAll(Dash(gaps[0]), IsDash) == "";
    } else {
      JoinEnds(words, gaps);
      DashesOff(Dash(gaps[0]), joined, Dash(gaps[|words|]));
    }
    assert StripAll(Fold(lower(Strip(name))), IsDash) == joined;
    CutNames(joined);
  }

  /** Every text is words and what is between them. */
  lemma {:induction false} EveryText(t: string) returns (words: seq<string>, gaps: seq<string>)
    ensures Parted(words, gaps) && t == Laid(words, gaps)
  {
    words, gaps := [], [""];
    if t != "" {
      var ws, gs := EveryText(t[1..]);
      if Folds(t[0]) {
        words, gaps := ws, gs[0 := [t[0]] + gs[0]];
      } else if gs[0] == "" && ws != [] {
        words, gaps := ws[0 := [t[0]] + ws[0]], gs;
      } else {
        words, gaps := [[t[0]]] + ws, [""] + gs;
        assert words[1..] == ws && gaps[1..] == gs;
      }
      assert t == [t[0]] + t[1..];
    }
  }

  // ---- unique ids ----

  /** `base[:k]`, where a negative `k` counts from the end. */
  function Take(base: string, k: int): string {
    if k >= 0 then Slice(base, 0, k)
    else if |base| + k > 0 then base[..|base| + k] else ""
  }

  function Or(s: string, default: string): string { if s == "" then default else s }

  function Tail(n: nat): string { "-" + Decimal(n) }

  /** The `n`th candidate for an id: the base, then `base-2`, `base-3` and so on. */
  function Candidate(base: string, n: nat): string {
    if n <= 1 then Or(base, FALLBACK)
    else Or(Take(base, ID_MAX - |Tail(n)|), FALLBACK) + Tail(n)
  }

  lemma LastDash(a: string, d: string)
    requires '-' !in d
    ensures var s := a + "-" + d; s[|a|] == '-' && forall p :: |a| < p < |s| ==> s[p] != '-'
  {
    var s := a + "-" + d;
    forall p | |a| < p < |s| ensures s[p] != '-' {
      assert s[p] == d[p - |a| - 1] && s[p] in d;
    }
  }

  lemma DashSplit(a: string, d: string, a': string, d': string)
    requires a + "-" + d == a' + "-" + d' && '-' !in d && '-' !in d'
    ensures d == d'
  {
    LastDash(a, d);
    LastDash(a', d');
    assert |a| == |a'|;
    assert d == (a + "-" + d)[|a| + 1..] && d' == (a' + "-" + d')[|a'| + 1..];
  }

  /** However much of the base is cut away, different suffixes give different candidates. */
  lemma CandidateInjective(base: string, m: nat, n: nat)
    requires m >= 2 && n >= 2 && Candidate(base, m) == Candidate(base, n)
    ensures m == n
  {
    DecimalDigits(m);
    DecimalDigits(n);
    var a, a' := Or(Take(base, ID_MAX - |Tail(m)|), FALLBACK), Or(Take(base, ID_MAX - |Tail(n)|), FALLBACK);
    assert Candidate(base, m) == a + "-" + Decimal(m) && Candidate(base, n) == a' + "-" + Decimal(n);
    DashSplit(a, Decimal(m), a', Decimal(n));
    DecimalInjective(m, n);
  }

  ghost function Tried(base: string, n: nat): set<string> {
    set m | 2 <= m < n :: Candidate(base, m)
  }

  lemma {:induction false} TriedSize(base: string, n: nat)
    requires n >= 2
    ensures |Tried(base, n)| == n - 2
  {
    if n == 2 {
      assert Tried(base, n) == {};
    } else {
      TriedSize(base, n - 1);
      assert Tried(base, n) == Tried(base, n - 1) + {Candidate(base, n - 1)};
      if Candidate(base, n - 1) in Tried(base, n - 1) {
        var m :| 2 <= m < n - 1 && Candidate(base, m) == Candidate(base, n - 1);
        CandidateInjective(base, m, n - 1);
      }
    }
  }

  lemma {:induction false} SubsetSize<T>(a: set<T>, b: set<T>)
    requires a <= b
    ensures |a| <= |b|
  {
    if a != {} {
      var x :| x in a;
      SubsetSize(a - {x}, b - {x});
    }
  }

  /** Not all of the first |taken| + 2 candidates can be taken. */
  lemma SomeFree(taken: set<string>, base: string)
    ensures exists n: nat :: 2 <= n <= |taken| + 2 && Candidate(base, n) !in taken
  {
    var n := |taken| + 3;
    if Tried(base, n) <= taken {
      TriedSize(base, n);
      SubsetSize(Tried(base, n), taken);
    } else {
      var c :| c in Tried(base, n) && c !in taken;
    }
  }

  ghost predicate FirstFree(taken: set<string>, base: string, n: nat) {
    && 1 <= n && Candidate(base, n) !in taken
    && forall m: nat :: 1 <= m < n ==> Candidate(base, m) in taken
  }

  lemma {:induction false} FirstFreeFrom(taken: set<string>, base: string, k: nat, free: nat) returns (n: nat)
    requires 1 <= k <= free && Candidate(base, free) !in taken
    requires forall m: nat :: 1 <= m < k ==> Candidate(base, m) in taken
    ensures k <= n <= free && FirstFree(taken, base, n)
    decreases free - k
  {
    if Candidate(base, k) !in taken {
      n := k;
    } else {
      n := FirstFreeFrom(taken, base, k + 1, free);
    }
  }

  lemma FreeNumber(taken: set<string>, base: string) returns (n: nat)
    ensures n <= |taken| + 2 && FirstFree(taken, base, n)
  {
    SomeFree(taken, base);
    var free: nat :| 2 <= free <= |taken| + 2 && Candidate(base, free) !in taken;
    n := FirstFreeFrom(taken, base, 1, free);
  }

  /** The number of the candidate `unique_id` settles on. */
  ghost function IdNumber(taken: set<string>, base: string): (n: nat)
    ensures 1 <= n <= |taken| + 2 && FirstFree(taken, base, n)
  {
    assert exists n: nat :: n <= |taken| + 2 && FirstFree(taken, base, n) by {
      var n := FreeNumber(taken, base);
    }
    var n: nat :| n <= |taken| + 2 && FirstFree(taken, base, n);
    n
  }

  ghost function IdFor(taken: set<string>, base: string): string { Candidate(base, IdNumber(taken, base)) }

  method UniqueId(taken: set<string>, base: string) returns (candidate: string)
    ensures candidate == IdFor(taken, base) && candidate !in taken
  {
    candidate := if base != "" then base else FALLBACK;
    var suffix := 2;
    while candidate in taken
      invariant suffix >= 2 && candidate == Candidate(base, suffix - 1)
      invariant forall m: nat :: 1 <= m < suffix - 1 ==> Candidate(base, m) in taken
      invariant suffix - 1 <= IdNumber(taken, base)
      decreases IdNumber(taken, base) - suffix
    {
      var tail := "-" + Decimal(suffix);
      var head := Take(base, ID_MAX - |tail|);
      candidate := (if head != "" then head else FALLBACK) + tail;
      suffix := suffix + 1;
    }
  }

  // ---- how many candidates are tried ----

  /** The last of the tries is needed by exactly one roster: the one made of the base's own
      candidates from the second on, and only if it holds the base itself. */
  lemma TriesBound(taken: set<string>, base: string)
    ensures IdNumber(taken, base) == |taken| + 2 <==>
            taken == Tried(base, |taken| + 2) && Candidate(base, 1) in taken
  {
    var n := |taken| + 2;
    TriedSize(base, n);
    if IdNumber(taken, base) == n {
      assert Tried(base, n) <= taken;
      SameSize(Tried(base, n), taken);
    }
    if taken == Tried(base, n) && Candidate(base, 1) in taken {
      assert forall m: nat :: 2 <= m < n ==> Candidate(base, m) in taken;
    }
  }

  lemma SameSize<T>(a: set<T>, b: set<T>)
    requires a <= b && |a| == |b|
    ensures a == b
  {
    if x :| x in b && x !in a {
      SubsetSize(a + {x}, b);
    }
  }

  /** `-2`, `-3` and so on: a dash and a number of two or more, without leading zeros. */
  predicate IsTail(t: string) { |t| >= 2 && t[0] == '-' && Numeral(t[1..]) && t[1..] != "1" }

  /** A base of full length that ends in a suffix of its own; or the fallback with a suffix of
      full length, which no slug is. */
  predicate EndsInOwnTail(base: string) {
    exists k :: 0 < k < |base| && IsTail(base[k..])
                && (|base| == ID_MAX || (base[..k] == FALLBACK && |base[k..]| == ID_MAX))
  }

  lemma TailIsTail(m: nat)
    requires m >= 2
    ensures IsTail(Tail(m))
  {
    DecimalNumeral(m);
    assert Tail(m)[1..] == Decimal(m);
    if Decimal(m) == "1" {
      assert Decimal(1) == "1";
      DecimalInjective(m, 1);
    }
  }

  lemma TailNumber(t: string) returns (m: nat)
    requires IsTail(t)
    ensures m >= 2 && t == Tail(m)
  {
    m := NumeralValue(t[1..]);
    assert t == "-" + t[1..];
    assert Decimal(1) == "1";
  }

  lemma OwnTailRepeats(base: string, k: nat, m: nat)
    requires 0 < k < |base| && m >= 2 && base[k..] == Tail(m)
    requires |base| == ID_MAX || (base[..k] == FALLBACK && |base[k..]| == ID_MAX)
    ensures Candidate(base, m) == base == Candidate(base, 1)
  {
    assert |base| == ID_MAX ==> k == ID_MAX - |Tail(m)| && Take(base, k) == base[..k];
    assert base == base[..k] + base[k..];
  }

  lemma RepeatHasTail(base: string, m: nat)
    requires m >= 2 && Candidate(base, m) == Candidate(base, 1)
    ensures EndsInOwnTail(base)
  {
    var t := Tail(m);
    var head := Take(base, ID_MAX - |t|);
    TailIsTail(m);
    assert Candidate(base, m) == Or(head, FALLBACK) + t;
    assert base != "";
    var k := |Or(head, FALLBACK)|;
    assert base == Or(head, FALLBACK) + t;
    assert base[k..] == t && base[..k] == Or(head, FALLBACK);
    assert head != "" ==> |base| == ID_MAX;
    assert head == "" ==> |t| == ID_MAX;
  }

  /** A base needs more than one candidate beyond the roster's size, for some roster, if and only
      if it ends in a suffix of its own. */
  lemma ExtraTryIff(base: string)
    ensures (exists taken: set<string> :: IdNumber(taken, base) > |taken| + 1) <==> EndsInOwnTail(base)
  {
    if taken: set<string> :| IdNumber(taken, base) > |taken| + 1 {
      TriesBound(taken, base);
      var m :| 2 <= m < |taken| + 2 && Candidate(base, m) == Candidate(base, 1);
      RepeatHasTail(base, m);
    }
    if EndsInOwnTail(base) {
      var k :| 0 < k < |base| && IsTail(base[k..])
               && (|base| == ID_MAX || (base[..k] == FALLBACK && |base[k..]| == ID_MAX));
      var m := TailNumber(base[k..]);
      OwnTailRepeats(base, k, m);
      var taken := Tried(base, m + 1);
      TriedSize(base, m + 1);
      assert Candidate(base, m) in taken;
      TriesBound(taken, base);
    }
  }

  /** Such a base, and the roster that needs the third candidate. */
  lemma ExtraTry()
    ensures var base := seq(62, i => 'a') + "-2";
            Slug(base) && IdNumber({base}, base) == |{base}| + 2
  {
    var base := seq(62, i => 'a') + "-2";
    assert Tail(2) == "-2" && base[62..] == "-2";
    OwnTailRepeats(base, 62, 2);
    assert Tried(base, 3) == {Candidate(base, 2)} by {
      assert forall c :: c in Tried(base, 3) <==> c == Candidate(base, 2);
    }
    TriesBound({base}, base);
  }

  /** The suffix leaves room: 54 digits are enough for any roster that could be stored. */
  predicate Roomy(taken: set<string>) { |Decimal(|taken| + 2)| <= 54 }

  lemma CandidateIsSlug(base: string, n: nat)
    requires (base == "" || Slug(base)) && |Decimal(n)| <= 54
    ensures Slug(Candidate(base, n))
  {
    DecimalDigits(n);
    assert Slug(FALLBACK);
    if n >= 2 {
      var head := Take(base, ID_MAX - |Tail(n)|);
      assert forall i :: 0 <= i < |head| ==> head[i] == base[i];
    }
  }

  /** From no base or a proper one, the new id is a proper id that no companion has. */
  lemma UniqueIdIsSlug(taken: set<string>, base: string)
    requires (base == "" || Slug(base)) && Roomy(taken)
    ensures Slug(IdFor(taken, base)) && IdFor(taken, base) !in taken
  {
    DecimalGrows(IdNumber(taken, base), |taken| + 2);
    CandidateIsSlug(base, IdNumber(taken, base));
  }

  // ---- what an id is made of ----

  /** The base, or the base cut to leave room for a dash and the number behind it. */
  ghost predicate IsCandidate(base: string, n: nat, id: string) {
    if n == 1 then id == if base != "" then base else "companion"
    else exists head :: IsNumbered(base, n, head, id)
  }

  predicate IsNumbered(base: string, n: nat, head: string, id: string) {
    && id == head + ("-" + Decimal(n))
    && if base == "" then head == "companion" else head <= base && |id| <= 64 && (head == base || |id| == 64)
  }

  lemma CandidateMeans(base: string, n: nat, id: string)
    requires n >= 1 && |base| <= 64 && |Decimal(n)| <= 54
    ensures IsCandidate(base, n, id) <==> id == Candidate(base, n)
  {
    if n > 1 {
      var head := Or(Take(base, ID_MAX - |Tail(n)|), FALLBACK);
      assert IsNumbered(base, n, head, head + Tail(n));
      if IsCandidate(base, n, id) {
        var other :| IsNumbered(base, n, other, id);
        assert other == head;
      }
    }
  }

  /** The first candidate that is not taken. */
  ghost predicate FreshId(taken: set<string>, base: string, id: string) {
    exists n: nat :: n >= 1 && IsCandidate(base, n, id) && id !in taken && AllTaken(taken, base, n)
  }

  ghost predicate AllTaken(taken: set<string>, base: string, n: nat) {
    forall m: nat :: 1 <= m < n ==> IsTaken(taken, base, m)
  }

  ghost predicate IsTaken(taken: set<string>, base: string, n: nat) {
    exists id :: id in taken && IsCandidate(base, n, id)
  }

  lemma IdMeans(taken: set<string>, base: string)
    requires |base| <= 64 && Roomy(taken)
    ensures FreshId(taken, base, IdFor(taken, base))
  {
    var n := IdNumber(taken, base);
    forall m: nat | 1 <= m <= n ensures IsCandidate(base, m, Candidate(base, m)) {
      DecimalGrows(m, |taken| + 2);
      CandidateMeans(base, m, Candidate(base, m));
    }
    forall m: nat | 1 <= m < n ensures IsTaken(taken, base, m) {
      assert Candidate(base, m) in taken;
    }
  }
}
