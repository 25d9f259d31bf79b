/** The string-aware bracket scanner behind the lenient tool-call parser:
    closing a truncated object (`_balance_json`). The string and escape rules are
    those of section 7 of RFC 8259. */
module JsonScan {

  /** Where the scanner stands: the openers not yet closed, and the string state. */
  datatype Scan = Scan(stack: string, inString: bool, escaped: bool)

  const START := Scan("", false, false)

  predicate IsOpener(c: char) { c == '{' || c == '[' }

  predicate IsCloser(c: char) { c == '}' || c == ']' }

  function CloserOf(opener: char): char { if opener == '{' then '}' else ']' }

  /** One turn of the scanning loop. A closer pops whatever is open, of either kind. */
  function Step(s: Scan, c: char): Scan {
    if s.inString then
      if s.escaped then s.(escaped := false)
      else if c == '\\' then s.(escaped := true)
      else if c == '"' then s.(inString := false)
      else s
    else if c == '"' then s.(inString := true)
    else if IsOpener(c) then s.(stack := s.stack + [c])
    else if IsCloser(c) && s.stack != "" then s.(stack := s.stack[..|s.stack| - 1])
    else s
  }

  function ScanFrom(s: Scan, text: string): Scan {
    if text == "" then s else Step(ScanFrom(s, text[..|text| - 1]), text[|text| - 1])
  }

  /** The text ends inside a string, right after an unescaped backslash. */
  predicate Dangling(text: string) { ScanFrom(START, text).escaped }

  /** The closers for a stack of openers, innermost (last) first. */
  function Closers(stack: string): string {
    if stack == "" then "" else [CloserOf(stack[|stack| - 1])] + Closers(stack[..|stack| - 1])
  }

  function Ending(s: Scan): string {
    (if s.inString then "\"" else "") + Closers(s.stack)
  }

  /** What `_balance_json` returns. */
  function Balanced(text: string): string { text + Ending(ScanFrom(START, text)) }

  method BalanceJson(text: string) returns (repaired: string)
    ensures repaired == Balanced(text)
  {
    var openStack, inString, escaped := "", false, false;
    for i := 0 to |text|
      invariant Scan(openStack, inString, escaped) == ScanFrom(START, text[..i])
    {
      var ch := text[i];
      assert text[..i + 1][..i] == text[..i];
      if inString {
        if escaped {
          escaped := false;
        } else if ch == '\\' {
          escaped := true;
        } else if ch == '"' {
          inString := false;
        }
        continue;
      }
      if ch == '"' {
        inString := true;
      } else if IsOpener(ch) {
        openStack := openStack + [ch];
      } else if IsCloser(ch) {
        if openStack != "" {
          openStack := openStack[..|openStack| - 1];
        }
      }
    }
    assert text[..|text|] == text;
    repaired := text;
    if inString {
      repaired := repaired + "\"";
    }
    var n := |openStack|;
    assert openStack[..n] == openStack;
    assert repaired + Closers(openStack) == Balanced(text);
    while n > 0
      invariant 0 <= n <= |openStack|
      invariant repaired + Closers(openStack[..n]) == Balanced(text)
    {
      assert openStack[..n][..n - 1] == openStack[..n - 1];
      repaired := repaired + [CloserOf(openStack[n - 1])];
      n := n - 1;
    }
  }

  // ---- scanning in pieces ----

  lemma {:induction false} ScanAppend(s: Scan, a: string, b: string)
    ensures ScanFrom(s, a + b) == ScanFrom(ScanFrom(s, a), b)
  {
    if b == "" {
      assert a + b == a;
    } else {
      assert (a + b)[..|a + b| - 1] == a + b[..|b| - 1];
      ScanAppend(s, a, b[..|b| - 1]);
    }
  }

  lemma ScanChar(s: Scan, c: char)
    ensures ScanFrom(s, [c]) == Step(s, c)
  {
    assert [c][..0] == "";
  }

  lemma {:induction false} ScanClosers(stack: string)
    ensures ScanFrom(Scan(stack, false, false), Closers(stack)) == START
  {
    if stack != "" {
      var s, top, below := Scan(stack, false, false), [CloserOf(stack[|stack| - 1])], stack[..|stack| - 1];
      ScanAppend(s, top, Closers(below));
      ScanChar(s, top[0]);
      ScanClosers(below);
    }
  }

  /** Outside strings and with nothing dangling, the ending brings the scanner home. */
  lemma ScanEnding(s: Scan)
    requires !s.escaped
    ensures ScanFrom(s, Ending(s)) == START
  {
    if s.inString {
      ScanAppend(s, "\"", Closers(s.stack));
      ScanChar(s, '"');
    } else {
      assert Ending(s) == Closers(s.stack);
    }
    ScanClosers(s.stack);
  }

  /** Inside a string, closers are only string content. */
  lemma {:induction false} ScanClosersInString(s: Scan, stack: string)
    requires s.inString && !s.escaped
    ensures ScanFrom(s, Closers(stack)) == s
  {
    if stack != "" {
      var top, below := [CloserOf(stack[|stack| - 1])], stack[..|stack| - 1];
      ScanAppend(s, top, Closers(below));
      ScanChar(s, top[0]);
      ScanClosersInString(s, below);
    }
  }

  lemma {:induction false} EscapedOnlyInString(text: string)
    ensures ScanFrom(START, text).escaped ==> ScanFrom(START, text).inString
  {
    if text != "" {
      EscapedOnlyInString(text[..|text| - 1]);
    }
  }

  /** Where the scanner is after the repaired text. */
  lemma AfterBalancing(text: string)
    ensures !Dangling(text) ==> ScanFrom(START, Balanced(text)) == START
    ensures Dangling(text) ==> ScanFrom(START, Balanced(text)) == ScanFrom(START, text).(escaped := false)
    ensures Dangling(text) ==> ScanFrom(START, Balanced(text)).inString
  {
    var s := ScanFrom(START, text);
    ScanAppend(START, text, Ending(s));
    if Dangling(text) {
      EscapedOnlyInString(text);
      ScanAppend(s, "\"", Closers(s.stack));
      ScanChar(s, '"');
      ScanClosersInString(s.(escaped := false), s.stack);
    } else {
      ScanEnding(s);
    }
  }

  /** Repairing twice is repairing once, exactly when nothing dangles. */
  lemma BalanceIdempotent(text: string)
    ensures Balanced(Balanced(text)) == Balanced(text) <==> !Dangling(text)
  {
    AfterBalancing(text);
    if Dangling(text) {
      assert |Balanced(Balanced(text))| > |Balanced(text)|;
    } else {
      assert Ending(START) == "";
    }
  }

  // ---- an independent account of well-nested text ----

  type PlainChar = c: char | c != '"' && !IsOpener(c) && !IsCloser(c) witness 'a'

  type StringChar = c: char | c != '"' && c != '\\' witness 'a'

  /** The inside of a string literal: ordinary characters and escape pairs. */
  datatype Body = End | Lit(c: StringChar, rest: Body) | Esc(e: char, rest: Body)

  /** Text in which every string is closed and brackets match in kind. */
  datatype Nest =
    | Nil
    | Plain(c: PlainChar, rest: Nest)
    | Quoted(body: Body, rest: Nest)
    | Group(opener: char, inner: Nest, rest: Nest)

  predicate Proper(n: Nest) {
    match n
    case Nil => true
    case Plain(_, rest) => Proper(rest)
    case Quoted(_, rest) => Proper(rest)
    case Group(opener, inner, rest) => IsOpener(opener) && Proper(inner) && Proper(rest)
  }

  function ShowBody(b: Body): string {
    match b
    case End => ""
    case Lit(c, rest) => [c] + ShowBody(rest)
    case Esc(e, rest) => ['\\', e] + ShowBody(rest)
  }

  /** Delimited text, as a string literal or a group shows it. */
  function Wrap(open: char, inside: string, close: char, rest: string): string {
    [open] + inside + [close] + rest
  }

  function Show(n: Nest): string {
    match n
    case Nil => ""
    case Plain(c, rest) => [c] + Show(rest)
    case Quoted(body, rest) => Wrap('"', ShowBody(body), '"', Show(rest))
    case Group(opener, inner, rest) => Wrap(opener, Show(inner), CloserOf(opener), Show(rest))
  }

  ghost predicate WellNested(text: string) { exists n: Nest :: Proper(n) && Show(n) == text }

  lemma ScanCons(s: Scan, c: char, rest: string)
    ensures ScanFrom(s, [c] + rest) == ScanFrom(Step(s, c), rest)
  {
    ScanAppend(s, [c], rest);
    ScanChar(s, c);
  }

  lemma ScanWrap(s: Scan, open: char, inside: string, close: char, rest: string)
    ensures ScanFrom(s, Wrap(open, inside, close, rest))
         == ScanFrom(Step(ScanFrom(Step(s, open), inside), close), rest)
  {
    assert Wrap(open, inside, close, rest) == [open] + (inside + ([close] + rest));
    ScanCons(s, open, inside + ([close] + rest));
    ScanAppend(Step(s, open), inside, [close] + rest);
    ScanCons(ScanFrom(Step(s, open), inside), close, rest);
  }

  /** A cut of delimited text stops inside the delimiters or after them. */
  lemma CutWrap(open: char, inside: string, close: char, rest: string, cut: string)
    requires cut != "" && cut <= Wrap(open, inside, close, rest)
    ensures cut == [open] + cut[1..]
    ensures |cut| <= |inside| + 1 ==> cut[1..] <= inside
    ensures |cut| > |inside| + 1 ==>
              var last := cut[|inside| + 2..];
              last <= rest && cut == Wrap(open, inside, close, last)
  {
    var w := Wrap(open, inside, close, rest);
    assert w == [open] + (inside + ([close] + rest));
    if |cut| <= |inside| + 1 {
      assert cut[1..] == w[1..|cut|] == inside[..|cut| - 1];
    } else {
      var last := cut[|inside| + 2..];
      assert last == w[|inside| + 2..|cut|] == rest[..|last|];
      assert cut == w[..|cut|] == Wrap(open, inside, close, last);
    }
  }

  lemma PopOpener(s: Scan, opener: char)
    requires IsOpener(opener) && !s.inString && !s.escaped
    ensures Step(Step(s, opener), CloserOf(opener)) == s
  {
    assert (s.stack + [opener])[..|s.stack|] == s.stack;
  }

  lemma {:induction false} ClosersFront(opener: char, stack: string)
    ensures Closers([opener] + stack) == Closers(stack) + [CloserOf(opener)]
  {
    var all := [opener] + stack;
    if stack == "" {
      assert all[..0] == "";
    } else {
      assert all[..|all| - 1] == [opener] + stack[..|stack| - 1];
      ClosersFront(opener, stack[..|stack| - 1]);
    }
  }

  lemma {:induction false} ClosersLength(stack: string)
    ensures |Closers(stack)| == |stack|
  {
    if stack != "" { ClosersLength(stack[..|stack| - 1]); }
  }

  lemma {:induction false} ScanBody(b: Body, s: Scan)
    requires s.inString && !s.escaped
    ensures ScanFrom(s, ShowBody(b)) == s
  {
    match b
    case End =>
    case Lit(c, rest) =>
      ScanCons(s, c, ShowBody(rest));
      ScanBody(rest, s);
    case Esc(e, rest) =>
      assert ShowBody(b) == ['\\'] + ([e] + ShowBody(rest));
      ScanCons(s, '\\', [e] + ShowBody(rest));
      ScanCons(s.(escaped := true), e, ShowBody(rest));
      ScanBody(rest, s);
  }

  /** Well-nested text leaves the scanner where it found it. */
  lemma {:induction false} ScanShow(n: Nest, s: Scan)
    requires Proper(n) && !s.inString && !s.escaped
    ensures ScanFrom(s, Show(n)) == s
  {
    match n
    case Nil =>
    case Plain(c, rest) =>
      ScanCons(s, c, Show(rest));
      ScanShow(rest, s);
    case Quoted(body, rest) =>
      ScanWrap(s, '"', ShowBody(body), '"', Show(rest));
      ScanBody(body, s.(inString := true));
      ScanShow(rest, s);
    case Group(opener, inner, rest) =>
      ScanWrap(s, opener, Show(inner), CloserOf(opener), Show(rest));
      ScanShow(inner, Step(s, opener));
      PopOpener(s, opener);
      ScanShow(rest, s);
  }

  /** A string literal's inside, cut anywhere but after a backslash, is again one. */
  lemma {:induction false} CutBody(b: Body, cut: string, s: Scan) returns (m: Body)
    requires s.inString && !s.escaped && cut <= ShowBody(b)
    ensures ScanFrom(s, cut) == s.(escaped := ScanFrom(s, cut).escaped)
    ensures !ScanFrom(s, cut).escaped ==> ShowBody(m) == cut
  {
    m := End;
    if cut != "" {
      match b
      case Lit(c, rest) =>
        assert cut == [c] + cut[1..];
        ScanCons(s, c, cut[1..]);
        var r := CutBody(rest, cut[1..], s);
        m := Lit(c, r);
      case Esc(e, rest) =>
        if |cut| == 1 {
          assert cut == ['\\'];
          ScanChar(s, '\\');
        } else {
          assert cut == ['\\'] + ([e] + cut[2..]);
          ScanCons(s, '\\', [e] + cut[2..]);
          ScanCons(s.(escaped := true), e, cut[2..]);
          var r := CutBody(rest, cut[2..], s);
          m := Esc(e, r);
        }
    }
  }

  /** Closing what `cut` leaves open, counting from `s`, gives the well-nested text of `m`. */
  ghost predicate Closes(s: Scan, cut: string, open: string, m: Nest) {
    var e := ScanFrom(s, cut);
    && e.stack == s.stack + open
    && (!e.escaped ==> Proper(m) && Show(m) == cut + Ending(e.(stack := open)))
  }

  /** Well-nested text cut anywhere. */
  lemma {:induction false} CutNest(n: Nest, cut: string, s: Scan) returns (open: string, m: Nest)
    requires Proper(n) && !s.inString && !s.escaped && cut <= Show(n)
    ensures Closes(s, cut, open, m)
    decreases n, 1
  {
    open, m := "", Nil;
    if cut == "" { return; }
    match n
    case Plain(c, rest) =>
      assert cut == [c] + cut[1..];
      ScanCons(s, c, cut[1..]);
      open, m := CutNest(rest, cut[1..], s);
      m := Plain(c, m);
    case Quoted(body, rest) =>
      open, m := CutQuoted(body, rest, cut, s);
    case Group(opener, inner, rest) =>
      open, m := CutGroup(opener, inner, rest, cut, s);
  }

  lemma {:induction false} CutQuoted(body: Body, rest: Nest, cut: string, s: Scan) returns (open: string, m: Nest)
    requires Proper(rest) && !s.inString && !s.escaped && cut != "" && cut <= Show(Quoted(body, rest))
    ensures Closes(s, cut, open, m)
    decreases Quoted(body, rest), 0
  {
    var inside, q := ShowBody(body), s.(inString := true);
    CutWrap('"', inside, '"', Show(rest), cut);
    if |cut| <= |inside| + 1 {
      ScanCons(s, '"', cut[1..]);
      var b := CutBody(body, cut[1..], q);
      open, m := "", Quoted(b, Nil);
    } else {
      var last := cut[|inside| + 2..];
      ScanWrap(s, '"', inside, '"', last);
      ScanBody(body, q);
      open, m := CutNest(rest, last, s);
      WrapAppend('"', inside, '"', last, Ending(ScanFrom(s, last).(stack := open)));
      m := Quoted(body, m);
    }
  }

  lemma EndingFront(e: Scan, opener: char, open: string)
    ensures Ending(e.(stack := [opener] + open)) == Ending(e.(stack := open)) + [CloserOf(opener)]
  {
    ClosersFront(opener, open);
  }

  /** A cut inside a group also leaves the group itself open. */
  lemma CloseGroup(s: Scan, opener: char, tail: string, open: string, m: Nest)
    requires IsOpener(opener) && !s.inString && !s.escaped && Closes(Step(s, opener), tail, open, m)
    ensures Closes(s, [opener] + tail, [opener] + open, Group(opener, m, Nil))
  {
    var closer := CloserOf(opener);
    ScanCons(s, opener, tail);
    var e := ScanFrom(s, [opener] + tail);
    assert (s.stack + [opener]) + open == s.stack + ([opener] + open);
    if !e.escaped {
      var ending := Ending(e.(stack := open));
      EndingFront(e, opener, open);
      assert Wrap(opener, tail + ending, closer, "") == [opener] + tail + (ending + [closer]);
    }
  }

  lemma {:induction false} CutGroup(opener: char, inner: Nest, rest: Nest, cut: string, s: Scan)
    returns (open: string, m: Nest)
    requires IsOpener(opener) && Proper(inner) && Proper(rest) && !s.inString && !s.escaped
    requires cut != "" && cut <= Show(Group(opener, inner, rest))
    ensures Closes(s, cut, open, m)
    decreases Group(opener, inner, rest), 0
  {
    var inside, closer, g := Show(inner), CloserOf(opener), Step(s, opener);
    CutWrap(opener, inside, closer, Show(rest), cut);
    if |cut| <= |inside| + 1 {
      open, m := CutNest(inner, cut[1..], g);
      CloseGroup(s, opener, cut[1..], open, m);
      m := Group(opener, m, Nil);
      open := [opener] + open;
    } else {
      var last := cut[|inside| + 2..];
      ScanWrap(s, opener, inside, closer, last);
      ScanShow(inner, g);
      PopOpener(s, opener);
      open, m := CutNest(rest, last, s);
      WrapAppend(opener, inside, closer, last, Ending(ScanFrom(s, last).(stack := open)));
      m := Group(opener, inner, m);
    }
  }

  lemma WrapAppend(open: char, inside: string, close: char, rest: string, more: string)
    ensures Wrap(open, inside, close, rest) + more == Wrap(open, inside, close, rest + more)
  {
  }

  /** The repair succeeds exactly on the texts that some ending could make well nested
      and that do not stop right after an unescaped backslash. */
  lemma BalanceCompletes(text: string)
    ensures WellNested(Balanced(text)) <==>
            !Dangling(text) && exists suffix :: WellNested(text + suffix)
  {
    if WellNested(Balanced(text)) {
      var n :| Proper(n) && Show(n) == Balanced(text);
      ScanShow(n, START);
      AfterBalancing(text);
      assert WellNested(text + Ending(ScanFrom(START, text)));
    }
    if !Dangling(text) && exists suffix :: WellNested(text + suffix) {
      var suffix :| WellNested(text + suffix);
      var n :| Proper(n) && Show(n) == text + suffix;
      var open, m := CutNest(n, text, START);
      assert ScanFrom(START, text).stack == open;
      assert Show(m) == Balanced(text);
    }
  }

  /** The case that fails: the appended quote is swallowed by the backslash before it. */
  lemma DanglingCutStaysBroken()
    ensures var cut := "[\"\\"; WellNested(cut + "\"\"]") && !WellNested(Balanced(cut))
  {
    var cut := "[\"\\";
    var n := Group('[', Quoted(Esc('"', End), Nil), Nil);
    assert Proper(n) && Show(n) == cut + "\"\"]";
    assert cut == ['['] + (['"'] + ['\\']);
    ScanCons(START, '[', ['"'] + ['\\']);
    ScanCons(Step(START, '['), '"', ['\\']);
    ScanChar(Step(Step(START, '['), '"'), '\\');
    BalanceCompletes(cut);
  }

  /** How far the scanner is from home: one character at least for each open thing. */
  function Debt(s: Scan): nat { |s.stack| + if s.inString then 1 else 0 }

  lemma {:induction false} DebtFalls(s: Scan, text: string)
    ensures Debt(ScanFrom(s, text)) + |text| >= Debt(s)
  {
    if text != "" { DebtFalls(s, text[..|text| - 1]); }
  }

  /** No shorter ending than the one the repair appends makes the text well nested. */
  lemma BalanceMinimal(text: string, suffix: string)
    requires WellNested(text + suffix)
    ensures |text + suffix| >= |Balanced(text)|
  {
    var n :| Proper(n) && Show(n) == text + suffix;
    ScanShow(n, START);
    ScanAppend(START, text, suffix);
    DebtFalls(ScanFrom(START, text), suffix);
    ClosersLength(ScanFrom(START, text).stack);
  }
}
