/** The repair ladder for one piece of model text, and the clean-up of the visible reply
    (`_lenient_json_loads`, `lenient_tool_calls`): what each rewriting makes of a text, part by part. */
module TextRepairs {
  import opened JsonScan
  import opened JsonValues
  import opened LenientCalls
  import opened ObjectSplit
  import opened PyText

  // ---- trailing commas ----

  lemma NoCommaHit(s: string)
    requires s == "" || s[0] != ','
    ensures CommaHit(s) == 0
  {
  }

  lemma NoCommaIn(a: string, s: string)
    requires ',' !in a
    ensures NoHitIn(a, s, CommaHit)
  {
    forall i | 0 <= i < |a| ensures CommaHit((a + s)[i..]) == 0 {
      assert (a + s)[i..][0] == a[i];
      NoCommaHit((a + s)[i..]);
    }
  }

  lemma SpacesThen(ws: string, c: char, b: string)
    requires AllSpace(ws) && !IsSpace(c)
    ensures Run(ws + ([c] + b), IsSpace) == |ws|
  {
    var s := [c] + b;
    if ws == "" {
      assert ws + s == s;
    } else {
      RunApart(ws, s, IsSpace);
      RunWhole(ws, IsSpace);
    }
  }

  lemma CommaThen(ws: string, c: char, b: string)
    requires AllSpace(ws) && !IsSpace(c)
    ensures CommaHit("," + (ws + ([c] + b))) == if IsCloser(c) then 1 + |ws| else 0
  {
    var s := "," + (ws + ([c] + b));
    SpacesThen(ws, c, b);
    assert s[1..] == ws + ([c] + b) && s[1 + |ws|] == c;
  }

  /** A text without commas is left alone. */
  lemma NoCommaStays(s: string)
    requires ',' !in s
    ensures DropCommas(s) == s
  {
    NoCommaIn(s, "");
    SubPast(s, "", CommaHit, "");
    assert s + "" == s;
  }

  lemma CommaBeforeCloser(ws: string, c: char, b: string)
    requires AllSpace(ws) && IsCloser(c)
    ensures DropCommas("," + (ws + ([c] + b))) == [c] + DropCommas(b)
  {
    var m, rest := "," + ws, [c] + b;
    CommaThen(ws, c, b);
    assert "," + (ws + rest) == m + rest;
    SubHit(m, rest, CommaHit, "");
    NoCommaHit(rest);
    assert rest[1..] == b && "" + Sub(rest, CommaHit, "") == Sub(rest, CommaHit, "");
  }

  lemma CommaBeforeOther(ws: string, c: char, b: string)
    requires AllSpace(ws) && !IsSpace(c) && !IsCloser(c)
    ensures DropCommas("," + (ws + ([c] + b))) == "," + DropCommas(ws + ([c] + b))
  {
    var tail := ws + ([c] + b);
    CommaThen(ws, c, b);
    assert ("," + tail)[1..] == tail;
  }

  lemma CommaBehind(a: string, tail: string)
    requires ',' !in a
    ensures DropCommas(a + ("," + tail)) == a + DropCommas("," + tail)
  {
    NoCommaIn(a, "," + tail);
    SubPast(a, "," + tail, CommaHit, "");
  }

  /** The first comma goes, with the white space behind it, if a closer follows; if something else
      does, or nothing, it stays. What comes after it is treated in turn. */
  lemma FirstComma(a: string, ws: string, c: char, b: string)
    requires ',' !in a && AllSpace(ws) && !IsSpace(c)
    ensures DropCommas(a + ("," + (ws + ([c] + b)))) ==
            a + (if IsCloser(c) then [c] + DropCommas(b) else "," + DropCommas(ws + ([c] + b)))
    ensures DropCommas(a + ("," + ws)) == a + ("," + ws)
  {
    CommaBehind(a, ws + ([c] + b));
    if IsCloser(c) {
      CommaBeforeCloser(ws, c, b);
    } else {
      CommaBeforeOther(ws, c, b);
    }
    LastComma(a, ws);
  }

  lemma LastComma(a: string, ws: string)
    requires ',' !in a && AllSpace(ws)
    ensures DropCommas(a + ("," + ws)) == a + ("," + ws)
  {
    var s := "," + ws;
    RunWhole(ws, IsSpace);
    assert s[1..] == ws;
    NoCommaIn(a, s);
    SubPast(a, s, CommaHit, "");
    SpacesNoComma(ws);
    NoCommaStays(ws);
  }

  lemma SpacesNoComma(ws: string)
    requires AllSpace(ws)
    ensures ',' !in ws
  {
  }

  // ---- the ladder ----

  /** The text from its first brace on, or all of it if there is none. */
  predicate FromBrace(s: string, t: string) {
    if '{' in s then |t| <= |s| && s[|s| - |t|..] == t && t != "" && t[0] == '{' && '{' !in s[..|s| - |t|]
    else t == s
  }

  /** The first of the readings, in this order, that gives an object. */
  predicate FirstObject(p: Parser, t: string, result: Option<Json>) {
    var plain, repaired := DropCommas(t), Balanced(DropCommas(t));
    if ReadsAsDict(p.loads, t) then result == p.loads(t)
    else if ReadsAsDict(p.loads, plain) then result == p.loads(plain)
    else if ReadsAsDict(p.loads, repaired) then result == p.loads(repaired)
    else if ReadsAsDict(p.literal, Balanced(t)) then result == p.literal(Balanced(t))
    else result == None
  }

  lemma FirstBraceIs(s: string)
    ensures FromBrace(s, FromFirstBrace(s))
  {
    FindFirst(s, "{", 0);
    match Find(s, "{", 0)
    case None =>
      if '{' in s {
        var i :| 0 <= i < |s| && s[i] == '{';
        CharOccurs(s, "{", i);
      }
    case Some(i) =>
      assert s[i + 0] == "{"[0];
      forall j | 0 <= j < i ensures s[j] != '{' {
        if s[j] == '{' { CharOccurs(s, "{", j); }
      }
  }

  lemma LadderOf(p: Parser, t: string)
    ensures var plain := FirstDict(p.loads, [t, DropCommas(t), Balanced(DropCommas(t))]);
            FirstObject(p, t, if plain.Some? then plain else FirstDict(p.literal, [Balanced(t)]))
  {
    ThreeTried(p.loads, t, DropCommas(t), Balanced(DropCommas(t)));
    OneTried(p.literal, Balanced(t));
  }

  lemma OneTried(parse: string -> Option<Json>, a: string)
    ensures FirstDict(parse, [a]) == if ReadsAsDict(parse, a) then parse(a) else None
  {
    assert [a][1..] == [];
  }

  lemma ThreeTried(parse: string -> Option<Json>, a: string, b: string, c: string)
    ensures FirstDict(parse, [a, b, c]) ==
            if ReadsAsDict(parse, a) then parse(a) else if ReadsAsDict(parse, b) then parse(b)
            else if ReadsAsDict(parse, c) then parse(c) else None
  {
    assert [a, b, c][1..] == [b, c] && [b, c][1..] == [c];
    OneTried(parse, c);
  }

  /** What is made of a value: an object or a list is taken as it is, and of a text that is not blank
      the first reading that gives an object; there is nothing in anything else. */
  lemma LenientLoadsMeans(p: Parser, raw: Json)
    ensures var read := LenientLoads(p, raw);
            && (raw.Dict? || raw.List? ==> read == Some(raw))
            && (raw.Null? || raw.Bool? || raw.Number? ==> read == None)
            && (raw.Str? ==>
                  if forall c :: c in raw.s ==> IsSpace(c) then read == None
                  else exists t :: FromBrace(Strip(raw.s), t) && FirstObject(p, t, read))
  {
    if raw.Str? {
      StripBlank(raw.s);
      FirstBraceIs(Strip(raw.s));
      LadderOf(p, FromFirstBrace(Strip(raw.s)));
    }
  }

  /** A text that starts with a brace and neither starts nor ends with white space is read as such. */
  lemma BracedIsTried(p: Parser, t: string)
    requires t != "" && t[0] == '{' && Trimmed(t)
    ensures FirstObject(p, t, LenientLoads(p, Str(t)))
  {
    LenientLoadsMeans(p, Str(t));
    assert t[0] in t && !IsSpace(t[0]);
    WholeIsFromBrace(t);
  }

  lemma WholeIsFromBrace(t: string)
    requires t != "" && t[0] == '{' && Trimmed(t)
    ensures forall u :: FromBrace(Strip(t), u) ==> u == t
  {
    StripTrims(t);
    assert '{' in t;
    forall k: nat | 0 < k <= |t| ensures '{' in t[..k] { StartsWith(t, k); }
    forall u | FromBrace(Strip(t), u) ensures u == t {
      assert t[0..] == t;
    }
  }

  lemma StartsWith(t: string, k: nat)
    requires 0 < k <= |t|
    ensures t[0] in t[..k]
  {
    assert t[..k][0] == t[0];
  }

  /** An object whose last entry has a comma behind it is read without the comma. */
  lemma CommaTrailedIsRead(p: Parser, body: string, ws: string)
    requires body != "" && body[0] == '{' && ',' !in body && AllSpace(ws)
    requires !ReadsAsDict(p.loads, body + ("," + (ws + "}"))) && ReadsAsDict(p.loads, body + "}")
    ensures LenientLoads(p, Str(body + ("," + (ws + "}")))) == p.loads(body + "}")
  {
    var t := body + ("," + (ws + "}"));
    assert t[|t| - 1] == '}' && t[0] == '{';
    BracedIsTried(p, t);
    CommaTrailed(body, ws);
  }

  lemma CommaTrailed(body: string, ws: string)
    requires ',' !in body && AllSpace(ws)
    ensures DropCommas(body + ("," + (ws + "}"))) == body + "}"
  {
    assert ['}'] + "" == "}" && DropCommas("") == "";
    FirstComma(body, ws, '}', "");
  }

  /** An object that breaks off is read as closed up, if it does not read before. */
  lemma TruncatedIsRead(p: Parser, cut: string)
    requires cut != "" && cut[0] == '{' && Trimmed(cut) && ',' !in cut
    requires !ReadsAsDict(p.loads, cut) && ReadsAsDict(p.loads, Balanced(cut))
    ensures LenientLoads(p, Str(cut)) == p.loads(Balanced(cut))
  {
    BracedIsTried(p, cut);
    NoCommaStays(cut);
  }

  // ---- calls in order ----

  lemma {:induction false} GatherJoin(a: seq<string>, b: seq<string>, calls: string -> seq<Call>)
    ensures Gather(a + b, calls) == Gather(a, calls) + Gather(b, calls)
  {
    if b == [] {
      assert a + b == a;
    } else {
      GatherJoin(a, b[..|b| - 1], calls);
      assert (a + b)[..|a + b| - 1] == a + b[..|b| - 1];
    }
  }

  /** The calls come in the order of their chunks, one for each chunk of which the parser makes one. */
  lemma CallsInOrder(p: Parser, a: seq<string>, chunk: string, b: seq<string>)
    ensures CallsOf(p, []) == []
    ensures CallsOf(p, a + [chunk] + b) ==
            CallsOf(p, a) + (if Recover(p, chunk).Some? then [Recover(p, chunk).value] else []) + CallsOf(p, b)
  {
    GatherJoin(a + [chunk], b, ChunkCall(p));
    GatherJoin(a, [chunk], ChunkCall(p));
    assert [chunk][..0] == [];
    assert Gather([chunk], ChunkCall(p)) == Gather([], ChunkCall(p)) + ChunkCall(p)(chunk);
  }

  // ---- the clean-up ----

  function OneBlank(s: string): string { Sub(s, BlankHit, " ") }

  function OneGap(s: string): string { Sub(s, NewlineHit, "\n\n") }

  lemma {:induction false} SameSub(s: string, hit: string -> nat, other: string -> nat, r: string)
    requires forall t :: hit(t) == other(t)
    ensures Sub(s, hit, r) == Sub(s, other, r)
  {
    if s == "" {
    } else if 0 < hit(s) <= |s| {
      SameSub(s[hit(s)..], hit, other, r);
    } else {
      SameSub(s[1..], hit, other, r);
    }
  }

  lemma BlanksAre(s: string)
    ensures OneBlank(s) == Sub(s, RunOf(IsBlank, 2), " ")
  {
    SameSub(s, BlankHit, RunOf(IsBlank, 2), " ");
  }

  lemma GapsAre(s: string)
    ensures OneGap(s) == Sub(s, RunOf(IsNewline, 3), "\n\n")
  {
    SameSub(s, NewlineHit, RunOf(IsNewline, 3), "\n\n");
  }

  predicate Ends(s: string, p: char -> bool) { s == "" || !p(s[|s| - 1]) }

  predicate Starts(s: string, p: char -> bool) { s == "" || !p(s[0]) }

  lemma RunBetween(a: string, run: string, b: string, p: char -> bool, least: nat, r: string)
    requires run != "" && (forall i :: 0 <= i < |run| ==> p(run[i])) && Ends(a, p) && Starts(b, p)
    ensures Sub(a + (run + b), RunOf(p, least), r) ==
            Sub(a, RunOf(p, least), r) + ((if |run| >= least then r else run) + Sub(b, RunOf(p, least), r))
  {
    SubRunsJoin(a, run + b, p, least, r);
    SubRunsJoin(run, b, p, least, r);
    SubRun(run, p, least, r);
  }

  /** The clean-up puts runs of blanks together, then runs of line breaks, and trims the rest. */
  lemma CleanUp(s: string)
    ensures Tidied(s) == Strip(OneGap(OneBlank(s)))
  {
  }

  /** A run of two or more blanks becomes one space, wherever it stands; a single blank stays. */
  lemma BlankRun(a: string, run: string, b: string)
    requires run != "" && forall i :: 0 <= i < |run| ==> run[i] == ' ' || run[i] == '\t'
    requires Ends(a, IsBlank) && Starts(b, IsBlank)
    ensures OneBlank(a + (run + b)) == OneBlank(a) + ((if |run| >= 2 then " " else run) + OneBlank(b))
  {
    BlanksAre(a);
    BlanksAre(b);
    BlanksAre(a + (run + b));
    RunBetween(a, run, b, IsBlank, 2, " ");
  }

  /** A run of three or more line breaks becomes two; one or two stay. */
  lemma GapRun(a: string, run: string, b: string)
    requires run != "" && forall i :: 0 <= i < |run| ==> run[i] == '\n'
    requires Ends(a, IsNewline) && Starts(b, IsNewline)
    ensures OneGap(a + (run + b)) == OneGap(a) + ((if |run| >= 3 then "\n\n" else run) + OneGap(b))
  {
    GapsAre(a);
    GapsAre(b);
    GapsAre(a + (run + b));
    RunBetween(a, run, b, IsNewline, 3, "\n\n");
  }

  /** A text without two blanks, or without three line breaks, in a row is left alone by each. */
  lemma NoRunStays(s: string)
    ensures !Doubled(s) ==> OneBlank(s) == s
    ensures !Gapped(s) ==> OneGap(s) == s
  {
    BlankHits(s);
    NewlineHits(s);
  }
}
