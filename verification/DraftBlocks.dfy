/** Which replies carry a proposal, and what the reader sees of them (`extract_proposal`): the block
    that decides, the lines it must have, and the text around it. */
module DraftBlocks {
  import opened Proposals
  import opened PyText

  // ---- one line ----

  /** The line is `key: value`, with white space around either. */
  ghost predicate IsField(line: string, key: string, value: string) {
    exists a, b :: line == a + ":" + b && ':' !in a && Strip(a) == key && Strip(b) == value
  }

  function FieldOf(line: string): Option<(string, string)> {
    match Find(line, ":", 0)
    case None => None
    case Some(i) => Some((Strip(line[..i]), Strip(line[i + 1..])))
  }

  lemma ColonAt(a: string, b: string)
    requires ':' !in a
    ensures var line := a + ":" + b; Find(line, ":", 0) == Some(|a|) && line[..|a|] == a && line[|a| + 1..] == b
  {
    var line := a + ":" + b;
    CharOccurs(line, ":", |a|);
    FindFirst(line, ":", 0);
    forall j: nat | j < |a| ensures !OccursAt(line, ":", j) {
      assert line[j + 0] == a[j] != ":"[0];
    }
  }

  lemma ColonParts(line: string)
    requires Find(line, ":", 0).Some?
    ensures var i := Find(line, ":", 0).value; line == line[..i] + ":" + line[i + 1..] && ':' !in line[..i]
  {
    FindFirst(line, ":", 0);
    var i := Find(line, ":", 0).value;
    assert line[i + 0] == ":"[0];
    forall j | 0 <= j < i ensures line[j] != ':' {
      if line[j] == ':' { CharOccurs(line, ":", j); }
    }
  }

  lemma FieldIff(line: string, key: string, value: string)
    ensures IsField(line, key, value) <==> FieldOf(line) == Some((key, value))
  {
    if IsField(line, key, value) {
      var a, b :| line == a + ":" + b && ':' !in a && Strip(a) == key && Strip(b) == value;
      ColonAt(a, b);
    }
    if FieldOf(line) == Some((key, value)) {
      ColonParts(line);
    }
  }

  // ---- all lines ----

  type Fields = string -> Option<(string, string)>

  /** Every line is a field of an allowed key, and no two are of the same. */
  predicate GoodLines(field: Fields, allowed: seq<string>, lines: seq<string>) {
    && (forall i :: 0 <= i < |lines| ==> field(lines[i]).Some? && field(lines[i]).value.0 in allowed)
    && (forall i, j :: 0 <= i < j < |lines| ==> field(lines[i]).value.0 != field(lines[j]).value.0)
  }

  predicate HasField(field: Fields, lines: seq<string>, key: string, value: string) {
    exists i :: 0 <= i < |lines| && field(lines[i]) == Some((key, value))
  }

  function WithField(field: Fields, allowed: seq<string>, fields: map<string, string>, line: string): FieldsOrNot {
    match field(line)
    case None => None
    case Some((key, value)) => if key !in allowed || key in fields then None else Some(fields[key := value])
  }

  /** The way of adding takes a field of an allowed key that is not there yet, and nothing else. */
  ghost predicate AddsFields(add: (map<string, string>, string) -> FieldsOrNot, field: Fields, allowed: seq<string>) {
    forall fields, line :: add(fields, line) == WithField(field, allowed, fields, line)
  }

  lemma HasFieldPush(field: Fields, lines: seq<string>, last: string, key: string, value: string)
    ensures HasField(field, lines + [last], key, value) <==>
            HasField(field, lines, key, value) || field(last) == Some((key, value))
  {
    var all := lines + [last];
    if HasField(field, lines, key, value) {
      var i :| 0 <= i < |lines| && field(lines[i]) == Some((key, value));
      assert all[i] == lines[i];
    }
    assert all[|lines|] == last;
  }

  lemma GoodLinesPush(field: Fields, allowed: seq<string>, lines: seq<string>, last: string)
    ensures GoodLines(field, allowed, lines + [last]) <==>
            && GoodLines(field, allowed, lines) && field(last).Some? && field(last).value.0 in allowed
            && forall value :: !HasField(field, lines, field(last).value.0, value)
  {
    var all := lines + [last];
    assert all[|lines|] == last && forall i :: 0 <= i < |lines| ==> all[i] == lines[i];
    if GoodLines(field, allowed, all) {
      forall value ensures !HasField(field, lines, field(last).value.0, value) {
        assert forall i :: 0 <= i < |lines| ==> field(all[i]).value.0 != field(all[|lines|]).value.0;
      }
    }
    if GoodLines(field, allowed, lines) && field(last).Some? && field(last).value.0 in allowed
       && forall value :: !HasField(field, lines, field(last).value.0, value) {
      forall i | 0 <= i < |lines| ensures field(lines[i]).value.0 != field(last).value.0 {
        assert !HasField(field, lines, field(last).value.0, field(lines[i]).value.1);
      }
    }
  }

  ghost predicate Holds(fields: map<string, string>, field: Fields, lines: seq<string>) {
    forall key, value :: HasField(field, lines, key, value) <==> key in fields && fields[key] == value
  }

  lemma AddedHolds(fields: map<string, string>, field: Fields, lines: seq<string>, last: string,
                   key: string, value: string)
    requires Holds(fields, field, lines) && field(last) == Some((key, value)) && key !in fields
    ensures Holds(fields[key := value], field, lines + [last])
  {
    forall k, v ensures HasField(field, lines + [last], k, v) <==>
                        k in fields[key := value] && fields[key := value][k] == v
    {
      HasFieldPush(field, lines, last, k, v);
    }
  }

  lemma NotThere(fields: map<string, string>, field: Fields, lines: seq<string>, key: string)
    requires Holds(fields, field, lines)
    ensures key !in fields <==> forall value :: !HasField(field, lines, key, value)
  {
    if key in fields { assert HasField(field, lines, key, fields[key]); }
  }

  /** Filling the dictionary goes through exactly on good lines, and it then holds what they say. */
  lemma {:induction false} FoldMeans(add: (map<string, string>, string) -> FieldsOrNot, field: Fields,
                                     allowed: seq<string>, lines: seq<string>)
    requires AddsFields(add, field, allowed)
    ensures Fold(add, lines).Some? <==> GoodLines(field, allowed, lines)
    ensures Fold(add, lines).Some? ==> Holds(Fold(add, lines).value, field, lines)
  {
    if lines != [] {
      var front, last := lines[..|lines| - 1], lines[|lines| - 1];
      FoldMeans(add, field, allowed, front);
      GoodLinesPush(field, allowed, front, last);
      assert lines == front + [last];
      if Fold(add, front).Some? {
        FoldTurn(add, field, allowed, front, last, Fold(add, front).value);
      }
    }
  }

  lemma FoldTurn(add: (map<string, string>, string) -> FieldsOrNot, field: Fields, allowed: seq<string>,
                 front: seq<string>, last: string, fields: map<string, string>)
    requires AddsFields(add, field, allowed) && Holds(fields, field, front)
    ensures add(fields, last).Some? <==>
            && field(last).Some? && field(last).value.0 in allowed
            && forall value :: !HasField(field, front, field(last).value.0, value)
    ensures add(fields, last).Some? ==> Holds(add(fields, last).value, field, front + [last])
  {
    if field(last).Some? {
      var (key, value) := field(last).value;
      NotThere(fields, field, front, key);
      if key !in fields { AddedHolds(fields, field, front, last, key, value); }
    }
  }

  lemma AddFieldAdds()
    ensures AddsFields(AddField, FieldOf, FIELDS)
  {
  }

  // ---- which blocks are drafts ----

  /** Some line says so. */
  ghost predicate Says(lines: seq<string>, key: string, value: string) {
    exists i :: 0 <= i < |lines| && IsField(lines[i], key, value)
  }

  predicate OurKey(key: string) { key in {"entry_ts", "proposed_text", "reason", "evidence_summary"} }

  type Giving = (string, string, string) -> bool

  ghost function AsField(): Giving { (line, key, value) => IsField(line, key, value) }

  ghost predicate IsOurs(gives: Giving, ours: string -> bool, line: string) {
    exists key, value :: ours(key) && gives(line, key, value)
  }

  /** Every line is read as one of our fields, and no two as the same. */
  ghost predicate OnlyOnce(gives: Giving, ours: string -> bool, lines: seq<string>) {
    && (forall i :: 0 <= i < |lines| ==> IsOurs(gives, ours, lines[i]))
    && (forall i, j, key, v, u :: 0 <= i < j < |lines| ==> !(gives(lines[i], key, v) && gives(lines[j], key, u)))
  }

  /** Every line is one of the four fields, and none is given twice. */
  ghost predicate OnlyFields(lines: seq<string>) { OnlyOnce(AsField(), OurKey, lines) }

  /** The four fields are there, none of them empty, and within their caps. */
  ghost predicate Fills(lines: seq<string>, p: Proposal) {
    && Says(lines, "entry_ts", p.entryTs) && p.entryTs != ""
    && Says(lines, "proposed_text", p.proposedText) && 1 <= |p.proposedText| <= 2000
    && Says(lines, "reason", p.reason) && 1 <= |p.reason| <= 200
    && Says(lines, "evidence_summary", p.evidenceSummary) && 1 <= |p.evidenceSummary| <= 300
  }

  lemma OurKeys(key: string)
    ensures OurKey(key) <==> key in FIELDS
  {
    assert FIELDS[0] == "entry_ts" && FIELDS[1] == "proposed_text" && FIELDS[2] == "reason";
    assert FIELDS[3] == "evidence_summary";
  }

  lemma SaysIff(lines: seq<string>, key: string, value: string)
    ensures Says(lines, key, value) <==> HasField(FieldOf, lines, key, value)
  {
    forall i | 0 <= i < |lines|
      ensures IsField(lines[i], key, value) <==> FieldOf(lines[i]) == Some((key, value))
    {
      FieldIff(lines[i], key, value);
    }
  }

  lemma OnlyOnceIff(gives: Giving, ours: string -> bool, field: Fields, allowed: seq<string>, lines: seq<string>)
    requires forall line, key, value :: gives(line, key, value) <==> field(line) == Some((key, value))
    requires forall key :: ours(key) <==> key in allowed
    ensures OnlyOnce(gives, ours, lines) <==> GoodLines(field, allowed, lines)
  {
    if OnlyOnce(gives, ours, lines) { OnceIsGood(gives, ours, field, allowed, lines); }
    if GoodLines(field, allowed, lines) { GoodIsOnce(gives, ours, field, allowed, lines); }
  }

  lemma GoodIsOnce(gives: Giving, ours: string -> bool, field: Fields, allowed: seq<string>, lines: seq<string>)
    requires forall line, key, value :: gives(line, key, value) <==> field(line) == Some((key, value))
    requires forall key :: ours(key) <==> key in allowed
    requires GoodLines(field, allowed, lines)
    ensures OnlyOnce(gives, ours, lines)
  {
    forall i | 0 <= i < |lines| ensures IsOurs(gives, ours, lines[i]) {
      var one := field(lines[i]).value;
      assert ours(one.0);
      assert gives(lines[i], one.0, one.1);
    }
    forall i, j, key, v, u | 0 <= i < j < |lines|
      ensures !(gives(lines[i], key, v) && gives(lines[j], key, u))
    {
      assert field(lines[i]).value.0 != field(lines[j]).value.0;
    }
  }

  lemma OnceIsGood(gives: Giving, ours: string -> bool, field: Fields, allowed: seq<string>, lines: seq<string>)
    requires forall line, key, value :: gives(line, key, value) <==> field(line) == Some((key, value))
    requires forall key :: ours(key) <==> key in allowed
    requires OnlyOnce(gives, ours, lines)
    ensures GoodLines(field, allowed, lines)
  {
    forall i | 0 <= i < |lines| ensures field(lines[i]).Some? && field(lines[i]).value.0 in allowed {
      assert IsOurs(gives, ours, lines[i]);
    }
    forall i, j | 0 <= i < j < |lines| ensures field(lines[i]).value.0 != field(lines[j]).value.0 {
      var one, other := field(lines[i]).value, field(lines[j]).value;
      assert gives(lines[i], one.0, one.1) && gives(lines[j], other.0, other.1);
    }
  }

  lemma OnlyFieldsIff(lines: seq<string>)
    ensures OnlyFields(lines) <==> GoodLines(FieldOf, FIELDS, lines)
  {
    forall line, key, value ensures AsField()(line, key, value) <==> FieldOf(line) == Some((key, value)) {
      FieldIff(line, key, value);
    }
    forall key ensures OurKey(key) <==> key in FIELDS { OurKeys(key); }
    OnlyOnceIff(AsField(), OurKey, FieldOf, FIELDS, lines);
  }

  predicate Field(fields: map<string, string>, key: string, value: string) { key in fields && fields[key] == value }

  lemma AcceptMeans(fields: map<string, string>, p: Proposal)
    ensures Accept(fields) == Some(p) <==>
            && Field(fields, "entry_ts", p.entryTs) && p.entryTs != ""
            && Field(fields, "proposed_text", p.proposedText) && 1 <= |p.proposedText| <= 2000
            && Field(fields, "reason", p.reason) && 1 <= |p.reason| <= 200
            && Field(fields, "evidence_summary", p.evidenceSummary) && 1 <= |p.evidenceSummary| <= 300
  {
    forall f ensures f in FIELDS <==> OurKey(f) { OurKeys(f); }
  }

  lemma SaysHeld(fields: map<string, string>, lines: seq<string>, key: string, value: string)
    requires Holds(fields, FieldOf, lines)
    ensures Says(lines, key, value) <==> Field(fields, key, value)
  {
    SaysIff(lines, key, value);
  }

  lemma AcceptsIff(fields: map<string, string>, lines: seq<string>, p: Proposal)
    requires Holds(fields, FieldOf, lines)
    ensures Accept(fields) == Some(p) <==> Fills(lines, p)
  {
    SaysHeld(fields, lines, "entry_ts", p.entryTs);
    SaysHeld(fields, lines, "proposed_text", p.proposedText);
    SaysHeld(fields, lines, "reason", p.reason);
    SaysHeld(fields, lines, "evidence_summary", p.evidenceSummary);
    AcceptMeans(fields, p);
  }

  /** The lines behind the header make a draft exactly when they are the four fields, each once and
      in any order, filled and within their caps; they are refused otherwise. */
  lemma DraftIff(lines: seq<string>, p: Proposal)
    ensures Parse(lines) == Draft(p) <==> OnlyFields(lines) && Fills(lines, p)
    ensures Parse(lines).Draft? || Parse(lines) == Malformed
  {
    AddFieldAdds();
    FoldMeans(AddField, FieldOf, FIELDS, lines);
    OnlyFieldsIff(lines);
    if Fold(AddField, lines).Some? { AcceptsIff(Fold(AddField, lines).value, lines, p); }
  }

  // ---- the lines of a block ----

  predicate Blank(s: string) { forall c :: c in s ==> IsSpace(c) }

  /** The lines with something on them, without the white space behind. */
  function Seen(raws: seq<string>): seq<string> {
    if raws == [] then []
    else
      var last := raws[|raws| - 1];
      Seen(raws[..|raws| - 1]) + if Blank(last) then [] else [RStrip(last)]
  }

  lemma {:induction false} KeptIsSeen(raws: seq<string>)
    ensures Kept(raws) == Seen(raws)
  {
    if raws != [] {
      KeptIsSeen(raws[..|raws| - 1]);
      StripBlank(raws[|raws| - 1]);
    }
  }

  lemma {:induction false} EmptyFirst(lines: seq<string>)
    ensures Kept([""] + lines) == Kept(lines)
  {
    var all := [""] + lines;
    if lines == [] {
      assert all[..0] == [] && Kept([]) == [];
    } else {
      assert all[..|all| - 1] == [""] + lines[..|lines| - 1];
      EmptyFirst(lines[..|lines| - 1]);
    }
  }

  lemma EmptyLast(lines: seq<string>)
    ensures Kept(lines + [""]) == Kept(lines)
  {
    assert (lines + [""])[..|lines|] == lines;
    assert Kept(lines) + [] == Kept(lines);
  }

  lemma {:induction false} BreakLast(done: string, t: string)
    ensures Split(done, t + "\n", Literal("\n")) == Split(done, t, Literal("\n")) + [""]
    decreases |t|
  {
    if t == "" {
      assert t + "\n" == "\n" && "\n"[1..] == "";
      assert [done] + [""] == [done, ""];
    } else {
      assert (t + "\n")[1..] == t[1..] + "\n" && (t + "\n")[0] == t[0];
      BreakLast(if t[0] == '\n' then "" else done + [t[0]], t[1..]);
      BreakOne(done, t);
      BreakOne(done, t + "\n");
    }
  }

  lemma BreakOne(done: string, s: string)
    requires s != ""
    ensures Split(done, s, Literal("\n")) ==
            if s[0] == '\n' then [done] + Split("", s[1..], Literal("\n"))
            else Split(done + [s[0]], s[1..], Literal("\n"))
  {
  }

  lemma {:induction false} LeadingBreaks(block: string)
    ensures Kept(Lines(DropLeft(block, IsNewline))) == Kept(Lines(block))
  {
    if block != "" && block[0] == '\n' {
      LeadingBreaks(block[1..]);
      BreakOne("", block);
      EmptyFirst(Lines(block[1..]));
    }
  }

  lemma BreakTrailed(t: string)
    ensures Kept(Lines(t + "\n")) == Kept(Lines(t))
  {
    BreakLast("", t);
    EmptyLast(Lines(t));
  }

  lemma {:induction false} TrailingBreaks(block: string)
    ensures Kept(Lines(DropRight(block, IsNewline))) == Kept(Lines(block))
  {
    if block != "" && block[|block| - 1] == '\n' {
      var t := block[..|block| - 1];
      assert block == t + "\n";
      BreakTrailed(t);
      TrailingBreaks(t);
    }
  }

  predicate OneLineEach(raws: seq<string>) { forall i :: 0 <= i < |raws| ==> '\n' !in raws[i] }

  /** A block given line by line. */
  lemma BlockLinesOf(raws: seq<string>)
    requires raws != [] && OneLineEach(raws)
    ensures BlockLines(Join("\n", raws)) == Seen(raws)
  {
    var block := Join("\n", raws);
    SplitJoined("\n", raws);
    LeadingBreaks(block);
    TrailingBreaks(DropLeft(block, IsNewline));
    KeptIsSeen(raws);
  }

  predicate Headed(seen: seq<string>) { seen != [] && Strip(seen[0]) == "PW-PROPOSAL journal_correction" }

  lemma HeadedIff(seen: seq<string>)
    ensures Headed(seen) <==> IsProposal(seen)
  {
  }

  lemma ReadLines(block: string, seen: seq<string>)
    requires BlockLines(block) == seen
    ensures ReadBlock(block) == if Headed(seen) then Parse(seen[1..]) else Other
  {
    HeadedIff(seen);
  }

  /** What a block is, by its lines: a draft if the first that is not blank is the header and the
      others fill one in; malformed if only the first is so; and not ours otherwise. */
  ghost predicate ReadAs(read: Block, seen: seq<string>, p: Proposal) {
    && (read == Other <==> !Headed(seen))
    && (read == Draft(p) <==> Headed(seen) && OnlyFields(seen[1..]) && Fills(seen[1..], p))
    && (Headed(seen) ==> read.Draft? || read == Malformed)
  }

  lemma ReadBlockMeans(raws: seq<string>, p: Proposal)
    requires raws != [] && OneLineEach(raws)
    ensures ReadAs(ReadBlock(Join("\n", raws)), Seen(raws), p)
  {
    BlockLinesOf(raws);
    ReadLinesMean(Join("\n", raws), Seen(raws), p);
  }

  lemma ReadLinesMean(block: string, seen: seq<string>, p: Proposal)
    requires BlockLines(block) == seen
    ensures ReadAs(ReadBlock(block), seen, p)
  {
    ReadLines(block, seen);
    BlockMeans(seen, p);
  }

  lemma BlockMeans(seen: seq<string>, p: Proposal)
    ensures ReadAs(if Headed(seen) then Parse(seen[1..]) else Other, seen, p)
  {
    if Headed(seen) { HeadedBlock(seen, p); }
  }

  lemma HeadedBlock(seen: seq<string>, p: Proposal)
    requires Headed(seen)
    ensures Parse(seen[1..]) == Draft(p) <==> OnlyFields(seen[1..]) && Fills(seen[1..], p)
    ensures Parse(seen[1..]).Draft? || Parse(seen[1..]) == Malformed
  {
    DraftIff(seen[1..], p);
  }

  // ---- the text around the block ----

  /** What is trimmed stands before and behind, parted by an empty line if there is something on
      both sides. */
  predicate Around(before: string, after: string, text: string) {
    if Blank(before) then text == Strip(after)
    else if Blank(after) then text == Strip(before)
    else text == Strip(before) + "\n\n" + Strip(after)
  }

  lemma {:induction false} DropLeftInFront(a: string, s: string)
    requires !Blank(a)
    ensures DropLeft(a + s, IsSpace) == DropLeft(a, IsSpace) + s && DropLeft(a, IsSpace) != ""
    decreases |a|
  {
    assert (a + s)[0] == a[0] && (a + s)[1..] == a[1..] + s;
    if IsSpace(a[0]) {
      assert a == [a[0]] + a[1..];
      DropLeftInFront(a[1..], s);
    }
  }

  lemma {:induction false} DropRightBehind(s: string, b: string)
    requires !Blank(b)
    ensures DropRight(s + b, IsSpace) == s + DropRight(b, IsSpace) && DropRight(b, IsSpace) != ""
    decreases |b|
  {
    var n := |b| - 1;
    assert (s + b)[|s + b| - 1] == b[n] && (s + b)[..|s + b| - 1] == s + b[..n];
    if IsSpace(b[n]) {
      assert b == b[..n] + [b[n]];
      DropRightBehind(s, b[..n]);
    }
  }

  lemma {:induction false} BlankStrips(s: string)
    requires Blank(s)
    ensures RStrip(s) == "" && LStrip(s) == ""
  {
    if s != "" { BlankStrips(s[..|s| - 1]); }
    AllBlank(s);
  }

  /** Stripping the ends one after the other comes to the same in either order. */
  lemma {:induction false} BothStrips(s: string)
    ensures LStrip(RStrip(s)) == Strip(s)
  {
    if Blank(s) {
      BlankStrips(s);
    } else if IsSpace(s[0]) {
      var t := s[1..];
      assert s == [s[0]] + t;
      BothStrips(t);
      DropRightBehind([s[0]], t);
      assert ([s[0]] + RStrip(t))[1..] == RStrip(t);
    } else {
      assert "" + s == s;
      DropRightBehind("", s);
      DropRightPrefix(s, IsSpace);
      assert RStrip(s)[0] == s[0];
    }
  }

  lemma {:induction false} LeftTwice(s: string)
    ensures LStrip(LStrip(s)) == LStrip(s)
  {
    if s != "" && IsSpace(s[0]) { LeftTwice(s[1..]); }
  }

  lemma {:induction false} RightTwice(s: string)
    ensures RStrip(RStrip(s)) == RStrip(s)
  {
    if s != "" && IsSpace(s[|s| - 1]) { RightTwice(s[..|s| - 1]); }
  }

  lemma NotBlankRight(s: string)
    requires !Blank(s)
    ensures !Blank(RStrip(s)) && !Blank(LStrip(s))
  {
    BothStrips(s);
    StripBlank(s);
    if Blank(RStrip(s)) { BlankStrips(RStrip(s)); }
    if Blank(LStrip(s)) { BlankStrips(LStrip(s)); }
  }

  lemma BothSides(before: string, after: string)
    requires !Blank(before) && !Blank(after)
    ensures Visible(before, after) == Strip(before) + "\n\n" + Strip(after)
  {
    var b, a := RStrip(before), LStrip(after);
    NotBlankRight(before);
    NotBlankRight(after);
    DropLeftInFront(b, "\n\n" + a);
    assert b + ("\n\n" + a) == b + "\n\n" + a;
    DropRightBehind(LStrip(b) + "\n\n", a);
    assert LStrip(b) + ("\n\n" + a) == LStrip(b) + "\n\n" + a;
    BothStrips(before);
  }

  lemma OnlyBehind(before: string, after: string)
    requires Blank(before)
    ensures Visible(before, after) == Strip(after)
  {
    BlankStrips(before);
    LeftTwice(after);
    var a := LStrip(after);
    if a != "" {
      var s := "" + "\n\n" + a;
      var t := s[1..];
      assert t == "\n" + a && t[1..] == a;
      assert LStrip(s) == LStrip(t) == LStrip(a);
    }
  }

  lemma OnlyBefore(before: string, after: string)
    requires Blank(after)
    ensures Visible(before, after) == Strip(before)
  {
    BlankStrips(after);
    BothStrips(before);
    RightTwice(LStrip(before));
    assert RStrip(before) + "" + "" == RStrip(before);
  }

  lemma VisibleMeans(before: string, after: string)
    ensures Around(before, after, Visible(before, after))
  {
    if Blank(before) {
      OnlyBehind(before, after);
    } else if Blank(after) {
      OnlyBefore(before, after);
    } else {
      BothSides(before, after);
    }
  }

  // ---- which block decides ----

  /** The next fence from a place on. */
  predicate NextAt(reply: string, fence: string, from: nat, i: nat) {
    from <= i && OccursAt(reply, fence, i) && forall j: nat :: from <= j < i ==> !OccursAt(reply, fence, j)
  }

  predicate NoneFrom(reply: string, fence: string, from: nat) {
    forall j: nat :: from <= j <= |reply| ==> !OccursAt(reply, fence, j)
  }

  /** Where the `k`th block is looked for: behind the one before it. */
  function After(width: nat, closes: seq<nat>, k: nat): nat
    requires k <= |closes|
  {
    if k == 0 then 0 else closes[k - 1] + width
  }

  type Next = (nat, nat) -> bool

  function Fence(fence: string, reply: string): Next { (from: nat, i: nat) => NextAt(reply, fence, from, i) }

  /** The fenced blocks of a reply, one after another: where each opens and closes. */
  predicate Fenced(next: Next, width: nat, opens: seq<nat>, closes: seq<nat>) {
    && |opens| == |closes|
    && forall k :: 0 <= k < |opens| ==> next(After(width, closes, k), opens[k]) && next(opens[k] + width, closes[k])
  }

  lemma FenceIsFound(reply: string, fence: string, from: nat, i: nat)
    ensures NextAt(reply, fence, from, i) ==> Find(reply, fence, from) == Some(i)
    ensures NoneFrom(reply, fence, from) ==> Find(reply, fence, from) == None
  {
    FindFirst(reply, fence, from);
  }

  /** What a block makes of a scan that would come to `later` behind it. */
  function Decide(block: Block, i: nat, j: nat, later: Option<Hit>): Option<Hit> {
    match block
    case Draft(p) => Some(Hit(p, i, j))
    case Malformed => None
    case Other => later
  }

  /** One turn of a scan. */
  lemma ScanOne(find: Search, read: Reader, width: nat, n: nat, from: nat, i: nat, j: nat)
    requires width > 0 && Searches(find, width, n) && find(from) == Some(i) && find(i + width) == Some(j)
    ensures Scan(find, read, width, n, from) == Decide(read(i + width, j), i, j, Scan(find, read, width, n, j + width))
  {
  }

  /** The scan of a reply from a place on. */
  function Scanner(read: string -> Block, fence: string, reply: string): nat -> Option<Hit>
    requires fence != ""
  {
    (from: nat) => Scan(Fences(fence, reply), Blocks(read, reply), |fence|, |reply|, from)
  }

  lemma ScannerScans(read: string -> Block, fence: string, reply: string, from: nat)
    requires fence != ""
    ensures Scanner(read, fence, reply)(from) == Scan(Fences(fence, reply), Blocks(read, reply), |fence|, |reply|, from)
  {
  }

  lemma FencesFind(fence: string, reply: string, from: nat, i: nat)
    requires NextAt(reply, fence, from, i)
    ensures Fences(fence, reply)(from) == Some(i)
  {
    FenceIsFound(reply, fence, from, i);
  }

  lemma ScanTurn(read: string -> Block, fence: string, reply: string, from: nat, i: nat, j: nat)
    requires fence != "" && NextAt(reply, fence, from, i) && NextAt(reply, fence, i + |fence|, j)
    ensures var find, reading := Fences(fence, reply), Blocks(read, reply);
            Scan(find, reading, |fence|, |reply|, from) ==
            Decide(reading(i + |fence|, j), i, j, Scan(find, reading, |fence|, |reply|, j + |fence|))
  {
    FencesFind(fence, reply, from, i);
    FencesFind(fence, reply, i + |fence|, j);
    ScanOne(Fences(fence, reply), Blocks(read, reply), |fence|, |reply|, from, i, j);
  }

  lemma ScannerTurn(read: string -> Block, fence: string, reply: string, from: nat, i: nat, j: nat)
    requires fence != "" && NextAt(reply, fence, from, i) && NextAt(reply, fence, i + |fence|, j)
    ensures Scanner(read, fence, reply)(from) ==
            Decide(read(Slice(reply, i + |fence|, j)), i, j, Scanner(read, fence, reply)(j + |fence|))
  {
    ScanTurn(read, fence, reply, from, i, j);
    BlocksRead(read, reply, i + |fence|, j);
    ScannerScans(read, fence, reply, from);
    ScannerScans(read, fence, reply, j + |fence|);
  }

  lemma ScannerEnds(read: string -> Block, fence: string, reply: string, from: nat, i: nat)
    requires fence != ""
    requires NoneFrom(reply, fence, from) || (NextAt(reply, fence, from, i) && NoneFrom(reply, fence, i + |fence|))
    ensures Scanner(read, fence, reply)(from) == None
  {
    FenceIsFound(reply, fence, from, i);
    FenceIsFound(reply, fence, i + |fence|, i);
  }

  /** What stands between two fences. */
  function Between(reply: string, width: nat, opens: seq<nat>, closes: seq<nat>, k: nat): string
    requires k < |opens| && k < |closes|
  {
    Slice(reply, opens[k] + width, closes[k])
  }

  predicate PassedOver(read: string -> Block, reply: string, width: nat, opens: seq<nat>, closes: seq<nat>, k: nat)
    requires k <= |opens| && k <= |closes|
  {
    forall m :: 0 <= m < k ==> read(Between(reply, width, opens, closes, m)) == Other
  }

  /** What a scanner of blocks does in a turn. */
  predicate TurnAt(scan: nat -> Option<Hit>, block: (nat, nat) -> Block, next: Next, width: nat,
                   from: nat, i: nat, j: nat)
  {
    next(from, i) && next(i + width, j) ==> scan(from) == Decide(block(i, j), i, j, scan(j + width))
  }

  ghost predicate Turns(scan: nat -> Option<Hit>, block: (nat, nat) -> Block, next: Next, width: nat) {
    forall from: nat, i: nat, j: nat :: TurnAt(scan, block, next, width, from, i, j)
  }

  lemma {:induction false} PassesOver(scan: nat -> Option<Hit>, block: (nat, nat) -> Block, next: Next, width: nat,
                                      opens: seq<nat>, closes: seq<nat>, k: nat)
    requires Turns(scan, block, next, width) && Fenced(next, width, opens, closes) && k <= |opens|
    requires forall m :: 0 <= m < k ==> block(opens[m], closes[m]) == Other
    ensures scan(0) == scan(After(width, closes, k))
  {
    if k > 0 {
      PassesOver(scan, block, next, width, opens, closes, k - 1);
      assert TurnAt(scan, block, next, width, After(width, closes, k - 1), opens[k - 1], closes[k - 1]);
    }
  }

  /** A scan stops at the block as it says. */
  predicate StopsWith(scanned: Option<Hit>, block: Block, i: nat, j: nat) {
    match block
    case Draft(p) => scanned == Some(Hit(p, i, j))
    case Malformed => scanned == None
    case Other => true
  }

  lemma StopsAt(scan: nat -> Option<Hit>, block: (nat, nat) -> Block, next: Next, width: nat,
                opens: seq<nat>, closes: seq<nat>, k: nat)
    requires Turns(scan, block, next, width) && Fenced(next, width, opens, closes) && k < |opens|
    requires forall m :: 0 <= m < k ==> block(opens[m], closes[m]) == Other
    ensures StopsWith(scan(0), block(opens[k], closes[k]), opens[k], closes[k])
  {
    PassesOver(scan, block, next, width, opens, closes, k);
    assert TurnAt(scan, block, next, width, After(width, closes, k), opens[k], closes[k]);
  }

  function BlockAt(read: string -> Block, reply: string, width: nat): (nat, nat) -> Block {
    (i: nat, j: nat) => read(Slice(reply, i + width, j))
  }

  lemma ScannerTurns(read: string -> Block, fence: string, reply: string)
    requires fence != ""
    ensures Turns(Scanner(read, fence, reply), BlockAt(read, reply, |fence|), Fence(fence, reply), |fence|)
  {
    forall from: nat, i: nat, j: nat
      ensures TurnAt(Scanner(read, fence, reply), BlockAt(read, reply, |fence|), Fence(fence, reply), |fence|,
                     from, i, j)
    {
      ScannerTurnAt(read, fence, reply, from, i, j);
    }
  }

  lemma ScannerTurnAt(read: string -> Block, fence: string, reply: string, from: nat, i: nat, j: nat)
    requires fence != ""
    ensures TurnAt(Scanner(read, fence, reply), BlockAt(read, reply, |fence|), Fence(fence, reply), |fence|, from, i, j)
  {
    if NextAt(reply, fence, from, i) && NextAt(reply, fence, i + |fence|, j) {
      ScannerTurn(read, fence, reply, from, i, j);
    }
  }

  lemma BlockStops(read: string -> Block, fence: string, reply: string, opens: seq<nat>, closes: seq<nat>, k: nat)
    requires fence != "" && Fenced(Fence(fence, reply), |fence|, opens, closes) && k < |opens|
    requires PassedOver(read, reply, |fence|, opens, closes, k)
    ensures StopsWith(ScanFor(read, fence, reply), read(Between(reply, |fence|, opens, closes, k)), opens[k], closes[k])
  {
    ScannerTurns(read, fence, reply);
    Passed(read, reply, |fence|, opens, closes, k);
    StopsAt(Scanner(read, fence, reply), BlockAt(read, reply, |fence|), Fence(fence, reply), |fence|, opens, closes, k);
  }

  lemma Passed(read: string -> Block, reply: string, width: nat, opens: seq<nat>, closes: seq<nat>, k: nat)
    requires k <= |opens| && k <= |closes| && PassedOver(read, reply, width, opens, closes, k)
    ensures forall m :: 0 <= m < k ==> BlockAt(read, reply, width)(opens[m], closes[m]) == Other
  {
    forall m | 0 <= m < k ensures BlockAt(read, reply, width)(opens[m], closes[m]) == Other {
      assert read(Between(reply, width, opens, closes, m)) == Other;
    }
  }

  lemma NothingStops(read: string -> Block, fence: string, reply: string, opens: seq<nat>, closes: seq<nat>, i: nat)
    requires fence != "" && Fenced(Fence(fence, reply), |fence|, opens, closes)
    requires PassedOver(read, reply, |fence|, opens, closes, |opens|)
    requires var from := After(|fence|, closes, |closes|);
             NoneFrom(reply, fence, from) || (NextAt(reply, fence, from, i) && NoneFrom(reply, fence, i + |fence|))
    ensures ScanFor(read, fence, reply) == None
  {
    ScannerTurns(read, fence, reply);
    Passed(read, reply, |fence|, opens, closes, |opens|);
    PassesOver(Scanner(read, fence, reply), BlockAt(read, reply, |fence|), Fence(fence, reply), |fence|,
               opens, closes, |opens|);
    ScannerEnds(read, fence, reply, After(|fence|, closes, |closes|), i);
  }

  lemma ExtractHit(reply: string, p: Proposal, i: nat, j: nat)
    requires ScanFor(ReadBlock, FENCE, reply) == Some(Hit(p, i, j))
    ensures Extract(reply) == (Some(p), Visible(Slice(reply, 0, i), Slice(reply, j + 3, |reply|)))
  {
  }

  lemma DraftShown(reply: string, p: Proposal, i: nat, j: nat)
    requires ScanFor(ReadBlock, FENCE, reply) == Some(Hit(p, i, j))
    ensures Extract(reply).0 == Some(p)
    ensures Around(Slice(reply, 0, i), Slice(reply, j + 3, |reply|), Extract(reply).1)
  {
    ExtractHit(reply, p, i, j);
    VisibleMeans(Slice(reply, 0, i), Slice(reply, j + 3, |reply|));
  }

  lemma ExtractNone(reply: string)
    requires ScanFor(ReadBlock, FENCE, reply) == None
    ensures Extract(reply) == (None, reply)
  {
  }

  /** A draft is taken, and what the reader sees is the text around it; a malformed block leaves the
      reply as it is. */
  predicate Decides(reply: string, block: Block, i: nat, j: nat) {
    match block
    case Draft(p) =>
      && Extract(reply).0 == Some(p)
      && Around(Slice(reply, 0, i), Slice(reply, j + 3, |reply|), Extract(reply).1)
    case Malformed => Extract(reply) == (None, reply)
    case Other => true
  }

  lemma StoppedDecides(reply: string, block: Block, i: nat, j: nat)
    requires StopsWith(ScanFor(ReadBlock, FENCE, reply), block, i, j)
    ensures Decides(reply, block, i, j)
  {
    match block
    case Draft(p) => DraftShown(reply, p, i, j);
    case Malformed => ExtractNone(reply);
    case Other =>
  }

  /** The first block that is headed as a proposal decides. */
  lemma FirstHeadedDecides(reply: string, opens: seq<nat>, closes: seq<nat>, k: nat)
    requires Fenced(Fence("```", reply), 3, opens, closes) && k < |opens|
    requires PassedOver(ReadBlock, reply, 3, opens, closes, k)
    ensures Decides(reply, ReadBlock(Between(reply, 3, opens, closes, k)), opens[k], closes[k])
  {
    BlockStops(ReadBlock, "```", reply, opens, closes, k);
    StoppedDecides(reply, ReadBlock(Between(reply, 3, opens, closes, k)), opens[k], closes[k]);
  }

  /** If no block is headed so, and no two fences are left, the reply stays as it is. */
  lemma NoneHeaded(reply: string, opens: seq<nat>, closes: seq<nat>, i: nat)
    requires Fenced(Fence("```", reply), 3, opens, closes)
    requires PassedOver(ReadBlock, reply, 3, opens, closes, |opens|)
    requires var from := After(3, closes, |closes|);
             NoneFrom(reply, "```", from) || (NextAt(reply, "```", from, i) && NoneFrom(reply, "```", i + 3))
    ensures Extract(reply) == (None, reply)
  {
    NothingStops(ReadBlock, "```", reply, opens, closes, i);
    ExtractNone(reply);
  }
}
