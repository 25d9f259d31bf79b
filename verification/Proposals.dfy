/** Assistant-drafted correction proposals: finding the fenced block in a reply
    (`extract_proposal`). */
module Proposals {
  import opened PyText

  datatype Proposal = Proposal(entryTs: string, proposedText: string, reason: string, evidenceSummary: string)

  const FENCE := "```"
  const HEADER := "PW-PROPOSAL journal_correction"
  const FIELDS: seq<string> := ["entry_ts", "proposed_text", "reason", "evidence_summary"]
  const TEXT_MAX := 2000
  const REASON_MAX := 200
  const EVIDENCE_MAX := 300

  // ---- the block's lines ----

  function Lines(block: string): seq<string> { Split("", block, Literal("\n")) }

  /** The lines that are not blank, without trailing white space. */
  function Kept(lines: seq<string>): seq<string> {
    if lines == [] then []
    else
      var last := lines[|lines| - 1];
      Kept(lines[..|lines| - 1]) + if Strip(last) != "" then [RStrip(last)] else []
  }

  function BlockLines(block: string): seq<string> { Kept(Lines(StripAll(block, IsNewline))) }

  function AddField(fields: map<string, string>, line: string): Option<map<string, string>> {
    match Find(line, ":", 0)
    case None => None
    case Some(i) =>
      var key := Strip(line[..i]);
      if key !in FIELDS || key in fields then None
      else Some(fields[key := Strip(line[i + 1..])])
  }

  /** A field dictionary, or the refusal of a line. */
  type FieldsOrNot = Option<map<string, string>>

  /** Adding line after line, until one is refused. */
  function Fold(add: (map<string, string>, string) -> FieldsOrNot, lines: seq<string>): FieldsOrNot {
    if lines == [] then Some(map[])
    else
      match Fold(add, lines[..|lines| - 1])
      case None => None
      case Some(fields) => add(fields, lines[|lines| - 1])
  }

  function Accept(fields: map<string, string>): Option<Proposal> {
    if && (forall f :: f in FIELDS ==> f in fields && fields[f] != "")
       && |fields["proposed_text"]| <= TEXT_MAX
       && |fields["reason"]| <= REASON_MAX
       && |fields["evidence_summary"]| <= EVIDENCE_MAX
    then Some(Proposal(fields["entry_ts"], fields["proposed_text"], fields["reason"], fields["evidence_summary"]))
    else None
  }

  predicate IsProposal(lines: seq<string>) { lines != [] && Strip(lines[0]) == HEADER }

  /** What a fenced block is: nothing of ours, a malformed proposal, or a proposal. */
  datatype Block = Other | Malformed | Draft(proposal: Proposal)

  function Parse(lines: seq<string>): Block {
    match Fold(AddField, lines)
    case None => Malformed
    case Some(fields) =>
      match Accept(fields)
      case None => Malformed
      case Some(p) => Draft(p)
  }

  function ReadBlock(block: string): Block {
    var lines := BlockLines(block);
    if IsProposal(lines) then Parse(lines[1..]) else Other
  }

  /** The loop filling the field dictionary; it stops at the first line it refuses. */
  method ReadFields(add: (map<string, string>, string) -> FieldsOrNot, lines: seq<string>)
    returns (fields: FieldsOrNot)
    ensures fields == Fold(add, lines)
  {
    fields := Some(map[]);
    for i := 0 to |lines|
      invariant fields == Fold(add, lines[..i]) && fields.Some?
    {
      assert lines[..i + 1][..i] == lines[..i];
      fields := add(fields.value, lines[i]);
      if fields.None? {
        NoFieldsAfter(add, lines, i + 1);
        return;
      }
    }
    assert lines[..|lines|] == lines;
  }

  lemma {:induction false} NoFieldsAfter(add: (map<string, string>, string) -> FieldsOrNot, lines: seq<string>, i: nat)
    requires i <= |lines| && Fold(add, lines[..i]).None?
    ensures Fold(add, lines).None?
  {
    if i == |lines| {
      assert lines[..i] == lines;
    } else {
      assert lines[..|lines| - 1][..i] == lines[..i];
      NoFieldsAfter(add, lines[..|lines| - 1], i);
    }
  }

  method ReadFencedBlock(block: string) returns (read: Block)
    ensures read == ReadBlock(block)
  {
    var lines := BlockLines(block);
    if !IsProposal(lines) {
      return Other;
    }
    var fields := ReadFields(AddField, lines[1..]);
    if fields.Some? {
      var proposal := Accept(fields.value);
      if proposal.Some? {
        return Draft(proposal.value);
      }
    }
    return Malformed;
  }

  // ---- the reply ----

  function Visible(before: string, after: string): string {
    Strip(RStrip(before) + (if LStrip(after) != "" then "\n\n" else "") + LStrip(after))
  }

  /** Looking for a fence from a place on; and reading the block between two places. */
  type Search = nat -> Option<nat>
  type Reader = (nat, nat) -> Block

  /** What is found starts no earlier, and lies within the first `n` characters. */
  ghost predicate Searches(find: Search, width: nat, n: nat) {
    forall from: nat :: find(from).Some? ==> from <= find(from).value && find(from).value + width <= n
  }

  function Fences(fence: string, reply: string): (find: Search)
    ensures Searches(find, |fence|, |reply|)
  {
    (from: nat) => Find(reply, fence, from)
  }

  function Blocks(read: string -> Block, reply: string): Reader {
    (from: nat, to: nat) => read(Slice(reply, from, to))
  }

  /** A proposal, and where its two fences start. */
  datatype Hit = Hit(proposal: Proposal, open: nat, close: nat)

  /** The scan from `from` on. The first block headed as a proposal decides. */
  function Scan(find: Search, read: Reader, width: nat, n: nat, from: nat): Option<Hit>
    requires width > 0 && Searches(find, width, n)
    decreases n - from
  {
    match find(from)
    case None => None
    case Some(i) =>
      match find(i + width)
      case None => None
      case Some(j) =>
        match read(i + width, j)
        case Draft(p) => Some(Hit(p, i, j))
        case Malformed => None
        case Other => Scan(find, read, width, n, j + width)
  }

  method ScanReply(find: Search, read: Reader, width: nat, n: nat) returns (hit: Option<Hit>)
    requires width > 0 && Searches(find, width, n)
    ensures hit == Scan(find, read, width, n, 0)
  {
    var fenceStart := find(0);
    ghost var from: nat := 0;
    while fenceStart.Some?
      invariant fenceStart == find(from)
      invariant Scan(find, read, width, n, from) == Scan(find, read, width, n, 0)
      decreases n - from
    {
      var start := fenceStart.value;
      var fenceEnd := find(start + width);
      if fenceEnd.None? {
        return None;
      }
      var end := fenceEnd.value;
      match read(start + width, end)
      case Draft(proposal) =>
        return Some(Hit(proposal, start, end));
      case Malformed =>
        return None;
      case Other =>
        from := end + width;
        fenceStart := find(end + width);
    }
    return None;
  }

  function ScanFor(read: string -> Block, fence: string, reply: string): Option<Hit>
    requires fence != ""
  {
    Scan(Fences(fence, reply), Blocks(read, reply), |fence|, |reply|, 0)
  }

  /** The proposal a scan comes to, and the text before and after its block. */
  function Found(read: string -> Block, fence: string, reply: string): Option<(Proposal, string, string)>
    requires fence != ""
  {
    match ScanFor(read, fence, reply)
    case None => None
    case Some(hit) => Some((hit.proposal, Slice(reply, 0, hit.open), Slice(reply, hit.close + |fence|, |reply|)))
  }

  function Extract(reply: string): (Option<Proposal>, string) {
    match Found(ReadBlock, FENCE, reply)
    case None => (None, reply)
    case Some((p, before, after)) => (Some(p), Visible(before, after))
  }

  method ExtractProposal(reply: string) returns (proposal: Option<Proposal>, visible: string)
    ensures (proposal, visible) == Extract(reply)
  {
    var hit := ScanReply(Fences(FENCE, reply), Blocks(ReadBlock, reply), |FENCE|, |reply|);
    match hit
    case None =>
      return None, reply;
    case Some(h) =>
      return Some(h.proposal), Visible(Slice(reply, 0, h.open), Slice(reply, h.close + |FENCE|, |reply|));
  }

  // ---- what can be printed ----

  /** A field value a block can carry: not empty, trimmed, on one line, with no fence. */
  predicate Printable(v: string) {
    v != "" && Trimmed(v) && '\n' !in v && !Contains(v, FENCE)
  }

  predicate WellFormed(p: Proposal) {
    && Printable(p.entryTs) && Printable(p.proposedText) && Printable(p.reason) && Printable(p.evidenceSummary)
    && |p.proposedText| <= TEXT_MAX && |p.reason| <= REASON_MAX && |p.evidenceSummary| <= EVIDENCE_MAX
  }

  function FieldLine(key: string, value: string): string { key + ":" + (" " + value) }

  function Values(p: Proposal): seq<string> { [p.entryTs, p.proposedText, p.reason, p.evidenceSummary] }

  function FieldLines(keys: seq<string>, values: seq<string>): seq<string>
    requires |keys| == |values|
  {
    seq(|keys|, i requires 0 <= i < |keys| => FieldLine(keys[i], values[i]))
  }

  function Printed(p: Proposal): seq<string> { [HEADER] + FieldLines(FIELDS, Values(p)) }

  function PrintedBlock(p: Proposal): string { "\n" + Join("\n", Printed(p)) + "\n" }

  function Print(p: Proposal): string { FENCE + PrintedBlock(p) + FENCE }

  // ---- reading back one line ----

  lemma StripPad(v: string)
    requires Trimmed(v) && v != ""
    ensures Strip(" " + v) == v
  {
    assert (" " + v)[1..] == v;
    StripTrims(v);
  }

  predicate Clean(key: string) {
    key != "" && Trimmed(key) && ':' !in key && '\n' !in key && '`' !in key
  }

  lemma ColonAfterKey(key: string, value: string)
    requires ':' !in key
    ensures Find(FieldLine(key, value), ":", 0) == Some(|key|)
  {
    var line := FieldLine(key, value);
    FindFirst(line, ":", 0);
    assert OccursAt(line, ":", |key|);
    forall j: nat | j < |key| ensures !OccursAt(line, ":", j) {
      assert line[j + 0] == key[j] != ":"[0];
    }
  }

  lemma ReadField(fields: map<string, string>, key: string, value: string)
    requires key in FIELDS && key !in fields && Clean(key) && Printable(value)
    ensures AddField(fields, FieldLine(key, value)) == Some(fields[key := value])
  {
    var line := FieldLine(key, value);
    ColonAfterKey(key, value);
    assert line[..|key|] == key && line[|key| + 1..] == " " + value;
    StripPad(value);
    StripTrims(key);
  }

  /** Folding a way of adding that takes the given lines one by one. */
  lemma {:induction false} FoldLines(add: (map<string, string>, string) -> FieldsOrNot,
                                     keys: seq<string>, values: seq<string>, lines: seq<string>)
    requires |keys| == |values| == |lines|
    requires forall i, j :: 0 <= i < j < |keys| ==> keys[i] != keys[j]
    requires forall i, fields :: 0 <= i < |keys| && keys[i] !in fields ==>
               add(fields, lines[i]) == Some(fields[keys[i] := values[i]])
    ensures Fold(add, lines).Some?
    ensures var fields := Fold(add, lines).value;
            && (forall i :: 0 <= i < |keys| ==> keys[i] in fields && fields[keys[i]] == values[i])
            && (forall k :: k in fields ==> k in keys)
  {
    if keys != [] {
      var n := |keys| - 1;
      FoldLines(add, keys[..n], values[..n], lines[..n]);
      assert forall i :: 0 <= i < n ==> keys[..n][i] == keys[i] && values[..n][i] == values[i];
    }
  }

  lemma AcceptPrinted(fields: map<string, string>, p: Proposal)
    requires WellFormed(p)
    requires "entry_ts" in fields && fields["entry_ts"] == p.entryTs
    requires "proposed_text" in fields && fields["proposed_text"] == p.proposedText
    requires "reason" in fields && fields["reason"] == p.reason
    requires "evidence_summary" in fields && fields["evidence_summary"] == p.evidenceSummary
    ensures Accept(fields) == Some(p)
  {
  }

  /** The fields of the printed lines, however the keys and values are given. */
  lemma FoldPrinted(keys: seq<string>, values: seq<string>, lines: seq<string>)
    requires keys == FIELDS && |values| == |keys| && lines == FieldLines(keys, values)
    requires forall i :: 0 <= i < |values| ==> Printable(values[i])
    ensures Fold(AddField, lines).Some?
    ensures forall i :: 0 <= i < |keys| ==> keys[i] in Fold(AddField, lines).value
                                            && Fold(AddField, lines).value[keys[i]] == values[i]
  {
    forall i, fields: map<string, string> | 0 <= i < |keys| && keys[i] !in fields
      ensures AddField(fields, lines[i]) == Some(fields[keys[i] := values[i]])
    {
      ReadField(fields, keys[i], values[i]);
    }
    FoldLines(AddField, keys, values, lines);
  }

  lemma ReadPrinted(p: Proposal)
    requires WellFormed(p)
    ensures Parse(FieldLines(FIELDS, Values(p))) == Draft(p)
  {
    var lines := FieldLines(FIELDS, Values(p));
    FoldPrinted(FIELDS, Values(p), lines);
    var fields := Fold(AddField, lines).value;
    assert FIELDS[0] in fields && FIELDS[1] in fields && FIELDS[2] in fields && FIELDS[3] in fields;
    AcceptPrinted(fields, p);
  }

  // ---- reading back a block ----

  /** A line as printed: it starts and ends with a visible character. */
  predicate Solid(line: string) { line != "" && Trimmed(line) && '\n' !in line }

  lemma {:induction false} KeptSolid(lines: seq<string>)
    requires forall i :: 0 <= i < |lines| ==> Solid(lines[i])
    ensures Kept(lines) == lines
  {
    if lines != [] {
      var last := lines[|lines| - 1];
      KeptSolid(lines[..|lines| - 1]);
      SolidStrips(last);
    }
  }

  lemma SolidStrips(line: string)
    requires Solid(line)
    ensures Strip(line) == line && RStrip(line) == line
  {
    StripTrims(line);
  }

  lemma {:induction false} JoinEnds(parts: seq<string>)
    requires parts != [] && forall i :: 0 <= i < |parts| ==> Solid(parts[i])
    ensures var t := Join("\n", parts); t != "" && t[0] != '\n' && t[|t| - 1] != '\n'
  {
    if |parts| > 1 { JoinEnds(parts[1..]); }
  }

  lemma UnpadNewlines(t: string)
    requires t != "" && t[0] != '\n' && t[|t| - 1] != '\n'
    ensures StripAll("\n" + t + "\n", IsNewline) == t
  {
    var nl, block := IsNewline, "\n" + t + "\n";
    assert block[1..] == t + "\n" && (t + "\n")[..|t|] == t;
    assert DropLeft(t + "\n", nl) == t + "\n";
    assert DropLeft(block, nl) == t + "\n";
    assert DropRight(t, nl) == t;
  }

  lemma ReadBlockLines(parts: seq<string>)
    requires parts != [] && forall i :: 0 <= i < |parts| ==> Solid(parts[i])
    ensures BlockLines("\n" + Join("\n", parts) + "\n") == parts
  {
    JoinEnds(parts);
    UnpadNewlines(Join("\n", parts));
    SplitJoined("\n", parts);
    KeptSolid(parts);
  }

  // ---- no fence inside a printed block ----

  lemma {:induction false} JoinFenceFree(parts: seq<string>, fence: string)
    requires fence != "" && SpaceFree(fence)
    requires forall i :: 0 <= i < |parts| ==> !Contains(parts[i], fence)
    ensures !Contains(Join("\n", parts), fence)
  {
    if |parts| > 1 {
      JoinFenceFree(parts[1..], fence);
      if Contains(Join("\n", parts), fence) {
        SeamWord(parts[0], "\n", Join("\n", parts[1..]), fence);
      }
    }
  }

  lemma BlockFenceFree(t: string, fence: string)
    requires fence != "" && SpaceFree(fence) && !Contains(t, fence)
    ensures !Contains("\n" + t + "\n", fence)
  {
    var block := "\n" + t + "\n";
    if Contains(block, fence) {
      assert block == ("\n" + t) + "\n" + "";
      SeamWord("\n" + t, "\n", "", fence);
      assert "\n" + t == "" + "\n" + t;
      SeamWord("", "\n", t, fence);
    }
  }

  lemma FieldLineFenceFree(key: string, value: string)
    requires '`' !in key && !Contains(value, FENCE)
    ensures !Contains(FieldLine(key, value), FENCE)
  {
    var head := key + ":";
    assert FieldLine(key, value) == head + " " + value;
    LacksFirst(head, FENCE);
    if Contains(FieldLine(key, value), FENCE) {
      SeamWord(head, " ", value, FENCE);
    }
  }

  lemma PrintedLines(p: Proposal)
    requires WellFormed(p)
    ensures forall i :: 0 <= i < |Printed(p)| ==> Solid(Printed(p)[i]) && !Contains(Printed(p)[i], FENCE)
  {
    FieldLinesSolid(FIELDS, Values(p));
    assert Printed(p)[1..] == FieldLines(FIELDS, Values(p));
    HeaderSolid();
  }

  lemma FieldLinesSolid(keys: seq<string>, values: seq<string>)
    requires keys == FIELDS && |values| == |keys| && forall i :: 0 <= i < |values| ==> Printable(values[i])
    ensures forall i :: 0 <= i < |keys| ==>
              var line := FieldLines(keys, values)[i]; Solid(line) && !Contains(line, FENCE)
  {
    forall i | 0 <= i < |keys|
      ensures Solid(FieldLine(keys[i], values[i])) && !Contains(FieldLine(keys[i], values[i]), FENCE)
    {
      FieldLineFenceFree(keys[i], values[i]);
    }
  }

  lemma HeaderSolid()
    ensures Solid(HEADER) && !Contains(HEADER, FENCE)
  {
    LacksFirst(HEADER, FENCE);
  }

  lemma ReadPrintedBlock(p: Proposal)
    requires WellFormed(p)
    ensures ReadBlock(PrintedBlock(p)) == Draft(p) && !Contains(PrintedBlock(p), FENCE)
  {
    PrintedLines(p);
    JoinFenceFree(Printed(p), FENCE);
    BlockFenceFree(Join("\n", Printed(p)), FENCE);
    ReadBlockLines(Printed(p));
    assert Printed(p)[0] == HEADER && Printed(p)[1..] == FieldLines(FIELDS, Values(p));
    ReadPrinted(p);
    StripTrims(HEADER);
  }

  /** Behind a text that keeps off the fence, the next fence is the one right there. */
  lemma NextFence(front: string, text: string, fence: string, c: char, rest: string)
    requires KeepsOff(text, fence, c)
    ensures Find(front + text + fence + rest, fence, |front|) == Some(|front| + |text|)
  {
    StandsBehind(front, text, fence, rest);
    FindNext(front + text + fence + rest, text, |front|, fence, c);
  }

  lemma StandsBehind(front: string, text: string, fence: string, rest: string)
    ensures var s := front + text + fence + rest; OccursAt(s, text, |front|) && OccursAt(s, fence, |front| + |text|)
  {
  }

  lemma Regrouped(before: string, fence: string, block: string, after: string)
    ensures before + (fence + block + fence) + after == "" + before + fence + (block + fence + after)
    ensures before + (fence + block + fence) + after == (before + fence) + block + fence + after
  {
  }

  /** Where the fences around a block are found. */
  lemma FencesFound(fence: string, c: char, before: string, block: string, after: string)
    requires fence != "" && KeepsOff(before, fence, c) && KeepsOff(block, fence, c)
    ensures var fences := Fences(fence, before + (fence + block + fence) + after);
            fences(0) == Some(|before|) && fences(|before + fence|) == Some(|before + fence| + |block|)
  {
    Regrouped(before, fence, block, after);
    NextFence("", before, fence, c, block + fence + after);
    NextFence(before + fence, block, fence, c, after);
  }

  lemma PlacedSlices(fence: string, before: string, block: string, after: string, reply: string)
    requires reply == before + (fence + block + fence) + after
    ensures var open, close := |before + fence|, |before + fence| + |block|;
            && Slice(reply, 0, |before|) == before && Slice(reply, open, close) == block
            && Slice(reply, close + |fence|, |reply|) == after
  {
  }

  lemma FoundPrinted(read: string -> Block, fence: string, c: char, p: Proposal,
                     before: string, block: string, after: string)
    requires fence != "" && KeepsOff(before, fence, c) && KeepsOff(block, fence, c) && read(block) == Draft(p)
    ensures Found(read, fence, before + (fence + block + fence) + after) == Some((p, before, after))
  {
    var reply := before + (fence + block + fence) + after;
    FencesFound(fence, c, before, block, after);
    FoundBetween(read, fence, p, before, block, after, reply);
  }

  lemma FoundBetween(read: string -> Block, fence: string, p: Proposal,
                     before: string, block: string, after: string, reply: string)
    requires fence != "" && read(block) == Draft(p) && reply == before + (fence + block + fence) + after
    requires var fences := Fences(fence, reply);
             fences(0) == Some(|before|) && fences(|before + fence|) == Some(|before + fence| + |block|)
    ensures Found(read, fence, reply) == Some((p, before, after))
  {
    PlacedSlices(fence, before, block, after, reply);
  }

  /** Printing a proposal after prose and extracting it gives exactly the proposal back, and
      the prose around it without the block. */
  lemma ExtractPrinted(p: Proposal, before: string, after: string)
    requires WellFormed(p) && !Contains(before, FENCE) && (before == "" || before[|before| - 1] != '`')
    ensures Extract(before + Print(p) + after) == (Some(p), Visible(before, after))
  {
    ReadPrintedBlock(p);
    FoundPrinted(ReadBlock, FENCE, '`', p, before, PrintedBlock(p), after);
  }

  // ---- whatever is accepted can be printed ----

  lemma {:induction false} LinesAreLines(done: string, s: string)
    requires '\n' !in done
    ensures forall part :: part in Split(done, s, Literal("\n")) ==> '\n' !in part
    decreases |s|
  {
    if s != "" {
      if "\n" <= s {
        LinesAreLines("", s[1..]);
      } else {
        assert s == [s[0]] + s[1..];
        LinesAreLines(done + [s[0]], s[1..]);
      }
    }
  }

  /** A trimmed piece of one line of `block`. */
  ghost predicate FromLine(block: string, v: string) {
    Trimmed(v) && '\n' !in v && Contains(block, v)
  }

  lemma {:induction false} KeptLines(lines: seq<string>)
    ensures forall line :: line in Kept(lines) ==> exists i :: 0 <= i < |lines| && line <= lines[i]
  {
    if lines != [] {
      var n := |lines| - 1;
      KeptLines(lines[..n]);
      DropRightPrefix(lines[n], IsSpace);
      forall line | line in Kept(lines) ensures exists i :: 0 <= i < |lines| && line <= lines[i] {
        if line in Kept(lines[..n]) {
          var i :| 0 <= i < |lines[..n]| && line <= lines[..n][i];
          assert line <= lines[i];
        } else {
          assert line <= lines[n];
        }
      }
    }
  }

  lemma BlockLinePieces(block: string)
    ensures forall line :: line in BlockLines(block) ==> Contains(block, line) && '\n' !in line
  {
    var t := StripAll(block, IsNewline);
    var k := StripPiece(block, IsNewline);
    ContainsPart(block, k, k + |t|);
    LinesAreLines("", t);
    KeptLines(Lines(t));
    forall line | line in BlockLines(block) ensures Contains(block, line) && '\n' !in line {
      var i :| 0 <= i < |Lines(t)| && line <= Lines(t)[i];
      LinePiece(t, Lines(t)[i], line);
      ContainsTrans(block, t, line);
    }
  }

  lemma LinePiece(t: string, whole: string, line: string)
    requires whole in Lines(t) && line <= whole
    ensures Contains(t, line)
  {
    SplitParts("", t, Literal("\n"), whole);
    assert "" + t == t && whole[0..|line|] == line;
    ContainsPart(whole, 0, |line|);
    ContainsTrans(t, whole, line);
  }

  lemma {:induction false} FoldPieces(block: string, lines: seq<string>)
    requires forall line :: line in lines ==> Contains(block, line) && '\n' !in line
    requires Fold(AddField, lines).Some?
    ensures forall key :: key in Fold(AddField, lines).value ==> FromLine(block, Fold(AddField, lines).value[key])
  {
    if lines != [] {
      var n := |lines| - 1;
      assert forall line :: line in lines[..n] ==> line in lines;
      FoldPieces(block, lines[..n]);
      FieldPiece(block, Fold(AddField, lines[..n]).value, lines[n]);
    }
  }

  lemma FieldPiece(block: string, fields: map<string, string>, line: string)
    requires Contains(block, line) && '\n' !in line && AddField(fields, line).Some?
    ensures forall key :: key in AddField(fields, line).value ==>
              || (key in fields && AddField(fields, line).value[key] == fields[key])
              || FromLine(block, AddField(fields, line).value[key])
  {
    var i := Find(line, ":", 0).value;
    var tail := line[i + 1..];
    var key, v := Strip(line[..i]), Strip(tail);
    ContainsPart(line, i + 1, |line|);
    assert line[i + 1..|line|] == tail;
    StripTrims(tail);
    var k := StripPiece(tail, IsSpace);
    ContainsTrans(line, tail, v);
    ContainsTrans(block, line, v);
    assert AddField(fields, line).value == fields[key := v];
  }

  lemma PiecesFenceFree(block: string, v: string)
    requires !Contains(block, FENCE) && FromLine(block, v) && v != ""
    ensures Printable(v)
  {
    if Contains(v, FENCE) { ContainsTrans(block, v, FENCE); }
  }

  /** The scan hits on a draft, up to where the next fence is found. */
  lemma {:induction false} HitIsDraft(find: Search, read: Reader, width: nat, n: nat, from: nat)
    requires width > 0 && Searches(find, width, n) && Scan(find, read, width, n, from).Some?
    ensures var hit := Scan(find, read, width, n, from).value;
            find(hit.open + width) == Some(hit.close) && read(hit.open + width, hit.close) == Draft(hit.proposal)
    decreases n - from
  {
    var i := find(from).value;
    var j := find(i + width).value;
    if read(i + width, j).Other? { HitIsDraft(find, read, width, n, j + width); }
  }

  lemma UpToFence(fence: string, reply: string, open: nat, j: nat)
    requires fence != "" && Find(reply, fence, open) == Some(j)
    ensures !Contains(Slice(reply, open, j), fence)
  {
    FindFirst(reply, fence, open);
    assert Slice(reply, open, j) == reply[open..j];
    forall k: nat ensures !OccursAt(reply[open..j], fence, k) {
      if OccursAt(reply[open..j], fence, k) { OccursInPiece(reply, open, j, fence, k); }
    }
  }

  lemma BlocksRead(read: string -> Block, reply: string, i: nat, j: nat)
    ensures Blocks(read, reply)(i, j) == read(Slice(reply, i, j))
  {
  }

  lemma HitBlock(read: string -> Block, fence: string, reply: string) returns (block: string)
    requires fence != "" && ScanFor(read, fence, reply).Some?
    ensures !Contains(block, fence) && read(block) == Draft(ScanFor(read, fence, reply).value.proposal)
  {
    HitIsDraft(Fences(fence, reply), Blocks(read, reply), |fence|, |reply|, 0);
    var hit := ScanFor(read, fence, reply).value;
    block := Slice(reply, hit.open + |fence|, hit.close);
    BlocksRead(read, reply, hit.open + |fence|, hit.close);
    UpToFence(fence, reply, hit.open + |fence|, hit.close);
  }

  lemma AcceptedWellFormed(block: string, fields: map<string, string>, p: Proposal)
    requires !Contains(block, FENCE) && Accept(fields) == Some(p)
    requires forall key :: key in fields ==> FromLine(block, fields[key])
    ensures WellFormed(p)
  {
    assert FIELDS[0] in FIELDS && FIELDS[1] in FIELDS && FIELDS[2] in FIELDS && FIELDS[3] in FIELDS;
    PiecesFenceFree(block, p.entryTs);
    PiecesFenceFree(block, p.proposedText);
    PiecesFenceFree(block, p.reason);
    PiecesFenceFree(block, p.evidenceSummary);
  }

  /** For every reply: an accepted proposal is well formed, and where none is accepted the
      reply is shown as it is. */
  lemma ExtractAccepts(reply: string)
    ensures match Extract(reply)
            case (Some(p), _) => WellFormed(p)
            case (None, visible) => visible == reply
  {
    var hit := ScanFor(ReadBlock, FENCE, reply);
    if hit.Some? {
      var block := HitBlock(ReadBlock, FENCE, reply);
      var lines := BlockLines(block)[1..];
      BlockLinePieces(block);
      FoldPieces(block, lines);
      AcceptedWellFormed(block, Fold(AddField, lines).value, hit.value.proposal);
    }
  }
}
