/** Texts whose visible characters come, in order, from another text. */
module TextOrder {
  import opened PyText

  /** The text without its white space. */
  function Ink(s: string): string {
    if s == "" then "" else (if IsSpace(s[0]) then "" else [s[0]]) + Ink(s[1..])
  }

  /** `a` is what remains of `b` when some characters are crossed out. */
  predicate Subsequence(a: string, b: string) {
    || a == ""
    || (b != "" && ((a[0] == b[0] && Subsequence(a[1..], b[1..])) || Subsequence(a, b[1..])))
  }

  /** The visible characters of `text` are some of the source's, in the source's order. */
  predicate InkFrom(text: string, source: string) { Subsequence(Ink(text), Ink(source)) }

  // ---- subsequences ----

  lemma {:induction false} SameSubsequence(a: string)
    ensures Subsequence(a, a)
  {
    if a != "" { SameSubsequence(a[1..]); }
  }

  lemma {:induction false} SubsequenceTrans(a: string, b: string, c: string)
    requires Subsequence(a, b) && Subsequence(b, c)
    ensures Subsequence(a, c)
    decreases |a| + |b| + |c|
  {
    if a != "" {
      assert b != "" && c != "";
      if Subsequence(b, c[1..]) {
        SubsequenceTrans(a, b, c[1..]);
      } else if a[0] == b[0] && Subsequence(a[1..], b[1..]) {
        SubsequenceTrans(a[1..], b[1..], c[1..]);
      } else {
        SubsequenceTrans(a, b[1..], c[1..]);
      }
    }
  }

  lemma {:induction false} SubsequenceJoin(a: string, b: string, c: string, d: string)
    requires Subsequence(a, b) && Subsequence(c, d)
    ensures Subsequence(a + c, b + d)
    decreases |b|
  {
    if b == "" {
      assert a + c == c && b + d == d;
    } else {
      assert (b + d)[1..] == b[1..] + d;
      if a != "" && a[0] == b[0] && Subsequence(a[1..], b[1..]) {
        SubsequenceJoin(a[1..], b[1..], c, d);
        assert (a + c)[1..] == a[1..] + c;
      } else {
        SubsequenceJoin(a, b[1..], c, d);
      }
    }
  }

  // ---- ink ----

  lemma {:induction false} InkJoin(a: string, b: string)
    ensures Ink(a + b) == Ink(a) + Ink(b)
  {
    if a == "" {
      assert a + b == b;
    } else {
      var h := if IsSpace(a[0]) then "" else [a[0]];
      InkJoin(a[1..], b);
      assert a + b == [a[0]] + (a[1..] + b);
      assert h + (Ink(a[1..]) + Ink(b)) == h + Ink(a[1..]) + Ink(b);
    }
  }

  lemma {:induction false} NoInk(s: string)
    requires AllSpace(s)
    ensures Ink(s) == ""
  {
    if s != "" {
      assert forall i :: 0 <= i < |s| - 1 ==> s[1..][i] == s[i + 1];
      NoInk(s[1..]);
    }
  }

  lemma InkTrans(a: string, b: string, c: string)
    requires InkFrom(a, b) && InkFrom(b, c)
    ensures InkFrom(a, c)
  {
    SubsequenceTrans(Ink(a), Ink(b), Ink(c));
  }

  lemma InkSame(a: string)
    ensures InkFrom(a, a)
  {
    SameSubsequence(Ink(a));
  }

  lemma InkBoth(a: string, b: string, c: string, d: string)
    requires InkFrom(a, b) && InkFrom(c, d)
    ensures InkFrom(a + c, b + d)
  {
    InkJoin(a, c);
    InkJoin(b, d);
    SubsequenceJoin(Ink(a), Ink(b), Ink(c), Ink(d));
  }

  lemma InkNone(r: string, source: string)
    requires AllSpace(r)
    ensures InkFrom(r, source)
  {
    NoInk(r);
  }

  /** A piece of a text, and a text with a stretch replaced by white space. */
  lemma InkCut(s: string, i: nat, j: nat, r: string)
    requires i <= j <= |s| && AllSpace(r)
    ensures InkFrom(s[..i] + r + s[j..], s)
  {
    InkSame(s[..i]);
    InkSame(s[j..]);
    InkNone(r, s[i..j]);
    InkBoth(s[..i], s[..i], r, s[i..j]);
    InkBoth(s[..i] + r, s[..i] + s[i..j], s[j..], s[j..]);
    assert s == s[..i] + s[i..j] + s[j..];
  }

  lemma InkPiece(s: string, i: nat, j: nat)
    requires i <= j <= |s|
    ensures InkFrom(s[i..j], s)
  {
    InkCut(s[..j], 0, i, "");
    assert s[..j][..0] + "" + s[..j][i..] == s[i..j];
    InkCut(s, j, |s|, "");
    assert s[..j] + "" + s[|s|..] == s[..j];
    InkTrans(s[i..j], s[..j], s);
  }

  lemma InkContained(s: string, piece: string)
    requires Contains(s, piece)
    ensures InkFrom(piece, s)
  {
    var i: nat :| i <= |s| && OccursAt(s, piece, i);
    assert piece == s[i..i + |piece|];
    InkPiece(s, i, i + |piece|);
  }

  // ---- the operations ----

  lemma {:induction false} InkSub(s: string, hit: string -> nat, r: string)
    requires AllSpace(r)
    ensures InkFrom(Sub(s, hit, r), s)
    decreases |s|
  {
    if s == "" {
    } else if 0 < hit(s) <= |s| {
      var n := hit(s);
      InkSub(s[n..], hit, r);
      InkNone(r, s[..n]);
      InkBoth(r, s[..n], Sub(s[n..], hit, r), s[n..]);
      assert s == s[..n] + s[n..];
    } else {
      InkSub(s[1..], hit, r);
      InkSame([s[0]]);
      InkBoth([s[0]], [s[0]], Sub(s[1..], hit, r), s[1..]);
      assert s == [s[0]] + s[1..];
    }
  }

  lemma InkReplaceFirst(s: string, w: string)
    ensures InkFrom(ReplaceFirst(s, w, " "), s)
  {
    match Find(s, w, 0)
    case None => InkSame(s);
    case Some(i) => InkCut(s, i, i + |w|, " ");
  }

  lemma InkStrip(s: string)
    ensures InkFrom(Strip(s), s)
  {
    StripTrims(s);
    InkContained(s, Strip(s));
  }

  /** All parts in a row. */
  function Glued(parts: seq<string>): string {
    if parts == [] then "" else Glued(parts[..|parts| - 1]) + parts[|parts| - 1]
  }

  lemma {:induction false} GluedFirst(part: string, parts: seq<string>)
    ensures Glued([part] + parts) == part + Glued(parts)
  {
    var all := [part] + parts;
    if parts == [] {
      assert all[..0] == [];
    } else {
      GluedFirst(part, parts[..|parts| - 1]);
      assert all[..|all| - 1] == [part] + parts[..|parts| - 1];
    }
  }

  lemma {:induction false} InkJoined(sep: string, parts: seq<string>)
    requires AllSpace(sep)
    ensures InkFrom(Join(sep, parts), Glued(parts))
  {
    if parts == [] {
    } else if |parts| == 1 {
      assert parts[..0] == [] && Glued(parts) == parts[0];
      InkSame(parts[0]);
    } else {
      var rest := parts[1..];
      InkJoined(sep, rest);
      GluedFirst(parts[0], rest);
      assert parts == [parts[0]] + rest;
      InkSame(parts[0]);
      InkNone(sep, "");
      InkBoth(parts[0], parts[0], sep, "");
      InkBoth(parts[0] + sep, parts[0] + "", Join(sep, rest), Glued(rest));
      assert parts[0] + "" == parts[0];
    }
  }

  lemma InkAfter(done: string, s: string, n: nat, rest: string)
    requires n <= |s| && InkFrom(rest, s[n..])
    ensures InkFrom(done + rest, done + s)
  {
    InkPiece(s, n, |s|);
    assert s[n..|s|] == s[n..];
    InkTrans(rest, s[n..], s);
    InkSame(done);
    InkBoth(done, done, rest, s);
  }

  lemma {:induction false} InkSplit(done: string, s: string, hit: string -> nat)
    ensures InkFrom(Glued(Split(done, s, hit)), done + s)
    decreases |s|
  {
    if s == "" {
      assert [done][..0] == [] && Glued([done]) == done && done + s == done;
      InkSame(done);
    } else if 0 < hit(s) <= |s| {
      var n := hit(s);
      InkSplit("", s[n..], hit);
      assert "" + s[n..] == s[n..];
      GluedFirst(done, Split("", s[n..], hit));
      InkAfter(done, s, n, Glued(Split("", s[n..], hit)));
    } else {
      InkSplit(done + [s[0]], s[1..], hit);
      assert done + [s[0]] + s[1..] == done + s;
    }
  }
}
