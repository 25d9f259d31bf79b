/** The append-only journal with corrections (`journal.py`), and the correction act of the API.
    Timestamps are the entry keys; each append is given a fresh one. */
module JournalLog {
  import opened PyText

  type Time = nat

  const APPROVAL := "approval"
  const HISTORY_MAX := 100
  const TEXT_MAX := 2000

  /** A summary is a person's text, or the audit line of an approved correction. */
  datatype Summary =
    | Note(text: string)
    | Approved(original: Time, correction: Time, proposedBy: string, why: Option<string>)

  datatype Event = Event(ts: Time, kind: string, summary: Summary, source: string, classification: string,
                         supersedes: Option<Time>, reason: Option<string>)

  datatype Outcome = NoEntry | AlreadySuperseded | Done(current: Event, audit: Event)

  // ---- the log as a value ----

  predicate UniqueKeys(log: seq<Event>) { forall i, j :: 0 <= i < j < |log| ==> log[i].ts != log[j].ts }

  /** `log[j]` is the correction of `log[i]`. */
  predicate Corrects(log: seq<Event>, i: nat, j: nat)
    requires i < |log| && j < |log|
  {
    log[j].supersedes == Some(log[i].ts)
  }

  /** Keys are unique, every link points to an earlier entry, and no entry has two corrections. */
  ghost predicate Linked(log: seq<Event>) {
    && UniqueKeys(log)
    && (forall j: nat :: j < |log| && log[j].supersedes.Some? ==> exists i: nat :: i < j && Corrects(log, i, j))
    && (forall j, k :: 0 <= j < k < |log| && log[j].supersedes.Some? ==> log[j].supersedes != log[k].supersedes)
  }

  predicate Fresh(log: seq<Event>, ts: Time) { forall i :: 0 <= i < |log| ==> log[i].ts != ts }

  function Locate(log: seq<Event>, ts: Time): (r: Option<nat>)
    ensures r.Some? ==> r.value < |log| && log[r.value].ts == ts
    ensures r.None? ==> Fresh(log, ts)
  {
    if log == [] then None
    else
      match Locate(log[..|log| - 1], ts)
      case Some(i) => Some(i)
      case None => if log[|log| - 1].ts == ts then Some(|log| - 1) else None
  }

  predicate IsSuperseded(log: seq<Event>, ts: Time) {
    exists j :: 0 <= j < |log| && log[j].supersedes == Some(ts)
  }

  function SupersededKeys(log: seq<Event>): set<Time> {
    set j | 0 <= j < |log| && log[j].supersedes.Some? :: log[j].supersedes.value
  }

  /** The entries whose key is not in `gone` and whose kind is not excluded. */
  function Remaining(log: seq<Event>, gone: set<Time>, exclude: set<string>): seq<Event> {
    if log == [] then []
    else
      var e := log[|log| - 1];
      Remaining(log[..|log| - 1], gone, exclude) + if e.ts in gone || e.kind in exclude then [] else [e]
  }

  /** The calm view, before the last few are taken. */
  function Current(log: seq<Event>): seq<Event> { Remaining(log, SupersededKeys(log), {}) }

  /** `s[-n:]` */
  function LastN(s: seq<Event>, n: nat): seq<Event> {
    if n == 0 || n >= |s| then s else s[|s| - n..]
  }

  function Without(s: seq<Event>, ts: Time): seq<Event> {
    if s == [] then []
    else Without(s[..|s| - 1], ts) + if s[|s| - 1].ts == ts then [] else [s[|s| - 1]]
  }

  function CorrectionOf(original: Event, ts: Time, text: string, reason: Option<string>): Event {
    Event(ts, original.kind, Note(text), original.source, original.classification, Some(original.ts), reason)
  }

  function AuditOf(original: Event, ts: Time, correction: Time, proposedBy: string, reason: Option<string>): Event {
    Event(ts, APPROVAL, Approved(original.ts, correction, proposedBy, reason), "journal", original.classification,
          None, None)
  }

  /** What `supersede` does to the log; `t1` and `t2` are the times of the two appends. */
  function Superseding(log: seq<Event>, target: Time, text: string, reason: Option<string>, author: string,
                       t1: Time, t2: Time): (Outcome, seq<Event>) {
    match Locate(log, target)
    case None => (NoEntry, log)
    case Some(i) =>
      if IsSuperseded(log, target) then (AlreadySuperseded, log)
      else
        var current, audit := CorrectionOf(log[i], t1, text, reason), AuditOf(log[i], t2, t1, author, reason);
        (Done(current, audit), log + [current, audit])
  }

  // ---- appending keeps the links sound ----

  lemma AppendPlain(log: seq<Event>, e: Event)
    requires Linked(log) && Fresh(log, e.ts) && e.supersedes == None
    ensures Linked(log + [e])
  {
    var after := log + [e];
    forall j: nat | j < |after| && after[j].supersedes.Some? ensures exists i: nat :: i < j && Corrects(after, i, j) {
      var i: nat :| i < j && Corrects(log, i, j);
      assert Corrects(after, i, j);
    }
  }

  lemma AppendCorrection(log: seq<Event>, e: Event, i: nat)
    requires Linked(log) && Fresh(log, e.ts) && i < |log|
    requires e.supersedes == Some(log[i].ts) && !IsSuperseded(log, log[i].ts)
    ensures Linked(log + [e])
  {
    var after := log + [e];
    assert Corrects(after, i, |log|);
    forall j: nat | j < |after| && after[j].supersedes.Some? ensures exists i: nat :: i < j && Corrects(after, i, j) {
      if j < |log| {
        var i: nat :| i < j && Corrects(log, i, j);
        assert Corrects(after, i, j);
      }
    }
  }

  lemma SupersedingKeepsLinks(log: seq<Event>, target: Time, text: string, reason: Option<string>, author: string,
                              t1: Time, t2: Time)
    requires Linked(log) && Fresh(log, t1) && Fresh(log, t2) && t1 != t2
    ensures Linked(Superseding(log, target, text, reason, author, t1, t2).1)
  {
    var r := Superseding(log, target, text, reason, author, t1, t2);
    if r.0.Done? {
      AppendCorrection(log, r.0.current, Locate(log, target).value);
      AppendPlain(log + [r.0.current], r.0.audit);
      assert log + [r.0.current, r.0.audit] == log + [r.0.current] + [r.0.audit];
    }
  }

  // ---- the calm view ----

  lemma {:induction false} RemainingWithout(log: seq<Event>, gone: set<Time>, ts: Time)
    ensures Remaining(log, gone + {ts}, {}) == Without(Remaining(log, gone, {}), ts)
  {
    if log != [] {
      var rest, e := Remaining(log[..|log| - 1], gone, {}), log[|log| - 1];
      RemainingWithout(log[..|log| - 1], gone, ts);
      WithoutAppend(rest, e, ts);
      assert rest + [] == rest;
    }
  }

  lemma WithoutAppend(s: seq<Event>, e: Event, ts: Time)
    ensures Without(s + [e], ts) == Without(s, ts) + if e.ts == ts then [] else [e]
  {
    assert (s + [e])[..|s|] == s;
  }

  lemma {:induction false} WithoutOne(s: seq<Event>, i: nat)
    requires UniqueKeys(s) && i < |s|
    ensures |Without(s, s[i].ts)| == |s| - 1
  {
    var n := |s| - 1;
    if i < n {
      WithoutOne(s[..n], i);
    } else {
      WithoutNone(s[..n], s[n].ts);
    }
  }

  lemma {:induction false} WithoutNone(s: seq<Event>, ts: Time)
    requires Fresh(s, ts)
    ensures Without(s, ts) == s
  {
    if s != [] { WithoutNone(s[..|s| - 1], ts); }
  }

  /** The first entry stands earlier in the log. */
  ghost predicate Earlier(log: seq<Event>, a: Event, b: Event) {
    exists i: nat, j: nat :: i < j < |log| && log[i] == a && log[j] == b
  }

  /** The entries stand in the view as they do in the log. */
  ghost predicate InLogOrder(log: seq<Event>, view: seq<Event>) {
    forall p, q :: 0 <= p < q < |view| ==> Earlier(log, view[p], view[q])
  }

  lemma EarlierStays(log: seq<Event>, a: Event, b: Event, e: Event)
    requires Earlier(log, a, b)
    ensures Earlier(log + [e], a, b)
  {
    var i: nat, j: nat :| i < j < |log| && log[i] == a && log[j] == b;
    assert (log + [e])[i] == a && (log + [e])[j] == b;
  }

  lemma {:induction false} RemainingInOrder(log: seq<Event>, gone: set<Time>, exclude: set<string>)
    ensures InLogOrder(log, Remaining(log, gone, exclude))
    ensures forall e :: e in Remaining(log, gone, exclude) ==> e in log
  {
    if log != [] {
      var n := |log| - 1;
      var front, view := Remaining(log[..n], gone, exclude), Remaining(log, gone, exclude);
      RemainingInOrder(log[..n], gone, exclude);
      assert log == log[..n] + [log[n]];
      forall p, q | 0 <= p < q < |view| ensures Earlier(log, view[p], view[q]) {
        if q < |front| {
          EarlierStays(log[..n], front[p], front[q], log[n]);
        } else {
          assert front[p] in front && front[p] in log[..n];
          var i :| 0 <= i < n && log[..n][i] == front[p];
          assert log[i] == view[p] && log[n] == view[q];
        }
      }
    }
  }

  /** The view holds exactly the kept entries, each once and in log order. */
  lemma {:induction false} RemainingMeans(log: seq<Event>, gone: set<Time>, exclude: set<string>)
    requires UniqueKeys(log)
    ensures UniqueKeys(Remaining(log, gone, exclude))
    ensures forall e :: e in Remaining(log, gone, exclude) <==> e in log && e.ts !in gone && e.kind !in exclude
    ensures InLogOrder(log, Remaining(log, gone, exclude))
  {
    RemainingInOrder(log, gone, exclude);
    if log != [] {
      var n := |log| - 1;
      RemainingMeans(log[..n], gone, exclude);
      assert log == log[..n] + [log[n]];
      forall e | e in Remaining(log[..n], gone, exclude) ensures e.ts != log[n].ts {
        var k :| 0 <= k < n && log[..n][k] == e;
        assert log[k] == e;
      }
    }
  }

  lemma SupersededAppend(log: seq<Event>, e: Event)
    ensures SupersededKeys(log + [e]) ==
            SupersededKeys(log) + if e.supersedes.Some? then {e.supersedes.value} else {}
  {
    var after := log + [e];
    forall k | k in SupersededKeys(after)
      ensures k in SupersededKeys(log) + if e.supersedes.Some? then {e.supersedes.value} else {}
    {
      var j :| 0 <= j < |after| && after[j].supersedes == Some(k);
      if j < |log| { assert log[j].supersedes == Some(k); }
    }
    forall k | k in SupersededKeys(log) ensures k in SupersededKeys(after) {
      var j :| 0 <= j < |log| && log[j].supersedes == Some(k);
      assert after[j].supersedes == Some(k);
    }
    if e.supersedes.Some? { assert after[|log|].supersedes == e.supersedes; }
  }

  /** A plain append adds its entry to the calm view. */
  lemma CurrentAppend(log: seq<Event>, e: Event)
    requires Linked(log) && Fresh(log, e.ts) && e.supersedes == None
    ensures Current(log + [e]) == Current(log) + [e]
  {
    SupersededAppend(log, e);
    assert SupersededKeys(log + [e]) == SupersededKeys(log);
  }

  /** A correction takes its target out of the calm view and puts itself last. */
  lemma CurrentCorrection(log: seq<Event>, e: Event, i: nat)
    requires Linked(log) && Fresh(log, e.ts) && i < |log|
    requires e.supersedes == Some(log[i].ts) && !IsSuperseded(log, log[i].ts)
    ensures Current(log + [e]) == Without(Current(log), log[i].ts) + [e]
    ensures |Without(Current(log), log[i].ts)| == |Current(log)| - 1
  {
    var gone := SupersededKeys(log);
    SupersededAppend(log, e);
    RemainingWithout(log, gone, log[i].ts);
    WithoutCurrent(log, i);
  }

  lemma WithoutCurrent(log: seq<Event>, i: nat)
    requires Linked(log) && i < |log| && !IsSuperseded(log, log[i].ts)
    ensures |Without(Current(log), log[i].ts)| == |Current(log)| - 1
  {
    RemainingMeans(log, SupersededKeys(log), {});
    assert log[i] in Current(log);
    var k :| 0 <= k < |Current(log)| && Current(log)[k] == log[i];
    WithoutOne(Current(log), k);
  }

  /** A successful correction swaps its target for the corrected entry in the calm view and
      adds the audit entry: the view grows by exactly one. */
  lemma CurrentSuperseding(log: seq<Event>, target: Time, text: string, reason: Option<string>, author: string,
                           t1: Time, t2: Time)
    requires Linked(log) && Fresh(log, t1) && Fresh(log, t2) && t1 != t2
    requires Superseding(log, target, text, reason, author, t1, t2).0.Done?
    ensures var r := Superseding(log, target, text, reason, author, t1, t2);
            && Current(r.1) == Without(Current(log), target) + [r.0.current, r.0.audit]
            && |Current(r.1)| == |Current(log)| + 1
  {
    var r := Superseding(log, target, text, reason, author, t1, t2);
    var i, mid := Locate(log, target).value, log + [r.0.current];
    AppendCorrection(log, r.0.current, i);
    CurrentCorrection(log, r.0.current, i);
    CurrentAppend(mid, r.0.audit);
    assert r.1 == mid + [r.0.audit];
  }

  /** The entry is in the log, nothing corrects it, and its kind is not excluded. */
  predicate IsKept(log: seq<Event>, exclude: set<string>, e: Event) {
    e in log && !IsSuperseded(log, e.ts) && e.kind !in exclude
  }

  /** The view shows the latest `n` kept entries, or all of them when `n` is zero or there are
      fewer: every kept entry that is left out stands earlier than every entry shown. */
  ghost predicate ShowsLatest(log: seq<Event>, exclude: set<string>, n: nat, out: seq<Event>) {
    && (forall e :: e in out ==> IsKept(log, exclude, e))
    && UniqueKeys(out) && InLogOrder(log, out)
    && (forall e, shown :: IsKept(log, exclude, e) && e !in out && shown in out ==> Earlier(log, e, shown))
    && ((forall e :: IsKept(log, exclude, e) ==> e in out) || |out| == n)
    && (n > 0 ==> |out| <= n) && (n == 0 ==> forall e :: IsKept(log, exclude, e) ==> e in out)
  }

  lemma GoneIsSuperseded(log: seq<Event>, ts: Time)
    ensures ts in SupersededKeys(log) <==> IsSuperseded(log, ts)
  {
  }

  lemma LatestShown(log: seq<Event>, exclude: set<string>, n: nat, view: seq<Event>, front: seq<Event>, out: seq<Event>)
    requires UniqueKeys(view) && InLogOrder(log, view)
    requires forall e :: e in view <==> IsKept(log, exclude, e)
    requires view == front + out && (n == 0 ==> front == []) && (n > 0 ==> |out| <= n) && (front != [] ==> |out| == n)
    ensures ShowsLatest(log, exclude, n, out)
  {
    forall p, q | 0 <= p < q < |out| ensures Earlier(log, out[p], out[q]) && out[p].ts != out[q].ts {
      assert view[|front| + p] == out[p] && view[|front| + q] == out[q];
    }
    assert forall k :: |front| <= k < |view| ==> view[k] == out[k - |front|] && view[k] in out;
    forall e, shown | e in view && e !in out && shown in out ensures Earlier(log, e, shown) {
      var p :| 0 <= p < |view| && view[p] == e;
      var q :| 0 <= q < |out| && out[q] == shown;
      assert view[|front| + q] == shown && p < |front|;
    }
  }

  lemma LastNShows(log: seq<Event>, exclude: set<string>, n: nat)
    requires UniqueKeys(log)
    ensures ShowsLatest(log, exclude, n, LastN(Remaining(log, SupersededKeys(log), exclude), n))
  {
    var view := Remaining(log, SupersededKeys(log), exclude);
    RemainingMeans(log, SupersededKeys(log), exclude);
    forall e ensures e in view <==> IsKept(log, exclude, e) { GoneIsSuperseded(log, e.ts); }
    var out := LastN(view, n);
    LatestShown(log, exclude, n, view, view[..|view| - |out|], out);
  }

  // ---- what a correction writes ----

  /** The correction of `entry`: its text and reason are the given ones, the rest is taken over. */
  predicate IsCorrection(e: Event, entry: Event, ts: Time, text: string, reason: Option<string>) {
    && e.ts == ts && e.supersedes == Some(entry.ts) && e.summary == Note(text) && e.reason == reason
    && e.kind == entry.kind && e.source == entry.source && e.classification == entry.classification
  }

  /** The approval that goes with it: it names both times, who proposed it and why, and corrects
      nothing itself. */
  predicate IsApproval(e: Event, entry: Event, ts: Time, correction: Time, author: string, reason: Option<string>) {
    && e.ts == ts && e.kind == "approval" && e.summary == Approved(entry.ts, correction, author, reason)
    && e.source == "journal" && e.classification == entry.classification
    && e.supersedes == None && e.reason == None
  }

  /** A correction is refused exactly when there is no such entry or it has been corrected, and
      writes nothing then; otherwise it adds the correction and its approval to the log. */
  lemma SupersedingMeans(log: seq<Event>, target: Time, text: string, reason: Option<string>, author: string,
                         t1: Time, t2: Time)
    ensures var (outcome, after) := Superseding(log, target, text, reason, author, t1, t2);
            && (outcome == NoEntry <==> forall e :: e in log ==> e.ts != target)
            && (outcome == AlreadySuperseded <==>
                  (exists e :: e in log && e.ts == target) && (exists e :: e in log && e.supersedes == Some(target)))
            && (!outcome.Done? ==> after == log)
            && (outcome.Done? ==> after == log + [outcome.current, outcome.audit]
                                  && exists entry :: entry in log && entry.ts == target
                                                   && IsCorrection(outcome.current, entry, t1, text, reason)
                                                   && IsApproval(outcome.audit, entry, t2, t1, author, reason))
  {
    if exists e :: e in log && e.supersedes == Some(target) {
      var j :| 0 <= j < |log| && log[j].supersedes == Some(target);
    }
    if Locate(log, target).Some? { assert log[Locate(log, target).value] in log; }
  }

  // ---- chains ----

  /** The entry `i` corrects, and the entry that corrects it. */
  function Prev(log: seq<Event>, i: nat): (r: Option<nat>)
    requires i < |log|
    ensures r.Some? ==> r.value < |log| && Corrects(log, r.value, i)
  {
    if log[i].supersedes.Some? then Locate(log, log[i].supersedes.value) else None
  }

  function NextFrom(log: seq<Event>, ts: Time, j: nat): (r: Option<nat>)
    requires j <= |log|
    ensures r.Some? ==> j <= r.value < |log| && log[r.value].supersedes == Some(ts)
    ensures r.None? ==> forall k :: j <= k < |log| ==> log[k].supersedes != Some(ts)
    decreases |log| - j
  {
    if j == |log| then None
    else if log[j].supersedes == Some(ts) then Some(j)
    else NextFrom(log, ts, j + 1)
  }

  function Next(log: seq<Event>, i: nat): (r: Option<nat>)
    requires i < |log|
    ensures r.Some? ==> r.value < |log| && Corrects(log, i, r.value)
    ensures r.None? <==> !IsSuperseded(log, log[i].ts)
  {
    NextFrom(log, log[i].ts, 0)
  }

  lemma CorrectsIsUnique(log: seq<Event>, i: nat, j: nat)
    requires Linked(log) && i < |log| && j < |log| && Corrects(log, i, j)
    ensures i < j && Prev(log, j) == Some(i) && Next(log, i) == Some(j)
  {
    var k: nat :| k < j && Corrects(log, k, j);
    assert k == i;
    var p := Prev(log, j);
    assert !Fresh(log, log[i].ts);
    assert p.Some? && p.value == i;
    assert IsSuperseded(log, log[i].ts);
    assert Next(log, i).value == j;
  }

  /** The original a chain of corrections goes back to. */
  ghost function Root(log: seq<Event>, i: nat): (r: nat)
    requires Linked(log) && i < |log|
    ensures r <= i && log[r].supersedes == None
  {
    match Prev(log, i)
    case Some(p) =>
      CorrectsIsUnique(log, p, i);
      Root(log, p)
    case None =>
      LinkHasEntry(log, i);
      i
  }

  lemma LinkHasEntry(log: seq<Event>, i: nat)
    requires Linked(log) && i < |log|
    ensures Prev(log, i).None? <==> log[i].supersedes == None
  {
    if log[i].supersedes.Some? {
      var k: nat :| k < i && Corrects(log, k, i);
    }
  }

  /** The current version a chain of corrections leads to. */
  ghost function Tip(log: seq<Event>, i: nat): (t: nat)
    requires Linked(log) && i < |log|
    ensures i <= t < |log| && !IsSuperseded(log, log[t].ts)
    decreases |log| - i
  {
    match Next(log, i)
    case Some(n) =>
      CorrectsIsUnique(log, i, n);
      Tip(log, n)
    case None => i
  }

  lemma {:induction false} TipRoot(log: seq<Event>, i: nat)
    requires Linked(log) && i < |log|
    ensures Tip(log, Root(log, i)) == Tip(log, i)
  {
    match Prev(log, i)
    case Some(p) =>
      CorrectsIsUnique(log, p, i);
      TipRoot(log, p);
    case None =>
  }

  lemma {:induction false} RootTip(log: seq<Event>, i: nat)
    requires Linked(log) && i < |log|
    ensures Root(log, Tip(log, i)) == Root(log, i)
    decreases |log| - i
  {
    match Next(log, i)
    case Some(n) =>
      CorrectsIsUnique(log, i, n);
      RootTip(log, n);
    case None =>
  }

  /** The entries fall into linear chains: every original leads to one current version, every
      current version goes back to one original, and the two ways undo each other. */
  lemma ChainsAreLinear(log: seq<Event>, i: nat)
    requires Linked(log) && i < |log|
    ensures log[i].supersedes == None ==> Root(log, Tip(log, i)) == i
    ensures !IsSuperseded(log, log[i].ts) ==> Tip(log, Root(log, i)) == i
    ensures log[i] in Current(log) <==> Tip(log, i) == i
  {
    LinkHasEntry(log, i);
    RootTip(log, i);
    TipRoot(log, i);
    RemainingMeans(log, SupersededKeys(log), {});
    assert log[i].ts in SupersededKeys(log) <==> IsSuperseded(log, log[i].ts);
    if Next(log, i).Some? { CorrectsIsUnique(log, i, Next(log, i).value); }
  }

  function Originals(log: seq<Event>): nat {
    if log == [] then 0
    else Originals(log[..|log| - 1]) + if log[|log| - 1].supersedes == None then 1 else 0
  }

  lemma {:induction false} PrefixLinked(log: seq<Event>, n: nat)
    requires Linked(log) && n <= |log|
    ensures Linked(log[..n])
  {
    var p := log[..n];
    forall j: nat | j < |p| && p[j].supersedes.Some? ensures exists i: nat :: i < j && Corrects(p, i, j) {
      var i: nat :| i < j && Corrects(log, i, j);
      assert Corrects(p, i, j);
    }
  }

  /** Corrections neither lose nor split a chain: the calm view has one entry for each
      original, however many corrections were made. */
  lemma {:induction false} OneCurrentPerOriginal(log: seq<Event>)
    requires Linked(log)
    ensures |Current(log)| == Originals(log)
  {
    if log != [] {
      PrefixLinked(log, |log| - 1);
      OneCurrentPerOriginal(log[..|log| - 1]);
      LastCurrent(log);
    }
  }

  /** An original adds an entry to the calm view; a correction does not. */
  lemma LastCurrent(log: seq<Event>)
    requires Linked(log) && log != [] && Linked(log[..|log| - 1])
    ensures |Current(log)| == |Current(log[..|log| - 1])| + if log[|log| - 1].supersedes == None then 1 else 0
  {
    var n := |log| - 1;
    var p, e := log[..n], log[n];
    assert log == p + [e];
    if e.supersedes == None {
      CurrentAppend(p, e);
    } else {
      var i: nat :| i < n && Corrects(log, i, n);
      CurrentCorrection(p, e, i);
    }
  }

  // ---- the history of one entry ----

  /** Everything `i` replaced, transitively, oldest first. */
  ghost function Ancestors(log: seq<Event>, i: nat): (a: seq<nat>)
    requires Linked(log) && i < |log|
    ensures forall k :: 0 <= k < |a| ==> a[k] < i
  {
    match Prev(log, i)
    case Some(p) =>
      CorrectsIsUnique(log, p, i);
      Ancestors(log, p) + [p]
    case None => []
  }

  function Nearest(a: seq<nat>): seq<nat> { if |a| <= HISTORY_MAX then a else a[|a| - HISTORY_MAX..] }

  /** The indices `history_of` shows: the nearest predecessors, the entry, its correction. */
  ghost function History(log: seq<Event>, i: nat): (h: seq<nat>)
    requires Linked(log) && i < |log|
    ensures forall k :: 0 <= k < |h| ==> h[k] < |log|
  {
    Nearest(Ancestors(log, i)) + [i] + if Next(log, i).Some? then [Next(log, i).value] else []
  }

  ghost function EventsAt(log: seq<Event>, h: seq<nat>): seq<Event>
    requires forall k :: 0 <= k < |h| ==> h[k] < |log|
  {
    seq(|h|, k requires 0 <= k < |h| => log[h[k]])
  }

  /** Each index in turn is the correction of the one before it. */
  ghost predicate IsChain(log: seq<Event>, h: seq<nat>)
    requires forall k :: 0 <= k < |h| ==> h[k] < |log|
  {
    forall k :: 0 < k < |h| ==> h[k - 1] < h[k] && Corrects(log, h[k - 1], h[k])
  }

  lemma {:induction false} AncestorsChain(log: seq<Event>, i: nat)
    requires Linked(log) && i < |log|
    ensures IsChain(log, Ancestors(log, i) + [i])
    ensures |Ancestors(log, i)| > 0 ==> log[Ancestors(log, i)[0]].supersedes == None
    ensures |Ancestors(log, i)| == 0 ==> log[i].supersedes == None
  {
    LinkHasEntry(log, i);
    match Prev(log, i)
    case Some(p) =>
      CorrectsIsUnique(log, p, i);
      AncestorsChain(log, p);
    case None =>
  }

  /** The history is a stretch of the entry's chain: every element is the correction of the
      one before it, so nothing repeats; it holds all predecessors up to the nearest hundred,
      and ends with the entry's direct correction if there is one. */
  lemma HistoryIsChain(log: seq<Event>, i: nat)
    requires Linked(log) && i < |log|
    ensures IsChain(log, History(log, i)) && i in History(log, i)
    ensures |Ancestors(log, i)| <= 100 <==> log[History(log, i)[0]].supersedes == None
    ensures log[i] in Current(log) <==> History(log, i)[|History(log, i)| - 1] == i
  {
    AncestorsChain(log, i);
    var next := Next(log, i);
    if next.Some? { CorrectsIsUnique(log, i, next.value); }
    NearestChain(log, Ancestors(log, i), i, if next.Some? then [next.value] else []);
    ChainsAreLinear(log, i);
    HistoryStart(log, i);
  }

  /** A history starts at the original exactly when no predecessor is left out. */
  lemma HistoryStart(log: seq<Event>, i: nat)
    requires Linked(log) && i < |log|
    ensures |Ancestors(log, i)| <= HISTORY_MAX <==> log[History(log, i)[0]].supersedes == None
  {
    AncestorsChain(log, i);
    var a := Ancestors(log, i);
    if |a| > HISTORY_MAX {
      var k := |a| - HISTORY_MAX;
      assert (a + [i])[k] == a[k] == History(log, i)[0];
      assert Corrects(log, (a + [i])[k - 1], (a + [i])[k]);
    }
  }

  lemma NearestChain(log: seq<Event>, a: seq<nat>, i: nat, next: seq<nat>)
    requires i < |log| && (forall k :: 0 <= k < |a| ==> a[k] < |log|) && IsChain(log, a + [i])
    requires next == [] || (|next| == 1 && i < next[0] < |log| && Corrects(log, i, next[0]))
    ensures var h := Nearest(a) + [i] + next; (forall k :: 0 <= k < |h| ==> h[k] < |log|) && IsChain(log, h)
  {
    var near := Nearest(a);
    assert (a + [i])[|a| - |near|..] == near + [i];
    if next == [] {
      assert near + [i] + next == near + [i];
    } else {
      ChainPush(log, near + [i], next[0]);
      assert next == [next[0]];
    }
  }

  lemma ChainPush(log: seq<Event>, h: seq<nat>, n: nat)
    requires forall k :: 0 <= k < |h| ==> h[k] < |log|
    requires h != [] && IsChain(log, h) && n < |log| && h[|h| - 1] < n && Corrects(log, h[|h| - 1], n)
    ensures forall k :: 0 <= k < |h + [n]| ==> (h + [n])[k] < |log|
    ensures IsChain(log, h + [n])
  {
  }

  /** The whole chain of an entry, from its original to its current version. */
  ghost function FullChain(log: seq<Event>, i: nat): seq<nat>
    requires Linked(log) && i < |log|
  {
    Ancestors(log, Tip(log, i)) + [Tip(log, i)]
  }

  lemma {:induction false} TipIsFar(log: seq<Event>, i: nat)
    requires Linked(log) && i < |log|
    ensures |Ancestors(log, Tip(log, i))| >= |Ancestors(log, i)|
    decreases |log| - i
  {
    match Next(log, i)
    case Some(n) =>
      CorrectsIsUnique(log, i, n);
      TipIsFar(log, n);
    case None =>
  }

  lemma TipOf(log: seq<Event>, i: nat)
    requires Linked(log) && i < |log|
    ensures Next(log, i).None? ==> Tip(log, i) == i
    ensures Next(log, i).Some? ==>
              var n := Next(log, i).value; Tip(log, i) == Tip(log, n) && Ancestors(log, n) == Ancestors(log, i) + [i]
  {
    if Next(log, i).Some? { CorrectsIsUnique(log, i, Next(log, i).value); }
  }

  lemma NearestWhole(a: seq<nat>, rest: seq<nat>)
    ensures Nearest(a) + rest == a + rest <==> |a| <= HISTORY_MAX
  {
    assert |Nearest(a) + rest| == |Nearest(a)| + |rest|;
  }

  lemma ChainTooLong(log: seq<Event>, i: nat, n: nat, k: nat)
    requires Linked(log) && i < |log| && Next(log, i) == Some(n) && Next(log, n) == Some(k)
    ensures |History(log, i)| < |FullChain(log, i)|
  {
    TipOf(log, i);
    TipOf(log, n);
    TipIsFar(log, k);
  }

  lemma FullUnlessLong(log: seq<Event>, i: nat, rest: seq<nat>)
    requires Linked(log) && i < |log|
    requires Next(log, i) == if rest == [] then None else Some(rest[0])
    requires rest == [] || (|rest| == 1 && rest[0] < |log| && Next(log, rest[0]).None?)
    ensures History(log, i) == FullChain(log, i) <==> |Ancestors(log, i)| <= HISTORY_MAX
  {
    var a := Ancestors(log, i);
    assert History(log, i) == Nearest(a) + ([i] + rest);
    assert FullChain(log, i) == a + ([i] + rest) by { EndOfChain(log, i, rest); }
    NearestWhole(a, [i] + rest);
  }

  lemma EndOfChain(log: seq<Event>, i: nat, rest: seq<nat>)
    requires Linked(log) && i < |log|
    requires Next(log, i) == if rest == [] then None else Some(rest[0])
    requires rest == [] || (|rest| == 1 && rest[0] < |log| && Next(log, rest[0]).None?)
    ensures FullChain(log, i) == Ancestors(log, i) + ([i] + rest)
  {
    TipOf(log, i);
    if rest != [] {
      TipOf(log, rest[0]);
      assert rest == [rest[0]];
    }
  }

  /** The history is the full chain if and only if no more than a hundred predecessors are there
      and the direct correction, if any, has not been corrected in turn. */
  lemma HistoryIsFullIff(log: seq<Event>, i: nat)
    requires Linked(log) && i < |log|
    ensures History(log, i) == FullChain(log, i) <==>
            |Ancestors(log, i)| <= 100 && (Next(log, i).Some? ==> Next(log, Next(log, i).value).None?)
  {
    match Next(log, i)
    case None =>
      FullUnlessLong(log, i, []);
    case Some(n) =>
      match Next(log, n)
      case None => FullUnlessLong(log, i, [n]);
      case Some(k) => ChainTooLong(log, i, n, k);
  }

  /** `n` entries, each the correction of the one before it. */
  function Versions(n: nat): seq<Event> {
    seq(n, i requires 0 <= i < n => Event(i, "note", Note(""), "", "", if i == 0 then None else Some(i - 1), None))
  }

  lemma VersionsLinked(n: nat)
    ensures Linked(Versions(n))
  {
    var log := Versions(n);
    forall j: nat | j < |log| && log[j].supersedes.Some? ensures exists i: nat :: i < j && Corrects(log, i, j) {
      assert Corrects(log, j - 1, j);
    }
  }

  lemma VersionNext(n: nat, i: nat)
    requires i < n && Linked(Versions(n))
    ensures Next(Versions(n), i) == if i + 1 < n then Some(i + 1) else None
  {
    var log := Versions(n);
    if i + 1 < n {
      CorrectsIsUnique(log, i, i + 1);
    } else if Next(log, i).Some? {
      CorrectsIsUnique(log, i, Next(log, i).value);
    }
  }

  lemma {:induction false} VersionsAncestors(n: nat, i: nat)
    requires i < n && Linked(Versions(n))
    ensures |Ancestors(Versions(n), i)| == i
  {
    if i > 0 {
      VersionNext(n, i - 1);
      TipOf(Versions(n), i - 1);
      VersionsAncestors(n, i - 1);
    }
  }

  /** A case that fails: of 102 versions, the last one's history has lost the original. */
  lemma HistoryLosesOriginal()
    ensures Linked(Versions(102)) && 0 !in History(Versions(102), 101)
  {
    VersionsLinked(102);
    VersionsAncestors(102, 101);
    HistoryStart(Versions(102), 101);
    HistoryIsChain(Versions(102), 101);
    Increasing(Versions(102), History(Versions(102), 101));
  }

  /** A chain that starts with a correction does not hold the first entry. */
  lemma Increasing(log: seq<Event>, h: seq<nat>)
    requires h != [] && (forall k :: 0 <= k < |h| ==> h[k] < |log|) && IsChain(log, h)
    requires h[0] != 0
    ensures 0 !in h
  {
    forall k | 0 <= k < |h| ensures h[k] != 0 {
      if k > 0 { assert h[k - 1] < h[k]; }
    }
  }

  /** Another: of three versions, the first one's history lacks the current one. */
  lemma HistoryLacksCurrent()
    ensures Linked(Versions(3)) && Tip(Versions(3), 0) == 2 && 2 !in History(Versions(3), 0)
  {
    var log := Versions(3);
    VersionsLinked(3);
    VersionNext(3, 0);
    VersionNext(3, 1);
    VersionNext(3, 2);
    TipOf(log, 0);
    TipOf(log, 1);
    TipOf(log, 2);
    VersionsAncestors(3, 0);
    assert History(log, 0) == [] + [0] + [1];
  }

  // ---- the journal object ----

  class Journal {
    var log: seq<Event>

    ghost predicate Valid()
      reads this
    {
      Linked(log)
    }

    constructor ()
      ensures Valid() && log == []
    {
      log := [];
    }

    method Append(event: Event)
      modifies this
      ensures log == old(log) + [event]
    {
      log := log + [event];
    }

    method Record(kind: string, summary: string, source: string, classification: string, now: Time)
      returns (event: Event)
      requires Valid() && Fresh(log, now)
      modifies this
      ensures Valid() && log == old(log) + [event]
      ensures event == Event(now, kind, Note(summary), source, classification, None, None)
      ensures Current(log) == old(Current(log)) + [event]
    {
      event := Event(now, kind, Note(summary), source, classification, None, None);
      AppendPlain(log, event);
      CurrentAppend(log, event);
      Append(event);
    }

    method ByTs(ts: Time) returns (event: Option<Event>)
      ensures event == match Locate(log, ts) case None => None case Some(i) => Some(log[i])
    {
      for i := 0 to |log|
        invariant Locate(log[..i], ts) == None
      {
        assert log[..i + 1][..i] == log[..i];
        if log[i].ts == ts {
          LocateInPrefix(log, i + 1, ts);
          return Some(log[i]);
        }
      }
      assert log[..|log|] == log;
      return None;
    }

    method Supersede(target: Time, text: string, reason: Option<string>, proposedBy: string, t1: Time, t2: Time)
      returns (outcome: Outcome)
      requires Valid() && Fresh(log, t1) && Fresh(log, t2) && t1 != t2
      modifies this
      ensures Valid() && (outcome, log) == Superseding(old(log), target, text, reason, proposedBy, t1, t2)
    {
      SupersedingKeepsLinks(log, target, text, reason, proposedBy, t1, t2);
      var found := ByTs(target);
      if found.None? {
        return NoEntry;
      }
      var original := found.value;
      for j := 0 to |log|
        invariant forall k :: 0 <= k < j ==> log[k].supersedes != Some(original.ts)
      {
        if log[j].supersedes == Some(original.ts) {
          return AlreadySuperseded;
        }
      }
      var current := CorrectionOf(original, t1, text, reason);
      Append(current);
      var audit := AuditOf(original, t2, current.ts, proposedBy, reason);
      Append(audit);
      assert log == old(log) + [current, audit];
      return Done(current, audit);
    }

    method CurrentEvents(n: nat, exclude: set<string>) returns (out: seq<Event>)
      ensures out == LastN(Remaining(log, SupersededKeys(log), exclude), n)
      ensures Valid() ==> ShowsLatest(log, exclude, n, out)
    {
      var superseded := SupersededKeys(log);
      out := [];
      for i := 0 to |log|
        invariant out == Remaining(log[..i], superseded, exclude)
      {
        assert log[..i + 1][..i] == log[..i];
        var e := log[i];
        if e.ts in superseded {
          continue;
        }
        if e.kind in exclude {
          continue;
        }
        out := out + [e];
      }
      assert log[..|log|] == log;
      out := LastN(out, n);
      if UniqueKeys(log) { LastNShows(log, exclude, n); }
    }

    method HistoryOf(entry: Event, ghost i: nat) returns (chain: seq<Event>)
      requires Valid() && i < |log| && log[i] == entry
      ensures chain == EventsAt(log, History(log, i))
    {
      var near := WalkBack(entry, i);
      chain := WithCorrection(entry, i, near);
      var next := Next(log, i);
      EventsJoin(log, Nearest(Ancestors(log, i)) + [i], if next.Some? then [next.value] else []);
    }

    method WithCorrection(entry: Event, ghost i: nat, near: seq<Event>) returns (chain: seq<Event>)
      requires Valid() && i < |log| && log[i] == entry
      requires forall e :: e in near ==> exists k: nat :: k <= i && log[k] == e
      ensures chain == near + if Next(log, i).Some? then [log[Next(log, i).value]] else []
    {
      chain := near;
      ghost var next := Next(log, i);
      for j := 0 to |log|
        invariant chain == if next.Some? && next.value < j then near + [log[next.value]] else near
      {
        var cand := log[j];
        if cand.supersedes == Some(entry.ts) {
          CorrectsIsUnique(log, i, j);
          assert cand !in near;
          if cand !in chain {
            chain := chain + [cand];
          }
        }
      }
    }

    method WalkBack(entry: Event, ghost i: nat) returns (chain: seq<Event>)
      requires Valid() && i < |log| && log[i] == entry
      ensures chain == EventsAt(log, Nearest(Ancestors(log, i)) + [i])
      ensures forall e :: e in chain ==> exists k: nat :: k <= i && log[k] == e
    {
      chain := [entry];
      var cur, back: nat := entry, 0;
      ghost var c: nat, a := i, Ancestors(log, i);
      ghost var m: nat := |a|;
      while cur.supersedes.Some? && back < HISTORY_MAX
        invariant c <= i && log[c] == cur
        invariant m + back == |a| && back <= HISTORY_MAX && Ancestors(log, c) == a[..m]
        invariant chain == EventsAt(log, a[m..] + [i])
        decreases HISTORY_MAX - back
      {
        LinkHasEntry(log, c);
        var prev := ByTs(cur.supersedes.value);
        if prev.None? {
          break;
        }
        AncestorsStep(log, c);
        assert m > 0;
        m := m - 1;
        EventsPrepend(log, a, m, i);
        chain := [prev.value] + chain;
        cur := prev.value;
        c := Prev(log, c).value;
        back := back + 1;
      }
      AncestorsStep(log, c);
      EventsAmong(log, a[m..] + [i], i);
    }
  }

  lemma EventsJoin(log: seq<Event>, h: seq<nat>, more: seq<nat>)
    requires (forall k :: 0 <= k < |h| ==> h[k] < |log|) && (forall k :: 0 <= k < |more| ==> more[k] < |log|)
    ensures forall k :: 0 <= k < |h + more| ==> (h + more)[k] < |log|
    ensures EventsAt(log, h + more) == EventsAt(log, h) + EventsAt(log, more)
  {
  }

  lemma EventsPrepend(log: seq<Event>, a: seq<nat>, m: nat, i: nat)
    requires m < |a| && i < |log| && forall k :: 0 <= k < |a| ==> a[k] < |log|
    ensures EventsAt(log, a[m..] + [i]) == [log[a[m]]] + EventsAt(log, a[m + 1..] + [i])
    ensures a[..m + 1][..m] == a[..m] && a[..m + 1] == a[..m] + [a[m]]
  {
    assert a[m..] + [i] == [a[m]] + (a[m + 1..] + [i]);
  }

  lemma EventsAmong(log: seq<Event>, h: seq<nat>, i: nat)
    requires i < |log| && forall k :: 0 <= k < |h| ==> h[k] <= i
    ensures forall e :: e in EventsAt(log, h) ==> exists k: nat :: k <= i && log[k] == e
  {
  }

  lemma AncestorsStep(log: seq<Event>, c: nat)
    requires Linked(log) && c < |log|
    ensures Prev(log, c).None? ==> log[c].supersedes == None && Ancestors(log, c) == []
    ensures Prev(log, c).Some? ==>
              var p := Prev(log, c).value;
              p < c && log[c].supersedes == Some(log[p].ts)
              && |Ancestors(log, c)| > 0 && Ancestors(log, c) == Ancestors(log, p) + [p]
  {
    LinkHasEntry(log, c);
    if Prev(log, c).Some? { CorrectsIsUnique(log, Prev(log, c).value, c); }
  }

  lemma {:induction false} LocateInPrefix(log: seq<Event>, n: nat, ts: Time)
    requires n <= |log| && Locate(log[..n], ts).Some?
    ensures Locate(log, ts) == Locate(log[..n], ts)
  {
    if n == |log| {
      assert log[..n] == log;
    } else {
      assert log[..|log| - 1][..n] == log[..n];
      LocateInPrefix(log[..|log| - 1], n, ts);
    }
  }

  // ---- whole runs ----

  /** One write: a plain entry, or a correction (which may be refused). */
  ghost predicate Writes(before: seq<Event>, after: seq<Event>) {
    || (exists e: Event :: Fresh(before, e.ts) && e.supersedes == None && after == before + [e])
    || (exists target, text, reason, author, t1, t2 ::
          Fresh(before, t1) && Fresh(before, t2) && t1 != t2
          && after == Superseding(before, target, text, reason, author, t1, t2).1)
  }

  ghost predicate IsRun(logs: seq<seq<Event>>) {
    && logs != [] && logs[0] == []
    && forall k :: 0 < k < |logs| ==> Writes(logs[k - 1], logs[k])
  }

  /** Over every run of recordings and corrections: nothing written is ever rewritten, links
      point back and never branch, and the calm view shows one entry per original. */
  lemma {:induction false} RunsKeepChains(logs: seq<seq<Event>>, k: nat)
    requires IsRun(logs) && k < |logs|
    ensures Linked(logs[k]) && |Current(logs[k])| == Originals(logs[k])
    ensures forall m :: 0 <= m <= k ==> logs[m] <= logs[k]
  {
    if k > 0 {
      RunsKeepChains(logs, k - 1);
      WriteKeepsLinks(logs[k - 1], logs[k]);
    }
    OneCurrentPerOriginal(logs[k]);
  }

  lemma WriteKeepsLinks(before: seq<Event>, after: seq<Event>)
    requires Linked(before) && Writes(before, after)
    ensures Linked(after) && before <= after
  {
    if e: Event :| Fresh(before, e.ts) && e.supersedes == None && after == before + [e] {
      AppendPlain(before, e);
    } else {
      var target, text, reason, author, t1, t2 :|
        Fresh(before, t1) && Fresh(before, t2) && t1 != t2
        && after == Superseding(before, target, text, reason, author, t1, t2).1;
      SupersedingKeepsLinks(before, target, text, reason, author, t1, t2);
    }
  }

  // ---- the correction act of the API ----

  datatype Act =
    | Invalid
    | NotFound
    | AlreadyApplied(current: Event, superseded: Event)
    | Conflict
    | Corrected(current: Event, superseded: Event, audit: Event)

  const BY_SCREEN := "the Journal screen"
  const BY_ASSISTANT := "Personal World (assistant draft)"

  function DraftedBy(author: string): string { if Strip(author) == BY_ASSISTANT then BY_ASSISTANT else BY_SCREEN }

  function Reason(reason: string): Option<string> { if Strip(reason) == "" then None else Some(Strip(reason)) }

  function ActOn(log: seq<Event>, target: Option<Time>, text: string, reason: string, author: string,
                 t1: Time, t2: Time): (Act, seq<Event>) {
    if target.None? || Strip(text) == "" || |Strip(text)| > TEXT_MAX then (Invalid, log)
    else
      match Locate(log, target.value)
      case None => (NotFound, log)
      case Some(i) =>
        match Next(log, i)
        case Some(n) =>
          (if log[n].summary == Note(Strip(text)) then AlreadyApplied(log[n], log[i]) else Conflict, log)
        case None =>
          var r := Superseding(log, target.value, Strip(text), Reason(reason), DraftedBy(author), t1, t2);
          (if r.0.Done? then Corrected(r.0.current, log[i], r.0.audit) else Conflict, r.1)
  }

  method JournalSupersede(journal: Journal, target: Option<Time>, text: string, reason: string, author: string,
                          t1: Time, t2: Time)
    returns (act: Act)
    requires journal.Valid() && Fresh(journal.log, t1) && Fresh(journal.log, t2) && t1 != t2
    modifies journal
    ensures journal.Valid() && (act, journal.log) == ActOn(old(journal.log), target, text, reason, author, t1, t2)
  {
    var corrected := Strip(text);
    if target.None? || corrected == "" || |corrected| > TEXT_MAX {
      return Invalid;
    }
    var found := journal.ByTs(target.value);
    if found.None? {
      return NotFound;
    }
    var original := found.value;
    ghost var i := Locate(journal.log, target.value).value;
    for j := 0 to |journal.log|
      invariant forall k :: 0 <= k < j ==> journal.log[k].supersedes != Some(original.ts)
    {
      var later := journal.log[j];
      if later.supersedes == Some(original.ts) {
        CorrectsIsUnique(journal.log, i, j);
        if later.summary == Note(corrected) {
          return AlreadyApplied(later, original);
        }
        break;
      }
    }
    var outcome := journal.Supersede(target.value, corrected, Reason(reason), DraftedBy(author), t1, t2);
    if outcome.Done? {
      return Corrected(outcome.current, original, outcome.audit);
    }
    return Conflict;
  }

  /** The person's text as it would be written: something, and not too long. */
  predicate Writable(text: string) { 0 < |Strip(text)| <= 2000 }

  /** Who the approval names as having drafted the correction. */
  predicate Drafted(author: string, named: string) {
    named == if Strip(author) == "Personal World (assistant draft)" then Strip(author) else "the Journal screen"
  }

  predicate CorrectedWith(log: seq<Event>, target: Time, text: string, same: bool) {
    exists e :: e in log && e.supersedes == Some(target) && (e.summary == Note(Strip(text)) <==> same)
  }

  /** What the act answers, and when: a bad request, no such entry, a retry, another correction in
      its place, or the correction with trimmed text and its approval. Nothing else is written. */
  lemma ActMeans(log: seq<Event>, target: Option<Time>, text: string, reason: string, author: string,
                 t1: Time, t2: Time)
    requires Linked(log)
    ensures var (act, after) := ActOn(log, target, text, reason, author, t1, t2);
            && (act == Invalid <==> target.None? || !Writable(text))
            && (target.Some? && Writable(text) ==>
                  var here := exists e :: e in log && e.ts == target.value;
                  && (act == NotFound <==> !here)
                  && (act.AlreadyApplied? <==> here && CorrectedWith(log, target.value, text, true))
                  && (act == Conflict <==> here && CorrectedWith(log, target.value, text, false)))
            && (!act.Corrected? ==> after == log)
            && (act.Corrected? ==> after == log + [act.current, act.audit])
  {
    if target.Some? && Writable(text) && Locate(log, target.value).Some? {
      var i := Locate(log, target.value).value;
      assert log[i] in log;
      ActOnEntry(log, target.value, text, i);
    }
  }

  lemma ActOnEntry(log: seq<Event>, target: Time, text: string, i: nat)
    requires Linked(log) && i < |log| && log[i].ts == target
    ensures Next(log, i).None? ==> forall e :: e in log ==> e.supersedes != Some(target)
    ensures Next(log, i).Some? ==>
              var later := log[Next(log, i).value];
              later in log && forall e :: e in log && e.supersedes == Some(target) ==> e == later
    ensures Next(log, i).None? <==> !IsSuperseded(log, target)
  {
    if Next(log, i).Some? {
      var n := Next(log, i).value;
      forall e | e in log && e.supersedes == Some(target) ensures e == log[n] {
        var j :| 0 <= j < |log| && log[j] == e;
      }
    }
  }

  /** What the correction says: the trimmed text, the trimmed reason if there is one, and who
      drafted it; a retry gives back what stands there. */
  lemma ActWrites(log: seq<Event>, target: Option<Time>, text: string, reason: string, author: string,
                  t1: Time, t2: Time)
    requires Linked(log)
    ensures var act := ActOn(log, target, text, reason, author, t1, t2).0;
            var why := if Strip(reason) == "" then None else Some(Strip(reason));
            && (act.Corrected? ==>
                  && act.superseded in log && Some(act.superseded.ts) == target
                  && IsCorrection(act.current, act.superseded, t1, Strip(text), why)
                  && exists named :: Drafted(author, named)
                                     && IsApproval(act.audit, act.superseded, t2, t1, named, why))
            && (act.AlreadyApplied? ==>
                  && act.superseded in log && Some(act.superseded.ts) == target
                  && act.current in log && act.current.supersedes == target && act.current.summary == Note(Strip(text)))
  {
    assert Drafted(author, DraftedBy(author));
    if target.Some? && Locate(log, target.value).Some? { assert log[Locate(log, target.value).value] in log; }
  }

  lemma LocateKeyed(log: seq<Event>, i: nat)
    requires Linked(log) && i < |log|
    ensures Locate(log, log[i].ts) == Some(i)
  {
    var l := Locate(log, log[i].ts);
  }

  /** Retrying a correction that was made, at any later time, gives the same correction back
      and writes nothing; asking for a different one in its place is refused. */
  lemma RetryWritesNothing(log: seq<Event>, target: Option<Time>, text: string, reason: string, author: string,
                           t1: Time, t2: Time, later: seq<Event>, text': string, reason': string, by': string,
                           t1': Time, t2': Time)
    requires Linked(log) && Linked(later)
    requires ActOn(log, target, text, reason, author, t1, t2).0.Corrected?
    requires ActOn(log, target, text, reason, author, t1, t2).1 <= later
    requires 0 < |Strip(text')| <= TEXT_MAX
    ensures var done := ActOn(log, target, text, reason, author, t1, t2).0;
              ActOn(later, target, text', reason', by', t1', t2')
              == (if Strip(text') == Strip(text) then AlreadyApplied(done.current, done.superseded) else Conflict,
                  later)
  {
    var r := ActOn(log, target, text, reason, author, t1, t2);
    var i := Locate(log, target.value).value;
    assert later[|log|] == r.1[|log|] == r.0.current && later[i] == r.1[i] == log[i];
    LocateKeyed(later, i);
    assert Corrects(later, i, |log|);
    CorrectsIsUnique(later, i, |log|);
  }
}
