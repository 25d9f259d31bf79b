/** The sliding-window limit on journal-gate asks (`_gate_rate_limited`). Calls are
    serialised by the lock; the clock is `time.monotonic`, so it never goes back. */
module RateLimiter {

  const LIMIT := 20
  const WINDOW := 60.0

  datatype Ask = Ask(caller: string, now: real)

  // ---- one call ----

  /** The window without the asks at its front that are a full window old. */
  function Pruned(window: seq<real>, now: real): seq<real> {
    if window != [] && now - window[0] >= WINDOW then Pruned(window[1..], now) else window
  }

  function WindowOf(windows: map<string, seq<real>>, caller: string): seq<real> {
    if caller in windows then windows[caller] else []
  }

  predicate Refused(windows: map<string, seq<real>>, ask: Ask) {
    |Pruned(WindowOf(windows, ask.caller), ask.now)| >= LIMIT
  }

  function After(windows: map<string, seq<real>>, ask: Ask): map<string, seq<real>> {
    var kept := Pruned(WindowOf(windows, ask.caller), ask.now);
    windows[ask.caller := if Refused(windows, ask) then kept else kept + [ask.now]]
  }

  class Limiter {
    var windows: map<string, seq<real>>

    constructor ()
      ensures windows == map[]
    {
      windows := map[];
    }

    method RateLimited(caller: string, now: real) returns (limited: bool)
      modifies this
      ensures limited == Refused(old(windows), Ask(caller, now))
      ensures windows == After(old(windows), Ask(caller, now))
    {
      var window := if caller in windows then windows[caller] else [];
      ghost var before := window;
      while window != [] && now - window[0] >= WINDOW
        invariant Pruned(window, now) == Pruned(before, now)
        decreases |window|
      {
        window := window[1..];
      }
      if |window| >= LIMIT {
        windows := windows[caller := window];
        return true;
      }
      windows := windows[caller := window + [now]];
      return false;
    }
  }

  // ---- whole runs ----

  /** The windows after a run, from none. */
  function RunFrom(run: seq<Ask>): map<string, seq<real>> {
    if run == [] then map[] else After(RunFrom(run[..|run| - 1]), run[|run| - 1])
  }

  /** The times at which the run's asks of one caller were accepted, in order. */
  function Accepted(run: seq<Ask>, caller: string): seq<real> {
    if run == [] then []
    else
      var before, ask := run[..|run| - 1], run[|run| - 1];
      Accepted(before, caller) + if ask.caller == caller && !Refused(RunFrom(before), ask) then [ask.now] else []
  }

  predicate Clocked(run: seq<Ask>) { forall i, j :: 0 <= i < j < |run| ==> run[i].now <= run[j].now }

  predicate Sorted(times: seq<real>) { forall i, j :: 0 <= i < j < |times| ==> times[i] <= times[j] }

  /** How many of the times lie in the half-open window of 60 seconds from `t`. */
  function CountIn(times: seq<real>, t: real): nat {
    if times == [] then 0
    else
      var last := times[|times| - 1];
      CountIn(times[..|times| - 1], t) + if t <= last < t + 60.0 then 1 else 0
  }

  /** How many of the times lie less than 60 seconds before `now`. */
  function CountRecent(times: seq<real>, now: real): nat {
    if times == [] then 0
    else CountRecent(times[..|times| - 1], now) + if now - times[|times| - 1] < 60.0 then 1 else 0
  }

  lemma {:induction false} PrunedSuffix(window: seq<real>, now: real) returns (k: nat)
    ensures k <= |window| && Pruned(window, now) == window[k..]
    ensures forall i :: 0 <= i < k ==> now - window[i] >= WINDOW
    ensures k < |window| ==> now - window[k] < WINDOW
  {
    k := 0;
    if window != [] && now - window[0] >= WINDOW {
      k := PrunedSuffix(window[1..], now);
      assert window[1..][k..] == window[k + 1..];
      k := k + 1;
    }
  }

  /** A caller's window is the end of its accepted times; what is gone from it is a full
      window older than `now`. */
  ghost predicate Remembers(window: seq<real>, times: seq<real>, now: real) {
    && Sorted(times)
    && |window| <= |times| && window == times[|times| - |window|..]
    && (forall i :: 0 <= i < |times| - |window| ==> now - times[i] >= WINDOW)
    && (forall i :: 0 <= i < |times| ==> times[i] <= now)
  }

  /** Twenty accepted asks further on, at least 60 seconds have passed. */
  predicate Spaced(times: seq<real>) {
    forall i :: 0 <= i < |times| - LIMIT ==> times[i + LIMIT] - times[i] >= WINDOW
  }

  lemma PruneRemembers(window: seq<real>, times: seq<real>, now: real)
    requires Remembers(window, times, now)
    ensures Remembers(Pruned(window, now), times, now)
    ensures forall i :: 0 <= i < |Pruned(window, now)| ==> now - Pruned(window, now)[i] < WINDOW
  {
    var k := PrunedSuffix(window, now);
    var gone := |times| - |window|;
    assert window[k..] == times[gone + k..];
    forall i | 0 <= i < gone + k ensures now - times[i] >= WINDOW {
      if i >= gone { assert times[i] == window[i - gone]; }
    }
    forall i | k <= i < |window| ensures now - window[i] < WINDOW {
      assert window[i] == times[gone + i] && window[k] == times[gone + k];
    }
  }

  lemma AcceptSpaced(kept: seq<real>, times: seq<real>, now: real)
    requires Remembers(kept, times, now) && Spaced(times) && |kept| < LIMIT
    ensures Remembers(kept + [now], times + [now], now) && Spaced(times + [now])
  {
    var after := times + [now];
    assert after[|after| - |kept| - 1..] == times[|times| - |kept|..] + [now];
    forall i | 0 <= i < |after| - LIMIT ensures after[i + LIMIT] - after[i] >= WINDOW {
      if i + LIMIT == |times| { assert i < |times| - |kept|; }
    }
  }

  lemma {:induction false} RunRemembers(run: seq<Ask>, caller: string, now: real)
    requires Clocked(run) && forall i :: 0 <= i < |run| ==> run[i].now <= now
    ensures Remembers(WindowOf(RunFrom(run), caller), Accepted(run, caller), now)
    ensures Spaced(Accepted(run, caller))
  {
    if run != [] {
      var before, ask := run[..|run| - 1], run[|run| - 1];
      RunRemembers(before, caller, ask.now);
      var window, times := WindowOf(RunFrom(before), caller), Accepted(before, caller);
      if ask.caller == caller { AskRemembers(window, times, ask.now); }
      LastAsk(run, caller);
    }
  }

  /** What the last ask of a run does to a caller's window and accepted times. */
  lemma LastAsk(run: seq<Ask>, caller: string)
    requires run != []
    ensures var before, ask := run[..|run| - 1], run[|run| - 1];
            var window, times := WindowOf(RunFrom(before), caller), Accepted(before, caller);
            var kept := Pruned(window, ask.now);
            (WindowOf(RunFrom(run), caller), Accepted(run, caller)) ==
            if ask.caller != caller then (window, times)
            else if |kept| >= LIMIT then (kept, times)
            else (kept + [ask.now], times + [ask.now])
  {
    var times := Accepted(run[..|run| - 1], caller);
    assert times + [] == times;
  }

  /** One ask, accepted or refused. */
  lemma AskRemembers(window: seq<real>, times: seq<real>, now: real)
    requires Remembers(window, times, now) && Spaced(times)
    ensures var kept := Pruned(window, now);
            if |kept| >= LIMIT then Remembers(kept, times, now)
            else Remembers(kept + [now], times + [now], now) && Spaced(times + [now])
  {
    PruneRemembers(window, times, now);
    var kept := Pruned(window, now);
    if |kept| < LIMIT { AcceptSpaced(kept, times, now); }
  }

  // ---- counting ----

  lemma {:induction false} CountBounds(times: seq<real>, t: real)
    ensures CountIn(times, t) <= |times|
    ensures (forall i :: 0 <= i < |times| ==> times[i] < t) ==> CountIn(times, t) == 0
  {
    if times != [] { CountBounds(times[..|times| - 1], t); }
  }

  lemma {:induction false} CountSplit(times: seq<real>, k: nat, t: real)
    requires k <= |times|
    ensures CountIn(times, t) == CountIn(times[..k], t) + CountIn(times[k..], t)
  {
    var n := |times|;
    if k == n {
      assert times[..k] == times && times[k..] == [];
    } else {
      CountSplit(times[..n - 1], k, t);
      assert times[k..] != [] && times[k..][n - k - 1] == times[n - 1];
      assert times[..n - 1][..k] == times[..k] && times[..n - 1][k..] == times[k..][..n - 1 - k];
    }
  }

  lemma {:induction false} SpacedCount(times: seq<real>, t: real)
    requires Sorted(times) && Spaced(times)
    ensures CountIn(times, t) <= LIMIT
  {
    if times != [] {
      var n := |times|;
      if t <= times[n - 1] < t + WINDOW {
        if n > LIMIT {
          var k := n - LIMIT;
          CountSplit(times, k, t);
          assert times[k - 1 + LIMIT] - times[k - 1] >= WINDOW;
          CountBounds(times[..k], t);
          CountBounds(times[k..], t);
        } else {
          CountBounds(times, t);
        }
      } else {
        SpacedCount(times[..n - 1], t);
      }
    }
  }

  /** In every run, any half-open window of 60 seconds holds at most 20 accepted asks of a caller. */
  lemma AtMostTwentyAMinute(run: seq<Ask>, caller: string, t: real)
    requires Clocked(run)
    ensures CountIn(Accepted(run, caller), t) <= 20
  {
    RunRemembers(run, caller, if run == [] then t else run[|run| - 1].now);
    SpacedCount(Accepted(run, caller), t);
  }

  lemma {:induction false} CountRecentIs(times: seq<real>, k: nat, now: real)
    requires k <= |times|
    requires forall i :: 0 <= i < k ==> now - times[i] >= WINDOW
    requires forall i :: k <= i < |times| ==> now - times[i] < WINDOW
    ensures CountRecent(times, now) == |times| - k
  {
    if times != [] {
      CountRecentIs(times[..|times| - 1], if k == |times| then k - 1 else k, now);
    }
  }

  lemma SpacedAt(times: seq<real>, i: nat)
    requires Spaced(times) && i + LIMIT < |times|
    ensures times[i + LIMIT] - times[i] >= WINDOW
  {
  }

  /** A pruned window never holds more than the limit. */
  lemma WindowBounded(kept: seq<real>, times: seq<real>, now: real)
    requires Remembers(kept, times, now) && Spaced(times)
    requires forall i :: 0 <= i < |kept| ==> now - kept[i] < WINDOW
    ensures |kept| <= LIMIT
    ensures CountRecent(times, now) == |kept|
  {
    var first := |times| - |kept|;
    assert forall i :: 0 <= i < |kept| ==> kept[i] == times[first + i];
    assert forall i :: first <= i < |times| ==> times[i] == kept[i - first];
    CountRecentIs(times, first, now);
    if |kept| > LIMIT { SpacedAt(times, first); }
  }

  /** An ask is refused exactly when 20 asks of its caller were accepted less than 60 seconds
      before it; there are never more. */
  lemma RefusedExactly(run: seq<Ask>, ask: Ask)
    requires Clocked(run + [ask])
    ensures Refused(RunFrom(run), ask) <==> CountRecent(Accepted(run, ask.caller), ask.now) == 20
    ensures CountRecent(Accepted(run, ask.caller), ask.now) <= 20
  {
    var all := run + [ask];
    assert forall i :: 0 <= i < |run| ==> all[i] == run[i] && all[i].now <= all[|run|].now;
    RunRemembers(run, ask.caller, ask.now);
    var window, times := WindowOf(RunFrom(run), ask.caller), Accepted(run, ask.caller);
    PruneRemembers(window, times, ask.now);
    WindowBounded(Pruned(window, ask.now), times, ask.now);
  }
}
