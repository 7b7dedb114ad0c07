/**
  The sliding-window rate budget (src/core/retry.h).
*/
module RateBudgets {

  /** Keeps the events not older than the window, oldest first. */
  function Expire(events: seq<int>, now: int, window: int): seq<int> {
    if events != [] && now - events[0] > window then Expire(events[1..], now, window) else events
  }

  /** At most `maxEvents` events per window. */
  class RateBudget {
    const maxEvents: int
    const window: int
    var events: seq<int>

    constructor (maxEvents: int, window: int)
      ensures this.maxEvents == maxEvents && this.window == window && events == []
    {
      this.maxEvents, this.window := maxEvents, window;
      events := [];
    }

    method TryConsume(now: int) returns (ok: bool)
      modifies this
      ensures ok == Grants(old(events), now, maxEvents, window)
      ensures events == Consumed(old(events), now, maxEvents, window)
    {
      while events != [] && now - events[0] > window
        invariant Expire(events, now, window) == Expire(old(events), now, window)
        decreases |events|
      {
        events := events[1..];
      }
      if |events| >= maxEvents {
        return false;
      }
      events := events + [now];
      ok := true;
    }
  }

  predicate Grants(events: seq<int>, now: int, maxEvents: int, window: int) {
    |Expire(events, now, window)| < maxEvents
  }

  function Consumed(events: seq<int>, now: int, maxEvents: int, window: int): seq<int> {
    var kept := Expire(events, now, window);
    if |kept| < maxEvents then kept + [now] else kept
  }

  // ----- whole histories of calls

  /** The budget after a history of calls, with the times of all successful ones. */
  datatype History = History(events: seq<int>, successes: seq<int>)

  function After(calls: seq<int>, maxEvents: int, window: int): History {
    if calls == [] then History([], [])
    else
      var h := After(calls[..|calls| - 1], maxEvents, window);
      var now := calls[|calls| - 1];
      History(Consumed(h.events, now, maxEvents, window),
              if Grants(h.events, now, maxEvents, window) then h.successes + [now] else h.successes)
  }

  predicate NonDecreasing(ts: seq<int>) {
    forall i, j :: 0 <= i < j < |ts| ==> ts[i] <= ts[j]
  }

  /** The successes held are the latest ones, and every earlier one has left the window. */
  ghost predicate Holds(h: History, now: int, maxEvents: int, window: int) {
    && |h.events| <= |h.successes|
    && h.events == h.successes[|h.successes| - |h.events|..]
    && |h.events| <= (if maxEvents > 0 then maxEvents else 0)
    && NonDecreasing(h.successes)
    && (forall i :: 0 <= i < |h.successes| ==> h.successes[i] <= now)
    && (forall i :: 0 <= i < |h.successes| - |h.events| ==> now - h.successes[i] > window)
    && Spaced(h.successes, maxEvents, window)
  }

  /** Any success and the one `maxEvents` before it are more than a window apart. */
  ghost predicate Spaced(ts: seq<int>, maxEvents: int, window: int) {
    forall i, j :: 0 <= i < j < |ts| && j >= i + maxEvents ==> ts[j] - ts[i] > window
  }

  /** Expiry drops a prefix: exactly the events older than the window. */
  lemma {:induction false} ExpireIsSuffix(events: seq<int>, now: int, window: int) returns (k: nat)
    requires NonDecreasing(events)
    ensures k <= |events| && Expire(events, now, window) == events[k..]
    ensures forall i :: 0 <= i < k ==> now - events[i] > window
    ensures forall i :: k <= i < |events| ==> now - events[i] <= window
    decreases |events|
  {
    if events != [] && now - events[0] > window {
      var j := ExpireIsSuffix(events[1..], now, window);
      k := j + 1;
      assert events[1..][j..] == events[k..];
      assert forall i :: 1 <= i < |events| ==> events[i] == events[1..][i - 1];
    } else {
      k := 0;
    }
  }

  lemma SuffixOrdered(ts: seq<int>, d: nat)
    requires d <= |ts| && NonDecreasing(ts)
    ensures NonDecreasing(ts[d..])
  {
  }

  /** Expiring a suffix of the successes leaves a later suffix: those inside the window. */
  lemma WindowOf(ts: seq<int>, d: nat, now: int, window: int) returns (e: nat)
    requires d <= |ts| && NonDecreasing(ts)
    requires forall i :: 0 <= i < |ts| ==> ts[i] <= now
    requires forall i :: 0 <= i < d ==> now - ts[i] > window
    ensures d <= e <= |ts| && Expire(ts[d..], now, window) == ts[e..]
    ensures forall i :: 0 <= i < e ==> now - ts[i] > window
    ensures forall i :: e <= i < |ts| ==> now - window <= ts[i] <= now
  {
    SuffixOrdered(ts, d);
    var k := ExpireIsSuffix(ts[d..], now, window);
    e := d + k;
    assert ts[d..][k..] == ts[e..];
    assert forall i :: d <= i < |ts| ==> ts[i] == ts[d..][i - d];
  }

  /** What a call keeps: the successes still inside the window, wherever that starts. */
  lemma KeptIsWindow(h: History, before: int, now: int, maxEvents: int, window: int) returns (e: nat)
    requires Holds(h, before, maxEvents, window) && before <= now
    ensures e <= |h.successes| && Expire(h.events, now, window) == h.successes[e..]
    ensures |h.successes| - e <= |h.events|
    ensures forall i :: 0 <= i < e ==> now - h.successes[i] > window
    ensures forall i :: e <= i < |h.successes| ==> now - window <= h.successes[i] <= now
  {
    e := WindowOf(h.successes, |h.successes| - |h.events|, now, window);
  }

  lemma SpacedPush(ts: seq<int>, e: nat, now: int, maxEvents: int, window: int)
    requires Spaced(ts, maxEvents, window) && e <= |ts| && |ts| - e < maxEvents
    requires forall i :: 0 <= i < e ==> now - ts[i] > window
    ensures Spaced(ts + [now], maxEvents, window)
  {
  }

  lemma HoldsFrom(ts: seq<int>, e: nat, now: int, maxEvents: int, window: int)
    requires e <= |ts| && |ts| - e <= (if maxEvents > 0 then maxEvents else 0)
    requires NonDecreasing(ts) && Spaced(ts, maxEvents, window)
    requires forall i :: 0 <= i < |ts| ==> ts[i] <= now
    requires forall i :: 0 <= i < e ==> now - ts[i] > window
    ensures Holds(History(ts[e..], ts), now, maxEvents, window)
  {
  }

  lemma StepHolds(h: History, before: int, now: int, maxEvents: int, window: int)
    requires Holds(h, before, maxEvents, window) && before <= now
    ensures var granted := Grants(h.events, now, maxEvents, window);
            Holds(History(Consumed(h.events, now, maxEvents, window),
                          if granted then h.successes + [now] else h.successes), now, maxEvents, window)
  {
    var e := KeptIsWindow(h, before, now, maxEvents, window);
    if |h.successes| - e < maxEvents {
      GrantHolds(h.successes, e, now, maxEvents, window);
    } else {
      HoldsFrom(h.successes, e, now, maxEvents, window);
    }
  }

  /** One more success while fewer than the limit lie in the window. */
  lemma GrantHolds(ts: seq<int>, e: nat, now: int, maxEvents: int, window: int)
    requires e <= |ts| && |ts| - e < maxEvents && NonDecreasing(ts) && Spaced(ts, maxEvents, window)
    requires forall i :: 0 <= i < |ts| ==> ts[i] <= now
    requires forall i :: 0 <= i < e ==> now - ts[i] > window
    ensures Holds(History(ts[e..] + [now], ts + [now]), now, maxEvents, window)
  {
    SpacedPush(ts, e, now, maxEvents, window);
    assert (ts + [now])[e..] == ts[e..] + [now];
    HoldsFrom(ts + [now], e, now, maxEvents, window);
  }

  lemma {:induction false} AlwaysHolds(calls: seq<int>, maxEvents: int, window: int)
    requires calls != [] && NonDecreasing(calls)
    ensures Holds(After(calls, maxEvents, window), calls[|calls| - 1], maxEvents, window)
  {
    var n := |calls| - 1;
    var now := calls[n];
    if n == 0 {
      assert calls[..0] == [];
      assert Holds(History([], []), now, maxEvents, window);
      StepHolds(History([], []), now, now, maxEvents, window);
    } else {
      AlwaysHolds(calls[..n], maxEvents, window);
      StepHolds(After(calls[..n], maxEvents, window), calls[n - 1], now, maxEvents, window);
    }
  }

  // ----- the statements

  /** How many of the times lie in a closed interval. */
  function CountIn(ts: seq<int>, lo: int, hi: int): nat {
    if ts == [] then 0
    else CountIn(ts[..|ts| - 1], lo, hi) + (if lo <= ts[|ts| - 1] <= hi then 1 else 0)
  }

  /** In an ordered sequence the times inside an interval are consecutive. */
  lemma {:induction false} InsideIsBlock(ts: seq<int>, lo: int, hi: int) returns (i: nat, j: nat)
    requires NonDecreasing(ts) && CountIn(ts, lo, hi) > 0
    ensures i <= j < |ts| && j - i + 1 == CountIn(ts, lo, hi)
    ensures lo <= ts[i] && ts[j] <= hi
    ensures forall k :: j < k < |ts| ==> ts[k] > hi
  {
    var n := |ts| - 1;
    if CountIn(ts[..n], lo, hi) == 0 {
      i, j := n, n;
    } else {
      i, j := InsideIsBlock(ts[..n], lo, hi);
      assert ts[..n][i] == ts[i] && ts[..n][j] == ts[j];
      assert forall k :: j < k < n ==> ts[k] == ts[..n][k];
      if ts[n] <= hi {
        assert ts[n - 1] <= ts[n];
        j := n;
      }
    }
  }

  /**
    For every non-decreasing sequence of call times, any closed interval no longer
    than the window contains at most `maxEvents` successes.
  */
  lemma AtMostPerWindow(calls: seq<int>, maxEvents: nat, window: int, lo: int, hi: int)
    requires NonDecreasing(calls) && hi - lo <= window
    ensures CountIn(After(calls, maxEvents, window).successes, lo, hi) <= maxEvents
  {
    if calls != [] {
      AlwaysHolds(calls, maxEvents, window);
      var ts := After(calls, maxEvents, window).successes;
      if CountIn(ts, lo, hi) > 0 {
        var i, j := InsideIsBlock(ts, lo, hi);
        if maxEvents == 0 {
          NothingGranted(calls, window);
        }
      }
    }
  }

  /** An empty budget grants nothing. */
  lemma {:induction false} NothingGranted(calls: seq<int>, window: int)
    ensures After(calls, 0, window).successes == []
  {
    if calls != [] {
      NothingGranted(calls[..|calls| - 1], window);
    }
  }

  lemma {:induction false} CountSuffix(ts: seq<int>, e: nat, lo: int, hi: int)
    requires e <= |ts|
    requires forall i :: 0 <= i < e ==> ts[i] < lo
    requires forall i :: e <= i < |ts| ==> lo <= ts[i] <= hi
    ensures CountIn(ts, lo, hi) == |ts| - e
  {
    if ts != [] {
      var n := |ts| - 1;
      CountSuffix(ts[..n], if e == |ts| then n else e, lo, hi);
    }
  }

  lemma KeptIsCounted(h: History, before: int, now: int, maxEvents: int, window: int)
    requires Holds(h, before, maxEvents, window) && before <= now
    ensures |Expire(h.events, now, window)| == CountIn(h.successes, now - window, now)
  {
    var e := KeptIsWindow(h, before, now, maxEvents, window);
    CountSuffix(h.successes, e, now - window, now);
  }

  /**
    The window is exact: a call is granted if and only if fewer than `maxEvents`
    earlier calls were granted in the closed window that ends with it.
  */
  lemma GrantedIffBudgetLeft(calls: seq<int>, now: int, maxEvents: int, window: int)
    requires NonDecreasing(calls) && (calls != [] ==> calls[|calls| - 1] <= now)
    ensures var h := After(calls, maxEvents, window);
            Grants(h.events, now, maxEvents, window) <==> CountIn(h.successes, now - window, now) < maxEvents
  {
    if calls != [] {
      AlwaysHolds(calls, maxEvents, window);
      KeptIsCounted(After(calls, maxEvents, window), calls[|calls| - 1], now, maxEvents, window);
    }
  }
}
