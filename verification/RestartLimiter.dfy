/** The supervisor's restart-intensity limit (allowRestart in daemon/supervisor/supervisor.go): a slice of recent
    restart times, compacted in place on every call. */
module RestartLimiter {

  /** The times strictly after the cutoff, in order. */
  function After(times: seq<int>, cutoff: int): (kept: seq<int>)
    ensures |kept| <= |times|
  {
    if times == [] then []
    else
      var last := |times| - 1;
      After(times[..last], cutoff) + if times[last] > cutoff then [times[last]] else []
  }

  /** One call on the remembered times: forget the old ones, then remember and grant, or refuse. */
  function Allow(remembered: seq<int>, maxRestarts: int, window: int, now: int): (seq<int>, bool) {
    var kept := After(remembered, now - window);
    if |kept| >= maxRestarts then (kept, false) else (kept + [now], true)
  }

  /** What is remembered, and every restart ever granted, after calls at these times. */
  function Calls(maxRestarts: int, window: int, times: seq<int>): (seq<int>, seq<int>) {
    if times == [] then ([], [])
    else
      var last := |times| - 1;
      var (remembered, granted) := Calls(maxRestarts, window, times[..last]);
      var (kept, ok) := Allow(remembered, maxRestarts, window, times[last]);
      (kept, if ok then granted + [times[last]] else granted)
  }

  lemma OneMoreCall(maxRestarts: int, window: int, times: seq<int>, now: int)
    ensures Calls(maxRestarts, window, times + [now]).0 ==
            Allow(Calls(maxRestarts, window, times).0, maxRestarts, window, now).0
    ensures Calls(maxRestarts, window, times + [now]).1 == Calls(maxRestarts, window, times).1 +
            if Allow(Calls(maxRestarts, window, times).0, maxRestarts, window, now).1 then [now] else []
  {
    assert (times + [now])[..|times|] == times;
  }

  class Limiter {
    const maxRestarts: int
    const window: int
    var buffer: array<int>
    var count: nat
    ghost var calls: seq<int>

    ghost predicate Valid()
      reads this, buffer
    {
      count <= buffer.Length && buffer[..count] == Calls(maxRestarts, window, calls).0
    }

    constructor (maxRestarts: int, window: int)
      ensures Valid() && calls == [] && this.maxRestarts == maxRestarts && this.window == window && fresh(buffer)
    {
      this.maxRestarts, this.window := maxRestarts, window;
      buffer, count, calls := new int[0], 0, [];
    }

    /** Moves the times after the cutoff to the front of the slice, over the ones before them. */
    method Compact(cutoff: int)
      requires count <= buffer.Length
      modifies this`count, buffer
      ensures count <= buffer.Length && buffer[..count] == After(old(buffer[..count]), cutoff)
    {
      var kept := 0;
      ghost var was := buffer[..count];
      ghost var done := [];
      var n := count;
      for i := 0 to n
        invariant kept == |done| <= i && count == n && done == After(was[..i], cutoff)
        invariant forall j :: 0 <= j < kept ==> buffer[j] == done[j]
        invariant forall j :: i <= j < n ==> buffer[j] == was[j]
      {
        assert was[..i + 1] == was[..i] + [was[i]];
        AfterOfAppend(was[..i], was[i], cutoff);
        if buffer[i] > cutoff {
          buffer[kept] := buffer[i];
          kept := kept + 1;
          done := done + [was[i]];
        }
      }
      assert was[..n] == was;
      count := kept;
    }

    /** append: in place while there is room, otherwise into a larger array. */
    method Append(now: int)
      requires count <= buffer.Length
      modifies this`count, this`buffer, buffer
      ensures count <= buffer.Length && buffer[..count] == old(buffer[..count]) + [now]
      ensures buffer == old(buffer) || fresh(buffer)
    {
      if count == buffer.Length {
        var n := count;
        var larger := new int[2 * n + 1];
        for i := 0 to n
          invariant count == n && buffer == old(buffer) && buffer[..n] == old(buffer[..count])
          invariant forall j :: 0 <= j < i ==> larger[j] == buffer[j]
        {
          larger[i] := buffer[i];
        }
        buffer := larger;
      }
      buffer[count] := now;
      count := count + 1;
    }

    /** allowRestart: the answer and the remembered times are those of the specification over all calls so
        far. */
    method AllowRestart(now: int) returns (ok: bool)
      requires Valid()
      modifies this, buffer
      ensures Valid() && calls == old(calls) + [now] && (buffer == old(buffer) || fresh(buffer))
      ensures ok == Allow(Calls(maxRestarts, window, old(calls)).0, maxRestarts, window, now).1
    {
      OneMoreCall(maxRestarts, window, calls, now);
      calls := calls + [now];
      Compact(now - window);
      if count >= maxRestarts {
        return false;
      }
      Append(now);
      return true;
    }
  }

  // ---- against the full history ------------------------------------------------------------------------

  predicate NonDecreasing(times: seq<int>) {
    forall i, j :: 0 <= i < j < |times| ==> times[i] <= times[j]
  }

  lemma {:induction false} AfterOfAppend(a: seq<int>, x: int, cutoff: int)
    ensures After(a + [x], cutoff) == After(a, cutoff) + if x > cutoff then [x] else []
  {
    assert (a + [x])[..|a|] == a;
  }

  /** Filtering with a later cutoff forgets whatever an earlier filter already forgot. */
  lemma {:induction false} AfterAfter(times: seq<int>, early: int, late: int)
    requires early <= late
    ensures After(After(times, early), late) == After(times, late)
  {
    if times != [] {
      var last := |times| - 1;
      AfterAfter(times[..last], early, late);
      AfterOfAppend(After(times[..last], early), times[last], late);
      assert times[last] <= early ==> After(times, early) == After(times[..last], early);
    }
  }

  lemma {:induction false} GrantedComeFrom(maxRestarts: int, window: int, times: seq<int>)
    requires NonDecreasing(times)
    ensures var granted := Calls(maxRestarts, window, times).1;
      NonDecreasing(granted) && forall i :: 0 <= i < |granted| ==> times != [] && granted[i] <= times[|times| - 1]
  {
    if times != [] {
      var last := |times| - 1;
      GrantedComeFrom(maxRestarts, window, times[..last]);
      if last > 0 {
        assert times[..last][last - 1] <= times[last];
      }
    }
  }

  /** One call keeps remembered times and history in agreement from its own cutoff on. */
  lemma CallKeepsAgreement(remembered: seq<int>, granted: seq<int>, maxRestarts: int, window: int, now: int,
                           cutoff: int)
    requires After(remembered, now - window) == After(granted, now - window) && cutoff >= now - window
    ensures var (kept, ok) := Allow(remembered, maxRestarts, window, now);
      After(kept, cutoff) == After(if ok then granted + [now] else granted, cutoff)
  {
    AfterAfter(remembered, now - window, cutoff);
    AfterAfter(granted, now - window, cutoff);
    AfterOfAppend(After(remembered, now - window), now, cutoff);
    AfterOfAppend(granted, now, cutoff);
  }

  /** While the clock does not go back, forgetting costs nothing: for every cutoff from the last call's on, what is
      remembered and the whole history of granted restarts have the same times after it. */
  lemma {:induction false} RememberedIsRecentHistory(maxRestarts: int, window: int, times: seq<int>, cutoff: int)
    requires NonDecreasing(times) && times != [] && cutoff >= times[|times| - 1] - window
    ensures After(Calls(maxRestarts, window, times).0, cutoff) == After(Calls(maxRestarts, window, times).1, cutoff)
    decreases |times|
  {
    var last := |times| - 1;
    var (remembered, granted) := Calls(maxRestarts, window, times[..last]);
    if last > 0 {
      RememberedIsRecentHistory(maxRestarts, window, times[..last], times[last] - window);
    }
    CallKeepsAgreement(remembered, granted, maxRestarts, window, times[last], cutoff);
  }

  /** The in-place limiter answers every call as a limiter with the full history of granted restarts would. */
  lemma AgreesWithFullHistory(maxRestarts: int, window: int, times: seq<int>, now: int)
    requires NonDecreasing(times) && (times != [] ==> times[|times| - 1] <= now)
    ensures var (remembered, granted) := Calls(maxRestarts, window, times);
      Allow(remembered, maxRestarts, window, now).1 <==> |After(granted, now - window)| < maxRestarts
  {
    if times != [] {
      RememberedIsRecentHistory(maxRestarts, window, times, now - window);
    }
  }

  /** The positions of the times after the cutoff. */
  function Later(times: seq<int>, cutoff: int): set<nat> {
    set i: nat | i < |times| && times[i] > cutoff
  }

  lemma {:induction false} AfterKeepsTheLater(times: seq<int>, cutoff: int)
    ensures |After(times, cutoff)| == |Later(times, cutoff)|
  {
    if times != [] {
      var last := |times| - 1;
      AfterKeepsTheLater(times[..last], cutoff);
      if times[last] > cutoff {
        assert Later(times, cutoff) == Later(times[..last], cutoff) + {last};
      } else {
        assert Later(times, cutoff) == Later(times[..last], cutoff);
      }
    }
  }

  /** While the clock does not go back a restart is granted if and only if fewer than the limit of all restarts ever
      granted lie less than the window back. */
  lemma GrantedIffFewAreRecent(maxRestarts: int, window: int, times: seq<int>, now: int)
    requires NonDecreasing(times) && (times != [] ==> times[|times| - 1] <= now)
    ensures var (remembered, granted) := Calls(maxRestarts, window, times);
      Allow(remembered, maxRestarts, window, now).1 <==>
        |set i: nat | i < |granted| && now - granted[i] < window| < maxRestarts
  {
    var granted := Calls(maxRestarts, window, times).1;
    AgreesWithFullHistory(maxRestarts, window, times, now);
    AfterKeepsTheLater(granted, now - window);
    assert Later(granted, now - window) == set i: nat | i < |granted| && now - granted[i] < window;
  }

  lemma {:induction false} RecentOnesAreKept(times: seq<int>, from: nat, cutoff: int)
    requires from <= |times| && forall i :: from <= i < |times| ==> times[i] > cutoff
    ensures |After(times, cutoff)| >= |times| - from
  {
    if from < |times| {
      RecentOnesAreKept(times[..|times| - 1], from, cutoff);
    }
  }

  /** If fewer than `maxRestarts` granted restarts are recent, the one `maxRestarts` back is not. */
  lemma OldestIsOutOfWindow(granted: seq<int>, maxRestarts: nat, cutoff: int, i: nat)
    requires NonDecreasing(granted) && |After(granted, cutoff)| < maxRestarts && i + maxRestarts == |granted|
    ensures granted[i] <= cutoff
  {
    if granted[i] > cutoff {
      RecentOnesAreKept(granted, i, cutoff);
      assert false;
    }
  }

  /** Over every run with a clock that does not go back, any maxRestarts + 1 consecutive granted restarts span at
      least the window. */
  lemma {:induction false} GrantedRestartsAreSpread(maxRestarts: nat, window: int, times: seq<int>, i: nat)
    requires NonDecreasing(times) && maxRestarts >= 1
    requires i + maxRestarts < |Calls(maxRestarts, window, times).1|
    ensures Calls(maxRestarts, window, times).1[i + maxRestarts] - Calls(maxRestarts, window, times).1[i] >= window
    decreases |times|
  {
    var last := |times| - 1;
    var before := Calls(maxRestarts, window, times[..last]).1;
    if i + maxRestarts < |before| {
      GrantedRestartsAreSpread(maxRestarts, window, times[..last], i);
    } else {
      GrantedComeFrom(maxRestarts, window, times[..last]);
      assert last > 0 ==> times[..last][last - 1] <= times[last];
      AgreesWithFullHistory(maxRestarts, window, times[..last], times[last]);
      OldestIsOutOfWindow(before, maxRestarts, times[last] - window, i);
    }
  }

  /** A limit of zero or less never grants a restart. */
  lemma {:induction false} NoneGranted(maxRestarts: int, window: int, times: seq<int>)
    requires maxRestarts <= 0
    ensures Calls(maxRestarts, window, times).1 == []
  {
    if times != [] {
      NoneGranted(maxRestarts, window, times[..|times| - 1]);
    }
  }
}
