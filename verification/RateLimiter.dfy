/** The deletion circuit breaker: at most `max` deletions in any window of `windowMs`
    milliseconds, kept as a queue of the times of accepted deletions. */
module RateLimiter {

  /** What the eviction loop leaves of the queue. */
  function Unexpired(events: seq<int>, cutoff: int): seq<int> {
    if events != [] && events[0] < cutoff then Unexpired(events[1..], cutoff) else events
  }

  class DeletionRateLimiter {
    const max: int
    const windowMs: int
    var events: seq<int>

    constructor (max: int, windowMs: int)
      ensures this.max == max && this.windowMs == windowMs && events == []
    {
      this.max, this.windowMs := max, windowMs;
      events := [];
    }

    method Record(now: int) returns (accepted: bool)
      modifies this
      ensures accepted == Accepts(old(events), max, windowMs, now)
      ensures events == After(old(events), max, windowMs, now)
    {
      var cutoff := now - windowMs;
      while events != [] && events[0] < cutoff
        invariant Unexpired(events, cutoff) == Unexpired(old(events), cutoff)
        decreases |events|
      {
        events := events[1..];
      }
      if |events| >= max {
        return false;
      }
      events := events + [now];
      return true;
    }
  }

  predicate Accepts(events: seq<int>, max: int, windowMs: int, now: int) {
    |Unexpired(events, now - windowMs)| < max
  }

  function After(events: seq<int>, max: int, windowMs: int, now: int): seq<int> {
    var live := Unexpired(events, now - windowMs);
    if |live| < max then live + [now] else live
  }

  // ------------------------------------------------- whole runs of the limiter

  /** The queue after a run of calls. */
  ghost function QueueAfter(calls: seq<int>, max: int, windowMs: int): seq<int> {
    if calls == [] then []
    else After(QueueAfter(calls[..|calls| - 1], max, windowMs), max, windowMs, calls[|calls| - 1])
  }

  /** The calls of a run that were accepted, in order. */
  ghost function Accepted(calls: seq<int>, max: int, windowMs: int): seq<int> {
    if calls == [] then []
    else
      var earlier, now := calls[..|calls| - 1], calls[|calls| - 1];
      Accepted(earlier, max, windowMs)
      + (if Accepts(QueueAfter(earlier, max, windowMs), max, windowMs, now) then [now] else [])
  }

  /** How many of `times` lie in the closed interval from `lo` to `hi`. */
  ghost function CountIn(times: seq<int>, lo: int, hi: int): nat {
    if times == [] then 0
    else CountIn(times[..|times| - 1], lo, hi) + (if lo <= times[|times| - 1] <= hi then 1 else 0)
  }

  ghost predicate Nondecreasing(times: seq<int>) {
    forall i, j :: 0 <= i < j < |times| ==> times[i] <= times[j]
  }

  ghost predicate AllWithin(times: seq<int>, lo: int, hi: int) {
    forall i :: 0 <= i < |times| ==> lo <= times[i] <= hi
  }

  ghost predicate AllBelow(times: seq<int>, bound: int) {
    forall i :: 0 <= i < |times| ==> times[i] < bound
  }

  /** Evicting from the queue takes out only expired times. */
  lemma {:induction false} EvictionSplits(queue: seq<int>, cutoff: int) returns (expired: seq<int>)
    ensures queue == expired + Unexpired(queue, cutoff) && AllBelow(expired, cutoff)
  {
    expired := [];
    if queue != [] && queue[0] < cutoff {
      expired := EvictionSplits(queue[1..], cutoff);
      expired := [queue[0]] + expired;
    }
  }

  /** What stays in an ordered queue is not expired. */
  lemma {:induction false} NoneExpiredStays(queue: seq<int>, cutoff: int, now: int)
    requires Nondecreasing(queue) && AllBelow(queue, now + 1)
    ensures Nondecreasing(Unexpired(queue, cutoff)) && AllWithin(Unexpired(queue, cutoff), cutoff, now)
  {
    if queue != [] && queue[0] < cutoff {
      NoneExpiredStays(queue[1..], cutoff, now);
    }
  }

  lemma {:induction false} CountOfAppend(a: seq<int>, b: seq<int>, lo: int, hi: int)
    ensures CountIn(a + b, lo, hi) == CountIn(a, lo, hi) + CountIn(b, lo, hi)
  {
    if b == [] {
      assert a + b == a;
    } else {
      assert (a + b)[..|a + b| - 1] == a + b[..|b| - 1];
      CountOfAppend(a, b[..|b| - 1], lo, hi);
    }
  }

  lemma {:induction false} CountOfAllOrNone(times: seq<int>, lo: int, hi: int)
    ensures AllWithin(times, lo, hi) ==> CountIn(times, lo, hi) == |times|
    ensures AllBelow(times, lo) ==> CountIn(times, lo, hi) == 0
  {
    if times != [] {
      CountOfAllOrNone(times[..|times| - 1], lo, hi);
    }
  }

  lemma CountOfSplit(gone: seq<int>, live: seq<int>, lo: int, hi: int)
    requires AllBelow(gone, lo) && AllWithin(live, lo, hi)
    ensures CountIn(gone + live, lo, hi) == |live|
  {
    CountOfAppend(gone, live, lo, hi);
    CountOfAllOrNone(gone, lo, hi);
    CountOfAllOrNone(live, lo, hi);
  }

  /** Times up to `now` that lie in an interval reaching past `now - width` also lie in the
      interval of that width ending at `now`. */
  lemma {:induction false} CountIsMonotone(times: seq<int>, start: int, width: int, now: int)
    requires start <= now <= start + width
    requires AllBelow(times, now + 1)
    ensures CountIn(times, start, start + width) <= CountIn(times, now - width, now)
  {
    if times != [] {
      CountIsMonotone(times[..|times| - 1], start, width, now);
    }
  }

  /** The accepted calls are the evicted ones, too old for the window of any call from
      `now` on, followed by the queue. */
  ghost predicate QueueIsTail(accepted: seq<int>, evicted: seq<int>, queue: seq<int>, windowMs: int, now: int) {
    && accepted == evicted + queue
    && AllBelow(evicted, now - windowMs) && AllBelow(accepted, now + 1) && Nondecreasing(queue)
  }

  /** After eviction the queue holds exactly the accepted calls in the closed window that
      ends now. */
  lemma EvictionLeavesTheWindow(accepted: seq<int>, evicted: seq<int>, queue: seq<int>,
                                windowMs: int, before: int, now: int)
    returns (evicted': seq<int>)
    requires before <= now && QueueIsTail(accepted, evicted, queue, windowMs, before)
    ensures QueueIsTail(accepted, evicted', Unexpired(queue, now - windowMs), windowMs, now)
    ensures |Unexpired(queue, now - windowMs)| == CountIn(accepted, now - windowMs, now)
  {
    hide Unexpired, CountIn, AllWithin;
    var cutoff := now - windowMs;
    var live := Unexpired(queue, cutoff);
    assert AllBelow(queue, now + 1) by {
      assert forall i :: 0 <= i < |queue| ==> queue[i] == accepted[|evicted| + i];
    }
    var expired := EvictionSplits(queue, cutoff);
    NoneExpiredStays(queue, cutoff, now);
    evicted' := evicted + expired;
    assert accepted == evicted' + live by {
      assert evicted + (expired + live) == evicted' + live;
    }
    CountOfSplit(evicted', live, cutoff, now);
  }

  /** The time of the last call, or `now` before any. */
  ghost function LastCall(calls: seq<int>, now: int): int {
    if calls == [] then now else calls[|calls| - 1]
  }

  lemma {:induction false} QueueFollowsRun(calls: seq<int>, max: int, windowMs: int, now: int)
    returns (evicted: seq<int>)
    requires Nondecreasing(calls)
    ensures QueueIsTail(Accepted(calls, max, windowMs), evicted, QueueAfter(calls, max, windowMs),
                        windowMs, LastCall(calls, now))
  {
    evicted := [];
    NoCalls(max, windowMs);
    hide QueueAfter, Accepted, Unexpired;
    if calls != [] {
      var earlier, last := calls[..|calls| - 1], calls[|calls| - 1];
      assert calls == earlier + [last];
      OneCall(earlier, last, max, windowMs);
      evicted := QueueFollowsRun(earlier, max, windowMs, last);
      var accepted, queue := Accepted(earlier, max, windowMs), QueueAfter(earlier, max, windowMs);
      evicted := EvictionLeavesTheWindow(accepted, evicted, queue, windowMs, LastCall(earlier, last), last);
      var live := Unexpired(queue, last - windowMs);
      AppendToTail(accepted, evicted, live, windowMs, last);
    }
  }

  lemma AppendToTail(accepted: seq<int>, evicted: seq<int>, live: seq<int>, windowMs: int, now: int)
    requires QueueIsTail(accepted, evicted, live, windowMs, now)
    ensures QueueIsTail(accepted + [now], evicted, live + [now], windowMs, now)
  {
    assert forall i :: 0 <= i < |live| ==> live[i] == accepted[|evicted| + i];
  }

  /** While the clock does not go back, a call is refused exactly when `max` accepted
      calls already lie in the closed window that ends with it. */
  lemma RefusedIffWindowFull(calls: seq<int>, max: int, windowMs: int, now: int)
    requires Nondecreasing(calls + [now])
    ensures !Accepts(QueueAfter(calls, max, windowMs), max, windowMs, now)
            <==> CountIn(Accepted(calls, max, windowMs), now - windowMs, now) >= max
  {
    NondecreasingInit(calls, now);
    var evicted := QueueFollowsRun(calls, max, windowMs, now);
    var _ := EvictionLeavesTheWindow(Accepted(calls, max, windowMs), evicted, QueueAfter(calls, max, windowMs),
                                     windowMs, LastCall(calls, now), now);
  }

  lemma NondecreasingInit(calls: seq<int>, now: int)
    requires Nondecreasing(calls + [now])
    ensures Nondecreasing(calls) && LastCall(calls, now) <= now
  {
    var all := calls + [now];
    assert all[|calls|] == now && forall i :: 0 <= i < |calls| ==> all[i] == calls[i];
  }

  lemma BoundKept(accepted: seq<int>, max: nat, windowMs: int, start: int, now: int)
    requires AllBelow(accepted, now + 1)
    requires CountIn(accepted, start, start + windowMs) <= max
    requires CountIn(accepted, now - windowMs, now) < max
    ensures CountIn(accepted + [now], start, start + windowMs) <= max
  {
    CountOfAppend(accepted, [now], start, start + windowMs);
    assert [now][..0] == [];
    if start <= now <= start + windowMs {
      CountIsMonotone(accepted, start, windowMs, now);
    }
  }

  /** While the clock does not go back, no closed interval of the window's length ever
      holds more than `max` accepted calls. */
  lemma {:induction false} EveryWindowIsBounded(calls: seq<int>, max: nat, windowMs: int, start: int)
    requires Nondecreasing(calls)
    ensures CountIn(Accepted(calls, max, windowMs), start, start + windowMs) <= max
  {
    if calls != [] {
      var earlier, now := calls[..|calls| - 1], calls[|calls| - 1];
      assert calls == earlier + [now];
      EveryWindowIsBounded(earlier, max, windowMs, start);
      var accepted := Accepted(earlier, max, windowMs);
      assert accepted + [] == accepted;
      if Accepts(QueueAfter(earlier, max, windowMs), max, windowMs, now) {
        RefusedIffWindowFull(earlier, max, windowMs, now);
        var _ := QueueFollowsRun(earlier, max, windowMs, now);
        BoundKept(accepted, max, windowMs, start, now);
      }
    }
  }

  // ------------------------------------------------------- a clock that goes back

  /** Call i is refused exactly if `max` accepted calls lie in the window that ends with it. */
  ghost predicate RefusedRightly(calls: seq<int>, max: nat, windowMs: nat, i: nat)
    requires i < |calls|
  {
    !Accepts(QueueAfter(calls[..i], max, windowMs), max, windowMs, calls[i])
    <==> CountIn(Accepted(calls[..i], max, windowMs), calls[i] - windowMs, calls[i]) >= max
  }

  /** No two of the times are further apart than the window. */
  ghost predicate AllNear(times: seq<int>, windowMs: int) {
    forall i, j :: 0 <= i < |times| && 0 <= j < |times| ==> times[i] - times[j] <= windowMs
  }

  lemma {:induction false} SomeWindowIsWide(times: seq<int>) returns (windowMs: nat)
    ensures AllNear(times, windowMs)
  {
    windowMs := 0;
    if times != [] {
      var init, last := times[..|times| - 1], times[|times| - 1];
      var near := SomeWindowIsWide(init);
      var gap := if init == [] then 0 else if last > init[0] then last - init[0] else init[0] - last;
      windowMs := near + gap;
      forall i, j | 0 <= i < |times| && 0 <= j < |times| ensures times[i] - times[j] <= windowMs {
        assert i < |init| ==> times[i] == init[i] && init[i] - init[0] <= near && init[0] - init[i] <= near;
        assert j < |init| ==> times[j] == init[j] && init[j] - init[0] <= near && init[0] - init[j] <= near;
      }
    }
  }

  /** As many calls as the limit allows, all near each other, are all accepted and kept. */
  lemma {:induction false} NearAreKept(calls: seq<int>, max: int, windowMs: int)
    requires AllNear(calls, windowMs) && |calls| <= max
    ensures QueueAfter(calls, max, windowMs) == calls && Accepted(calls, max, windowMs) == calls
  {
    NoCalls(max, windowMs);
    hide QueueAfter, Accepted, Accepts, After, Unexpired;
    if calls != [] {
      var earlier, now := calls[..|calls| - 1], calls[|calls| - 1];
      assert AllNear(earlier, windowMs) by {
        assert forall i :: 0 <= i < |earlier| ==> earlier[i] == calls[i];
      }
      NearAreKept(earlier, max, windowMs);
      assert earlier != [] ==> earlier[0] == calls[0];
      KeptByOne(earlier, now, max, windowMs);
      hide *;
      OneCall(earlier, now, max, windowMs);
      assert calls == earlier + [now];
    }
  }

  lemma NoCalls(max: int, windowMs: int)
    ensures QueueAfter([], max, windowMs) == [] && Accepted([], max, windowMs) == []
  {
  }

  lemma KeptByOne(queue: seq<int>, now: int, max: int, windowMs: int)
    requires |queue| < max && (queue != [] ==> queue[0] >= now - windowMs)
    ensures Accepts(queue, max, windowMs, now) && After(queue, max, windowMs, now) == queue + [now]
  {
  }

  lemma {:induction false} LaterIsNotCounted(times: seq<int>, k: nat, lo: int, hi: int)
    requires k < |times| && times[k] > hi
    ensures CountIn(times, lo, hi) < |times|
  {
    var init := times[..|times| - 1];
    if k < |init| {
      LaterIsNotCounted(init, k, lo, hi);
    } else {
      CountAtMost(init, lo, hi);
    }
  }

  lemma {:induction false} CountAtMost(times: seq<int>, lo: int, hi: int)
    ensures CountIn(times, lo, hi) <= |times|
  {
    if times != [] {
      CountAtMost(times[..|times| - 1], lo, hi);
    }
  }

  /** A call earlier than one before it is refused needlessly, for a limit that is reached
      and a window that is wide enough. */
  lemma NeedlessRefusal(calls: seq<int>, k: nat, i: nat, windowMs: nat)
    requires k < i < |calls| && calls[k] > calls[i] && AllNear(calls, windowMs)
    ensures !Accepts(QueueAfter(calls[..i], i, windowMs), i, windowMs, calls[i])
    ensures CountIn(Accepted(calls[..i], i, windowMs), calls[i] - windowMs, calls[i]) < i
  {
    var earlier := calls[..i];
    assert forall j :: 0 <= j < i ==> earlier[j] == calls[j];
    NearAreKept(earlier, i, windowMs);
    LaterIsNotCounted(earlier, k, calls[i] - windowMs, calls[i]);
    assert earlier[0] == calls[0] && calls[i] - windowMs <= calls[0];
  }

  /** The rule for refusals, with its exact condition on the clock: for every limit, window
      and call it holds if and only if the clock never goes back. */
  lemma RefusalRuleIff(calls: seq<int>)
    ensures (forall max: nat, windowMs: nat, i: nat :: i < |calls| ==> RefusedRightly(calls, max, windowMs, i))
            <==> Nondecreasing(calls)
  {
    if Nondecreasing(calls) {
      forall max: nat, windowMs: nat, i: nat | i < |calls| ensures RefusedRightly(calls, max, windowMs, i) {
        assert forall j :: 0 <= j < i ==> calls[..i][j] == calls[j];
        RefusedIffWindowFull(calls[..i], max, windowMs, calls[i]);
      }
    } else {
      var k, i :| 0 <= k < i < |calls| && calls[k] > calls[i];
      var windowMs := SomeWindowIsWide(calls);
      NeedlessRefusal(calls, k, i, windowMs);
      assert !RefusedRightly(calls, i, windowMs, i);
    }
  }

  /** A clock that jumps ahead past the window and back to zero, n times. */
  ghost function Rocking(n: nat, windowMs: nat): seq<int> {
    if n == 0 then [0] else Rocking(n - 1, windowMs) + [Jump(n, windowMs), 0]
  }

  function Jump(n: nat, windowMs: nat): (time: int)
    ensures n > 0 ==> time > windowMs && time - windowMs > Jump(n - 1, windowMs) >= 0
  {
    if n == 0 then 0 else Jump(n - 1, windowMs) + windowMs + 1
  }

  lemma OneCall(calls: seq<int>, now: int, max: int, windowMs: int)
    ensures QueueAfter(calls + [now], max, windowMs) == After(QueueAfter(calls, max, windowMs), max, windowMs, now)
    ensures Accepted(calls + [now], max, windowMs)
            == Accepted(calls, max, windowMs)
               + if Accepts(QueueAfter(calls, max, windowMs), max, windowMs, now) then [now] else []
  {
    hide Accepts, After;
    assert (calls + [now])[..|calls|] == calls;
  }

  lemma CountOneMore(times: seq<int>, now: int, lo: int, hi: int)
    ensures CountIn(times + [now], lo, hi) == CountIn(times, lo, hi) + if lo <= now <= hi then 1 else 0
  {
    assert (times + [now])[..|times|] == times;
  }

  /** Every one of these calls is accepted once two may be, so that any number of them falls
      into one window. */
  lemma {:induction false} RockingIsAccepted(n: nat, max: int, windowMs: nat)
    requires max >= 2
    ensures QueueAfter(Rocking(n, windowMs), max, windowMs) == if n == 0 then [0] else [Jump(n, windowMs), 0]
    ensures CountIn(Accepted(Rocking(n, windowMs), max, windowMs), 0, windowMs) == n + 1
  {
    if n == 0 {
      OneCall([], 0, max, windowMs);
      assert [] + [0] == [0];
      CountOneMore([], 0, 0, windowMs);
    } else {
      RockingIsAccepted(n - 1, max, windowMs);
      RockOnce(n, max, windowMs);
    }
  }

  lemma RockOnce(n: nat, max: int, windowMs: nat)
    requires n > 0 && max >= 2
    requires QueueAfter(Rocking(n - 1, windowMs), max, windowMs) == if n == 1 then [0] else [Jump(n - 1, windowMs), 0]
    requires CountIn(Accepted(Rocking(n - 1, windowMs), max, windowMs), 0, windowMs) == n
    ensures QueueAfter(Rocking(n, windowMs), max, windowMs) == [Jump(n, windowMs), 0]
    ensures CountIn(Accepted(Rocking(n, windowMs), max, windowMs), 0, windowMs) == n + 1
  {
    var before, ahead := Rocking(n - 1, windowMs), Jump(n, windowMs);
    AheadAndBack(QueueAfter(before, max, windowMs), ahead, max, windowMs);
    assert Rocking(n, windowMs) == before + [ahead] + [0];
    hide Rocking, QueueAfter, Accepted, CountIn, Jump, Accepts, After;
    OneCall(before, ahead, max, windowMs);
    OneCall(before + [ahead], 0, max, windowMs);
    CountOneMore(Accepted(before, max, windowMs), ahead, 0, windowMs);
    CountOneMore(Accepted(before, max, windowMs) + [ahead], 0, 0, windowMs);
  }

  lemma AheadAndBack(queue: seq<int>, ahead: int, max: int, windowMs: nat)
    requires AllBelow(queue, ahead - windowMs) && ahead > windowMs && max >= 2
    ensures Accepts(queue, max, windowMs, ahead) && After(queue, max, windowMs, ahead) == [ahead]
    ensures Accepts([ahead], max, windowMs, 0) && After([ahead], max, windowMs, 0) == [ahead, 0]
  {
    FarAheadEvicts(queue, ahead - windowMs);
    assert [] + [ahead] == [ahead] && [ahead] + [0] == [ahead, 0];
  }

  lemma {:induction false} FarAheadEvicts(queue: seq<int>, cutoff: int)
    requires AllBelow(queue, cutoff)
    ensures Unexpired(queue, cutoff) == []
  {
    if queue != [] {
      FarAheadEvicts(queue[1..], cutoff);
    }
  }

  ghost predicate Spaced(times: seq<int>, gap: int) {
    forall i, j :: 0 <= i < j < |times| ==> times[j] - times[i] > gap
  }

  lemma SpacedCount(times: seq<int>, start: int, windowMs: nat)
    requires Spaced(times, windowMs)
    ensures CountIn(times, start, start + windowMs) <= 1
    decreases |times|
  {
    if times != [] {
      var init := times[..|times| - 1];
      SpacedCount(init, start, windowMs);
      if start <= times[|times| - 1] <= start + windowMs {
        CountOfAllOrNone(init, start, start + windowMs);
      }
    }
  }

  /** With a limit of one, accepted calls are further apart than the window, whatever the
      clock does. */
  lemma {:induction false} OneAtATime(calls: seq<int>, windowMs: nat)
    ensures Spaced(Accepted(calls, 1, windowMs), windowMs)
    ensures var accepted := Accepted(calls, 1, windowMs);
      QueueAfter(calls, 1, windowMs) == if accepted == [] then [] else [accepted[|accepted| - 1]]
  {
    NoCalls(1, windowMs);
    hide Accepted, QueueAfter, After, Accepts, Unexpired;
    if calls != [] {
      var earlier, now := calls[..|calls| - 1], calls[|calls| - 1];
      OneAtATime(earlier, windowMs);
      var accepted, queue := Accepted(earlier, 1, windowMs), QueueAfter(earlier, 1, windowMs);
      OneInQueue(queue, now, windowMs);
      assert calls == earlier + [now];
      OneCall(earlier, now, 1, windowMs);
    }
  }

  lemma OneInQueue(queue: seq<int>, now: int, windowMs: nat)
    requires |queue| <= 1
    ensures Accepts(queue, 1, windowMs, now) <==> queue == [] || queue[0] < now - windowMs
    ensures After(queue, 1, windowMs, now) == if Accepts(queue, 1, windowMs, now) then [now] else queue
  {
    if queue != [] {
      assert Unexpired(queue[1..], now - windowMs) == [] by {
        assert queue[1..] == [];
      }
    }
    assert [] + [now] == [now];
  }

  lemma {:induction false} NoneAtAll(calls: seq<int>, windowMs: nat)
    ensures Accepted(calls, 0, windowMs) == []
  {
    if calls != [] {
      NoneAtAll(calls[..|calls| - 1], windowMs);
    }
  }

  ghost predicate WindowBounded(calls: seq<int>, max: nat, windowMs: nat, start: int) {
    CountIn(Accepted(calls, max, windowMs), start, start + windowMs) <= max
  }

  /** The bound on every window, with its exact condition on a clock of any kind: it holds
      for all sequences of calls if and only if the limit is at most one. Beyond that a
      clock that goes back lets any number of calls into one window. */
  lemma BoundForAnyClockIff(max: nat, windowMs: nat)
    ensures (forall calls, start :: WindowBounded(calls, max, windowMs, start)) <==> max <= 1
  {
    if max >= 2 {
      RockingIsAccepted(max, max, windowMs);
      assert !WindowBounded(Rocking(max, windowMs), max, windowMs, 0);
    } else {
      forall calls, start ensures WindowBounded(calls, max, windowMs, start) {
        if max == 0 {
          NoneAtAll(calls, windowMs);
        } else {
          OneAtATime(calls, windowMs);
          SpacedCount(Accepted(calls, max, windowMs), start, windowMs);
        }
      }
    }
  }
}
