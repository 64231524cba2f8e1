/** blazy.js `throttle`: a wrapper that runs its function only when at least
    `minDelay` milliseconds have passed since the last run. The wall clock
    (`+new Date()`) is the explicit `now` argument. */
module Throttling {

  /** The wrapper lets a call at `now` through; `now - lastCall < minDelay` drops it. */
  predicate Admits(lastCall: int, minDelay: int, now: int) {
    now - lastCall >= minDelay
  }

  /** The closure state of one throttled wrapper. */
  class Throttle {
    const minDelay: int
    var lastCall: int

    /** A fresh wrapper has never run: `lastCall` starts at 0. */
    constructor (minDelay: int)
      ensures this.minDelay == minDelay && lastCall == 0
    {
      this.minDelay := minDelay;
      lastCall := 0;
    }

    /** One invocation of the wrapper at time `now`; `fired` says whether the
        wrapped function runs. A dropped call leaves the state as it was. */
    method Call(now: int) returns (fired: bool)
      modifies this
      ensures fired == Admits(old(lastCall), minDelay, now)
      ensures lastCall == if fired then now else old(lastCall)
    {
      if now - lastCall < minDelay {
        return false;
      }
      lastCall := now;
      fired := true;
    }

    /** A series of invocations at `times`, in order: entry `k` of `fires` is
        what the `k`-th `Call` answers. A burst spanning less than `minDelay`
        runs the wrapped function at most once. */
    method CallAll(times: seq<int>) returns (fires: seq<bool>)
      modifies this
      ensures fires == Fired(minDelay, old(lastCall), times)
      ensures (forall i, j :: 0 <= i < j < |times| ==> times[j] - times[i] < minDelay) ==> CountTrue(fires) <= 1
    {
      fires := [];
      var k := 0;
      while k < |times|
        invariant 0 <= k <= |times|
        invariant fires + Fired(minDelay, lastCall, times[k..]) == Fired(minDelay, old(lastCall), times)
      {
        ghost var before := lastCall;
        var f := Call(times[k]);
        assert times[k..][1..] == times[k + 1..];
        assert Fired(minDelay, before, times[k..]) == [f] + Fired(minDelay, lastCall, times[k + 1..]);
        assert fires + [f] + Fired(minDelay, lastCall, times[k + 1..]) == fires + ([f] + Fired(minDelay, lastCall, times[k + 1..]));
        fires := fires + [f];
        k := k + 1;
      }
      if forall i, j :: 0 <= i < j < |times| ==> times[j] - times[i] < minDelay {
        AtMostOnceInWindow(minDelay, old(lastCall), times);
      }
    }
  }

  /** Which of the calls at `times` the wrapper lets through, starting from
      `lastCall`: entry `k` is what `Throttle.Call` answers to the `k`-th of a
      series of calls, each step taking `fired` and the new `lastCall` exactly
      as `Call`'s contract gives them. */
  function Fired(minDelay: int, lastCall: int, times: seq<int>): (fires: seq<bool>)
    ensures |fires| == |times|
    decreases |times|
  {
    if times == [] then []
    else
      var f := Admits(lastCall, minDelay, times[0]);
      [f] + Fired(minDelay, if f then times[0] else lastCall, times[1..])
  }

  /** How many entries are true. */
  function CountTrue(s: seq<bool>): nat {
    if s == [] then 0 else (if s[0] then 1 else 0) + CountTrue(s[1..])
  }

  /** After a run at `last`, calls that all come sooner than `minDelay` after it are all dropped. */
  lemma {:induction false} QuietAfterRun(minDelay: int, last: int, times: seq<int>)
    requires forall k :: 0 <= k < |times| ==> times[k] - last < minDelay
    ensures CountTrue(Fired(minDelay, last, times)) == 0
    decreases |times|
  {
    if times != [] {
      QuietAfterRun(minDelay, last, times[1..]);
      assert Fired(minDelay, last, times) == [false] + Fired(minDelay, last, times[1..]);
      assert ([false] + Fired(minDelay, last, times[1..]))[1..] == Fired(minDelay, last, times[1..]);
    }
  }

  /** A burst of calls spanning less than `minDelay` runs the wrapped function at most once. */
  lemma {:induction false} AtMostOnceInWindow(minDelay: int, lastCall: int, times: seq<int>)
    requires forall i, j :: 0 <= i < j < |times| ==> times[j] - times[i] < minDelay
    ensures CountTrue(Fired(minDelay, lastCall, times)) <= 1
    decreases |times|
  {
    if times != [] {
      var f := Admits(lastCall, minDelay, times[0]);
      var rest := Fired(minDelay, if f then times[0] else lastCall, times[1..]);
      assert Fired(minDelay, lastCall, times) == [f] + rest;
      assert ([f] + rest)[1..] == rest;
      if f {
        forall k | 0 <= k < |times[1..]| ensures times[1..][k] - times[0] < minDelay {
          assert times[1..][k] == times[k + 1];
        }
        QuietAfterRun(minDelay, times[0], times[1..]);
      } else {
        AtMostOnceInWindow(minDelay, lastCall, times[1..]);
      }
    }
  }
}
