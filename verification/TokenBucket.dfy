/** The request limiter of the human-readable log, over real arithmetic. */
module TokenBucket {

  /** One call of the limiter and what it answered. */
  datatype Call = Call(time: real, admitted: bool)

  ghost function Admitted(calls: seq<Call>): nat {
    if calls == [] then 0
    else Admitted(calls[..|calls| - 1]) + if calls[|calls| - 1].admitted then 1 else 0
  }

  ghost predicate Ordered(calls: seq<Call>) {
    forall i, j :: 0 <= i < j < |calls| ==> calls[i].time <= calls[j].time
  }

  /** What the bucket earns in a stretch of time. */
  ghost function Earned(rate: real, time: real): real {
    rate * time
  }

  lemma EarnedAdds(rate: real, t: real, u: real)
    ensures Earned(rate, t) + Earned(rate, u) == Earned(rate, t + u)
  {
  }

  lemma EarnedGrows(rate: real, t: real, u: real)
    requires rate >= 0.0 && t <= u
    ensures Earned(rate, t) <= Earned(rate, u)
  {
  }

  lemma EarnedAtOnce(rate: real)
    ensures Earned(rate, 0.0) == 0.0
  {
  }

  /** What the window from call `j` until `now` still has room for. */
  ghost function Room(calls: seq<Call>, j: nat, now: real, capacity: real, rate: real): real
    requires j < |calls|
  {
    capacity + Earned(rate, now - calls[j].time) - Admitted(calls[j..]) as real
  }

  /** The whole-history rule: one more fits into every window that starts at an earlier call and ends
      now, and into the empty one. */
  ghost predicate Fits(calls: seq<Call>, now: real, capacity: real, rate: real) {
    capacity >= 1.0 && forall j :: 0 <= j < |calls| ==> Room(calls, j, now, capacity, rate) >= 1.0
  }

  /** Every call was answered by the whole-history rule. */
  ghost predicate Follows(calls: seq<Call>, capacity: real, rate: real) {
    forall k :: 0 <= k < |calls| ==> (calls[k].admitted <==> Fits(calls[..k], calls[k].time, capacity, rate))
  }

  /** `tokens` is the least room of any window that ends now. */
  ghost predicate LeastRoom(tokens: real, calls: seq<Call>, now: real, capacity: real, rate: real) {
    && (calls == [] ==> tokens == capacity)
    && (forall j :: 0 <= j < |calls| ==> tokens <= Room(calls, j, now, capacity, rate))
    && (calls != [] ==> exists j :: 0 <= j < |calls| && tokens == Room(calls, j, now, capacity, rate))
  }

  class TokenBucket {
    var tokens: real
    const capacity: real
    const refillRate: real
    var lastRefill: real
    ghost var calls: seq<Call>

    ghost predicate Valid()
      reads this
    {
      && refillRate >= 0.0 && Ordered(calls)
      && (forall i :: 0 <= i < |calls| ==> calls[i].time <= lastRefill)
      && LeastRoom(tokens, calls, lastRefill, capacity, refillRate)
      && Follows(calls, capacity, refillRate)
    }

    constructor (burst: real, rate: real, now: real)
      requires rate >= 0.0
      ensures Valid() && calls == [] && lastRefill == now && capacity == burst && refillRate == rate
    {
      tokens, capacity, refillRate, lastRefill, calls := burst, burst, rate, now, [];
    }

    /** The incremental state answers by the whole-history rule. */
    method TryConsume(now: real) returns (ok: bool)
      requires Valid() && now >= lastRefill
      modifies this
      ensures Valid() && lastRefill == now && calls == old(calls) + [Call(now, ok)]
      ensures ok <==> Fits(old(calls), now, capacity, refillRate)
    {
      hide LeastRoom, Fits, Follows, Earned;
      var elapsed := now - lastRefill;
      var refilled := tokens + elapsed * refillRate;
      EarnedIs(refillRate, elapsed);
      Refill(tokens, calls, lastRefill, now, capacity, refillRate);
      tokens := if refilled < capacity then refilled else capacity;
      lastRefill := now;
      DecidesByRule(refilled, calls, now, capacity, refillRate);
      ok := tokens >= 1.0;
      if ok {
        tokens := tokens - 1.0;
      }
      Answered(refilled, calls, now, ok, capacity, refillRate);
      FollowsNext(calls, Call(now, ok), capacity, refillRate);
      calls := calls + [Call(now, ok)];
    }
  }

  lemma EarnedIs(rate: real, time: real)
    ensures Earned(rate, time) == time * rate
  {
  }

  lemma Refill(tokens: real, calls: seq<Call>, last: real, now: real, capacity: real, rate: real)
    requires LeastRoom(tokens, calls, last, capacity, rate) && rate >= 0.0 && last <= now
    ensures Refilled(tokens + Earned(rate, now - last), calls, now, capacity, rate)
  {
    hide Earned;
    EarnedAtOnce(rate);
    EarnedGrows(rate, 0.0, now - last);
    forall j | 0 <= j < |calls|
      ensures Room(calls, j, now, capacity, rate) == Room(calls, j, last, capacity, rate) + Earned(rate, now - last)
    {
      EarnedAdds(rate, last - calls[j].time, now - last);
    }
  }

  /** The tokens after a refill, before they are capped. */
  ghost predicate Refilled(refilled: real, calls: seq<Call>, now: real, capacity: real, rate: real) {
    if calls == [] then refilled >= capacity else LeastRoom(refilled, calls, now, capacity, rate)
  }

  lemma DecidesByRule(refilled: real, calls: seq<Call>, now: real, capacity: real, rate: real)
    requires Refilled(refilled, calls, now, capacity, rate)
    ensures (if refilled < capacity then refilled else capacity) >= 1.0 <==> Fits(calls, now, capacity, rate)
  {
  }

  lemma AdmittedNext(calls: seq<Call>, call: Call)
    ensures Admitted(calls + [call]) == Admitted(calls) + if call.admitted then 1 else 0
  {
    assert (calls + [call])[..|calls|] == calls;
  }

  lemma RoomNext(calls: seq<Call>, call: Call, j: nat, now: real, capacity: real, rate: real)
    requires j <= |calls|
    ensures j < |calls| ==> Room(calls + [call], j, now, capacity, rate) == Room(calls, j, now, capacity, rate) - if call.admitted then 1.0 else 0.0
    ensures j == |calls| && call.time == now ==> Room(calls + [call], j, now, capacity, rate) == capacity - if call.admitted then 1.0 else 0.0
  {
    assert (calls + [call])[j..] == calls[j..] + [call];
    AdmittedNext(calls[j..], call);
    EarnedAtOnce(rate);
  }

  lemma Answered(refilled: real, calls: seq<Call>, now: real, ok: bool, capacity: real, rate: real)
    requires Refilled(refilled, calls, now, capacity, rate)
    ensures LeastRoom((if refilled < capacity then refilled else capacity) - (if ok then 1.0 else 0.0), calls + [Call(now, ok)], now, capacity, rate)
  {
    var more := calls + [Call(now, ok)];
    forall j | 0 <= j < |more|
      ensures Room(more, j, now, capacity, rate) == (if j < |calls| then Room(calls, j, now, capacity, rate) else capacity) - if ok then 1.0 else 0.0
    {
      RoomNext(calls, Call(now, ok), j, now, capacity, rate);
    }
    hide Room;
    if refilled < capacity {
      var j :| 0 <= j < |calls| && refilled == Room(calls, j, now, capacity, rate);
      assert Room(more, j, now, capacity, rate) == refilled - if ok then 1.0 else 0.0;
    } else {
      assert Room(more, |calls|, now, capacity, rate) == capacity - if ok then 1.0 else 0.0;
    }
  }

  lemma FollowsNext(calls: seq<Call>, call: Call, capacity: real, rate: real)
    requires Follows(calls, capacity, rate) && (call.admitted <==> Fits(calls, call.time, capacity, rate))
    ensures Follows(calls + [call], capacity, rate)
  {
    hide Fits;
    var more := calls + [call];
    forall k | 0 <= k < |more|
      ensures more[k].admitted <==> Fits(more[..k], more[k].time, capacity, rate)
    {
      assert more[..k] == if k < |calls| then calls[..k] else calls;
    }
  }

  // ---------- What the limiter guarantees ----------

  lemma NoneAdmitted()
    ensures Admitted([]) == 0
  {
  }

  lemma Rule(calls: seq<Call>, k: nat, capacity: real, rate: real)
    requires Follows(calls, capacity, rate) && k < |calls|
    ensures calls[k].admitted <==> Fits(calls[..k], calls[k].time, capacity, rate)
  {
  }

  /** From one call to another, no more is admitted than the burst and the refill between them. */
  lemma {:induction false} RunBound(calls: seq<Call>, i: nat, j: nat, capacity: real, rate: real)
    requires Ordered(calls) && Follows(calls, capacity, rate) && rate >= 0.0 && capacity >= 0.0 && i <= j < |calls|
    ensures Admitted(calls[i..j + 1]) as real <= capacity + Earned(rate, calls[j].time - calls[i].time)
    decreases j
  {
    hide Earned, Admitted, Follows;
    EarnedAtOnce(rate);
    NoneAdmitted();
    var before := calls[i..j];
    assert calls[i..j + 1] == before + [calls[j]];
    AdmittedNext(before, calls[j]);
    Rule(calls, j, capacity, rate);
    if calls[j].admitted {
      if i < j {
        assert calls[..j][i..] == before;
        assert Room(calls[..j], i, calls[j].time, capacity, rate) >= 1.0;
      }
    } else if i < j {
      RunBound(calls, i, j - 1, capacity, rate);
      EarnedGrows(rate, calls[j - 1].time - calls[i].time, calls[j].time - calls[i].time);
    }
  }

  /** The admissions at times from `a` to `b`. */
  ghost function AdmittedIn(calls: seq<Call>, a: real, b: real): nat {
    if calls == [] then 0
    else
      var c := calls[|calls| - 1];
      AdmittedIn(calls[..|calls| - 1], a, b) + if c.admitted && a <= c.time <= b then 1 else 0
  }

  /** Exactly the calls from `i` to `j` are in the window. */
  ghost predicate InWindow(calls: seq<Call>, i: nat, j: nat, a: real, b: real) {
    && i <= j <= |calls|
    && forall k :: 0 <= k < |calls| ==> (a <= calls[k].time <= b <==> i <= k < j)
  }

  /** The calls of a window are consecutive. */
  lemma {:induction false} WindowIsRun(calls: seq<Call>, a: real, b: real) returns (i: nat, j: nat)
    requires Ordered(calls)
    ensures InWindow(calls, i, j, a, b)
  {
    if calls == [] {
      i, j := 0, 0;
    } else {
      var n := |calls| - 1;
      var front, last := calls[..n], calls[n];
      i, j := WindowIsRun(front, a, b);
      assert forall k :: 0 <= k < n ==> front[k] == calls[k] && front[k].time <= last.time;
      var edge := if 0 < j then front[j - 1].time else last.time;
      assert forall k :: j <= k < n && 0 < j ==> edge <= front[k].time;
      if a <= last.time <= b {
        if i == j {
          i := n;
        }
        j := n + 1;
      }
    }
  }

  lemma {:induction false} RunCount(calls: seq<Call>, i: nat, j: nat, a: real, b: real)
    requires InWindow(calls, i, j, a, b)
    ensures AdmittedIn(calls, a, b) == Admitted(calls[i..j])
  {
    hide Admitted, AdmittedIn, InWindow;
    WindowFits(calls, i, j, a, b);
    if calls == [] {
      NoneAdmittedIn(a, b);
      NoneAdmitted();
      assert |calls[i..j]| == 0;
    } else {
      var n := |calls| - 1;
      var front, i', j' := calls[..n], if i < n then i else n, if j < n then j else n;
      WindowNext(calls, a, b);
      RunCount(front, i', j', a, b);
      SliceOfFront(calls, n, i', j');
      if i <= n < j {
        SliceAndLast(calls, n, i, j);
        AdmittedNext(calls[i..n], calls[n]);
      } else {
        assert calls[i..j] == calls[i'..j'];
      }
    }
  }

  lemma SliceOfFront(calls: seq<Call>, n: nat, i: nat, j: nat)
    requires i <= j <= n <= |calls|
    ensures calls[..n][i..j] == calls[i..j]
  {
  }

  lemma SliceAndLast(calls: seq<Call>, n: nat, i: nat, j: nat)
    requires i <= n < j && j == n + 1 <= |calls|
    ensures calls[i..j] == calls[i..n] + [calls[n]]
  {
  }

  lemma NoneAdmittedIn(a: real, b: real)
    ensures AdmittedIn([], a, b) == 0
  {
  }

  /** A window of the calls, and what it is of the calls but the last. */
  lemma WindowFits(calls: seq<Call>, i: nat, j: nat, a: real, b: real)
    requires InWindow(calls, i, j, a, b)
    ensures i <= j <= |calls|
    ensures calls != [] ==>
              var n := |calls| - 1;
              && InWindow(calls[..n], if i < n then i else n, if j < n then j else n, a, b)
              && (a <= calls[n].time <= b <==> i <= n < j)
  {
  }

  lemma WindowNext(calls: seq<Call>, a: real, b: real)
    requires calls != []
    ensures var c := calls[|calls| - 1];
            AdmittedIn(calls, a, b) == AdmittedIn(calls[..|calls| - 1], a, b) + if c.admitted && a <= c.time <= b then 1 else 0
  {
  }

  /** In any window of time, no more is admitted than the burst and the refill of the window. */
  lemma WindowBound(calls: seq<Call>, a: real, b: real, capacity: real, rate: real)
    requires Ordered(calls) && Follows(calls, capacity, rate) && rate >= 0.0 && capacity >= 0.0 && a <= b
    ensures AdmittedIn(calls, a, b) as real <= capacity + Earned(rate, b - a)
  {
    hide Follows, Earned, Admitted, AdmittedIn;
    NoneAdmitted();
    EarnedAtOnce(rate);
    var i, j := WindowIsRun(calls, a, b);
    RunCount(calls, i, j, a, b);
    if i < j {
      RunBound(calls, i, j - 1, capacity, rate);
      EarnedGrows(rate, calls[j - 1].time - calls[i].time, b - a);
    } else {
      assert calls[i..j] == [];
      EarnedGrows(rate, 0.0, b - a);
    }
  }

  // ---------- What the limiter lets through ----------

  /** Between any call and the next the bucket earns a token. */
  ghost predicate Spaced(calls: seq<Call>, rate: real) {
    forall k :: 0 < k < |calls| ==> Earned(rate, calls[k].time - calls[k - 1].time) >= 1.0
  }

  lemma {:induction false} EarnedBetween(calls: seq<Call>, i: nat, j: nat, rate: real)
    requires Spaced(calls, rate) && i <= j < |calls|
    ensures Earned(rate, calls[j].time - calls[i].time) >= (j - i) as real
    decreases j
  {
    hide Earned;
    EarnedAtOnce(rate);
    if i < j {
      EarnedBetween(calls, i, j - 1, rate);
      EarnedAdds(rate, calls[j - 1].time - calls[i].time, calls[j].time - calls[j - 1].time);
    }
  }

  lemma {:induction false} AdmittedAtMost(calls: seq<Call>)
    ensures Admitted(calls) <= |calls|
  {
    if calls != [] {
      AdmittedAtMost(calls[..|calls| - 1]);
    }
  }

  /** Calls so far apart are never refused. */
  lemma SpacedAreAdmitted(calls: seq<Call>, k: nat, capacity: real, rate: real)
    requires Follows(calls, capacity, rate) && Spaced(calls, rate) && capacity >= 1.0 && k < |calls|
    ensures calls[k].admitted
  {
    hide Earned, Admitted, Follows, Spaced;
    var now, before := calls[k].time, calls[..k];
    forall j | 0 <= j < k
      ensures Room(before, j, now, capacity, rate) >= 1.0
    {
      EarnedBetween(calls, j, k, rate);
      AdmittedAtMost(before[j..]);
    }
    Rule(calls, k, capacity, rate);
  }
}
