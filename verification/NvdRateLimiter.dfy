/**
  The limiter in front of the NVD feed: a token bucket that also keeps a minimum spacing.
  A call sleeps for a computed time and is then admitted; `lag` is what the scheduler adds to
  the sleep. Times are seconds, as reals.
*/
module NvdRateLimiter {
  import opened Prelude
  import opened RealArith

  datatype Settings = Settings(interval: real, fillRate: real, maxBurst: real)

  datatype Bucket = Bucket(tokens: real, last: Option<real>)

  /** One call of Wait: when it starts, how much it oversleeps, and whether its context ends first. */
  datatype Call = Call(now: real, lag: real, cancelled: bool)

  function NvdConfig(hasAPIKey: bool): Settings {
    if hasAPIKey then Settings(0.6, 50.0 / 30.0, 3.0) else Settings(6.0, 5.0 / 30.0, 3.0)
  }

  const InitialBucket := Bucket(1.0, None)

  /** The spacing is the time one token takes to arrive; both configurations have this. */
  predicate Balanced(c: Settings) {
    c.fillRate > 0.0 && Times(c.interval, c.fillRate) == 1.0 && c.maxBurst == 3.0
  }

  /** Tokens seen by a call that starts at `now`. */
  function Refilled(c: Settings, b: Bucket, now: real): real {
    match b.last
    case None => b.tokens
    case Some(last) => Min(b.tokens + Times(now - last, c.fillRate), c.maxBurst)
  }

  /** How long a call that starts at `now` sleeps; not positive means not at all. */
  function SleepTime(c: Settings, b: Bucket, now: real): real
    requires c.fillRate > 0.0
  {
    SleepWith(c, b.last, now, Refilled(c, b, now))
  }

  function SleepWith(c: Settings, last: Option<real>, now: real, tokens: real): real
    requires c.fillRate > 0.0
  {
    if tokens < 1.0 then Over(1.0 - tokens, c.fillRate)
    else if last.Some? && now - last.value < c.interval then c.interval - (now - last.value)
    else 0.0
  }

  /** When the call is admitted, or None when its context ends during the sleep. */
  function Admission(c: Settings, b: Bucket, call: Call): Option<real>
    requires c.fillRate > 0.0
  {
    var sleep := SleepTime(c, b, call.now);
    if sleep > 0.0 && call.cancelled then None else Some(call.now + Max(sleep, 0.0) + call.lag)
  }

  /** The bucket after the call: a cancelled call keeps the refilled tokens and the old `last`. */
  function After(c: Settings, b: Bucket, call: Call): Bucket
    requires c.fillRate > 0.0
  {
    var tokens := Refilled(c, b, call.now);
    match Admission(c, b, call)
    case None => b.(tokens := tokens)
    case Some(at) => Bucket(Max(tokens - 1.0, 0.0), Some(at))
  }

  class RateLimiter {
    const interval: real
    const maxBurst: real
    const fillRate: real
    const apiKeySet: bool
    var tokens: real
    var lastRequest: Option<real>

    ghost function Limits(): Settings {
      Settings.Settings(interval, fillRate, maxBurst)
    }

    ghost function Contents(): Bucket
      reads this
    {
      Bucket(tokens, lastRequest)
    }

    constructor NewNVDRateLimiter(hasAPIKey: bool)
      ensures Limits() == NvdConfig(hasAPIKey) && Balanced(Limits())
      ensures Contents() == InitialBucket && apiKeySet == hasAPIKey
    {
      if hasAPIKey {
        fillRate, interval := 50.0 / 30.0, 0.6;
      } else {
        fillRate, interval := 5.0 / 30.0, 6.0;
      }
      maxBurst := 3.0;
      tokens := 1.0;
      apiKeySet := hasAPIKey;
      lastRequest := None;
    }

    /** Returns the time of admission, or None for the context's error. */
    method Wait(call: Call) returns (admitted: Option<real>)
      requires fillRate > 0.0
      modifies this
      ensures admitted == Admission(Limits(), old(Contents()), call)
      ensures Contents() == After(Limits(), old(Contents()), call)
    {
      var now := call.now;
      if lastRequest.Some? {
        var elapsed := now - lastRequest.value;
        tokens := tokens + elapsed * fillRate;
        if tokens > maxBurst {
          tokens := maxBurst;
        }
      }
      assert tokens == Refilled(Limits(), old(Contents()), now);
      var waitDuration := 0.0;
      if tokens < 1.0 {
        var missing := 1.0 - tokens;
        waitDuration := missing / fillRate;
      } else {
        if lastRequest.Some? {
          var sinceLast := now - lastRequest.value;
          if sinceLast < interval {
            waitDuration := interval - sinceLast;
          }
        }
      }
      assert waitDuration == SleepWith(Limits(), lastRequest, now, tokens);
      if waitDuration > 0.0 {
        if call.cancelled {
          return None;
        }
        now := now + waitDuration;
      }
      tokens := tokens - 1.0;
      if tokens < 0.0 {
        tokens := 0.0;
      }
      lastRequest := Some(now + call.lag);
      return lastRequest;
    }
  }

  // ----- When a call is let through -----------------------------------------------------------

  /** A call that starts at `now` may go at `at`: a token has come in by then, or there was one and the spacing is kept. */
  predicate MayGo(c: Settings, b: Bucket, now: real, at: real) {
    at >= now &&
    match b.last
    case None => b.tokens >= 1.0 || b.tokens + Times(at - now, c.fillRate) >= 1.0
    case Some(last) =>
      var tokens := Min(b.tokens + Times(now - last, c.fillRate), c.maxBurst);
      if tokens < 1.0 then tokens + Times(at - now, c.fillRate) >= 1.0 else at >= last + c.interval
  }

  /** A call sleeps until the first moment at which it may go and no longer; it is given up only if it has to sleep. */
  lemma AdmissionMeans(c: Settings, b: Bucket, call: Call)
    requires c.fillRate > 0.0
    ensures Admission(c, b, call).None? <==> call.cancelled && !MayGo(c, b, call.now, call.now)
    ensures Admission(c, b, call).Some? ==>
              var woken := Admission(c, b, call).value - call.lag;
              MayGo(c, b, call.now, woken) && forall at | MayGo(c, b, call.now, at) :: woken <= at
  {
    hide Times, Over;
    var tokens := Refilled(c, b, call.now);
    TimesOrder(0.0, 0.0, c.fillRate);
    assert call.now - call.now == 0.0;
    if tokens < 1.0 {
      var sleep := Over(1.0 - tokens, c.fillRate);
      OverTimes(1.0 - tokens, c.fillRate);
      forall at | MayGo(c, b, call.now, at) ensures call.now + sleep <= at {
        TimesOrder(sleep, at - call.now, c.fillRate);
      }
      assert (call.now + sleep) - call.now == sleep;
    } else {
      forall at | at >= call.now && b.last.None? ensures MayGo(c, b, call.now, at) {
      }
    }
  }

  // ----- Runs of a sequential caller ------------------------------------------------------

  /** Each call starts after the previous admission, and no wait is cancelled. */
  ghost predicate Sequential(c: Settings, b: Bucket, calls: seq<Call>)
    requires Balanced(c)
    decreases |calls|
  {
    calls == [] ||
    (&& calls[0].lag >= 0.0
     && !calls[0].cancelled
     && (b.last.Some? ==> b.last.value <= calls[0].now)
     && Sequential(c, After(c, b, calls[0]), calls[1..]))
  }

  /** The bucket after the first `k` calls of a run. */
  ghost function BucketAfter(c: Settings, b: Bucket, calls: seq<Call>, k: nat): Bucket
    requires Balanced(c) && k <= |calls|
    decreases k
  {
    if k == 0 then b else BucketAfter(c, After(c, b, calls[0]), calls[1..], k - 1)
  }

  /** The times at which the calls of a run are admitted, in order. */
  ghost function Admissions(c: Settings, b: Bucket, calls: seq<Call>): seq<real>
    requires Balanced(c)
    decreases |calls|
  {
    if calls == [] then []
    else
      var rest := Admissions(c, After(c, b, calls[0]), calls[1..]);
      match Admission(c, b, calls[0])
      case None => rest
      case Some(at) => [at] + rest
  }

  ghost predicate InRange(b: Bucket) {
    0.0 <= b.tokens <= 2.0
  }

  /** The part of the bucket that can still buy an admission earlier than the fill rate allows. */
  function Potential(b: Bucket): real {
    Min(b.tokens, 1.0)
  }

  /** What the elapsed time is worth, in tokens. */
  function Earned(c: Settings, from: real, to: real): real {
    Times(to - from, c.fillRate)
  }

  lemma EarnedAdds(c: Settings, x: real, y: real, z: real)
    ensures Earned(c, x, z) == Earned(c, x, y) + Earned(c, y, z)
    ensures Earned(c, x, x) == 0.0
  {
    TimesAdds(y - x, z - y, c.fillRate);
    assert (y - x) + (z - y) == z - x;
  }

  lemma GapEarns(c: Settings, b: Bucket, call: Call)
    requires Balanced(c) && b.last.Some?
    requires call.lag >= 0.0 && !call.cancelled && b.last.value <= call.now
    ensures var tokens := Refilled(c, b, call.now);
            var at := Admission(c, b, call).value;
            && Earned(c, b.last.value, call.now) >= 0.0
            && at >= b.last.value
            && (tokens < 1.0 ==> Earned(c, b.last.value, at) >= Earned(c, b.last.value, call.now) + (1.0 - tokens))
            && (tokens >= 1.0 ==> Earned(c, b.last.value, at) >= 1.0 &&
                                  Earned(c, b.last.value, at) >= Earned(c, b.last.value, call.now))
  {
    hide Times, Over;
    var r := c.fillRate;
    var elapsed, gap := call.now - b.last.value, Admission(c, b, call).value - b.last.value;
    var tokens := Refilled(c, b, call.now);
    TimesOrder(0.0, elapsed, r);
    if tokens < 1.0 {
      var sleep := Over(1.0 - tokens, r);
      OverTimes(1.0 - tokens, r);
      TimesAdds(elapsed, sleep, r);
      TimesOrder(elapsed + sleep, gap, r);
    } else {
      TimesOrder(c.interval, gap, r);
      TimesOrder(elapsed, gap, r);
    }
  }

  /** `paid` buys `n` admissions between the two buckets; strictly more than that if the potential fell from 1. */
  ghost predicate Pays(paid: real, b: Bucket, b': Bucket, n: real) {
    && paid + Potential(b) - Potential(b') >= n
    && (Potential(b) == 1.0 && Potential(b') < 1.0 ==> paid + Potential(b) - Potential(b') > n)
  }

  /** Each admission after the first is paid for by elapsed time or by the potential. */
  lemma StepPays(c: Settings, b: Bucket, call: Call)
    requires Balanced(c) && InRange(b) && b.last.Some?
    requires call.lag >= 0.0 && !call.cancelled && b.last.value <= call.now
    ensures var b' := After(c, b, call);
            && InRange(b') && b'.last.Some?
            && Pays(Earned(c, b.last.value, b'.last.value), b, b', 1.0)
  {
    hide Times, Over;
    GapEarns(c, b, call);
    var e, g := Earned(c, b.last.value, call.now), Earned(c, b.last.value, After(c, b, call).last.value);
    assert Refilled(c, b, call.now) == Min(b.tokens + e, 3.0);
    StepPaysLinear(b, After(c, b, call), e, g);
  }

  lemma StepPaysLinear(b: Bucket, b': Bucket, e: real, g: real)
    requires InRange(b) && e >= 0.0
    requires var tokens := Min(b.tokens + e, 3.0);
             && b'.tokens == Max(tokens - 1.0, 0.0)
             && (tokens < 1.0 ==> g >= e + (1.0 - tokens))
             && (tokens >= 1.0 ==> g >= 1.0 && g >= e)
    ensures InRange(b') && Pays(g, b, b', 1.0)
  {
  }

  lemma PaysAdds(b: Bucket, b1: Bucket, b2: Bucket, p1: real, p2: real, n1: real, n2: real)
    requires InRange(b) && InRange(b1) && InRange(b2)
    requires Pays(p1, b, b1, n1) && Pays(p2, b1, b2, n2)
    ensures Pays(p1 + p2, b, b2, n1 + n2)
  {
    hide Times, Over;
  }

  lemma {:induction false} RunPays(c: Settings, b: Bucket, calls: seq<Call>, k: nat)
    requires Balanced(c) && InRange(b) && b.last.Some? && Sequential(c, b, calls) && k <= |calls|
    ensures var b' := BucketAfter(c, b, calls, k);
            && InRange(b') && b'.last.Some?
            && Pays(Earned(c, b.last.value, b'.last.value), b, b', k as real)
    decreases k
  {
    hide Times, Over;
    EarnedAdds(c, b.last.value, b.last.value, b.last.value);
    if k > 0 {
      var b1 := After(c, b, calls[0]);
      StepPays(c, b, calls[0]);
      RunPays(c, b1, calls[1..], k - 1);
      var b' := BucketAfter(c, b, calls, k);
      EarnedAdds(c, b.last.value, b1.last.value, b'.last.value);
      PaysAdds(b, b1, b', Earned(c, b.last.value, b1.last.value), Earned(c, b1.last.value, b'.last.value),
               1.0, (k - 1) as real);
    }
  }

  lemma {:induction false} AdmissionIsLast(c: Settings, b: Bucket, calls: seq<Call>, k: nat)
    requires Balanced(c) && Sequential(c, b, calls) && k < |calls|
    ensures |Admissions(c, b, calls)| == |calls|
    ensures BucketAfter(c, b, calls, k + 1).last == Some(Admissions(c, b, calls)[k])
    decreases |calls|
  {
    hide Times, Over;
    if |calls| > 1 {
      AdmissionIsLast(c, After(c, b, calls[0]), calls[1..], if k == 0 then 0 else k - 1);
    }
  }

  lemma PaysStrictly(paid: real, b: Bucket, b': Bucket, n: real)
    requires b.tokens >= 0.0 && b'.tokens >= 0.0 && Pays(paid, b, b', n)
    ensures n < paid + 1.0
  {
  }

  lemma FirstInRange(c: Settings, b: Bucket, call: Call)
    requires Balanced(c) && InRange(b) && call.lag >= 0.0 && !call.cancelled
    requires b.last.Some? ==> b.last.value <= call.now
    ensures InRange(After(c, b, call)) && After(c, b, call).last.Some?
  {
    hide Times, Over;
    if b.last.Some? { StepPays(c, b, call); }
  }

  lemma BoundedFromFirst(c: Settings, b: Bucket, calls: seq<Call>, j: nat)
    requires Balanced(c) && InRange(b) && Sequential(c, b, calls) && j < |calls|
    ensures |Admissions(c, b, calls)| == |calls|
    ensures j as real < Earned(c, Admissions(c, b, calls)[0], Admissions(c, b, calls)[j]) + 1.0
  {
    hide Times, Over;
    AdmissionIsLast(c, b, calls, j);
    AdmissionIsLast(c, b, calls, 0);
    var b1 := After(c, b, calls[0]);
    FirstInRange(c, b, calls[0]);
    RunPays(c, b1, calls[1..], j);
    var b' := BucketAfter(c, b1, calls[1..], j);
    PaysStrictly(Earned(c, b1.last.value, b'.last.value), b1, b', j as real);
  }

  lemma {:induction false} BoundedFrom(c: Settings, b: Bucket, calls: seq<Call>, i: nat, j: nat)
    requires Balanced(c) && InRange(b) && Sequential(c, b, calls) && i <= j < |calls|
    ensures |Admissions(c, b, calls)| == |calls|
    ensures (j - i) as real < Earned(c, Admissions(c, b, calls)[i], Admissions(c, b, calls)[j]) + 1.0
    decreases i
  {
    hide Times, Over;
    if i == 0 {
      BoundedFromFirst(c, b, calls, j);
    } else {
      FirstInRange(c, b, calls[0]);
      BoundedFrom(c, After(c, b, calls[0]), calls[1..], i - 1, j - 1);
    }
  }

  /**
    Any n consecutive admissions of a sequential caller, from any reachable bucket, satisfy
    n < fillRate * (time between the first and the last of them) + 2.
    */
  lemma AdmissionsBounded(c: Settings, b: Bucket, calls: seq<Call>, i: nat, j: nat)
    requires Balanced(c) && InRange(b) && Sequential(c, b, calls)
    requires i <= j < |calls|
    ensures |Admissions(c, b, calls)| == |calls|
    ensures (j - i + 1) as real < c.fillRate * (Admissions(c, b, calls)[j] - Admissions(c, b, calls)[i]) + 2.0
  {
    hide Times;
    BoundedFrom(c, b, calls, i, j);
    var a := Admissions(c, b, calls);
    TimesIs(a[j] - a[i], c.fillRate);
  }

  lemma NvdConfigBalanced(hasAPIKey: bool)
    ensures Balanced(NvdConfig(hasAPIKey))
  {
  }

  /** A window of the budget's 30 seconds never holds more than one admission over the budget. */
  lemma BudgetExceededByAtMostOne(hasAPIKey: bool, calls: seq<Call>, i: nat, j: nat)
    requires Sequential(NvdConfig(hasAPIKey), InitialBucket, calls) && i <= j < |calls|
    ensures |Admissions(NvdConfig(hasAPIKey), InitialBucket, calls)| == |calls|
    ensures var a := Admissions(NvdConfig(hasAPIKey), InitialBucket, calls);
            a[j] - a[i] <= 30.0 ==> j - i + 1 <= (if hasAPIKey then 50 else 5) + 1
  {
    var c := NvdConfig(hasAPIKey);
    BoundedFrom(c, InitialBucket, calls, i, j);
    var a := Admissions(c, InitialBucket, calls);
    if a[j] - a[i] <= 30.0 {
      assert c.fillRate == (if hasAPIKey then 50.0 else 5.0) / 30.0;
      TimesOrder(a[j] - a[i], 30.0, c.fillRate);
    }
  }

  // ----- Where the budget of k admissions per k refill times is not kept --------------------

  /** After an admission, k more take at least k refill times, however the caller times them. */
  ghost predicate KeepsBudget(c: Settings, b: Bucket, k: nat)
    requires Balanced(c) && b.last.Some?
  {
    forall calls: seq<Call> | |calls| == k && Sequential(c, b, calls) ::
      var b' := BucketAfter(c, b, calls, k);
      b'.last.Some? && Earned(c, b.last.value, b'.last.value) >= k as real
  }

  /** A caller that asks again at once. */
  function AtOnce(b: Bucket): Call
    requires b.last.Some?
  {
    Call(b.last.value, 0.0, false)
  }

  /** Asking again at once: a bucket below one token is emptied, any other pays one refill time. */
  lemma AtOnceStep(c: Settings, b: Bucket)
    requires Balanced(c) && InRange(b) && b.last.Some?
    ensures var b' := After(c, b, AtOnce(b));
            && b'.last.Some? && b'.last.value >= b.last.value
            && b'.tokens == Max(b.tokens - 1.0, 0.0)
            && Earned(c, b.last.value, b'.last.value) == (if b.tokens < 1.0 then 1.0 - b.tokens else 1.0)
  {
    hide Times, Over;
    var r := c.fillRate;
    var b' := After(c, b, AtOnce(b));
    TimesOrder(0.0, c.interval, r);
    assert b.last.value - b.last.value == 0.0;
    if b.tokens < 1.0 {
      OverTimes(1.0 - b.tokens, r);
      assert b'.last.value - b.last.value == Over(1.0 - b.tokens, r);
    } else {
      assert b'.last.value - b.last.value == c.interval;
    }
  }

  /** A caller that waits half the spacing first, out of a bucket of exactly one token. */
  lemma HalfIntervalStep(c: Settings, b: Bucket) returns (call: Call)
    requires Balanced(c) && b.last.Some? && b.tokens == 1.0
    ensures call.lag == 0.0 && !call.cancelled && call.now >= b.last.value
    ensures var b' := After(c, b, call);
            b'.tokens == 0.5 && b'.last.Some? && Earned(c, b.last.value, b'.last.value) == 1.0
  {
    hide Times, Over;
    var half := c.interval / 2.0;
    TimesAdds(half, half, c.fillRate);
    assert half + half == c.interval;
    TimesOrder(0.0, half, c.fillRate);
    call := Call(b.last.value + half, 0.0, false);
    assert call.now - b.last.value == half;
    assert Refilled(c, b, call.now) == 1.5;
    assert After(c, b, call).last.value - b.last.value == c.interval;
  }

  /** From any bucket that is not empty, k more admissions can fit in less than k refill times. */
  lemma {:induction false} Overspend(c: Settings, b: Bucket, k: nat) returns (calls: seq<Call>)
    requires Balanced(c) && InRange(b) && b.last.Some?
    requires k >= (if b.tokens == 0.0 then 0 else if b.tokens < 1.0 then 1 else if b.tokens < 2.0 then 2 else 3)
    ensures |calls| == k && Sequential(c, b, calls) && BucketAfter(c, b, calls, k).last.Some?
    ensures var paid := Earned(c, b.last.value, BucketAfter(c, b, calls, k).last.value);
            if b.tokens == 0.0 then paid <= k as real else paid < k as real
    decreases k
  {
    hide Times, Over;
    EarnedAdds(c, b.last.value, b.last.value, b.last.value);
    if k == 0 {
      calls := [];
    } else {
      var call := AtOnce(b);
      AtOnceStep(c, b);
      if b.tokens == 1.0 {
        call := HalfIntervalStep(c, b);
      }
      var b1 := After(c, b, call);
      var rest := Overspend(c, b1, k - 1);
      calls := [call] + rest;
      assert calls[1..] == rest;
      EarnedAdds(c, b.last.value, b1.last.value, BucketAfter(c, b, calls, k).last.value);
    }
  }

  /**
    The budget is kept after an admission exactly when that admission left the bucket empty.
    With k = 5 (or 50) this is the budget per 30 seconds: the code can exceed it by one.
    */
  lemma KeepsBudgetIffEmpty(c: Settings, b: Bucket, k: nat)
    requires Balanced(c) && InRange(b) && b.last.Some? && k >= 3
    ensures KeepsBudget(c, b, k) <==> b.tokens == 0.0
  {
    hide Times, Over;
    if b.tokens == 0.0 {
      forall calls: seq<Call> | |calls| == k && Sequential(c, b, calls)
        ensures var b' := BucketAfter(c, b, calls, k);
                b'.last.Some? && Earned(c, b.last.value, b'.last.value) >= k as real
      {
        RunPays(c, b, calls, k);
      }
    } else {
      var calls := Overspend(c, b, k);
      assert !KeepsBudget(c, b, k);
    }
  }

  /** Two calls, the second after two refill times, leave one token in the bucket. */
  lemma ReachOneToken(c: Settings) returns (calls: seq<Call>)
    requires Balanced(c)
    ensures |calls| == 2 && Sequential(c, InitialBucket, calls)
    ensures BucketAfter(c, InitialBucket, calls, 2).last.Some? && BucketAfter(c, InitialBucket, calls, 2).tokens == 1.0
  {
    hide Times, Over;
    var i := c.interval;
    var first, second := Call(0.0, 0.0, false), Call(i + i, 0.0, false);
    calls := [first, second];
    TimesOrder(0.0, i, c.fillRate);
    TimesAdds(i, i, c.fillRate);
    var b1, b2 := Bucket(0.0, Some(0.0)), Bucket(1.0, Some(i + i));
    assert After(c, InitialBucket, first) == b1;
    assert second.now - 0.0 == i + i;
    assert After(c, b1, second) == b2;
    assert calls[1..] == [second] && [second][1..] == [];
    assert BucketAfter(c, b1, [second], 1) == BucketAfter(c, b2, [], 0) == b2;
    assert Sequential(c, b2, []) && Sequential(c, b1, [second]);
  }

  lemma {:induction false} RunsAppend(c: Settings, b: Bucket, xs: seq<Call>, ys: seq<Call>)
    requires Balanced(c) && Sequential(c, b, xs) && Sequential(c, BucketAfter(c, b, xs, |xs|), ys)
    ensures Sequential(c, b, xs + ys)
    ensures BucketAfter(c, b, xs + ys, |xs|) == BucketAfter(c, b, xs, |xs|)
    ensures BucketAfter(c, b, xs + ys, |xs| + |ys|) == BucketAfter(c, BucketAfter(c, b, xs, |xs|), ys, |ys|)
    decreases |xs|
  {
    hide After, Times;
    if xs == [] {
      assert xs + ys == ys;
    } else {
      assert (xs + ys)[1..] == xs[1..] + ys;
      RunsAppend(c, After(c, b, xs[0]), xs[1..], ys);
    }
  }

  /** A new limiter can be made to exceed its budget: one admission more than it in less than 30 seconds. */
  lemma BudgetExceeded(hasAPIKey: bool) returns (calls: seq<Call>)
    ensures Balanced(NvdConfig(hasAPIKey)) && Sequential(NvdConfig(hasAPIKey), InitialBucket, calls)
    ensures var a, budget := Admissions(NvdConfig(hasAPIKey), InitialBucket, calls), if hasAPIKey then 50 else 5;
            |a| == 1 + (budget + 1) && a[budget + 1] - a[1] < 30.0
  {
    NvdConfigBalanced(hasAPIKey);
    var c, budget := NvdConfig(hasAPIKey), if hasAPIKey then 50 else 5;
    assert c.fillRate * 30.0 == budget as real;
    hide Times, Over, After, NvdConfig, Balanced;
    var start := ReachOneToken(c);
    var b := BucketAfter(c, InitialBucket, start, 2);
    var rest := Overspend(c, b, budget);
    calls := start + rest;
    RunsAppend(c, InitialBucket, start, rest);
    AdmissionIsLast(c, InitialBucket, calls, 1);
    AdmissionIsLast(c, InitialBucket, calls, budget + 1);
    var a := Admissions(c, InitialBucket, calls);
    assert Earned(c, a[1], a[budget + 1]) < budget as real;
    TimesIs(30.0, c.fillRate);
    TimesOrder(30.0, a[budget + 1] - a[1], c.fillRate);
  }

  /** A call is admitted a whole spacing after the last admission unless it found 0 < tokens < 1. */
  lemma SpacingKeptIff(c: Settings, b: Bucket, now: real)
    requires Balanced(c) && InRange(b) && b.last.Some? && b.last.value <= now
    ensures Admission(c, b, Call(now, 0.0, false)).value - b.last.value >= c.interval
            <==> b.tokens == 0.0 || Refilled(c, b, now) >= 1.0
  {
    hide Times, Over;
    var r, elapsed := c.fillRate, now - b.last.value;
    var gap := Admission(c, b, Call(now, 0.0, false)).value - b.last.value;
    TimesOrder(0.0, elapsed, r);
    if Refilled(c, b, now) < 1.0 {
      var missing := 1.0 - b.tokens - Times(elapsed, r);
      assert Refilled(c, b, now) == b.tokens + Times(elapsed, r);
      assert 1.0 - Refilled(c, b, now) == missing;
      OverTimes(missing, r);
      assert gap == elapsed + Over(missing, r);
      TimesAdds(elapsed, Over(missing, r), r);
      TimesOrder(c.interval, gap, r);
    }
  }

  // ----- Cancelled waits ------------------------------------------------------------------

  /** Rounds of one cancelled wait and two admissions, starting from an empty bucket at `at`. */
  function CancellingRounds(at: real, n: nat): seq<Call>
    decreases n
  {
    if n == 0 then []
    else [Call(at + 5.0, 0.0, true), Call(at + 6.0, 0.0, false), Call(at + 6.0, 0.0, false)]
         + CancellingRounds(at + 7.0, n - 1)
  }

  /** One call without an API key, where a token takes six seconds: what it finds, sleeps and leaves. */
  lemma NoKeyStep(b: Bucket, call: Call, tokens: real, sleep: real)
    requires b.last.Some? && call.lag == 0.0
    requires tokens == Min(b.tokens + (call.now - b.last.value) / 6.0, 3.0)
    requires tokens < 1.0 ==> sleep == (1.0 - tokens) * 6.0
    requires tokens >= 1.0 ==> sleep == 0.0 && call.now - b.last.value >= 6.0
    ensures NvdConfig(false).fillRate > 0.0
    ensures Admission(NvdConfig(false), b, call) ==
            if sleep > 0.0 && call.cancelled then None else Some(call.now + sleep)
    ensures After(NvdConfig(false), b, call) ==
            if sleep > 0.0 && call.cancelled then b.(tokens := tokens)
            else Bucket(Max(tokens - 1.0, 0.0), Some(call.now + sleep))
  {
    var c, elapsed := NvdConfig(false), call.now - b.last.value;
    assert c.fillRate == 1.0 / 6.0;
    SixthOf(elapsed, c.fillRate);
    SixthOf(1.0 - tokens, c.fillRate);
    hide Times, Over;
  }

  lemma SixthOf(x: real, r: real)
    requires r == 1.0 / 6.0
    ensures Times(x, r) == x / 6.0 && Over(x, r) == x * 6.0
  {
  }

  lemma Unroll(c: Settings, b: Bucket, call: Call, rest: seq<Call>)
    requires Balanced(c)
    ensures var as' := Admissions(c, After(c, b, call), rest);
            Admissions(c, b, [call] + rest) ==
            match Admission(c, b, call) { case None => as' case Some(at) => [at] + as' }
  {
    hide Times, Over;
    assert ([call] + rest)[1..] == rest;
  }

  /** A cancelled wait after five seconds keeps 5/6 of a token, and the next refill counts those seconds again. */
  lemma Round(at: real, rest: seq<Call>)
    ensures Balanced(NvdConfig(false))
    ensures Admissions(NvdConfig(false), Bucket(0.0, Some(at)),
                       [Call(at + 5.0, 0.0, true), Call(at + 6.0, 0.0, false), Call(at + 6.0, 0.0, false)] + rest)
         == [at + 6.0, at + 7.0] + Admissions(NvdConfig(false), Bucket(0.0, Some(at + 7.0)), rest)
  {
    NvdConfigBalanced(false);
    var c := NvdConfig(false);
    hide Times, Over, Refilled, SleepTime, SleepWith, NvdConfig, Balanced, Admissions;
    var x, y := Call(at + 5.0, 0.0, true), Call(at + 6.0, 0.0, false);
    var b0, b1 := Bucket(0.0, Some(at)), Bucket(5.0 / 6.0, Some(at));
    var b2, b3 := Bucket(5.0 / 6.0, Some(at + 6.0)), Bucket(0.0, Some(at + 7.0));
    NoKeyStep(b0, x, 5.0 / 6.0, 1.0);
    NoKeyStep(b1, y, 11.0 / 6.0, 0.0);
    NoKeyStep(b2, y, 5.0 / 6.0, 1.0);
    Unroll(c, b2, y, rest);
    Unroll(c, b1, y, [y] + rest);
    Unroll(c, b0, x, [y] + ([y] + rest));
    assert [x, y, y] + rest == [x] + ([y] + ([y] + rest));
  }

  lemma {:induction false} RoundsAdmit(at: real, n: nat)
    ensures Balanced(NvdConfig(false))
    ensures var a := Admissions(NvdConfig(false), Bucket(0.0, Some(at)), CancellingRounds(at, n));
            |a| == 2 * n && (n > 0 ==> a[2 * n - 1] == at + 7.0 * n as real)
    decreases n
  {
    NvdConfigBalanced(false);
    hide Times, Over, Refilled, SleepTime, SleepWith, NvdConfig, Balanced, Admissions;
    if n == 0 {
      assert |Admissions(NvdConfig(false), Bucket(0.0, Some(at)), [])| == 0 by { NoCalls(Bucket(0.0, Some(at))); }
    } else {
      Round(at, CancellingRounds(at + 7.0, n - 1));
      RoundsAdmit(at + 7.0, n - 1);
    }
  }

  lemma NoCalls(b: Bucket)
    ensures Balanced(NvdConfig(false)) && Admissions(NvdConfig(false), b, []) == []
  {
  }

  /**
    The bound needs the waits not to be cancelled: with n >= 2 cancelled waits there are 2n + 1
    admissions in 7n seconds, which is above the bound and outgrows it without limit.
    */
  lemma CancelledWaitsBreakTheBound(n: nat)
    requires n >= 2
    ensures Balanced(NvdConfig(false))
    ensures var a := Admissions(NvdConfig(false), InitialBucket, [Call(0.0, 0.0, false)] + CancellingRounds(0.0, n));
            && |a| == 2 * n + 1
            && !(|a| as real < NvdConfig(false).fillRate * (a[2 * n] - a[0]) + 2.0)
  {
    NvdConfigBalanced(false);
    var c, first := NvdConfig(false), Call(0.0, 0.0, false);
    assert After(c, InitialBucket, first) == Bucket(0.0, Some(0.0)) && Admission(c, InitialBucket, first) == Some(0.0);
    assert c.fillRate == 1.0 / 6.0;
    hide Times, Over, Refilled, SleepTime, SleepWith, NvdConfig, Balanced, Admissions;
    Unroll(c, InitialBucket, first, CancellingRounds(0.0, n));
    RoundsAdmit(0.0, n);
    assert c.fillRate * (7.0 * n as real) == 7.0 * n as real / 6.0;
  }

  /** Each call starts after the previous admission; any wait may be cancelled. */
  ghost predicate Serial(c: Settings, b: Bucket, calls: seq<Call>)
    requires Balanced(c)
    decreases |calls|
  {
    calls == [] ||
    (&& calls[0].lag >= 0.0
     && (b.last.Some? ==> b.last.value <= calls[0].now)
     && Serial(c, After(c, b, calls[0]), calls[1..]))
  }

  /** The time since the last admission that each cancelled wait lets the next call count again, in tokens. */
  ghost function CountedAgain(c: Settings, b: Bucket, calls: seq<Call>): real
    requires Balanced(c)
    decreases |calls|
  {
    if calls == [] then 0.0
    else (if Admission(c, b, calls[0]).None? && b.last.Some? then Earned(c, b.last.value, calls[0].now) else 0.0)
         + CountedAgain(c, After(c, b, calls[0]), calls[1..])
  }

  ghost predicate Capped(b: Bucket) {
    0.0 <= b.tokens <= 3.0
  }

  lemma AdmittedAnyway(c: Settings, b: Bucket, call: Call)
    requires Balanced(c) && Admission(c, b, call).Some?
    ensures Admission(c, b, call.(cancelled := false)) == Admission(c, b, call)
    ensures After(c, b, call.(cancelled := false)) == After(c, b, call)
  {
    hide Times, Over;
  }

  /** An admission is paid for as before; a cancelled wait is paid for by the time counted again. */
  lemma StepPaysAnyway(c: Settings, b: Bucket, call: Call)
    requires Balanced(c) && Capped(b) && b.last.Some? && call.lag >= 0.0 && b.last.value <= call.now
    ensures var b' := After(c, b, call);
            && Capped(b') && b'.last.Some?
            && (if Admission(c, b, call).Some? then Pays(Earned(c, b.last.value, b'.last.value), b, b', 1.0)
                else b'.last == b.last && Pays(Earned(c, b.last.value, call.now), b, b', 0.0))
  {
    hide Times, Over;
    var calm := call.(cancelled := false);
    GapEarns(c, b, calm);
    if Admission(c, b, call).Some? {
      AdmittedAnyway(c, b, call);
    }
  }

  lemma PaysSum(b: Bucket, b1: Bucket, b2: Bucket, p1: real, p2: real, n1: real, n2: real)
    requires Capped(b) && Capped(b1) && Capped(b2) && Pays(p1, b, b1, n1) && Pays(p2, b1, b2, n2)
    ensures Pays(p1 + p2, b, b2, n1 + n2)
  {
  }

  lemma {:induction false} RunPaysAnyway(c: Settings, b: Bucket, calls: seq<Call>)
    requires Balanced(c) && Capped(b) && b.last.Some? && Serial(c, b, calls)
    ensures var b', a := BucketAfter(c, b, calls, |calls|), Admissions(c, b, calls);
            && Capped(b') && b'.last == Some(if a == [] then b.last.value else a[|a| - 1])
            && Pays(Earned(c, b.last.value, b'.last.value) + CountedAgain(c, b, calls), b, b', |a| as real)
    decreases |calls|
  {
    hide Times, Over, Earned, Pays, Capped;
    EarnedAdds(c, b.last.value, b.last.value, b.last.value);
    if calls == [] {
      PaysNothing(b);
    } else {
      var b1 := After(c, b, calls[0]);
      StepPaysAnyway(c, b, calls[0]);
      RunPaysAnyway(c, b1, calls[1..]);
      var b' := BucketAfter(c, b, calls, |calls|);
      EarnedAdds(c, b.last.value, b1.last.value, b'.last.value);
      var again, rest := CountedAgain(c, b1, calls[1..]), |Admissions(c, b1, calls[1..])| as real;
      PaysSum(b, b1, b', if Admission(c, b, calls[0]).Some? then Earned(c, b.last.value, b1.last.value) else Earned(c, b.last.value, calls[0].now),
              Earned(c, b1.last.value, b'.last.value) + again, if Admission(c, b, calls[0]).Some? then 1.0 else 0.0, rest);
    }
  }

  lemma PaysNothing(b: Bucket)
    requires Capped(b)
    ensures Pays(0.0, b, b, 0.0)
  {
  }

  lemma CappedStep(c: Settings, b: Bucket, call: Call)
    requires Balanced(c) && Capped(b) && call.lag >= 0.0 && (b.last.Some? ==> b.last.value <= call.now)
    ensures Capped(After(c, b, call))
  {
    hide Times, Over;
    if b.last.Some? { StepPaysAnyway(c, b, call); }
  }

  lemma {:induction false} SerialFrom(c: Settings, b: Bucket, calls: seq<Call>, k: nat)
    requires Balanced(c) && Capped(b) && Serial(c, b, calls) && k <= |calls|
    ensures Capped(BucketAfter(c, b, calls, k)) && Serial(c, BucketAfter(c, b, calls, k), calls[k..])
    decreases k
  {
    hide Times, Over, After, Capped;
    if k == 0 {
      assert calls[0..] == calls;
    } else {
      CappedStep(c, b, calls[0]);
      SerialFrom(c, After(c, b, calls[0]), calls[1..], k - 1);
      assert calls[1..][k - 1..] == calls[k..];
    }
  }

  lemma {:induction false} SerialPrefix(c: Settings, b: Bucket, calls: seq<Call>, k: nat)
    requires Balanced(c) && Serial(c, b, calls) && k <= |calls|
    ensures Serial(c, b, calls[..k])
    decreases k
  {
    hide Times, Over, After;
    if k > 0 {
      SerialPrefix(c, After(c, b, calls[0]), calls[1..], k - 1);
      assert calls[..k][1..] == calls[1..][..k - 1];
    }
  }

  lemma {:induction false} NextBucket(c: Settings, b: Bucket, calls: seq<Call>, i: nat)
    requires Balanced(c) && i < |calls|
    ensures BucketAfter(c, b, calls, i + 1) == After(c, BucketAfter(c, b, calls, i), calls[i])
    ensures Admission(c, BucketAfter(c, b, calls, i), calls[i]).Some? ==>
              BucketAfter(c, b, calls, i + 1).last == Admission(c, BucketAfter(c, b, calls, i), calls[i])
    decreases i
  {
    hide Times, Over, Refilled;
    if i > 0 {
      NextBucket(c, After(c, b, calls[0]), calls[1..], i - 1);
    }
  }

  /** The admissions of the calls, and the one that left the bucket before them, keep the bound plus what is counted again. */
  ghost predicate WithinBound(c: Settings, b: Bucket, calls: seq<Call>)
    requires Balanced(c) && b.last.Some?
  {
    var first, a := b.last.value, Admissions(c, b, calls);
    var last := if a == [] then first else a[|a| - 1];
    |a| as real + 1.0 < Earned(c, first, last) + 2.0 + CountedAgain(c, b, calls)
  }

  lemma BoundedFromAdmission(c: Settings, b: Bucket, calls: seq<Call>)
    requires Balanced(c) && Capped(b) && b.last.Some? && Serial(c, b, calls)
    ensures WithinBound(c, b, calls)
  {
    hide Times, Over, Admission, After;
    RunPaysAnyway(c, b, calls);
    var a := Admissions(c, b, calls);
    var b' := BucketAfter(c, b, calls, |calls|);
    PaysStrictly(Earned(c, b.last.value, b'.last.value) + CountedAgain(c, b, calls), b, b', |a| as real);
  }

  lemma Middle(calls: seq<Call>, i: nat, j: nat)
    requires i <= j <= |calls|
    ensures calls[i..][..j - i] == calls[i..j]
  {
  }

  /**
    With no assumption on cancelled waits: from the admission of call i on, the n admissions up to call j satisfy
    n < fillRate * (time between the first and the last) + 2 + what the cancelled waits among them count again.
    */
  lemma AdmissionsBoundedAnyway(c: Settings, b: Bucket, calls: seq<Call>, i: nat, j: nat)
    requires Balanced(c) && Capped(b) && Serial(c, b, calls) && i < j <= |calls|
    requires Admission(c, BucketAfter(c, b, calls, i), calls[i]).Some?
    ensures BucketAfter(c, b, calls, i + 1).last == Admission(c, BucketAfter(c, b, calls, i), calls[i])
    ensures WithinBound(c, BucketAfter(c, b, calls, i + 1), calls[i + 1..j])
  {
    hide Times, Over, After, Admission, Capped, WithinBound;
    var b1 := BucketAfter(c, b, calls, i + 1);
    NextBucket(c, b, calls, i);
    SerialFrom(c, b, calls, i + 1);
    SerialPrefix(c, b1, calls[i + 1..], j - i - 1);
    Middle(calls, i + 1, j);
    BoundedFromAdmission(c, b1, calls[i + 1..j]);
  }
}
