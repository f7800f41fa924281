/**
  The gateway's per-subnet concurrency limiter: a buffered channel used as a semaphore, and two
  counters behind a mutex of their own. Each channel operation and each critical section is one
  atomic step, and steps of different callers interleave freely.
*/
module SubnetRateLimiter {
  /** The shared state: the channel's capacity and length, and the two counters. */
  datatype Gauges = Gauges(cap: nat, sem: nat, active: int, peak: int)

  function Empty(cap: nat): Gauges {
    Gauges(cap, 0, 0, 0)
  }

  function CountedUp(g: Gauges): Gauges {
    g.(active := g.active + 1, peak := if g.active + 1 > g.peak then g.active + 1 else g.peak)
  }

  function CountedDown(g: Gauges): Gauges {
    if g.active > 0 then g.(active := g.active - 1) else g
  }

  /** Where one call of Execute stands. A caller is `Running` from its count-up until its pop. */
  datatype Phase = Entering | Pushed | Running | Popped | Finished | TimedOut

  datatype System = System(g: Gauges, callers: seq<Phase>)

  datatype Step =
    | Arrive
    | Push(i: nat)
    | GiveUp(i: nat)
    | CountUp(i: nat)
    | Pop(i: nat)
    | CountDown(i: nat)

  class Limiter {
    const maxConcurrency: int
    var sem: nat
    var activeCount: int
    var peakCount: int

    ghost predicate Valid()
      reads this
    {
      maxConcurrency > 0 && sem <= maxConcurrency
    }

    ghost function Contents(): Gauges
      requires maxConcurrency > 0
      reads this
    {
      Gauges(maxConcurrency, sem, activeCount, peakCount)
    }

    constructor NewSubnetRateLimiter(maxConcurrency: int)
      ensures Valid()
      ensures Contents() == Empty(if maxConcurrency <= 0 then 20 else maxConcurrency)
    {
      this.maxConcurrency := if maxConcurrency <= 0 then 20 else maxConcurrency;
      sem, activeCount, peakCount := 0, 0, 0;
    }

    /** The send on the channel; it is ready only while the channel is not full. */
    method TrySend() returns (sent: bool)
      requires Valid()
      modifies this`sem
      ensures Valid() && sent == (old(sem) < maxConcurrency)
      ensures Contents() == old(Contents()).(sem := old(sem) + if sent then 1 else 0)
    {
      sent := sem < maxConcurrency;
      if sent { sem := sem + 1; }
    }

    /** The critical section of Acquire. */
    method EnterCount()
      requires Valid()
      modifies this`activeCount, this`peakCount
      ensures Valid() && Contents() == CountedUp(old(Contents()))
    {
      activeCount := activeCount + 1;
      if activeCount > peakCount {
        peakCount := activeCount;
      }
    }

    /** The receive from the channel; not ready means the default branch. */
    method TryReceive() returns (received: bool)
      requires Valid()
      modifies this`sem
      ensures Valid() && received == (old(sem) > 0)
      ensures Contents() == old(Contents()).(sem := old(sem) - if received then 1 else 0)
    {
      received := sem > 0;
      if received { sem := sem - 1; }
    }

    /** The critical section of Release. */
    method LeaveCount()
      requires Valid()
      modifies this`activeCount
      ensures Valid() && Contents() == CountedDown(old(Contents()))
    {
      if activeCount > 0 {
        activeCount := activeCount - 1;
      }
    }
  }

  // ----- The interleaving model -----------------------------------------------------------

  predicate Enabled(s: System, step: Step) {
    match step
    case Arrive => true
    case Push(i) => i < |s.callers| && s.callers[i] == Entering && s.g.sem < s.g.cap
    case GiveUp(i) => i < |s.callers| && s.callers[i] == Entering
    case CountUp(i) => i < |s.callers| && s.callers[i] == Pushed
    case Pop(i) => i < |s.callers| && s.callers[i] == Running
    case CountDown(i) => i < |s.callers| && s.callers[i] == Popped
  }

  function Apply(s: System, step: Step): System
    requires Enabled(s, step)
  {
    match step
    case Arrive => s.(callers := s.callers + [Entering])
    case Push(i) => System(s.g.(sem := s.g.sem + 1), s.callers[i := Pushed])
    case GiveUp(i) => s.(callers := s.callers[i := TimedOut])
    case CountUp(i) => System(CountedUp(s.g), s.callers[i := Running])
    case Pop(i) =>
      if s.g.sem > 0 then System(s.g.(sem := s.g.sem - 1), s.callers[i := Popped])
      else s.(callers := s.callers[i := Finished])
    case CountDown(i) => System(CountedDown(s.g), s.callers[i := Finished])
  }

  ghost predicate Next(s: System, s': System) {
    exists step :: Enabled(s, step) && s' == Apply(s, step)
  }

  /** Every state of an interleaving of any number of Execute calls, from a new limiter on. */
  ghost predicate Behavior(trace: seq<System>, cap: nat) {
    && |trace| > 0
    && trace[0] == System(Empty(cap), [])
    && forall i | 0 <= i < |trace| - 1 :: Next(trace[i], trace[i + 1])
  }

  function Count(callers: seq<Phase>, p: Phase): nat {
    if callers == [] then 0
    else Count(callers[..|callers| - 1], p) + if callers[|callers| - 1] == p then 1 else 0
  }

  lemma {:induction false} CountUpdate(callers: seq<Phase>, i: nat, q: Phase, p: Phase)
    requires i < |callers|
    ensures Count(callers[i := q], p) ==
            Count(callers, p) - (if callers[i] == p then 1 else 0) + (if q == p then 1 else 0)
  {
    var n := |callers| - 1;
    if i == n {
      assert callers[i := q][..n] == callers[..n];
    } else {
      CountUpdate(callers[..n], i, q, p);
      assert callers[i := q][..n] == callers[..n][i := q];
    }
  }

  lemma {:induction false} CountPositive(callers: seq<Phase>, p: Phase)
    ensures Count(callers, p) > 0 <==> p in callers
  {
    if callers != [] {
      var n := |callers| - 1;
      CountPositive(callers[..n], p);
      assert callers == callers[..n] + [callers[n]];
    }
  }

  /** What every interleaving keeps: the channel and the counter never drift apart. */
  ghost predicate Consistent(s: System) {
    && s.g.sem == Count(s.callers, Pushed) + Count(s.callers, Running)
    && s.g.active == Count(s.callers, Running) + Count(s.callers, Popped)
    && s.g.sem <= s.g.cap
    && s.g.active <= s.g.peak
  }

  /** Steps a caller still has to take, at most. */
  function Remaining(p: Phase): nat {
    match p
    case Entering => 4
    case Pushed => 3
    case Running => 2
    case Popped => 1
    case Finished => 0
    case TimedOut => 0
  }

  function TotalRemaining(callers: seq<Phase>): nat {
    if callers == [] then 0
    else TotalRemaining(callers[..|callers| - 1]) + Remaining(callers[|callers| - 1])
  }

  lemma {:induction false} RemainingUpdate(callers: seq<Phase>, i: nat, q: Phase)
    requires i < |callers|
    ensures TotalRemaining(callers[i := q]) == TotalRemaining(callers) - Remaining(callers[i]) + Remaining(q)
  {
    var n := |callers| - 1;
    if i == n {
      assert callers[i := q][..n] == callers[..n];
    } else {
      RemainingUpdate(callers[..n], i, q);
      assert callers[i := q][..n] == callers[..n][i := q];
    }
  }

  lemma StepKeepsConsistent(s: System, step: Step)
    requires Consistent(s) && Enabled(s, step)
    ensures Consistent(Apply(s, step)) && Apply(s, step).g.cap == s.g.cap
    ensures step.Pop? ==> s.g.sem > 0
    ensures step.CountDown? ==> s.g.active > 0
    ensures 1 + TotalRemaining(Apply(s, step).callers) <=
            TotalRemaining(s.callers) + 5 * (|Apply(s, step).callers| - |s.callers|)
  {
    match step
    case Arrive =>
      assert Apply(s, step).callers[..|s.callers|] == s.callers;
    case Push(i) => Moved(s.callers, i, Pushed);
    case GiveUp(i) => Moved(s.callers, i, TimedOut);
    case CountUp(i) => Moved(s.callers, i, Running);
    case Pop(i) => CountPositive(s.callers, Running); Moved(s.callers, i, Popped);
    case CountDown(i) => CountPositive(s.callers, Popped); Moved(s.callers, i, Finished);
  }

  lemma Moved(callers: seq<Phase>, i: nat, q: Phase)
    requires i < |callers|
    ensures forall p <- [Pushed, Running, Popped] ::
              Count(callers[i := q], p) ==
              Count(callers, p) - (if callers[i] == p then 1 else 0) + (if q == p then 1 else 0)
    ensures TotalRemaining(callers[i := q]) == TotalRemaining(callers) - Remaining(callers[i]) + Remaining(q)
  {
    forall p ensures Count(callers[i := q], p) ==
                     Count(callers, p) - (if callers[i] == p then 1 else 0) + (if q == p then 1 else 0)
    {
      CountUpdate(callers, i, q, p);
    }
    RemainingUpdate(callers, i, q);
  }

  lemma {:induction false} BehaviorConsistent(trace: seq<System>, cap: nat, k: nat)
    requires Behavior(trace, cap) && k < |trace|
    ensures Consistent(trace[k]) && trace[k].g.cap == cap
    ensures k + TotalRemaining(trace[k].callers) <= 5 * |trace[k].callers|
  {
    if k > 0 {
      BehaviorConsistent(trace, cap, k - 1);
      assert Next(trace[k - 1], trace[k - 1 + 1]);
      var step :| Enabled(trace[k - 1], step) && trace[k] == Apply(trace[k - 1], step);
      StepKeepsConsistent(trace[k - 1], step);
    }
  }

  /**
    In every state of every interleaving: at most `cap` callers run; counter and channel agree up to
    the callers between the two; a release never finds the channel empty nor the counter at zero;
    and once all calls are over both are back to zero.
    */
  lemma ConcurrencySafe(trace: seq<System>, cap: nat, k: nat)
    requires Behavior(trace, cap) && k < |trace|
    ensures var s := trace[k];
            && Count(s.callers, Running) <= cap
            && s.g.active + Count(s.callers, Pushed) == s.g.sem + Count(s.callers, Popped)
            && (Running in s.callers ==> s.g.sem > 0)
            && (Popped in s.callers ==> s.g.active > 0)
            && ((forall p | p in s.callers :: p == Finished || p == TimedOut) ==> s.g.sem == 0 && s.g.active == 0)
  {
    BehaviorConsistent(trace, cap, k);
    CountPositive(trace[k].callers, Pushed);
    CountPositive(trace[k].callers, Running);
    CountPositive(trace[k].callers, Popped);
  }

  /** The peak is the highest count so far: no state's count was above it, and some state's count was as high. */
  ghost predicate PeakSoFar(trace: seq<System>, k: nat)
    requires k < |trace|
  {
    && (forall j | 0 <= j <= k :: trace[j].g.active <= trace[k].g.peak)
    && exists j :: 0 <= j <= k && trace[j].g.active == trace[k].g.peak
  }

  lemma {:induction false} PeakIsMaximum(trace: seq<System>, cap: nat, k: nat)
    requires Behavior(trace, cap) && k < |trace|
    ensures PeakSoFar(trace, k)
  {
    if k == 0 {
      assert trace[0].g.active == trace[0].g.peak;
    } else {
      PeakIsMaximum(trace, cap, k - 1);
      assert Next(trace[k - 1], trace[k - 1 + 1]);
      PeakFollows(trace[k - 1], trace[k]);
      var j :| 0 <= j <= k - 1 && trace[j].g.active == trace[k - 1].g.peak;
      assert trace[k].g.peak == trace[k - 1].g.peak || trace[k].g.peak == trace[k].g.active;
    }
  }

  lemma PeakFollows(s: System, s': System)
    requires Next(s, s') && s.g.active <= s.g.peak
    ensures s.g.peak <= s'.g.peak && s'.g.active <= s'.g.peak
    ensures s'.g.peak == s.g.peak || s'.g.peak == s'.g.active
  {
    var step :| Enabled(s, step) && s' == Apply(s, step);
  }

  /** No deadlock: while some call is not over, a step other than a new arrival or a timeout is possible. */
  lemma NeverStuck(trace: seq<System>, cap: nat, k: nat, i: nat)
    requires Behavior(trace, cap) && k < |trace| && cap > 0
    requires i < |trace[k].callers| && trace[k].callers[i] != Finished && trace[k].callers[i] != TimedOut
    ensures exists step :: Enabled(trace[k], step) && !step.Arrive? && !step.GiveUp?
  {
    var s := trace[k];
    BehaviorConsistent(trace, cap, k);
    match s.callers[i]
    case Entering =>
      if s.g.sem < cap {
        assert Enabled(s, Push(i));
      } else {
        CountPositive(s.callers, Pushed);
        CountPositive(s.callers, Running);
        if Pushed in s.callers {
          var j :| 0 <= j < |s.callers| && s.callers[j] == Pushed;
          assert Enabled(s, CountUp(j));
        } else {
          var j :| 0 <= j < |s.callers| && s.callers[j] == Running;
          assert Enabled(s, Pop(j));
        }
      }
    case Pushed => assert Enabled(s, CountUp(i));
    case Running => assert Enabled(s, Pop(i));
    case Popped => assert Enabled(s, CountDown(i));
  }

  /** No livelock: n calls take at most 5n steps, their arrivals included. */
  lemma CallsTerminate(trace: seq<System>, cap: nat)
    requires Behavior(trace, cap)
    ensures |trace| - 1 <= 5 * |trace[|trace| - 1].callers|
  {
    BehaviorConsistent(trace, cap, |trace| - 1);
  }

  /** The counters are not bounded by the capacity: callers that popped but did not count down pile up. */
  lemma {:induction false} PeakUnbounded(cap: nat, n: nat) returns (trace: seq<System>)
    requires cap > 0
    ensures Behavior(trace, cap)
    ensures trace[|trace| - 1] == System(Gauges(cap, 0, n, n), seq(n, _ => Popped))
  {
    if n == 0 {
      trace := [System(Empty(cap), [])];
      assert seq(0, _ => Popped) == [];
    } else {
      var before := PeakUnbounded(cap, n - 1);
      var s0 := before[|before| - 1];
      var s1 := Apply(s0, Arrive);
      var s2 := Apply(s1, Push(n - 1));
      var s3 := Apply(s2, CountUp(n - 1));
      var s4 := Apply(s3, Pop(n - 1));
      assert Next(s0, s1);
      assert Next(s1, s2);
      assert Next(s2, s3);
      assert Next(s3, s4);
      trace := before + [s1, s2, s3, s4];
      assert s4.callers == seq(n, _ => Popped);
      forall i | 0 <= i < |trace| - 1 ensures Next(trace[i], trace[i + 1]) {
        if i < |before| - 1 { assert Next(before[i], before[i + 1]); }
      }
    }
  }
}
