/**
  The per-client token bucket in front of mutating requests, with its background cleanup of idle
  clients. Times are seconds, as reals; `now` is read under the lock, so it never goes back.
*/
module HttpRateLimiter {
  import opened Prelude
  import opened RealArith

  datatype Limits = Limits(rate: real, capacity: real)

  datatype Entry = Entry(tokens: real, lastUpdate: real)

  type Table = map<string, Entry>

  /** The answer to one request; `retryAfter` is in whole seconds. */
  datatype Verdict = Verdict(allowed: bool, remaining: int, retryAfter: int)

  const IDLE_SECONDS := 600.0

  /** The capacity is a positive count of requests and the rate is positive. */
  predicate Positive(l: Limits) {
    l.rate > 0.0 && l.capacity >= 1.0 && l.capacity.Floor as real == l.capacity
  }

  function ServerLimits(reqsPerMinute: int, burst: int): Limits {
    Limits((if reqsPerMinute <= 0 then 60 else reqsPerMinute) as real / 60.0,
           (if burst <= 0 then 20 else burst) as real)
  }

  function Refill(l: Limits, e: Entry, now: real): Entry {
    Entry(Min(e.tokens + Times(now - e.lastUpdate, l.rate), l.capacity), now)
  }

  /** The entry a request finds: refilled, or full when the client is unknown. */
  function Found(l: Limits, t: Table, key: string, now: real): Entry {
    if key in t then Refill(l, t[key], now) else Entry(l.capacity, now)
  }

  function Answer(l: Limits, tokens: real): Verdict
    requires l.rate > 0.0
  {
    if tokens >= 1.0 then Verdict(true, (tokens - 1.0).Floor, 0)
    else Verdict(false, 0, Over(1.0 - tokens, l.rate).Floor)
  }

  function Spend(e: Entry): Entry {
    if e.tokens >= 1.0 then e.(tokens := e.tokens - 1.0) else e
  }

  /** Clients idle for more than ten minutes are forgotten. */
  function Evicted(t: Table, now: real): Table {
    map key | key in t && now - t[key].lastUpdate <= IDLE_SECONDS :: t[key]
  }

  class ClientEntry {
    var tokens: real
    var lastUpdate: real

    constructor (tokens: real, lastUpdate: real)
      ensures this.tokens == tokens && this.lastUpdate == lastUpdate
    {
      this.tokens := tokens;
      this.lastUpdate := lastUpdate;
    }
  }

  class RateLimiter {
    const rate: real
    const capacity: real
    var entries: map<string, ClientEntry>

    /** No two clients share an entry. */
    ghost predicate Valid()
      reads this
    {
      && Positive(Settings())
      && forall k1, k2 | k1 in entries && k2 in entries && k1 != k2 :: entries[k1] != entries[k2]
    }

    ghost function Settings(): Limits {
      Limits(rate, capacity)
    }

    ghost function Contents(): Table
      reads this, entries.Values
    {
      map key | key in entries :: Entry(entries[key].tokens, entries[key].lastUpdate)
    }

    constructor NewRateLimiter(reqsPerMinute: int, burst: int)
      ensures Valid() && Contents() == map[]
      ensures Settings() == ServerLimits(reqsPerMinute, burst)
    {
      var perMinute := if reqsPerMinute <= 0 then 60 else reqsPerMinute;
      var size := if burst <= 0 then 20 else burst;
      rate := perMinute as real / 60.0;
      capacity := size as real;
      entries := map[];
    }

    method Allow(key: string, now: real) returns (allowed: bool, remaining: int, retryAfter: int)
      requires Valid()
      modifies this, entries.Values
      ensures Valid() && fresh(entries.Values - old(entries.Values))
      ensures var found := Found(Settings(), old(Contents()), key, now);
              && Verdict(allowed, remaining, retryAfter) == Answer(Settings(), found.tokens)
              && Contents() == old(Contents())[key := Spend(found)]
    {
      if key !in entries {
        var entry := new ClientEntry(capacity - 1.0, now);
        entries := entries[key := entry];
        return true, entry.tokens.Floor, 0;
      }
      var entry := entries[key];
      var elapsed := now - entry.lastUpdate;
      entry.tokens := entry.tokens + Times(elapsed, rate);
      if entry.tokens > capacity {
        entry.tokens := capacity;
      }
      entry.lastUpdate := now;
      if entry.tokens >= 1.0 {
        entry.tokens := entry.tokens - 1.0;
        return true, entry.tokens.Floor, 0;
      }
      var missingTokens := 1.0 - entry.tokens;
      return false, 0, Over(missingTokens, rate).Floor;
    }

    /** One tick of the cleanup timer. */
    method Cleanup(now: real)
      requires Valid()
      modifies this
      ensures Valid() && entries.Values <= old(entries.Values)
      ensures Contents() == Evicted(old(Contents()), now)
    {
      var todo := entries.Keys;
      var all := entries;
      while todo != {}
        invariant todo <= entries.Keys <= all.Keys
        invariant forall key | key in entries :: entries[key] == all[key]
        invariant forall key | key in all && key !in todo :: key in entries <==> now - all[key].lastUpdate <= IDLE_SECONDS
        decreases |todo|
      {
        var key :| key in todo;
        if now - entries[key].lastUpdate > IDLE_SECONDS {
          entries := entries - {key};
        }
        todo := todo - {key};
      }
      assert forall key | key in all :: key in entries <==> now - all[key].lastUpdate <= IDLE_SECONDS;
    }
  }

  // ----- Runs -----------------------------------------------------------------------------

  datatype Event = Request(key: string, at: real) | Cleanup(at: real)

  /** Time does not go back from `from` on. */
  ghost predicate Timed(evs: seq<Event>, from: real)
    decreases |evs|
  {
    evs == [] || (from <= evs[0].at && Timed(evs[1..], evs[0].at))
  }

  /** One event on a limiter that runs its cleanup (`evicts`) or never does. */
  function Step(l: Limits, t: Table, ev: Event, evicts: bool): Table {
    match ev
    case Request(key, at) => t[key := Spend(Found(l, t, key, at))]
    case Cleanup(at) => if evicts then Evicted(t, at) else t
  }

  function Outcome(l: Limits, t: Table, ev: Event): Option<Verdict>
    requires l.rate > 0.0
  {
    match ev
    case Request(key, at) => Some(Answer(l, Found(l, t, key, at).tokens))
    case Cleanup(_) => None
  }

  ghost function Outcomes(l: Limits, t: Table, evs: seq<Event>, evicts: bool): (outs: seq<Option<Verdict>>)
    requires l.rate > 0.0
    ensures |outs| == |evs|
    decreases |evs|
  {
    if evs == [] then []
    else [Outcome(l, t, evs[0])] + Outcomes(l, Step(l, t, evs[0], evicts), evs[1..], evicts)
  }

  ghost function TableAfter(l: Limits, t: Table, evs: seq<Event>, evicts: bool): Table
    decreases |evs|
  {
    if evs == [] then t else TableAfter(l, Step(l, t, evs[0], evicts), evs[1..], evicts)
  }

  /** How many requests of one client a run allows. */
  ghost function AllowedCount(evs: seq<Event>, outs: seq<Option<Verdict>>, key: string): nat
    requires |outs| == |evs|
    decreases |evs|
  {
    if evs == [] then 0
    else (if evs[0].Request? && evs[0].key == key && outs[0].Some? && outs[0].value.allowed then 1 else 0)
         + AllowedCount(evs[1..], outs[1..], key)
  }

  /** Every bucket holds between nothing and the capacity, and was last updated by `now`. */
  ghost predicate Bounded(l: Limits, t: Table, now: real) {
    forall key | key in t :: 0.0 <= t[key].tokens <= l.capacity && t[key].lastUpdate <= now
  }

  lemma RefillBounded(l: Limits, e: Entry, now: real)
    requires l.rate > 0.0 && 0.0 <= e.tokens <= l.capacity && e.lastUpdate <= now
    ensures e.tokens <= Refill(l, e, now).tokens <= l.capacity
  {
    hide Times, Over;
    TimesOrder(0.0, now - e.lastUpdate, l.rate);
  }

  lemma StepBounded(l: Limits, t: Table, ev: Event, from: real, evicts: bool)
    requires Positive(l) && Bounded(l, t, from) && from <= ev.at
    ensures Bounded(l, Step(l, t, ev, evicts), ev.at)
  {
    hide Times, Over;
    if ev.Request? && ev.key in t {
      RefillBounded(l, t[ev.key], ev.at);
    }
  }

  // ----- The window bound -----------------------------------------------------------------

  /** Tokens the client would find at `now`. */
  ghost function Level(l: Limits, t: Table, key: string, now: real): real {
    Found(l, t, key, now).tokens
  }

  lemma LevelGrows(l: Limits, t: Table, key: string, from: real, to: real)
    requires Positive(l) && from <= to
    ensures Level(l, t, key, to) <= Level(l, t, key, from) + Times(to - from, l.rate)
  {
    hide Times, Over;
    TimesOrder(0.0, to - from, l.rate);
    if key in t {
      TimesAdds(from - t[key].lastUpdate, to - from, l.rate);
      assert (from - t[key].lastUpdate) + (to - from) == to - t[key].lastUpdate;
    }
  }

  lemma RefillAtOnce(l: Limits, e: Entry)
    requires l.rate > 0.0 && e.tokens <= l.capacity
    ensures Refill(l, e, e.lastUpdate) == e
  {
    hide Times, Over;
    assert e.lastUpdate - e.lastUpdate == 0.0;
    TimesOrder(0.0, 0.0, l.rate);
  }

  /** A request costs its client one token if it is allowed and nothing otherwise; other clients pay nothing. */
  lemma RequestCosts(l: Limits, t: Table, ev: Event, key: string, evicts: bool)
    requires Positive(l) && ev.Request?
    ensures Level(l, Step(l, t, ev, evicts), key, ev.at) ==
            Level(l, t, key, ev.at) - (if ev.key == key && Outcome(l, t, ev).value.allowed then 1.0 else 0.0)
  {
    hide Times, Over;
    RefillAtOnce(l, Spend(Found(l, t, ev.key, ev.at)));
  }

  /** What one client is allowed from `from` to `to` is at most the tokens it has plus what the rate brings. */
  lemma {:induction false} AllowedFromLevel(l: Limits, t: Table, evs: seq<Event>, key: string, from: real, to: real)
    requires Positive(l) && Bounded(l, t, from) && Timed(evs, from)
    requires from <= to && (evs != [] ==> evs[|evs| - 1].at <= to)
    ensures AllowedCount(evs, Outcomes(l, t, evs, false), key) as real
         <= Max(Level(l, t, key, from), 0.0) + Times(to - from, l.rate)
    decreases |evs|
  {
    hide Times, Over, Level, Outcome;
    TimesOrder(0.0, to - from, l.rate);
    if evs != [] {
      var ev, rest := evs[0], evs[1..];
      var t' := Step(l, t, ev, false);
      StepBounded(l, t, ev, from, false);
      TimedEnds(rest, ev.at);
      AllowedFromLevel(l, t', rest, key, ev.at, to);
      LevelGrows(l, t, key, from, ev.at);
      TimesAdds(ev.at - from, to - ev.at, l.rate);
      assert (ev.at - from) + (to - ev.at) == to - from;
      TimesOrder(0.0, ev.at - from, l.rate);
      if ev.Request? {
        RequestCosts(l, t, ev, key, false);
        if ev.key == key { AllowedNeedsToken(l, t, ev, key); }
      }
    }
  }

  lemma AllowedNeedsToken(l: Limits, t: Table, ev: Event, key: string)
    requires Positive(l) && ev.Request? && ev.key == key
    ensures Outcome(l, t, ev).Some?
    ensures Outcome(l, t, ev).value.allowed <==> Level(l, t, key, ev.at) >= 1.0
  {
  }

  lemma {:induction false} TimedEnds(evs: seq<Event>, from: real)
    requires Timed(evs, from)
    ensures evs != [] ==> from <= evs[|evs| - 1].at
    decreases |evs|
  {
    if |evs| > 1 { TimedEnds(evs[1..], evs[0].at); }
  }

  // ----- The cleanup ----------------------------------------------------------------------

  /** The evicting limiter's table: the other one's, without some clients idle for ten minutes by `now`. */
  ghost predicate Forgets(l: Limits, small: Table, large: Table, now: real) {
    && Bounded(l, large, now)
    && (forall key | key in small :: key in large && small[key] == large[key])
    && (forall key | key in large && key !in small :: now - large[key].lastUpdate > IDLE_SECONDS)
  }

  lemma IdleIsFull(l: Limits, e: Entry, now: real)
    requires l.rate > 0.0 && 0.0 <= e.tokens && now - e.lastUpdate >= IDLE_SECONDS
    requires l.capacity <= Times(IDLE_SECONDS, l.rate)
    ensures Refill(l, e, now) == Entry(l.capacity, now)
  {
    hide Times, Over;
    TimesOrder(IDLE_SECONDS, now - e.lastUpdate, l.rate);
  }

  lemma ForgetsStep(l: Limits, small: Table, large: Table, ev: Event, from: real)
    requires Positive(l) && l.capacity <= Times(IDLE_SECONDS, l.rate)
    requires from <= ev.at && Forgets(l, small, large, from)
    ensures Outcome(l, small, ev) == Outcome(l, large, ev)
    ensures Forgets(l, Step(l, small, ev, true), Step(l, large, ev, false), ev.at)
  {
    hide Times, Over, Refill, Answer;
    StepBounded(l, large, ev, from, false);
    if ev.Request? && ev.key in large && ev.key !in small {
      IdleIsFull(l, large[ev.key], ev.at);
    }
  }

  lemma {:induction false} ForgetsRun(l: Limits, small: Table, large: Table, evs: seq<Event>, from: real)
    requires Positive(l) && l.capacity <= Times(IDLE_SECONDS, l.rate)
    requires Forgets(l, small, large, from) && Timed(evs, from)
    ensures Outcomes(l, small, evs, true) == Outcomes(l, large, evs, false)
    decreases |evs|
  {
    hide Times, Over, Refill, Answer, Forgets, Step, Outcome;
    if evs != [] {
      ForgetsStep(l, small, large, evs[0], from);
      ForgetsRun(l, Step(l, small, evs[0], true), Step(l, large, evs[0], false), evs[1..], evs[0].at);
    }
  }

  /** No run, from an empty table, can tell the limiter that forgets idle clients from one that never does. */
  ghost predicate CleanupUnobservable(l: Limits)
    requires l.rate > 0.0
  {
    forall evs: seq<Event>, from: real | Timed(evs, from) ::
      Outcomes(l, map[], evs, true) == Outcomes(l, map[], evs, false)
  }

  /** `n` requests of one client at the same time. */
  function Burst(key: string, at: real, n: nat): seq<Event> {
    if n == 0 then [] else [Request(key, at)] + Burst(key, at, n - 1)
  }

  /** A client with at least `n` tokens has a burst of `n` allowed, and is left with the rest. */
  lemma {:induction false} BurstAllowed(l: Limits, t: Table, key: string, at: real, n: nat, evicts: bool)
    requires Positive(l) && Level(l, t, key, at) >= n as real
    ensures var evs := Burst(key, at, n);
            && |evs| == n && Timed(evs, at)
            && AllowedCount(evs, Outcomes(l, t, evs, evicts), key) == n
            && Level(l, TableAfter(l, t, evs, evicts), key, at) == Level(l, t, key, at) - n as real
            && (n > 0 ==> key in TableAfter(l, t, evs, evicts) && TableAfter(l, t, evs, evicts)[key].lastUpdate == at)
    decreases n
  {
    if n > 0 {
      var ev := Request(key, at);
      hide Times, Over, Level, Outcome;
      RequestCosts(l, t, ev, key, evicts);
      AllowedNeedsToken(l, t, ev, key);
      BurstAllowed(l, Step(l, t, ev, evicts), key, at, n - 1, evicts);
      assert Burst(key, at, n)[1..] == Burst(key, at, n - 1);
    }
  }

  lemma {:induction false} CountConcat(l: Limits, t: Table, xs: seq<Event>, ys: seq<Event>, key: string, evicts: bool)
    requires Positive(l)
    ensures var t' := TableAfter(l, t, xs, evicts);
            AllowedCount(xs + ys, Outcomes(l, t, xs + ys, evicts), key) ==
            AllowedCount(xs, Outcomes(l, t, xs, evicts), key) + AllowedCount(ys, Outcomes(l, t', ys, evicts), key)
    decreases |xs|
  {
    hide Times, Over, Outcome, Step;
    if xs == [] {
      assert xs + ys == ys;
    } else {
      assert (xs + ys)[1..] == xs[1..] + ys;
      CountConcat(l, Step(l, t, xs[0], evicts), xs[1..], ys, key, evicts);
    }
  }

  lemma {:induction false} TimedConcat(xs: seq<Event>, ys: seq<Event>, from: real, to: real)
    requires Timed(xs, from) && Timed(ys, to) && from <= to
    requires xs != [] ==> xs[|xs| - 1].at <= to
    ensures Timed(xs + ys, from)
    decreases |xs|
  {
    if xs == [] {
      assert xs + ys == ys;
    } else {
      assert (xs + ys)[1..] == xs[1..] + ys;
      TimedEnds(xs[1..], xs[0].at);
      TimedConcat(xs[1..], ys, xs[0].at, to);
    }
  }

  lemma {:induction false} RunBounded(l: Limits, t: Table, evs: seq<Event>, from: real, to: real, evicts: bool)
    requires Positive(l) && Bounded(l, t, from) && Timed(evs, from) && from <= to
    requires evs != [] ==> evs[|evs| - 1].at <= to
    ensures Bounded(l, TableAfter(l, t, evs, evicts), to)
    decreases |evs|
  {
    hide Times, Over, Step;
    if evs != [] {
      StepBounded(l, t, evs[0], from, evicts);
      TimedEnds(evs[1..], evs[0].at);
      RunBounded(l, Step(l, t, evs[0], evicts), evs[1..], evs[0].at, to, evicts);
    }
  }

  /** A time after which an idle client is forgotten but its bucket would not be full yet. */
  lemma TooEarly(l: Limits) returns (at: real)
    requires Positive(l) && l.capacity > Times(IDLE_SECONDS, l.rate)
    ensures at > IDLE_SECONDS && Times(at, l.rate) < l.capacity
  {
    hide Times, Over;
    var full := Over(l.capacity, l.rate);
    OverTimes(l.capacity, l.rate);
    TimesOrder(full, IDLE_SECONDS, l.rate);
    at := (IDLE_SECONDS + full) / 2.0;
    TimesOrder(at, full, l.rate);
    TimesOrder(full, at, l.rate);
  }

  /** A run that ends at `at` and allows more with the cleanup than a window may, and no more without it. */
  ghost predicate Overshoots(l: Limits, evs: seq<Event>, at: real)
    requires l.rate > 0.0
  {
    && evs != [] && Timed(evs, 0.0) && evs[0].at == 0.0 && evs[|evs| - 1].at == at
    && AllowedCount(evs, Outcomes(l, map[], evs, true), "k") as real > l.capacity + Times(at, l.rate)
    && AllowedCount(evs, Outcomes(l, map[], evs, false), "k") as real <= l.capacity + Times(at, l.rate)
  }

  /**
    A client spends its burst, is forgotten, and gets a second burst: the limiter allows twice the
    capacity where its bucket alone would not have refilled.
    */
  lemma SecondBurst(l: Limits)
    requires Positive(l) && l.capacity > Times(IDLE_SECONDS, l.rate)
    ensures exists evs: seq<Event>, at: real :: Overshoots(l, evs, at)
  {
    hide Times, Over, Outcome, Refill;
    var at := TooEarly(l);
    var key, n, t0: Table := "k", l.capacity.Floor, map[];
    var first, second := Burst(key, 0.0, n), Burst(key, at, n);
    var rest := [Cleanup(at)] + second;
    var evs := first + rest;
    BurstAllowed(l, t0, key, 0.0, n, true);
    var forgotten := Evicted(TableAfter(l, t0, first, true), at);
    assert key !in forgotten;
    BurstAllowed(l, forgotten, key, at, n, true);
    assert rest[1..] == second;
    CountConcat(l, t0, first, rest, key, true);
    assert first[|first| - 1].at == 0.0 by { BurstTimes(key, 0.0, n); }
    assert second[|second| - 1].at == at by { BurstTimes(key, at, n); }
    TimedConcat(first, rest, 0.0, at);
    AllowedFromLevel(l, t0, evs, key, 0.0, at);
    assert at - 0.0 == at;
    assert Overshoots(l, evs, at);
  }

  lemma {:induction false} BurstTimes(key: string, at: real, n: nat)
    ensures |Burst(key, at, n)| == n && forall i | 0 <= i < n :: Burst(key, at, n)[i] == Request(key, at)
    decreases n
  {
    if n > 0 { BurstTimes(key, at, n - 1); }
  }

  /** The cleanup is unobservable exactly when an idle client's bucket is full by the time it is forgotten. */
  lemma CleanupUnobservableIff(l: Limits)
    requires Positive(l)
    ensures CleanupUnobservable(l) <==> l.capacity <= Times(IDLE_SECONDS, l.rate)
  {
    hide Times, Over, Outcome, Refill, Step;
    if l.capacity <= Times(IDLE_SECONDS, l.rate) {
      forall evs: seq<Event>, from: real | Timed(evs, from)
        ensures Outcomes(l, map[], evs, true) == Outcomes(l, map[], evs, false)
      {
        ForgetsRun(l, map[], map[], evs, from);
      }
    } else {
      SecondBurst(l);
      var evs: seq<Event>, at: real :| Overshoots(l, evs, at);
      assert Outcomes(l, map[], evs, true) != Outcomes(l, map[], evs, false);
      assert Timed(evs, 0.0);
    }
  }

  lemma {:induction false} OutcomesDrop(l: Limits, t: Table, evs: seq<Event>, i: nat, evicts: bool)
    requires Positive(l) && i <= |evs|
    ensures Outcomes(l, t, evs, evicts)[i..] == Outcomes(l, TableAfter(l, t, evs[..i], evicts), evs[i..], evicts)
    decreases i
  {
    hide Times, Over, Outcome, Step;
    if i > 0 {
      OutcomesDrop(l, Step(l, t, evs[0], evicts), evs[1..], i - 1, evicts);
      assert evs[..i][1..] == evs[1..][..i - 1] && evs[1..][i - 1..] == evs[i..];
    } else {
      assert evs[0..] == evs && Outcomes(l, t, evs, evicts)[0..] == Outcomes(l, t, evs, evicts);
    }
  }

  lemma {:induction false} OutcomesTake(l: Limits, t: Table, evs: seq<Event>, j: nat, evicts: bool)
    requires Positive(l) && j <= |evs|
    ensures Outcomes(l, t, evs, evicts)[..j] == Outcomes(l, t, evs[..j], evicts)
    decreases j
  {
    hide Times, Over, Outcome, Step;
    if j > 0 {
      OutcomesTake(l, Step(l, t, evs[0], evicts), evs[1..], j - 1, evicts);
      assert evs[..j][1..] == evs[1..][..j - 1];
    }
  }

  lemma OutcomesSlice(l: Limits, t: Table, evs: seq<Event>, i: nat, j: nat, evicts: bool)
    requires Positive(l) && i <= j <= |evs|
    ensures Outcomes(l, t, evs, evicts)[i..j] == Outcomes(l, TableAfter(l, t, evs[..i], evicts), evs[i..j], evicts)
  {
    hide Outcomes, TableAfter;
    OutcomesDrop(l, t, evs, i, evicts);
    OutcomesTake(l, TableAfter(l, t, evs[..i], evicts), evs[i..], j - i, evicts);
    assert evs[i..][..j - i] == evs[i..j];
    var outs := Outcomes(l, t, evs, evicts);
    assert outs[i..][..j - i] == outs[i..j];
  }

  lemma {:induction false} TimedSlice(evs: seq<Event>, from: real, i: nat, j: nat)
    requires Timed(evs, from) && i < j <= |evs|
    ensures Timed(evs[i..j], evs[i].at) && Timed(evs[..i], from) && from <= evs[i].at
    ensures i > 0 ==> evs[i - 1].at <= evs[i].at
    decreases j
  {
    if i > 0 {
      TimedSlice(evs[1..], evs[0].at, i - 1, j - 1);
      assert evs[1..][i - 1..j - 1] == evs[i..j];
      assert evs[..i][1..] == evs[1..][..i - 1];
    } else if j > 1 {
      TimedSlice(evs[1..], evs[0].at, 0, j - 1);
      assert evs[0..j][1..] == evs[1..][0..j - 1];
      assert evs[..0] == [];
    } else {
      assert evs[0..1][1..] == [];
    }
  }

  /** In every run the limiter allows each client at most capacity + rate * T requests in any window of length T. */
  ghost predicate WindowBounded(l: Limits)
    requires l.rate > 0.0
  {
    forall evs: seq<Event>, from: real, i: nat, j: nat, key: string | Timed(evs, from) && i < j <= |evs| ::
      AllowedCount(evs[i..j], Outcomes(l, map[], evs, true)[i..j], key) as real
        <= l.capacity + Times(evs[j - 1].at - evs[i].at, l.rate)
  }

  lemma AllowedInWindow(l: Limits, evs: seq<Event>, from: real, i: nat, j: nat, key: string)
    requires Positive(l) && l.capacity <= Times(IDLE_SECONDS, l.rate)
    requires Timed(evs, from) && i < j <= |evs|
    ensures AllowedCount(evs[i..j], Outcomes(l, map[], evs, true)[i..j], key) as real
         <= l.capacity + Times(evs[j - 1].at - evs[i].at, l.rate)
  {
    hide Times, Over, Outcome, Step, Timed;
    ForgetsRun(l, map[], map[], evs, from);
    OutcomesSlice(l, map[], evs, i, j, false);
    TimedSlice(evs, from, i, j);
    var t := TableAfter(l, map[], evs[..i], false);
    RunBounded(l, map[], evs[..i], from, evs[i].at, false);
    TimedEnds(evs[i..j], evs[i].at);
    AllowedFromLevel(l, t, evs[i..j], key, evs[i].at, evs[j - 1].at);
  }

  lemma WindowBoundedIff(l: Limits)
    requires Positive(l)
    ensures WindowBounded(l) <==> l.capacity <= Times(IDLE_SECONDS, l.rate)
  {
    hide Times, Over, Outcome, Refill, Step;
    if l.capacity <= Times(IDLE_SECONDS, l.rate) {
      forall evs: seq<Event>, from: real, i: nat, j: nat, key: string | Timed(evs, from) && i < j <= |evs|
        ensures AllowedCount(evs[i..j], Outcomes(l, map[], evs, true)[i..j], key) as real
             <= l.capacity + Times(evs[j - 1].at - evs[i].at, l.rate)
      {
        AllowedInWindow(l, evs, from, i, j, key);
      }
    } else {
      SecondBurst(l);
      var evs: seq<Event>, at: real :| Overshoots(l, evs, at);
      var n := |evs|;
      assert evs[0..n] == evs && Outcomes(l, map[], evs, true)[0..n] == Outcomes(l, map[], evs, true);
      assert AllowedCount(evs[0..n], Outcomes(l, map[], evs, true)[0..n], "k") as real
          > l.capacity + Times(evs[n - 1].at - evs[0].at, l.rate);
      assert !WindowBounded(l);
    }
  }

  /** For a limiter built from whole numbers the condition is burst <= 10 * requests per minute. */
  lemma ServerLimitsQualify(reqsPerMinute: int, burst: int)
    requires reqsPerMinute > 0 && burst > 0
    ensures Positive(ServerLimits(reqsPerMinute, burst))
    ensures CleanupUnobservable(ServerLimits(reqsPerMinute, burst)) <==> burst <= 10 * reqsPerMinute
    ensures WindowBounded(ServerLimits(reqsPerMinute, burst)) <==> burst <= 10 * reqsPerMinute
  {
    var l := ServerLimits(reqsPerMinute, burst);
    TimesIs(IDLE_SECONDS, l.rate);
    assert Times(IDLE_SECONDS, l.rate) == 10.0 * reqsPerMinute as real;
    CleanupUnobservableIff(l);
    WindowBoundedIff(l);
  }

  // ----- What an answer tells the client ------------------------------------------------------------

  /** Sixty a minute and bursts of twenty unless the configuration says otherwise; the rate is per second. */
  lemma ServerLimitsMean(reqsPerMinute: int, burst: int)
    ensures ServerLimits(reqsPerMinute, burst).rate * 60.0 == if reqsPerMinute > 0 then reqsPerMinute as real else 60.0
    ensures ServerLimits(reqsPerMinute, burst).capacity == if burst > 0 then burst as real else 20.0
  {
  }

  /** The table after one more request by the client, at the same moment, and so on n times. */
  function Repeated(l: Limits, t: Table, key: string, at: real, n: nat): Table {
    if n == 0 then t else Step(l, Repeated(l, t, key, at, n - 1), Request(key, at), true)
  }

  /** What the limiter answers to a request. */
  function Reply(l: Limits, t: Table, key: string, at: real): Verdict
    requires l.rate > 0.0
  {
    Outcome(l, t, Request(key, at)).value
  }

  lemma {:induction false} RepeatedLevel(l: Limits, t: Table, key: string, at: real, n: nat)
    requires Positive(l) && n as real <= Level(l, t, key, at)
    ensures Level(l, Repeated(l, t, key, at, n), key, at) == Level(l, t, key, at) - n as real
  {
    hide Times, Over, Level;
    if n > 0 {
      RepeatedLevel(l, t, key, at, n - 1);
      var before := Repeated(l, t, key, at, n - 1);
      RequestCosts(l, before, Request(key, at), key, true);
      AllowedNeedsToken(l, before, Request(key, at), key);
    }
  }

  /** The remaining count an allowed request is told is exactly how many more it may send at once. */
  lemma RemainingMeans(l: Limits, t: Table, key: string, at: real, n: nat)
    requires Positive(l) && Reply(l, t, key, at).allowed
    ensures Reply(l, t, key, at).remaining >= 0
    ensures n <= Reply(l, t, key, at).remaining ==>
              (Reply(l, Repeated(l, t, key, at, n + 1), key, at).allowed <==> n < Reply(l, t, key, at).remaining)
  {
    hide Times, Over, Repeated;
    AllowedNeedsToken(l, t, Request(key, at), key);
    if n <= Reply(l, t, key, at).remaining {
      FloorBounds(Level(l, t, key, at) - 1.0);
      RepeatedLevel(l, t, key, at, n + 1);
      AllowedNeedsToken(l, Repeated(l, t, key, at, n + 1), Request(key, at), key);
    }
  }

  lemma FloorBounds(x: real)
    ensures x.Floor as real <= x < x.Floor as real + 1.0
  {
  }

  /** A client that was never seen is told that all but one of its burst is left. */
  lemma NewClient(l: Limits, t: Table, key: string, at: real)
    requires Positive(l) && key !in t
    ensures Reply(l, t, key, at) == Verdict(true, l.capacity.Floor - 1, 0)
  {
  }

  /**
    A refused client that keeps still is refused until the seconds it was told are over, and is allowed at the
    latest one second after that, when the fraction left out of the count has passed too.
    */
  lemma RetryMeans(l: Limits, t: Table, key: string, at: real, later: real)
    requires Positive(l) && Bounded(l, t, at) && at <= later && !Reply(l, t, key, at).allowed
    ensures var wait := Reply(l, t, key, at).retryAfter;
            var after := Step(l, t, Request(key, at), true);
            && 0 <= wait && Reply(l, t, key, at).remaining == 0
            && (later - at < wait as real ==> !Reply(l, after, key, later).allowed)
            && (later - at >= wait as real + 1.0 ==> Reply(l, after, key, later).allowed)
  {
    hide Times, Over;
    var tokens := Found(l, t, key, at).tokens;
    AllowedNeedsToken(l, t, Request(key, at), key);
    if key in t {
      RefillBounded(l, t[key], at);
    }
    var exact := Over(1.0 - tokens, l.rate);
    OverTimes(1.0 - tokens, l.rate);
    FloorBounds(exact);
    TimesOrder(later - at, exact, l.rate);
    TimesOrder(exact, later - at, l.rate);
  }
}
