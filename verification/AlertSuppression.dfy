/**
  Drift alerts: matching events against alert rules, dispatching the matches, and suppressing further
  alerts on the same property of a host for a window after each successful delivery. Times are in
  nanoseconds; a window of too many hours wraps around 64 bits.
*/
module AlertSuppression {
  import opened Prelude
  import opened Strings

  const HOUR := 3_600_000_000_000
  const MAX_INT64 := 0x7FFF_FFFF_FFFF_FFFF
  const TWO_64 := 0x1_0000_0000_0000_0000

  /** The longest window in hours whose length in nanoseconds fits 64 bits. */
  const MAX_WINDOW_HOURS := 2_562_047

  datatype AlertRule = AlertRule(id: string, severityFilter: string, assetClassFilter: string, categoryFilter: string,
                                 suppressionWindowHours: int, isActive: bool)

  datatype DriftEvent = DriftEvent(tenantID: string, hostID: string, propertyName: string, driftCategory: string, severity: string)

  /** What comes of dispatching a webhook. */
  datatype Dispatch = NoLog | Failed | Succeeded

  /** The time of the last alert, by key. */
  type Suppressions = map<string, int>

  function Key(tenantID: string, hostID: string, propertyName: string): string {
    tenantID + ":" + hostID + ":" + propertyName
  }

  function EventKey(e: DriftEvent): string {
    Key(e.tenantID, e.hostID, e.propertyName)
  }

  // ----- Filters and windows ----------------------------------------------------------------------

  predicate Applies(rule: AlertRule, e: DriftEvent, assetClass: string) {
    && rule.isActive
    && (rule.severityFilter == "" || EqualFold(rule.severityFilter, e.severity))
    && (rule.assetClassFilter == "" || EqualFold(rule.assetClassFilter, assetClass)
        || Contains(Lower(assetClass), Lower(rule.assetClassFilter)))
    && (rule.categoryFilter == "" || EqualFold(rule.categoryFilter, e.driftCategory))
  }

  /** Products of durations wrap around. */
  function Wrap64(n: int): (r: int)
    ensures -MAX_INT64 - 1 <= r <= MAX_INT64
  {
    (n + MAX_INT64 + 1) % TWO_64 - MAX_INT64 - 1
  }

  /** Differences of times saturate. */
  function Elapsed(since: int, now: int): int {
    if now - since > MAX_INT64 then MAX_INT64 else if now - since < -MAX_INT64 - 1 then -MAX_INT64 - 1 else now - since
  }

  predicate Suppressed(s: Suppressions, key: string, windowHours: int, now: int) {
    windowHours > 0 && key in s && Elapsed(s[key], now) < Wrap64(windowHours * HOUR)
  }

  /** A positive window is enforced to its full length exactly when that fits 64 bits. */
  lemma WindowEnforcedIff(windowHours: int, key: string)
    requires windowHours > 0
    ensures (forall since, now :: Suppressed(map[key := since], key, windowHours, now) <==> now - since < windowHours * HOUR)
            <==> windowHours <= MAX_WINDOW_HOURS
  {
    var full := windowHours * HOUR;
    var wrapped := Wrap64(full);
    if windowHours <= MAX_WINDOW_HOURS {
      assert wrapped == full;
    } else {
      assert full > MAX_INT64;
      assert !Suppressed(map[key := 0], key, windowHours, MAX_INT64);
    }
  }

  /**
    The window counts with the signed 64-bit value that its nanoseconds leave, and the time since the last
    alert with the nearest 64-bit value.
    */
  lemma SuppressedMeans(s: Suppressions, key: string, windowHours: int, now: int, window: int)
    requires -0x8000_0000_0000_0000 <= window < 0x8000_0000_0000_0000
    requires (windowHours * 3_600_000_000_000 - window) % 0x1_0000_0000_0000_0000 == 0
    ensures windowHours <= 0 || key !in s ==> !Suppressed(s, key, windowHours, now)
    ensures windowHours > 0 && key in s ==>
              (Suppressed(s, key, windowHours, now) <==>
                 now - s[key] < 0x8000_0000_0000_0000 &&
                 if now - s[key] < -0x8000_0000_0000_0000 then window > -0x8000_0000_0000_0000
                 else now - s[key] < window)
  {
    WrapIs(windowHours * HOUR, window);
  }

  lemma WrapIs(n: int, r: int)
    requires -0x8000_0000_0000_0000 <= r < 0x8000_0000_0000_0000 && (n - r) % 0x1_0000_0000_0000_0000 == 0
    ensures Wrap64(n) == r
  {
    var q := (n - r) / 0x1_0000_0000_0000_0000;
    assert n == r + q * 0x1_0000_0000_0000_0000;
  }

  // ----- The alert engine ---------------------------------------------------------------------------

  function Matched(s: Suppressions, e: DriftEvent, assetClass: string, rules: seq<AlertRule>, now: int): seq<AlertRule> {
    if rules == [] then []
    else
      var before, rule := Matched(s, e, assetClass, rules[..|rules| - 1], now), rules[|rules| - 1];
      if Applies(rule, e, assetClass) && !Suppressed(s, EventKey(e), rule.suppressionWindowHours, now) then before + [rule] else before
  }

  class AlertEngine {
    var suppressions: Suppressions

    constructor ()
      ensures suppressions == map[]
    {
      suppressions := map[];
    }

    method IsSuppressed(tenantID: string, hostID: string, propertyName: string, windowHours: int, now: int) returns (r: bool)
      ensures r == Suppressed(suppressions, Key(tenantID, hostID, propertyName), windowHours, now)
    {
      if windowHours <= 0 {
        return false;
      }
      var key := Key(tenantID, hostID, propertyName);
      if key !in suppressions {
        return false;
      }
      return Elapsed(suppressions[key], now) < Wrap64(windowHours * HOUR);
    }

    method EvaluateRules(event: DriftEvent, assetClass: string, rules: seq<AlertRule>, now: int) returns (matched: seq<AlertRule>)
      ensures matched == Matched(suppressions, event, assetClass, rules, now)
    {
      matched := [];
      for i := 0 to |rules|
        invariant matched == Matched(suppressions, event, assetClass, rules[..i], now)
      {
        assert rules[..i + 1][..i] == rules[..i];
        var rule := rules[i];
        if Applies(rule, event, assetClass) {
          var suppressed := IsSuppressed(event.tenantID, event.hostID, event.propertyName, rule.suppressionWindowHours, now);
          if !suppressed {
            matched := matched + [rule];
          }
        }
      }
      assert rules[..|rules|] == rules;
    }

    method MarkAlertDispatched(tenantID: string, hostID: string, propertyName: string, at: int)
      modifies this
      ensures suppressions == old(suppressions)[Key(tenantID, hostID, propertyName) := at]
    {
      suppressions := suppressions[Key(tenantID, hostID, propertyName) := at];
    }
  }

  // ----- The worker -----------------------------------------------------------------------------------

  /** One dispatch: what came of it, and the time it ended. */
  datatype Delivery = Delivery(result: Dispatch, at: int)

  /** One event, evaluated against the rules at some time, and the deliveries of the rules it matched, in order. */
  datatype Evaluation = Evaluation(event: DriftEvent, assetClass: string, rules: seq<AlertRule>, at: int, deliveries: seq<Delivery>)

  /** Each successful delivery sets the time of the last alert. */
  function Marked(s: Suppressions, key: string, deliveries: seq<Delivery>): Suppressions {
    if deliveries == [] then s
    else
      var before, last := Marked(s, key, deliveries[..|deliveries| - 1]), deliveries[|deliveries| - 1];
      if last.result.Succeeded? then before[key := last.at] else before
  }

  /** The deliveries that leave a log. */
  function Logged(deliveries: seq<Delivery>): seq<Delivery> {
    if deliveries == [] then []
    else
      var before, last := Logged(deliveries[..|deliveries| - 1]), deliveries[|deliveries| - 1];
      if last.result.NoLog? then before else before + [last]
  }

  function After(s: Suppressions, ev: Evaluation): Suppressions {
    Marked(s, EventKey(ev.event), ev.deliveries)
  }

  function MatchedBy(s: Suppressions, ev: Evaluation): seq<AlertRule> {
    Matched(s, ev.event, ev.assetClass, ev.rules, ev.at)
  }

  /** The suppressions before, between and after the evaluations; every match is dispatched once. */
  ghost predicate IsRun(states: seq<Suppressions>, evals: seq<Evaluation>) {
    && |states| == |evals| + 1
    && forall i {:trigger evals[i]} | 0 <= i < |evals| ::
         |evals[i].deliveries| == |MatchedBy(states[i], evals[i])| && states[i + 1] == After(states[i], evals[i])
  }

  /** Time never goes back from one reading to the next. */
  ghost predicate InOrder(evals: seq<Evaluation>) {
    && (forall i, a | 0 <= i < |evals| && 0 <= a < |evals[i].deliveries| :: evals[i].at <= evals[i].deliveries[a].at)
    && (forall i, a, b | 0 <= i < |evals| && 0 <= a < b < |evals[i].deliveries| ::
          evals[i].deliveries[a].at <= evals[i].deliveries[b].at)
    && (forall i, j, a | 0 <= i < j < |evals| && 0 <= a < |evals[i].deliveries| :: evals[i].deliveries[a].at <= evals[j].at)
  }

  /** Readings of a clock, and the outcomes of dispatches, by their number. */
  datatype Oracle = Oracle(clock: nat -> int, dispatch: nat -> Dispatch)

  lemma NoDelivery(s: Suppressions, key: string)
    ensures Marked(s, key, []) == s && Logged([]) == []
  {
  }

  lemma OneMoreDelivery(s: Suppressions, key: string, deliveries: seq<Delivery>, last: Delivery)
    ensures Marked(s, key, deliveries + [last])
         == if last.result.Succeeded? then Marked(s, key, deliveries)[key := last.at] else Marked(s, key, deliveries)
    ensures Logged(deliveries + [last]) == if last.result.NoLog? then Logged(deliveries) else Logged(deliveries) + [last]
  {
    assert (deliveries + [last])[..|deliveries|] == deliveries;
  }

  class DriftWorker {
    const alertEng: AlertEngine
    const oracle: Oracle
    var ticks: nat
    var dispatches: nat

    constructor (alertEng: AlertEngine, oracle: Oracle)
      ensures this.alertEng == alertEng && this.oracle == oracle && ticks == 0 && dispatches == 0
    {
      this.alertEng, this.oracle := alertEng, oracle;
      ticks, dispatches := 0, 0;
    }

    method Now() returns (now: int)
      modifies this`ticks
      ensures ticks == old(ticks) + 1 && now == oracle.clock(old(ticks))
    {
      now := oracle.clock(ticks);
      ticks := ticks + 1;
    }

    /** Dispatches the rules an event matched, and marks the alert after each success. */
    method DispatchMatches(event: DriftEvent, matched: seq<AlertRule>) returns (logs: seq<Delivery>, ghost deliveries: seq<Delivery>)
      modifies this`ticks, this`dispatches, alertEng
      ensures |deliveries| == |matched| && ticks == old(ticks) + |matched| && dispatches == old(dispatches) + |matched|
      ensures forall a | 0 <= a < |matched| ::
                deliveries[a] == Delivery(oracle.dispatch(old(dispatches) + a), oracle.clock(old(ticks) + a))
      ensures alertEng.suppressions == Marked(old(alertEng.suppressions), EventKey(event), deliveries)
      ensures logs == Logged(deliveries)
    {
      hide Marked, Logged, Key;
      NoDelivery(alertEng.suppressions, EventKey(event));
      logs, deliveries := [], [];
      for a := 0 to |matched|
        invariant |deliveries| == a && ticks == old(ticks) + a && dispatches == old(dispatches) + a && logs == Logged(deliveries)
        invariant forall b | 0 <= b < a :: deliveries[b] == Delivery(oracle.dispatch(old(dispatches) + b), oracle.clock(old(ticks) + b))
        invariant alertEng.suppressions == Marked(old(alertEng.suppressions), EventKey(event), deliveries)
      {
        var result := oracle.dispatch(dispatches);
        dispatches := dispatches + 1;
        var now := Now();
        if !result.NoLog? {
          logs := logs + [Delivery(result, now)];
          if result.Succeeded? {
            alertEng.MarkAlertDispatched(event.tenantID, event.hostID, event.propertyName, now);
          }
        }
        OneMoreDelivery(old(alertEng.suppressions), EventKey(event), deliveries, Delivery(result, now));
        deliveries := deliveries + [Delivery(result, now)];
      }
    }

    /** Evaluates and dispatches the events of one snapshot, one after the other. */
    method ProcessSnapshot(events: seq<DriftEvent>, assetClass: string, rules: seq<AlertRule>)
      returns (logs: seq<Delivery>, ghost states: seq<Suppressions>, ghost evals: seq<Evaluation>)
      requires ClockAdvances()
      modifies this`ticks, this`dispatches, alertEng
      ensures |evals| == |events|
      ensures forall i | 0 <= i < |events| :: evals[i].event == events[i] && evals[i].assetClass == assetClass && evals[i].rules == rules
      ensures IsRun(states, evals) && states[0] == old(alertEng.suppressions) && states[|events|] == alertEng.suppressions
      ensures InOrder(evals) && Between(evals, oracle.clock(old(ticks)), oracle.clock(ticks))
      ensures logs == AllLogs(evals)
    {
      hide Matched, Marked, Logged, EventKey, IsRun, InOrder, Between, AllLogs, ClockAdvances;
      Nothing(alertEng.suppressions, oracle.clock(ticks));
      logs, states, evals := [], [alertEng.suppressions], [];
      for i := 0 to |events|
        invariant |evals| == i && old(ticks) <= ticks
        invariant forall j | 0 <= j < i :: evals[j].event == events[j] && evals[j].assetClass == assetClass && evals[j].rules == rules
        invariant |states| == i + 1 && IsRun(states, evals) && states[0] == old(alertEng.suppressions) && states[i] == alertEng.suppressions
        invariant InOrder(evals) && Between(evals, oracle.clock(old(ticks)), oracle.clock(ticks))
        invariant logs == AllLogs(evals)
      {
        ghost var before := ticks;
        var now := Now();
        var matched := alertEng.EvaluateRules(events[i], assetClass, rules, now);
        ghost var deliveries;
        var more: seq<Delivery>;
        more, deliveries := DispatchMatches(events[i], matched);
        logs := logs + more;
        ghost var ev := Evaluation(events[i], assetClass, rules, now, deliveries);
        InOrderAlone(ev, before);
        NextInOrder(evals, ev, oracle.clock(old(ticks)), oracle.clock(before), oracle.clock(ticks));
        RunGrows(states, evals, ev);
        evals := evals + [ev];
        states := states + [alertEng.suppressions];
      }
    }

    ghost predicate ClockAdvances() {
      forall s, t | 0 <= s <= t :: oracle.clock(s) <= oracle.clock(t)
    }

    lemma InOrderAlone(ev: Evaluation, t: nat)
      requires ClockAdvances() && ev.at == oracle.clock(t)
      requires forall a | 0 <= a < |ev.deliveries| :: ev.deliveries[a].at == oracle.clock(t + 1 + a)
      ensures InOrder([ev]) && Between([ev], oracle.clock(t), oracle.clock(t + 1 + |ev.deliveries|))
    {
    }
  }

  function AllLogs(evals: seq<Evaluation>): seq<Delivery> {
    if evals == [] then [] else AllLogs(evals[..|evals| - 1]) + Logged(evals[|evals| - 1].deliveries)
  }

  /** All readings lie between the two times. */
  ghost predicate Between(evals: seq<Evaluation>, from: int, to: int) {
    && from <= to
    && (forall i | 0 <= i < |evals| :: from <= evals[i].at <= to)
    && (forall i, a | 0 <= i < |evals| && 0 <= a < |evals[i].deliveries| :: from <= evals[i].deliveries[a].at <= to)
  }

  lemma NextInOrder(evals: seq<Evaluation>, ev: Evaluation, from: int, mid: int, to: int)
    requires InOrder(evals) && Between(evals, from, mid)
    requires InOrder([ev]) && Between([ev], mid, to)
    ensures InOrder(evals + [ev]) && Between(evals + [ev], from, to)
  {
    assert [ev][0] == ev;
  }

  lemma Nothing(s: Suppressions, now: int)
    ensures IsRun([s], []) && InOrder([]) && Between([], now, now) && AllLogs([]) == []
  {
  }

  lemma RunGrows(states: seq<Suppressions>, evals: seq<Evaluation>, ev: Evaluation)
    requires |states| == |evals| + 1 && IsRun(states, evals)
    requires |ev.deliveries| == |MatchedBy(states[|evals|], ev)|
    ensures IsRun(states + [After(states[|evals|], ev)], evals + [ev])
    ensures AllLogs(evals + [ev]) == AllLogs(evals) + Logged(ev.deliveries)
  {
    hide Matched, Marked, Logged;
    assert (evals + [ev])[..|evals|] == evals;
  }
}
