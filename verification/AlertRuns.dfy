/** What alert suppression guarantees over whole runs of evaluations, dispatches and marks. */
module AlertRuns {
  import opened Prelude
  import opened Strings
  import opened AlertSuppression

  /** Delivery a of evaluation i is a success for the given key. */
  ghost predicate Success(evals: seq<Evaluation>, i: nat, a: nat, key: string) {
    && i < |evals| && a < |evals[i].deliveries|
    && evals[i].deliveries[a].result.Succeeded?
    && EventKey(evals[i].event) == key
  }

  function TimeOf(evals: seq<Evaluation>, i: nat, a: nat): int
    requires i < |evals| && a < |evals[i].deliveries|
  {
    evals[i].deliveries[a].at
  }

  /** The mark left is that of the last success, if there is one. */
  lemma {:induction false} MarkedIs(s: Suppressions, key: string, deliveries: seq<Delivery>)
    ensures var after := Marked(s, key, deliveries);
            && (forall k | k != key :: (k in after <==> k in s) && (k in s ==> after[k] == s[k]))
            && (s.Keys <= after.Keys)
    ensures (forall a | 0 <= a < |deliveries| :: !deliveries[a].result.Succeeded?) ==> Marked(s, key, deliveries) == s
    ensures (exists a :: 0 <= a < |deliveries| && deliveries[a].result.Succeeded?) ==>
              exists a :: 0 <= a < |deliveries| && deliveries[a].result.Succeeded? && key in Marked(s, key, deliveries)
                          && Marked(s, key, deliveries)[key] == deliveries[a].at
                          && forall b | a < b < |deliveries| :: !deliveries[b].result.Succeeded?
  {
    if deliveries != [] {
      var before, last := deliveries[..|deliveries| - 1], |deliveries| - 1;
      MarkedIs(s, key, before);
      if !deliveries[last].result.Succeeded? && exists a :: 0 <= a < |deliveries| && deliveries[a].result.Succeeded? {
        var a :| 0 <= a < |deliveries| && deliveries[a].result.Succeeded?;
        assert before[a].result.Succeeded?;
        var b :| 0 <= b < |before| && before[b].result.Succeeded? && key in Marked(s, key, before)
                 && Marked(s, key, before)[key] == before[b].at
                 && forall c | b < c < |before| :: !before[c].result.Succeeded?;
        assert deliveries[b] == before[b];
      }
    }
  }

  /** In a run from nothing, a key is marked with the time of its last successful delivery, if it had one. */
  ghost predicate MarkIsLast(states: seq<Suppressions>, evals: seq<Evaluation>, i: nat, key: string)
    requires i < |states|
  {
    if key in states[i] then
      && (exists j: nat, a: nat :: j < i && Success(evals, j, a, key) && states[i][key] == TimeOf(evals, j, a))
      && (forall j: nat, a: nat | j < i && Success(evals, j, a, key) :: TimeOf(evals, j, a) <= states[i][key])
    else forall j: nat, a: nat | j < i :: !Success(evals, j, a, key)
  }

  lemma {:induction false} MarksAreLastSuccesses(states: seq<Suppressions>, evals: seq<Evaluation>, i: nat, key: string)
    requires IsRun(states, evals) && states[0] == map[] && InOrder(evals) && i < |states|
    ensures MarkIsLast(states, evals, i, key)
  {
    hide After, MatchedBy, InOrder;
    if i == 0 {
      hide Success;
    } else {
      MarksAreLastSuccesses(states, evals, i - 1, key);
      hide MarkIsLast;
      assert states[i] == After(states[i - 1], evals[i - 1]);
      MarkStep(states, evals, i - 1, key);
    }
  }

  lemma MarkStep(states: seq<Suppressions>, evals: seq<Evaluation>, i: nat, key: string)
    requires i + 1 < |states| && i < |evals| && InOrder(evals)
    requires states[i + 1] == After(states[i], evals[i])
    requires MarkIsLast(states, evals, i, key)
    ensures MarkIsLast(states, evals, i + 1, key)
  {
    hide Marked, EventKey;
    var ev := evals[i];
    var own := EventKey(ev.event);
    MarkedIs(states[i], own, ev.deliveries);
    if key == own && exists a :: 0 <= a < |ev.deliveries| && ev.deliveries[a].result.Succeeded? {
      var a :| 0 <= a < |ev.deliveries| && ev.deliveries[a].result.Succeeded? && key in states[i + 1]
               && states[i + 1][key] == ev.deliveries[a].at
               && forall b | a < b < |ev.deliveries| :: !ev.deliveries[b].result.Succeeded?;
      assert Success(evals, i, a, key) && states[i + 1][key] == TimeOf(evals, i, a);
    } else {
      assert forall a: nat :: !Success(evals, i, a, key);
    }
  }

  /**
    A window suppresses an alert exactly when some earlier delivery on the same key succeeded within it,
    whichever rule it was for; so failed deliveries never suppress anything.
  */
  lemma SuppressedIff(states: seq<Suppressions>, evals: seq<Evaluation>, i: nat, windowHours: int)
    requires IsRun(states, evals) && states[0] == map[] && InOrder(evals) && i < |evals|
    requires windowHours <= MAX_WINDOW_HOURS
    ensures var key := EventKey(evals[i].event);
            Suppressed(states[i], key, windowHours, evals[i].at)
            <==> windowHours > 0 && exists j: nat, a: nat ::
                   j < i && Success(evals, j, a, key) && evals[i].at - TimeOf(evals, j, a) < windowHours * HOUR
  {
    hide Suppressed, EventKey, InOrder;
    var key, now := EventKey(evals[i].event), evals[i].at;
    MarksAreLastSuccesses(states, evals, i, key);
    WithinWindow(states[i], key, windowHours, now);
    if key in states[i] && windowHours > 0 {
      var j: nat, a: nat :| j < i && Success(evals, j, a, key) && states[i][key] == TimeOf(evals, j, a);
    }
  }

  lemma WithinWindow(s: Suppressions, key: string, windowHours: int, now: int)
    requires windowHours <= MAX_WINDOW_HOURS
    ensures Suppressed(s, key, windowHours, now) <==> windowHours > 0 && key in s && now - s[key] < windowHours * HOUR
  {
    if windowHours > 0 {
      assert Wrap64(windowHours * HOUR) == windowHours * HOUR;
    }
  }

  lemma {:induction false} MatchedIs(s: Suppressions, e: DriftEvent, assetClass: string, rules: seq<AlertRule>, now: int)
    ensures forall rule :: rule in Matched(s, e, assetClass, rules, now) <==>
              rule in rules && Applies(rule, e, assetClass) && !Suppressed(s, EventKey(e), rule.suppressionWindowHours, now)
  {
    hide Applies, Suppressed, EventKey;
    if rules != [] {
      MatchedIs(s, e, assetClass, rules[..|rules| - 1], now);
      assert rules == rules[..|rules| - 1] + [rules[|rules| - 1]];
    }
  }

  /** A rule is dispatched exactly when it applies and no delivery on the event's key succeeded within its window. */
  lemma DispatchedIff(states: seq<Suppressions>, evals: seq<Evaluation>, i: nat, rule: AlertRule)
    requires IsRun(states, evals) && states[0] == map[] && InOrder(evals) && i < |evals|
    requires rule.suppressionWindowHours <= MAX_WINDOW_HOURS
    ensures rule in MatchedBy(states[i], evals[i]) <==>
            && rule in evals[i].rules && Applies(rule, evals[i].event, evals[i].assetClass)
            && (rule.suppressionWindowHours > 0 ==>
                  forall j: nat, a: nat | j < i && Success(evals, j, a, EventKey(evals[i].event)) ::
                    evals[i].at - TimeOf(evals, j, a) >= rule.suppressionWindowHours * HOUR)
  {
    hide Matched, Applies, Suppressed, EventKey, InOrder;
    var ev := evals[i];
    MatchedIs(states[i], ev.event, ev.assetClass, ev.rules, ev.at);
    SuppressedIff(states, evals, i, rule.suppressionWindowHours);
  }

  /**
    A delivery of a rule with a window of w hours comes at least w hours after every success on the same
    key in an earlier evaluation, of that rule or any other.
  */
  lemma DeliveriesAreSpaced(states: seq<Suppressions>, evals: seq<Evaluation>, i: nat, a: nat, j: nat, b: nat)
    requires IsRun(states, evals) && states[0] == map[] && InOrder(evals)
    requires i < j < |evals| && Success(evals, i, a, EventKey(evals[j].event)) && b < |evals[j].deliveries|
    requires 0 < MatchedBy(states[j], evals[j])[b].suppressionWindowHours <= MAX_WINDOW_HOURS
    ensures TimeOf(evals, j, b) - TimeOf(evals, i, a) >= MatchedBy(states[j], evals[j])[b].suppressionWindowHours * HOUR
  {
    hide Matched, Applies, Suppressed, EventKey;
    var rule := MatchedBy(states[j], evals[j])[b];
    assert rule in MatchedBy(states[j], evals[j]);
    DispatchedIff(states, evals, j, rule);
  }

  /** Tenant and host IDs without colons keep the alerts of different hosts and properties apart. */
  lemma KeysSeparateProperties(e: DriftEvent, f: DriftEvent)
    requires ':' !in e.tenantID && ':' !in e.hostID && ':' !in f.tenantID && ':' !in f.hostID
    ensures EventKey(e) == EventKey(f) <==> e.tenantID == f.tenantID && e.hostID == f.hostID && e.propertyName == f.propertyName
  {
    if EventKey(e) == EventKey(f) {
      JoinedNamesDiffer(e.tenantID, e.hostID, e.propertyName, f.tenantID, f.hostID, f.propertyName);
    }
  }

  /** In general two hosts can come to share a key exactly when the start of one's keys is a prefix of the other's. */
  lemma HostsShareKeysIff(t1: string, h1: string, t2: string, h2: string)
    ensures (exists p1, p2 :: Key(t1, h1, p1) == Key(t2, h2, p2))
            <==> t1 + ":" + h1 + ":" <= t2 + ":" + h2 + ":" || t2 + ":" + h2 + ":" <= t1 + ":" + h1 + ":"
  {
    var s1, s2 := t1 + ":" + h1 + ":", t2 + ":" + h2 + ":";
    PrefixesMeetIff(s1, s2);
    if s1 <= s2 || s2 <= s1 {
      var p1: string, p2: string :| s1 + p1 == s2 + p2;
      assert Key(t1, h1, p1) == Key(t2, h2, p2);
    } else {
      forall p1, p2 ensures Key(t1, h1, p1) != Key(t2, h2, p2) {
        assert Key(t1, h1, p1) == s1 + p1 && Key(t2, h2, p2) == s2 + p2;
      }
    }
  }

  /** The runs of consecutive snapshots join to one run, so what holds of runs holds across snapshots. */
  lemma RunsJoin(states: seq<Suppressions>, evals: seq<Evaluation>, moreStates: seq<Suppressions>, moreEvals: seq<Evaluation>,
                 from: int, mid: int, to: int)
    requires IsRun(states, evals) && IsRun(moreStates, moreEvals) && states[|evals|] == moreStates[0]
    requires InOrder(evals) && InOrder(moreEvals) && Between(evals, from, mid) && Between(moreEvals, mid, to)
    ensures IsRun(states + moreStates[1..], evals + moreEvals)
    ensures InOrder(evals + moreEvals) && Between(evals + moreEvals, from, to)
  {
    RunsJoinStates(states, evals, moreStates, moreEvals);
    hide IsRun, After, MatchedBy;
    var all := evals + moreEvals;
    forall i, j, a | 0 <= i < j < |all| && 0 <= a < |all[i].deliveries| ensures all[i].deliveries[a].at <= all[j].at {
      if i < |evals| <= j {
        assert all[j] == moreEvals[j - |evals|];
      }
    }
  }

  lemma RunsJoinStates(states: seq<Suppressions>, evals: seq<Evaluation>, moreStates: seq<Suppressions>, moreEvals: seq<Evaluation>)
    requires IsRun(states, evals) && IsRun(moreStates, moreEvals) && states[|evals|] == moreStates[0]
    ensures IsRun(states + moreStates[1..], evals + moreEvals)
  {
    hide After, MatchedBy;
    var n, all, evs := |evals|, states + moreStates[1..], evals + moreEvals;
    forall i | 0 <= i < |evs|
      ensures |evs[i].deliveries| == |MatchedBy(all[i], evs[i])| && all[i + 1] == After(all[i], evs[i])
    {
      if i < n {
        assert evs[i] == evals[i] && all[i] == states[i] && all[i + 1] == states[i + 1];
      } else {
        assert evs[i] == moreEvals[i - n] && all[i] == moreStates[i - n] && all[i + 1] == moreStates[i - n + 1];
      }
    }
  }

  // ----- What the filters ask for -------------------------------------------------------------------

  /**
    A rule is for an event when it is active and its severity, category and asset class, as far as it sets
    them, are the event's but for case; the asset class may also just contain the rule's.
    */
  ghost predicate IsFor(rule: AlertRule, e: DriftEvent, assetClass: string) {
    && rule.isActive
    && (rule.severityFilter != "" ==> SameButForCase(rule.severityFilter, e.severity))
    && (rule.categoryFilter != "" ==> SameButForCase(rule.categoryFilter, e.driftCategory))
    && (rule.assetClassFilter != "" ==>
          SameButForCase(rule.assetClassFilter, assetClass) || Occurs(Lower(rule.assetClassFilter), Lower(assetClass)))
  }

  lemma AppliesIff(rule: AlertRule, e: DriftEvent, assetClass: string)
    ensures Applies(rule, e, assetClass) <==> IsFor(rule, e, assetClass)
  {
    hide EqualFold, Contains, Lower, SameButForCase, Occurs;
    FoldIs(rule.severityFilter, e.severity);
    FoldIs(rule.categoryFilter, e.driftCategory);
    FoldIs(rule.assetClassFilter, assetClass);
    OccursIs(Lower(rule.assetClassFilter), Lower(assetClass));
  }

  /** Some delivery before evaluation i succeeded for this tenant, host and property, less than the window ago. */
  ghost predicate AlertedWithin(evals: seq<Evaluation>, i: nat, windowHours: int)
    requires i < |evals|
  {
    exists j: nat, a: nat :: j < i && SuccessFor(evals, j, a, evals[i].event)
                             && evals[i].at - evals[j].deliveries[a].at < windowHours * 3_600_000_000_000
  }

  ghost predicate SuccessFor(evals: seq<Evaluation>, j: nat, a: nat, e: DriftEvent) {
    && j < |evals| && a < |evals[j].deliveries| && evals[j].deliveries[a].result == Succeeded
    && evals[j].event.tenantID == e.tenantID && evals[j].event.hostID == e.hostID && evals[j].event.propertyName == e.propertyName
  }

  ghost predicate ColonFree(evals: seq<Evaluation>) {
    forall i | 0 <= i < |evals| :: ':' !in evals[i].event.tenantID && ':' !in evals[i].event.hostID
  }

  lemma SuccessIs(evals: seq<Evaluation>, i: nat, j: nat, a: nat)
    requires ColonFree(evals) && i < |evals| && j < |evals|
    ensures Success(evals, j, a, EventKey(evals[i].event)) <==> SuccessFor(evals, j, a, evals[i].event)
  {
    hide EventKey;
    KeysSeparateProperties(evals[j].event, evals[i].event);
  }

  /**
    Where tenant and host IDs hold no colon: an event is dispatched for a rule exactly when the rule is for
    it and no alert on the same property of the same host and tenant was delivered within the rule's window.
    */
  lemma DispatchedMeans(states: seq<Suppressions>, evals: seq<Evaluation>, i: nat, rule: AlertRule)
    requires IsRun(states, evals) && states[0] == map[] && InOrder(evals) && i < |evals| && ColonFree(evals)
    requires rule.suppressionWindowHours <= 2_562_047
    ensures rule in MatchedBy(states[i], evals[i]) <==>
            && rule in evals[i].rules && IsFor(rule, evals[i].event, evals[i].assetClass)
            && !(rule.suppressionWindowHours > 0 && AlertedWithin(evals, i, rule.suppressionWindowHours))
  {
    hide MatchedBy, Applies, IsFor, EventKey, InOrder, IsRun, Success, SuccessFor, ColonFree;
    DispatchedIff(states, evals, i, rule);
    AppliesIff(rule, evals[i].event, evals[i].assetClass);
    AlertedWithinIff(evals, i, rule.suppressionWindowHours);
  }

  lemma AlertedWithinIff(evals: seq<Evaluation>, i: nat, windowHours: int)
    requires i < |evals| && ColonFree(evals)
    ensures AlertedWithin(evals, i, windowHours) <==>
            exists j: nat, a: nat :: j < i && Success(evals, j, a, EventKey(evals[i].event))
                                     && evals[i].at - TimeOf(evals, j, a) < windowHours * HOUR
  {
    hide ColonFree;
    forall j: nat, a: nat | j < i
      ensures Success(evals, j, a, EventKey(evals[i].event)) <==> SuccessFor(evals, j, a, evals[i].event)
    {
      SuccessIs(evals, i, j, a);
    }
  }

  /** Rules match in the order in which they are listed, each as often as it is listed. */
  lemma {:induction false} MatchedJoins(s: Suppressions, e: DriftEvent, assetClass: string, rules: seq<AlertRule>, more: seq<AlertRule>, now: int)
    ensures Matched(s, e, assetClass, rules + more, now) == Matched(s, e, assetClass, rules, now) + Matched(s, e, assetClass, more, now)
    ensures |Matched(s, e, assetClass, rules, now)| <= |rules|
    decreases |rules| + |more|
  {
    hide Applies, Suppressed, EventKey;
    if more != [] {
      var n := |more| - 1;
      assert rules + more == rules + more[..n] + [more[n]] && (rules + more)[..|rules| + n] == rules + more[..n];
      MatchedJoins(s, e, assetClass, rules, more[..n], now);
    } else {
      assert rules + more == rules;
      if rules != [] {
        MatchedJoins(s, e, assetClass, rules[..|rules| - 1], [], now);
      }
    }
  }

  /** The logs kept are those of the deliveries that left one, in the order of the deliveries. */
  lemma {:induction false} LoggedMeans(deliveries: seq<Delivery>, more: seq<Delivery>)
    ensures Logged(deliveries + more) == Logged(deliveries) + Logged(more)
    ensures forall d :: d in Logged(deliveries) <==> d in deliveries && d.result != NoLog
    ensures |Logged(deliveries)| <= |deliveries|
    decreases |deliveries| + |more|
  {
    if more != [] {
      var n := |more| - 1;
      assert (deliveries + more)[..|deliveries| + n] == deliveries + more[..n];
      LoggedMeans(deliveries, more[..n]);
    } else {
      assert deliveries + more == deliveries;
      if deliveries != [] {
        var n := |deliveries| - 1;
        assert deliveries == deliveries[..n] + [deliveries[n]];
        LoggedMeans(deliveries[..n], []);
      }
    }
  }
}
