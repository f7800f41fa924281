/** The laws of the JSONLogic operators: what equality, the orderings, truthiness and the junctions mean. */
module RuleLaws {
  import opened Prelude
  import opened JsonLogic
  import opened RuleRewriting

  // ----- Equality -----------------------------------------------------------------------------------

  /** Coercing equality is an equivalence, but for what reads as not-a-number, which equals nothing. */
  lemma EqualityIsEquivalence(a: Value, b: Value, c: Value, env: Env)
    ensures CompareEqual(a, a, env) <==> ToFloat(a, env) != Some(NotANumber)
    ensures CompareEqual(a, b, env) == CompareEqual(b, a, env)
    ensures CompareEqual(a, b, env) && CompareEqual(b, c, env) ==> CompareEqual(a, c, env)
  {
  }

  /** Equal targets are in the same lists. */
  lemma EqualTargetsAreInSameLists(a: Value, b: Value, elems: seq<Value>, isNil: bool, env: Env)
    requires CompareEqual(a, b, env)
    ensures CheckIn(a, Arr(elems, isNil), env) == CheckIn(b, Arr(elems, isNil), env)
  {
    hide CompareEqual;
    NullEqualsNullOnly(a, b, env);
    forall item | item in elems ensures CompareEqual(a, item, env) == CompareEqual(b, item, env) {
      EqualityIsEquivalence(a, b, item, env);
      EqualityIsEquivalence(b, a, item, env);
    }
  }

  lemma NullEqualsNullOnly(a: Value, b: Value, env: Env)
    ensures CompareEqual(a, b, env) ==> (a == NIL <==> b == NIL)
  {
  }

  // ----- Order --------------------------------------------------------------------------------------

  /** The four orderings are one order on what reads as a number, and false on everything else. */
  lemma OrderingsAgree(a: Value, b: Value, c: Value, env: Env)
    ensures CompareNumeric(Greater, a, b, env) == CompareNumeric(Less, b, a, env)
    ensures CompareNumeric(AtLeast, a, b, env) == CompareNumeric(AtMost, b, a, env)
    ensures CompareNumeric(AtMost, a, b, env) <==>
            CompareNumeric(Less, a, b, env) || (ToFloat(a, env).Some? && ToFloat(b, env).Some? && CompareEqual(a, b, env))
    ensures CompareNumeric(Less, a, b, env) && CompareNumeric(Less, b, c, env) ==> CompareNumeric(Less, a, c, env)
    ensures !(CompareNumeric(Less, a, b, env) && (CompareEqual(a, b, env) || CompareNumeric(Less, b, a, env)))
    ensures ReadsAsNumber(a, env) && ReadsAsNumber(b, env) <==>
            CompareNumeric(Less, a, b, env) || CompareNumeric(Less, b, a, env)
            || (ToFloat(a, env).Some? && ToFloat(b, env).Some? && CompareEqual(a, b, env))
  {
  }

  // ----- Junctions ----------------------------------------------------------------------------------

  /** The items before k evaluate and do not decide the junction. */
  ghost predicate Undecided(items: seq<Rule>, k: nat, conjunctive: bool, data: Data, env: Env)
    requires k <= |items|
  {
    forall j | 0 <= j < k :: Outcome(items[j], data, env) == Ok(conjunctive)
  }

  /**
    A junction ends at the first item that errs or decides it: `and` at the first that fails, `or` at the
    first that passes. With no such item, `and` passes and `or` fails.
  */
  lemma {:induction false} JunctionDecided(items: seq<Rule>, k: nat, conjunctive: bool, data: Data, env: Env)
    requires k <= |items| && Undecided(items, k, conjunctive, data, env)
    requires k < |items| ==> Outcome(items[k], data, env) != Ok(conjunctive)
    ensures Truthiness(Junction(items, conjunctive, data, env)) == if k < |items| then Outcome(items[k], data, env) else Ok(conjunctive)
  {
    hide Eval;
    if k > 0 {
      assert Outcome(items[0], data, env) == Ok(conjunctive);
      assert Undecided(items[1..], k - 1, conjunctive, data, env) by {
        forall j | 0 <= j < k - 1 ensures Outcome(items[1..][j], data, env) == Ok(conjunctive) {
          assert items[1..][j] == items[j + 1];
        }
      }
      JunctionDecided(items[1..], k - 1, conjunctive, data, env);
    }
  }

  lemma {:induction false} FirstDeciding(items: seq<Rule>, conjunctive: bool, data: Data, env: Env) returns (k: nat)
    ensures k <= |items| && Undecided(items, k, conjunctive, data, env)
    ensures k < |items| ==> Outcome(items[k], data, env) != Ok(conjunctive)
  {
    hide Outcome;
    k := 0;
    while k < |items| && Outcome(items[k], data, env) == Ok(conjunctive)
      invariant k <= |items| && Undecided(items, k, conjunctive, data, env)
    {
      k := k + 1;
    }
  }

  /** A conjunction passes exactly when every item passes, and a disjunction fails exactly when every item fails. */
  lemma AllOrNothing(op: string, items: seq<Rule>, data: Data, env: Env)
    requires OperatorOf(op).And? || OperatorOf(op).Or?
    ensures Outcome(Op(op, List(items)), data, env) == Ok(OperatorOf(op).And?)
            <==> forall item | item in items :: Outcome(item, data, env) == Ok(OperatorOf(op).And?)
  {
    hide OperatorOf, Outcome, Junction;
    var conjunctive := OperatorOf(op).And?;
    JunctionOutcome(op, items, data, env);
    var k := FirstDeciding(items, conjunctive, data, env);
    JunctionDecided(items, k, conjunctive, data, env);
    if k < |items| {
      assert items[k] in items;
    }
  }
}
