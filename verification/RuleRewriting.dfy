/**
  What a compliance rule means does not depend on how it is written: pushing negations inwards keeps
  every outcome, errors included, and only the variables a rule names matter.
*/
module RuleRewriting {
  import opened Prelude
  import opened Strings
  import opened JsonLogic

  // ----- Negation normal form -------------------------------------------------------------------

  function Negation(rule: Rule): Rule {
    Op("!", List([rule]))
  }

  lemma Spellings()
    ensures OperatorOf("and") == And && OperatorOf("or") == Or && OperatorOf("!") == Not
    ensures OperatorOf("==") == Equal && OperatorOf("!=") == NotEqual
  {
  }

  /** Pushes the negations of a rule inwards; only whether the rule's value is truthy is meant to stay. */
  function Normal(rule: Rule): (r: Rule)
    decreases rule, 1
  {
    match rule
    case Op(op, List(items)) =>
      if OperatorOf(op).And? || OperatorOf(op).Or? then Op(op, List(NormalAll(items, true)))
      else if OperatorOf(op).Not? then Negated(Target(List(items)))
      else rule
    case Op(op, args) => if OperatorOf(op).Not? then Negated(args) else rule
    case _ => rule
  }

  /** The negation of a rule, pushed inwards. Malformed operands keep their negation, and so their error. */
  function Negated(rule: Rule): (r: Rule)
    decreases rule, 1
  {
    match rule
    case Op(op, List(items)) =>
      var operator := OperatorOf(op);
      if operator.And? then Op("or", List(NormalAll(items, false)))
      else if operator.Or? then Op("and", List(NormalAll(items, false)))
      else if operator.Not? then Normal(Target(List(items)))
      else if operator.Equal? && |items| >= 2 then Op("!=", List(items))
      else if operator.NotEqual? && |items| >= 2 then Op("==", List(items))
      else Negation(rule)
    case Op(op, args) => if OperatorOf(op).Not? then Normal(args) else Negation(rule)
    case _ => Negation(rule)
  }

  function NormalAll(items: seq<Rule>, positive: bool): (r: seq<Rule>)
    ensures |r| == |items|
    decreases items, 2
  {
    if items == [] then []
    else [if positive then Normal(items[0]) else Negated(items[0])] + NormalAll(items[1..], positive)
  }

  /**
    No negation stands over `and`, `or`, a negation, or a well-formed `==` or `!=`, wherever truthiness
    is what counts; and negations are spelled one way.
  */
  predicate IsNormal(rule: Rule)
    decreases rule
  {
    match rule
    case Op(op, args) =>
      var operator := OperatorOf(op);
      && (operator.Not? ==> rule == Negation(Target(args)) && !Pushable(Target(args)))
      && ((operator.And? || operator.Or?) && args.List? ==> forall item | item in args.items :: IsNormal(item))
    case _ => true
  }

  predicate Pushable(rule: Rule) {
    && rule.Op?
    && var operator := OperatorOf(rule.op);
       || operator.Not?
       || ((operator.And? || operator.Or?) && rule.args.List?)
       || ((operator.Equal? || operator.NotEqual?) && HasTwo(rule.args))
  }

  function Flipped(r: Result<bool, EvalError>): Result<bool, EvalError> {
    if r.Err? then r else Ok(!r.value)
  }

  lemma NotOutcome(op: string, args: Rule, data: Data, env: Env)
    requires OperatorOf(op).Not?
    ensures Outcome(Op(op, args), data, env) == Flipped(Outcome(Target(args), data, env))
  {
    hide OperatorOf;
  }

  lemma NegationOutcome(rule: Rule, data: Data, env: Env)
    ensures Outcome(Negation(rule), data, env) == Flipped(Outcome(rule, data, env))
  {
    hide OperatorOf, Outcome;
    Spellings();
    NotOutcome("!", List([rule]), data, env);
  }

  lemma JunctionOutcome(op: string, items: seq<Rule>, data: Data, env: Env)
    requires OperatorOf(op).And? || OperatorOf(op).Or?
    ensures Outcome(Op(op, List(items)), data, env) == Truthiness(Junction(items, OperatorOf(op).And?, data, env))
  {
    hide OperatorOf;
  }

  lemma OppositeOutcome(op: string, opposite: string, items: seq<Rule>, data: Data, env: Env)
    requires |items| >= 2
    requires (OperatorOf(op).Equal? && OperatorOf(opposite).NotEqual?) || (OperatorOf(op).NotEqual? && OperatorOf(opposite).Equal?)
    ensures Outcome(Op(opposite, List(items)), data, env) == Flipped(Outcome(Op(op, List(items)), data, env))
  {
    hide OperatorOf, CompareEqual;
  }

  /** Rewriting to negation normal form never changes whether a rule passes, fails, or which error it ends in. */
  lemma {:induction false} NormalKeepsOutcome(rule: Rule, data: Data, env: Env)
    ensures Outcome(Normal(rule), data, env) == Outcome(rule, data, env)
    decreases rule, 1
  {
    hide OperatorOf, Outcome;
    if rule.Op? && OperatorOf(rule.op).Not? {
      NotOutcome(rule.op, rule.args, data, env);
      NegatedFlipsOutcome(Target(rule.args), data, env);
    } else if rule.Op? && (OperatorOf(rule.op).And? || OperatorOf(rule.op).Or?) && rule.args.List? {
      var items := rule.args.items;
      JunctionNormal(items, OperatorOf(rule.op).And?, data, env);
      JunctionOutcome(rule.op, items, data, env);
      JunctionOutcome(rule.op, NormalAll(items, true), data, env);
    }
  }

  lemma {:induction false} NegatedFlipsOutcome(rule: Rule, data: Data, env: Env)
    ensures Outcome(Negated(rule), data, env) == Flipped(Outcome(rule, data, env))
    decreases rule, 1
  {
    hide OperatorOf, Outcome;
    Spellings();
    NegationOutcome(rule, data, env);
    if rule.Op? && OperatorOf(rule.op).Not? {
      NotOutcome(rule.op, rule.args, data, env);
      NormalKeepsOutcome(Target(rule.args), data, env);
    } else if rule.Op? && rule.args.List? {
      var op, items := rule.op, rule.args.items;
      if OperatorOf(op).And? || OperatorOf(op).Or? {
        JunctionNegated(items, OperatorOf(op).And?, data, env);
        JunctionOutcome(op, items, data, env);
        JunctionOutcome(if OperatorOf(op).And? then "or" else "and", NormalAll(items, false), data, env);
      } else if (OperatorOf(op).Equal? || OperatorOf(op).NotEqual?) && |items| >= 2 {
        OppositeOutcome(op, if OperatorOf(op).Equal? then "!=" else "==", items, data, env);
      }
    }
  }

  lemma {:induction false} JunctionNormal(items: seq<Rule>, conjunctive: bool, data: Data, env: Env)
    ensures Junction(NormalAll(items, true), conjunctive, data, env) == Junction(items, conjunctive, data, env)
    decreases items, 2
  {
    hide OperatorOf, Normal, Eval;
    if items != [] {
      NormalKeepsOutcome(items[0], data, env);
      JunctionNormal(items[1..], conjunctive, data, env);
    }
  }

  /** De Morgan, with the same short-circuiting: the dual junction stops at the same item, with the same error. */
  lemma {:induction false} JunctionNegated(items: seq<Rule>, conjunctive: bool, data: Data, env: Env)
    ensures Truthiness(Junction(NormalAll(items, false), !conjunctive, data, env))
         == Flipped(Truthiness(Junction(items, conjunctive, data, env)))
    decreases items, 2
  {
    hide OperatorOf, Negated, Eval;
    if items != [] {
      NegatedFlipsOutcome(items[0], data, env);
      JunctionNegated(items[1..], conjunctive, data, env);
    }
  }

  /** The rewriting reaches its normal form. */
  lemma {:induction false} NormalIsNormal(rule: Rule)
    ensures IsNormal(Normal(rule))
    decreases rule, 1
  {
    hide OperatorOf;
    Spellings();
    match rule
    case Op(op, List(items)) =>
      if OperatorOf(op).And? || OperatorOf(op).Or? {
        AllNormal(items, true);
      } else if OperatorOf(op).Not? {
        NegatedIsNormal(Target(List(items)));
      }
    case Op(op, args) =>
      if OperatorOf(op).Not? {
        NegatedIsNormal(args);
      }
    case _ =>
  }

  lemma {:induction false} NegatedIsNormal(rule: Rule)
    ensures IsNormal(Negated(rule))
    decreases rule, 1
  {
    hide OperatorOf;
    Spellings();
    match rule
    case Op(op, List(items)) =>
      if OperatorOf(op).And? || OperatorOf(op).Or? {
        AllNormal(items, false);
      } else if OperatorOf(op).Not? {
        NormalIsNormal(Target(List(items)));
      }
    case Op(op, args) =>
      if OperatorOf(op).Not? {
        NormalIsNormal(args);
      }
    case _ =>
  }

  lemma {:induction false} AllNormal(items: seq<Rule>, positive: bool)
    ensures forall item | item in NormalAll(items, positive) :: IsNormal(item)
    decreases items, 2
  {
    hide OperatorOf, IsNormal, Normal, Negated;
    if items != [] {
      AllNormal(items[1..], positive);
      if positive {
        NormalIsNormal(items[0]);
      } else {
        NegatedIsNormal(items[0]);
      }
    }
  }

  /** The normal rules are exactly those the rewriting leaves alone, so rewriting twice is rewriting once. */
  lemma NormalIffUnchanged(rule: Rule)
    ensures IsNormal(rule) <==> Normal(rule) == rule
    ensures Normal(Normal(rule)) == Normal(rule)
  {
    hide Normal, IsNormal;
    NormalIsNormal(rule);
    NormalIsStable(Normal(rule));
    if IsNormal(rule) {
      NormalIsStable(rule);
    }
  }

  lemma {:induction false} NormalIsStable(rule: Rule)
    requires IsNormal(rule)
    ensures Normal(rule) == rule
    ensures !Pushable(rule) ==> Negated(rule) == Negation(rule)
    decreases rule, 1
  {
    hide OperatorOf;
    if rule.Op? && OperatorOf(rule.op).Not? {
      NormalIsStable(Target(rule.args));
    } else if rule.Op? && (OperatorOf(rule.op).And? || OperatorOf(rule.op).Or?) && rule.args.List? {
      AllStable(rule.args.items);
    }
  }

  lemma {:induction false} AllStable(items: seq<Rule>)
    requires forall item | item in items :: IsNormal(item)
    ensures NormalAll(items, true) == items
    decreases items, 2
  {
    hide OperatorOf, IsNormal, Normal, Negated;
    if items != [] {
      NormalIsStable(items[0]);
      AllStable(items[1..]);
    }
  }

  // ----- Where negation does not go -----------------------------------------------------------

  /**
    `<` and `>=` are no complements: an operand that does not read as a number makes both false.
    Negating one gives the other exactly when both operands read as numbers, or one fails to evaluate.
  */
  lemma ComplementIff(left: Rule, right: Rule, data: Data, env: Env)
    ensures Outcome(Negation(Op("<", List([left, right]))), data, env) == Outcome(Op(">=", List([left, right])), data, env)
      <==> Eval(left, data, env).Err? || Eval(right, data, env).Err?
           || (ReadsAsNumber(Eval(left, data, env).value, env) && ReadsAsNumber(Eval(right, data, env).value, env))
  {
    hide OperatorOf, Outcome;
    var args := List([left, right]);
    assert OperatorOf("<") == Less && OperatorOf(">=") == AtLeast by { OrderingSpellings(); }
    NegationOutcome(Op("<", args), data, env);
    BinaryOutcome("<", left, right, data, env);
    BinaryOutcome(">=", left, right, data, env);
  }

  lemma OrderingSpellings()
    ensures OperatorOf("<") == Less && OperatorOf(">=") == AtLeast
  {
  }

  lemma BinaryOutcome(op: string, left: Rule, right: Rule, data: Data, env: Env)
    requires IsBinary(OperatorOf(op))
    ensures Outcome(Op(op, List([left, right])), data, env)
         == if Eval(left, data, env).Err? then Err(Eval(left, data, env).error)
            else if Eval(right, data, env).Err? then Err(Eval(right, data, env).error)
            else Ok(Binary(OperatorOf(op), Eval(left, data, env).value, Eval(right, data, env).value, env))
  {
    hide OperatorOf, Binary;
    assert List([left, right]).items[0] == left && List([left, right]).items[1] == right;
  }

  predicate ReadsAsNumber(v: Value, env: Env) {
    ToFloat(v, env).Some? && ToFloat(v, env).value != NotANumber
  }

  // ----- Which data matters ---------------------------------------------------------------------

  /** The paths of the variables a rule can look at. */
  function Paths(rule: Rule): set<string>
    decreases rule, 0
  {
    match rule
    case Literal(_) => {}
    case EmptyNode => {}
    case List(items) => AllPaths(items)
    case Op(op, args) =>
      var operator := OperatorOf(op);
      if operator.Var? then {PathOf(args)}
      else if IsBinary(operator) then (if HasTwo(args) then Paths(args.items[0]) + Paths(args.items[1]) else {})
      else if operator.And? || operator.Or? then (if args.List? then AllPaths(args.items) else {})
      else if operator.Not? then Paths(Target(args))
      else {}
  }

  function AllPaths(items: seq<Rule>): set<string>
    decreases items, 1
  {
    if items == [] then {} else Paths(items[0]) + AllPaths(items[1..])
  }

  ghost predicate AgreeOn(paths: set<string>, data: Data, other: Data, env: Env) {
    forall path | path in paths :: Resolved(data, path, env) == Resolved(other, path, env)
  }

  /** Two hosts that agree at the paths a rule names get the same value, or the same error, from it. */
  lemma {:induction false} OnlyNamedPathsMatter(rule: Rule, data: Data, other: Data, env: Env)
    requires AgreeOn(Paths(rule), data, other, env)
    ensures Eval(rule, data, env) == Eval(rule, other, env)
    decreases rule, 0
  {
    hide OperatorOf, Resolved, Binary;
    match rule
    case Literal(_) =>
    case EmptyNode =>
    case List(items) => AllOnlyNamedPathsMatter(items, data, other, env);
    case Op(op, args) =>
      var operator := OperatorOf(op);
      if operator.Var? {
      } else if IsBinary(operator) {
        if HasTwo(args) {
          OnlyNamedPathsMatter(args.items[0], data, other, env);
          OnlyNamedPathsMatter(args.items[1], data, other, env);
        }
      } else if operator.And? || operator.Or? {
        if args.List? {
          AllOnlyNamedPathsMatter(args.items, data, other, env);
        }
      } else if operator.Not? {
        OnlyNamedPathsMatter(Target(args), data, other, env);
      }
  }

  lemma {:induction false} AllOnlyNamedPathsMatter(items: seq<Rule>, data: Data, other: Data, env: Env)
    requires AgreeOn(AllPaths(items), data, other, env)
    ensures EvalAll(items, data, env) == EvalAll(items, other, env)
    ensures forall conjunctive :: Junction(items, conjunctive, data, env) == Junction(items, conjunctive, other, env)
    decreases items, 1
  {
    hide OperatorOf, Resolved, Eval, Paths;
    if items != [] {
      OnlyNamedPathsMatter(items[0], data, other, env);
      AllOnlyNamedPathsMatter(items[1..], data, other, env);
    }
  }
}
