/**
  What each operator of a rule means, spelled out on the operator's own name, the values of its operands
  and the fields of the data.
*/
module RuleMeaning {
  import opened Prelude
  import opened Strings
  import opened JsonLogic

  /** The value reads as this number: it is a number, or a text that parses as one. */
  predicate ReadsAs(v: Value, f: Float, env: Env) {
    (v.Atom? && v.scalar.Num? && f == Finite(v.scalar.n)) || (v.Atom? && v.scalar.Str? && env.parseFloat(v.scalar.s) == Some(f))
  }

  ghost predicate ReadsAsSome(v: Value, env: Env) {
    exists f :: ReadsAs(v, f, env)
  }

  /** Place on the extended number line: minus infinity, then the reals, then plus infinity. */
  function Side(f: Float): int {
    match f
    case Infinite(positive) => if positive then 1 else -1
    case _ => 0
  }

  predicate IsBelow(f: Float, g: Float) {
    f != NotANumber && g != NotANumber && (Side(f) < Side(g) || (f.Finite? && g.Finite? && f.value < g.value))
  }

  predicate Evaluates(rule: Rule, v: Value, data: Data, env: Env) {
    Eval(rule, data, env) == Ok(v)
  }

  /** A two-operand rule in evaluated operands. */
  function Pair(op: string, left: Rule, right: Rule): Rule {
    Op(op, List([left, right]))
  }

  lemma PairValue(op: string, left: Rule, right: Rule, a: Value, b: Value, data: Data, env: Env)
    requires IsBinary(OperatorOf(op)) && Evaluates(left, a, data, env) && Evaluates(right, b, data, env)
    ensures Eval(Pair(op, left, right), data, env) == Ok(Truth(Binary(OperatorOf(op), a, b, env)))
  {
    hide OperatorOf, Binary;
    assert List([left, right]).items[0] == left && List([left, right]).items[1] == right;
  }

  // ----- Orderings --------------------------------------------------------------------------------

  /** Operands that are numbers are compared as numbers. */
  lemma NumbersAreOrdered(left: Rule, right: Rule, x: real, y: real, data: Data, env: Env)
    requires Eval(left, data, env) == Ok(Atom(Num(x))) && Eval(right, data, env) == Ok(Atom(Num(y)))
    ensures Eval(Op("<", List([left, right])), data, env) == Ok(Atom(Bool(x < y)))
    ensures Eval(Op("<=", List([left, right])), data, env) == Ok(Atom(Bool(x <= y)))
    ensures Eval(Op(">", List([left, right])), data, env) == Ok(Atom(Bool(x > y)))
    ensures Eval(Op(">=", List([left, right])), data, env) == Ok(Atom(Bool(x >= y)))
  {
    OrderingMeans(left, right, Atom(Num(x)), Atom(Num(y)), Finite(x), Finite(y), data, env);
  }

  /**
    Operands that read as numbers, texts among them, are compared on the extended number line; what reads
    as not-a-number is in no order.
  */
  lemma OrderingMeans(left: Rule, right: Rule, a: Value, b: Value, f: Float, g: Float, data: Data, env: Env)
    requires Eval(left, data, env) == Ok(a) && Eval(right, data, env) == Ok(b) && ReadsAs(a, f, env) && ReadsAs(b, g, env)
    ensures Eval(Op("<", List([left, right])), data, env) == Ok(Atom(Bool(IsBelow(f, g))))
    ensures Eval(Op("<=", List([left, right])), data, env) == Ok(Atom(Bool(IsBelow(f, g) || (f == g && f != NotANumber))))
    ensures Eval(Op(">", List([left, right])), data, env) == Ok(Atom(Bool(IsBelow(g, f))))
    ensures Eval(Op(">=", List([left, right])), data, env) == Ok(Atom(Bool(IsBelow(g, f) || (f == g && f != NotANumber))))
  {
    assert OperatorOf("<") == Less && OperatorOf("<=") == AtMost && OperatorOf(">") == Greater && OperatorOf(">=") == AtLeast;
    hide OperatorOf, Eval;
    PairValue("<", left, right, a, b, data, env);
    PairValue("<=", left, right, a, b, data, env);
    PairValue(">", left, right, a, b, data, env);
    PairValue(">=", left, right, a, b, data, env);
  }

  /** An operand that reads as no number makes every ordering false. */
  lemma NoOrderWithoutNumbers(op: string, left: Rule, right: Rule, a: Value, b: Value, data: Data, env: Env)
    requires op == "<" || op == "<=" || op == ">" || op == ">="
    requires Eval(left, data, env) == Ok(a) && Eval(right, data, env) == Ok(b)
    requires !ReadsAsSome(a, env) || !ReadsAsSome(b, env)
    ensures Eval(Op(op, List([left, right])), data, env) == Ok(Atom(Bool(false)))
  {
    assert IsBinary(OperatorOf(op)) && !OperatorOf(op).Equal? && !OperatorOf(op).NotEqual? && !OperatorOf(op).In?;
    hide OperatorOf, Eval;
    PairValue(op, left, right, a, b, data, env);
    ReadingIs(a, env);
    ReadingIs(b, env);
  }

  lemma ReadingIs(v: Value, env: Env)
    ensures ToFloat(v, env).Some? <==> ReadsAsSome(v, env)
    ensures ToFloat(v, env).Some? ==> ReadsAs(v, ToFloat(v, env).value, env)
    ensures forall f | ReadsAs(v, f, env) :: ToFloat(v, env) == Some(f)
  {
    if ToFloat(v, env).Some? {
      assert ReadsAs(v, ToFloat(v, env).value, env);
    }
  }

  // ----- Equality and membership ------------------------------------------------------------------

  /** Equal as numbers if both read as numbers; otherwise the same value, or two empty lists. */
  ghost predicate SameValue(a: Value, b: Value, env: Env) {
    if ReadsAsSome(a, env) && ReadsAsSome(b, env) then exists f :: ReadsAs(a, f, env) && ReadsAs(b, f, env) && f != NotANumber
    else a == b || (a.Arr? && b.Arr? && a.elems == [] && b.elems == [])
  }

  lemma CompareEqualIs(a: Value, b: Value, env: Env)
    ensures CompareEqual(a, b, env) <==> SameValue(a, b, env)
  {
    ReadingIs(a, env);
    ReadingIs(b, env);
  }

  /** All four spellings: `==` and `===` say whether the operands are the same value, `!=` and `!==` the contrary. */
  lemma EqualityMeans(left: Rule, right: Rule, a: Value, b: Value, data: Data, env: Env)
    requires Eval(left, data, env) == Ok(a) && Eval(right, data, env) == Ok(b)
    ensures Eval(Op("==", List([left, right])), data, env) == Ok(Atom(Bool(SameValue(a, b, env))))
    ensures Eval(Op("===", List([left, right])), data, env) == Ok(Atom(Bool(SameValue(a, b, env))))
    ensures Eval(Op("!=", List([left, right])), data, env) == Ok(Atom(Bool(!SameValue(a, b, env))))
    ensures Eval(Op("!==", List([left, right])), data, env) == Ok(Atom(Bool(!SameValue(a, b, env))))
  {
    assert OperatorOf("==") == OperatorOf("===") == Equal && OperatorOf("!=") == OperatorOf("!==") == NotEqual;
    hide OperatorOf, Eval, SameValue, CompareEqual;
    CompareEqualIs(a, b, env);
    PairValue("==", left, right, a, b, data, env);
    PairValue("===", left, right, a, b, data, env);
    PairValue("!=", left, right, a, b, data, env);
    PairValue("!==", left, right, a, b, data, env);
  }

  /** `in`: in a list, some item is the same value; in a text, the lower-cased target occurs; null is in nothing. */
  ghost predicate IsIn(target: Value, collection: Value, env: Env) {
    && target != Atom(Null)
    && match collection
       case Arr(elems, _) => exists i :: 0 <= i < |elems| && SameValue(target, elems[i], env)
       case Atom(Str(s)) => Occurs(env.lower(env.show(target)), env.lower(s))
       case _ => false
  }

  lemma InMeans(left: Rule, right: Rule, a: Value, b: Value, data: Data, env: Env)
    requires Eval(left, data, env) == Ok(a) && Eval(right, data, env) == Ok(b)
    ensures Eval(Op("in", List([left, right])), data, env) == Ok(Atom(Bool(IsIn(a, b, env))))
  {
    assert OperatorOf("in") == In;
    hide OperatorOf, Eval;
    PairValue("in", left, right, a, b, data, env);
    CheckInIs(a, b, env);
  }

  lemma CheckInIs(target: Value, collection: Value, env: Env)
    ensures CheckIn(target, collection, env) <==> IsIn(target, collection, env)
  {
    hide CompareEqual, SameValue, Contains, Occurs;
    match collection
    case Arr(elems, _) =>
      forall i | 0 <= i < |elems| ensures CompareEqual(target, elems[i], env) == SameValue(target, elems[i], env) {
        CompareEqualIs(target, elems[i], env);
      }
      assert forall i | 0 <= i < |elems| :: elems[i] in elems;
    case Atom(Str(s)) => OccursIs(env.lower(env.show(target)), env.lower(s));
    case _ =>
  }

  // ----- Truth, negation, junctions ---------------------------------------------------------------

  /** What fails as a whole rule: null, false, zero, three texts, and empty lists and objects. */
  lemma FailsIff(rule: Rule, v: Value, data: Data, env: Env)
    requires Eval(rule, data, env) == Ok(v)
    ensures Outcome(rule, data, env) == Ok(!(
              || v in {Atom(Null), Atom(Bool(false)), Atom(Num(0.0)), Atom(Str("")), Atom(Str("false")), Atom(Str("0"))}
              || (v.Arr? && v.elems == []) || (v.Obj? && v.fields == map[])))
  {
  }

  /** Both spellings of negation answer the contrary of what their target comes to, and pass its error on. */
  lemma NotMeans(rule: Rule, data: Data, env: Env)
    ensures Eval(Op("!", List([rule])), data, env)
         == if Outcome(rule, data, env).Ok? then Ok(Atom(Bool(!Outcome(rule, data, env).value))) else Err(Outcome(rule, data, env).error)
    ensures Eval(Op("not", List([rule])), data, env) == Eval(Op("!", List([rule])), data, env)
    ensures !rule.List? ==> Eval(Op("!", rule), data, env) == Eval(Op("!", List([rule])), data, env)
  {
    assert OperatorOf("!") == OperatorOf("not") == Not;
    hide OperatorOf;
    assert List([rule]).items[0] == rule;
  }

  /** Two items of a junction: the second is looked at only if the first does not decide. */
  lemma JunctionsMean(p: Rule, q: Rule, data: Data, env: Env)
    ensures Outcome(Op("and", List([p, q])), data, env)
         == if Outcome(p, data, env) == Ok(true) then Outcome(q, data, env) else Outcome(p, data, env)
    ensures Outcome(Op("or", List([p, q])), data, env)
         == if Outcome(p, data, env) == Ok(false) then Outcome(q, data, env) else Outcome(p, data, env)
    ensures Outcome(Op("and", List([])), data, env) == Ok(true) && Outcome(Op("or", List([])), data, env) == Ok(false)
  {
    assert OperatorOf("and") == And && OperatorOf("or") == Or;
    hide OperatorOf;
    assert [p, q][1..] == [q] && [q][1..] == [];
    JunctionOfTwo(p, q, true, data, env);
    JunctionOfTwo(p, q, false, data, env);
  }

  lemma JunctionOfTwo(p: Rule, q: Rule, conjunctive: bool, data: Data, env: Env)
    ensures Truthiness(Junction([p, q], conjunctive, data, env))
         == if Outcome(p, data, env) == Ok(conjunctive) then Outcome(q, data, env) else Outcome(p, data, env)
  {
    hide Eval;
    assert [p, q][1..] == [q] && [q][1..] == [];
    assert Junction([], conjunctive, data, env) == Ok(Truth(conjunctive));
  }

  // ----- Lists, variables and errors ----------------------------------------------------------------

  /** A list evaluates to its items' values, in order. */
  lemma ListMeans(items: seq<Rule>, values: seq<Value>, data: Data, env: Env)
    requires |values| == |items| && forall i | 0 <= i < |items| :: Eval(items[i], data, env) == Ok(values[i])
    ensures Eval(List(items), data, env) == Ok(Arr(values, values == []))
  {
    AllValues(items, values, data, env);
  }

  lemma {:induction false} AllValues(items: seq<Rule>, values: seq<Value>, data: Data, env: Env)
    requires |values| == |items| && forall i | 0 <= i < |items| :: Eval(items[i], data, env) == Ok(values[i])
    ensures EvalAll(items, data, env) == Ok(values)
  {
    hide Eval;
    if items != [] {
      AllValues(items[1..], values[1..], data, env);
      assert values == [values[0]] + values[1..];
    }
  }

  /** Or, if some item errs, to the error of the first that does. */
  lemma {:induction false} ListErrors(items: seq<Rule>, k: nat, data: Data, env: Env)
    requires k < |items| && Eval(items[k], data, env).Err? && forall j | 0 <= j < k :: Eval(items[j], data, env).Ok?
    ensures EvalAll(items, data, env) == Err(Eval(items[k], data, env).error)
    ensures Eval(List(items), data, env) == Err(Eval(items[k], data, env).error)
  {
    if k > 0 {
      assert Eval(items[0], data, env).Ok?;
      ListErrors(items[1..], k - 1, data, env);
    }
  }

  /** A variable named by one part is that field of the data, or null; an empty name is the whole data. */
  lemma VarMeans(name: string, data: Data, env: Env)
    requires '.' !in name
    ensures Eval(Op("var", Literal(Str(name))), data, env)
         == Ok(if name == "" then Obj(data) else if name in data then data[name] else Atom(Null))
    ensures Eval(Op("var", List([Literal(Str(name))])), data, env) == Eval(Op("var", Literal(Str(name))), data, env)
    ensures Eval(Op("var", Literal(Null)), data, env) == Ok(Obj(data))
  {
    assert OperatorOf("var") == Var;
    hide OperatorOf;
    SplitWhole(name, '.');
    assert [name][1..] == [];
    assert Walk(Obj(data), [name], env) == Walk(Child(Obj(data), name, env), [], env);
    assert PathOf(List([Literal(Str(name))])) == name;
  }

  /** A longer path goes on in that field: by name in an object, by index in a list, and to null in anything else. */
  lemma PathMeans(name: string, rest: string, data: Data, env: Env)
    requires '.' !in name && rest != ""
    ensures Resolved(data, name + "." + rest, env)
         == if name !in data then Atom(Null)
            else if data[name].Obj? then Resolved(data[name].fields, rest, env)
            else if data[name].Arr? then Walk(data[name], Split(rest, '.'), env)
            else Atom(Null)
  {
    var path := name + "." + rest;
    SplitPrefix(name, rest, '.');
    assert path == name + ['.'] + rest;
    assert Split(path, '.')[1..] == Split(rest, '.');
    var parts := Split(rest, '.');
    assert Resolved(data, path, env) == Walk(Child(Obj(data), name, env), parts, env);
    WalkFromNil(parts, env);
    WalkFromNil(parts[1..], env);
    if name in data && data[name].Obj? {
      assert data[name] == Obj(data[name].fields);
    }
  }

  /** In a list the next part is an index; a part that is none, or out of range, leads to null. */
  lemma IndexMeans(elems: seq<Value>, isNil: bool, parts: seq<string>, env: Env)
    requires parts != []
    ensures Walk(Arr(elems, isNil), parts, env)
         == if env.atoi(parts[0]).Some? && 0 <= env.atoi(parts[0]).value < |elems|
            then Walk(elems[env.atoi(parts[0]).value], parts[1..], env) else Atom(Null)
  {
    WalkFromNil(parts[1..], env);
  }

  /** Operands that are missing, the node without an operator, and unknown operators are errors, each its own. */
  lemma MalformedRules(op: string, args: Rule, data: Data, env: Env)
    requires !args.List? || |args.items| < 2
    ensures op in {"==", "==="} ==> Eval(Op(op, args), data, env) == Err(EqualNeedsTwo)
    ensures op in {"!=", "!=="} ==> Eval(Op(op, args), data, env) == Err(NotEqualNeedsTwo)
    ensures op in {"<", "<=", ">", ">="} ==> Eval(Op(op, args), data, env) == Err(NumericNeedsTwo)
    ensures op == "in" ==> Eval(Op(op, args), data, env) == Err(InNeedsTwo)
    ensures op == "and" && !args.List? ==> Eval(Op(op, args), data, env) == Err(AndNeedsList)
    ensures op == "or" && !args.List? ==> Eval(Op(op, args), data, env) == Err(OrNeedsList)
    ensures op !in {"var", "==", "===", "!=", "!==", "<", "<=", ">", ">=", "in", "and", "or", "!", "not"} ==>
              Eval(Op(op, args), data, env) == Err(UnsupportedOperator(op))
    ensures Eval(EmptyNode, data, env) == Err(UnsupportedNode)
  {
  }

  /** The left operand is evaluated first: its error is the rule's, and only then the right one's. */
  lemma OperandErrors(op: string, left: Rule, right: Rule, data: Data, env: Env)
    requires op in {"==", "===", "!=", "!==", "<", "<=", ">", ">=", "in"}
    ensures Eval(left, data, env).Err? ==> Eval(Op(op, List([left, right])), data, env) == Err(Eval(left, data, env).error)
    ensures Eval(left, data, env).Ok? && Eval(right, data, env).Err? ==>
              Eval(Op(op, List([left, right])), data, env) == Err(Eval(right, data, env).error)
  {
    assert IsBinary(OperatorOf(op));
    hide OperatorOf, Binary;
    assert List([left, right]).items[0] == left && List([left, right]).items[1] == right;
  }
}
