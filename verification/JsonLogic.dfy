/**
  The JSONLogic interpreter that decides compliance rules: a recursive evaluator with coercions,
  short-circuiting and errors. A rule is parsed JSON whose objects name one operator; data is parsed
  JSON too. Number parsing, printing and case folding are parameters.
*/
module JsonLogic {
  import opened Prelude
  import opened Strings

  /** A parsed float. JSON numbers are finite; strings may also read as infinities or not-a-number. */
  datatype Float = Finite(value: real) | Infinite(positive: bool) | NotANumber

  datatype Scalar = Null | Bool(b: bool) | Num(n: real) | Str(s: string)

  /** A list that was evaluated empty is a nil slice, which differs from an empty slice when compared deeply. */
  datatype Value = Atom(scalar: Scalar) | Arr(elems: seq<Value>, isNil: bool) | Obj(fields: map<string, Value>)

  datatype Rule = Literal(scalar: Scalar) | List(items: seq<Rule>) | Op(op: string, args: Rule) | EmptyNode

  datatype EvalError =
    | UnsupportedNode
    | UnsupportedOperator(op: string)
    | EqualNeedsTwo
    | NotEqualNeedsTwo
    | InNeedsTwo
    | NumericNeedsTwo
    | AndNeedsList
    | OrNeedsList

  datatype Env = Env(parseFloat: string -> Option<Float>, atoi: string -> Option<int>,
                     lower: string -> string, show: Value -> string)

  type Data = map<string, Value>

  const NIL := Atom(Null)

  function Truth(b: bool): Value {
    Atom(Bool(b))
  }

  // ----- Coercions ----------------------------------------------------------------------------

  function IsTruthy(v: Value): bool {
    match v
    case Atom(Null) => false
    case Atom(Bool(b)) => b
    case Atom(Num(n)) => n != 0.0
    case Atom(Str(s)) => s != "" && s != "false" && s != "0"
    case Arr(elems, _) => |elems| > 0
    case Obj(fields) => |fields| > 0
  }

  function ToFloat(v: Value, env: Env): Option<Float> {
    match v
    case Atom(Num(n)) => Some(Finite(n))
    case Atom(Str(s)) => env.parseFloat(s)
    case _ => None
  }

  predicate FloatEqual(a: Float, b: Float) {
    a == b && a != NotANumber
  }

  predicate FloatLess(a: Float, b: Float) {
    match (a, b)
    case (Finite(x), Finite(y)) => x < y
    case (Finite(_), Infinite(positive)) => positive
    case (Infinite(positive), Finite(_)) => !positive
    case (Infinite(p), Infinite(q)) => !p && q
    case _ => false
  }

  function CompareEqual(a: Value, b: Value, env: Env): bool {
    if a == NIL && b == NIL then true
    else if a == NIL || b == NIL then false
    else if ToFloat(a, env).Some? && ToFloat(b, env).Some? then
      FloatEqual(ToFloat(a, env).value, ToFloat(b, env).value)
    else if a.Arr? && b.Arr? && a.elems == [] && b.elems == [] then true
    else a == b
  }

  function CheckIn(target: Value, collection: Value, env: Env): bool {
    if collection == NIL || target == NIL then false
    else match collection
         case Atom(Str(s)) => Contains(env.lower(s), env.lower(env.show(target)))
         case Arr(elems, _) => exists item | item in elems :: CompareEqual(target, item, env)
         case _ => false
  }

  /** The collection search, item by item as it is written. */
  method FindIn(target: Value, collection: Value, env: Env) returns (found: bool)
    ensures found == CheckIn(target, collection, env)
  {
    if collection == NIL || target == NIL {
      return false;
    }
    match collection
    case Atom(Str(s)) =>
      return Contains(env.lower(s), env.lower(env.show(target)));
    case Arr(elems, _) =>
      for i := 0 to |elems|
        invariant forall j | 0 <= j < i :: !CompareEqual(target, elems[j], env)
      {
        if CompareEqual(target, elems[i], env) {
          return true;
        }
      }
      return false;
    case _ =>
      return false;
  }

  // ----- Variables ----------------------------------------------------------------------------

  /** One step of a dotted path: a field of an object, or an index into a list. */
  function Child(v: Value, part: string, env: Env): Value {
    match v
    case Obj(fields) => if part in fields then fields[part] else NIL
    case Arr(elems, _) =>
      var idx := env.atoi(part);
      if idx.Some? && 0 <= idx.value < |elems| then elems[idx.value] else NIL
    case _ => NIL
  }

  function Walk(v: Value, parts: seq<string>, env: Env): Value
    decreases parts
  {
    if parts == [] then v else Walk(Child(v, parts[0], env), parts[1..], env)
  }

  function Resolved(data: Data, path: string, env: Env): Value {
    if path == "" then Obj(data) else Walk(Obj(data), Split(path, '.'), env)
  }

  lemma {:induction false} WalkFromNil(parts: seq<string>, env: Env)
    ensures Walk(NIL, parts, env) == NIL
  {
    if parts != [] {
      WalkFromNil(parts[1..], env);
    }
  }

  lemma {:induction false} WalkAppend(v: Value, parts: seq<string>, more: seq<string>, env: Env)
    ensures Walk(v, parts + more, env) == Walk(Walk(v, parts, env), more, env)
    decreases parts
  {
    if parts == [] {
      assert parts + more == more;
    } else {
      assert (parts + more)[1..] == parts[1..] + more;
      WalkAppend(Child(v, parts[0], env), parts[1..], more, env);
    }
  }

  method ResolveVar(data: Data, path: string, env: Env) returns (v: Value)
    ensures v == Resolved(data, path, env)
  {
    if path == "" {
      return Obj(data);
    }
    var parts := Split(path, '.');
    var current := Obj(data);
    for i := 0 to |parts|
      invariant current == Walk(Obj(data), parts[..i], env)
    {
      assert parts == parts[..i] + parts[i..];
      WalkAppend(Obj(data), parts[..i], parts[i..], env);
      WalkFromNil(parts[i + 1..], env);
      if current == NIL {
        WalkFromNil(parts[i..], env);
        return NIL;
      }
      match current {
        case Obj(fields) =>
          current := if parts[i] in fields then fields[parts[i]] else NIL;
        case Arr(elems, _) =>
          var idx := env.atoi(parts[i]);
          if idx.Some? && 0 <= idx.value < |elems| {
            current := elems[idx.value];
          } else {
            return NIL;
          }
        case _ =>
          return NIL;
      }
      WalkAppend(Obj(data), parts[..i], [parts[i]], env);
      assert parts[..i + 1] == parts[..i] + [parts[i]];
    }
    assert parts[..|parts|] == parts;
    return current;
  }

  // ----- The evaluator ------------------------------------------------------------------------

  type Evaluated = Result<Value, EvalError>

  /** What an operator name means; some have two spellings. */
  datatype Operator = Var | Equal | NotEqual | Less | AtMost | Greater | AtLeast | In | And | Or | Not | Unsupported

  function OperatorOf(op: string): Operator {
    match op
    case "var" => Var
    case "==" | "===" => Equal
    case "!=" | "!==" => NotEqual
    case "<" => Less
    case "<=" => AtMost
    case ">" => Greater
    case ">=" => AtLeast
    case "in" => In
    case "and" => And
    case "or" => Or
    case "!" | "not" => Not
    case _ => Unsupported
  }

  predicate IsBinary(op: Operator) {
    op.Equal? || op.NotEqual? || op.Less? || op.AtMost? || op.Greater? || op.AtLeast? || op.In?
  }

  predicate HasTwo(args: Rule) {
    args.List? && |args.items| >= 2
  }

  /** The path a `var` node names: its string, or the first item of its list; anything else names the whole data. */
  function PathOf(args: Rule): string {
    match args
    case Literal(Str(s)) => s
    case List(items) => if |items| > 0 && items[0].Literal? && items[0].scalar.Str? then items[0].scalar.s else ""
    case _ => ""
  }

  /** What a negation negates. */
  function Target(args: Rule): (target: Rule)
    ensures target == args || target < args
  {
    if args.List? && |args.items| > 0 then args.items[0] else args
  }

  function TooFew(op: Operator): EvalError {
    match op
    case Equal => EqualNeedsTwo
    case NotEqual => NotEqualNeedsTwo
    case In => InNeedsTwo
    case _ => NumericNeedsTwo
  }

  /** Values that do not read as numbers are in no order. */
  function CompareNumeric(op: Operator, left: Value, right: Value, env: Env): bool {
    match (ToFloat(left, env), ToFloat(right, env))
    case (Some(a), Some(b)) =>
      (match op
       case Less => FloatLess(a, b)
       case AtMost => FloatLess(a, b) || FloatEqual(a, b)
       case Greater => FloatLess(b, a)
       case _ => FloatLess(b, a) || FloatEqual(a, b))
    case _ => false
  }

  function Binary(op: Operator, left: Value, right: Value, env: Env): bool {
    match op
    case Equal => CompareEqual(left, right, env)
    case NotEqual => !CompareEqual(left, right, env)
    case In => CheckIn(left, right, env)
    case _ => CompareNumeric(op, left, right, env)
  }

  /** The value of a rule. */
  function Eval(rule: Rule, data: Data, env: Env): Evaluated
    decreases rule, 0
  {
    match rule
    case Literal(scalar) => Ok(Atom(scalar))
    case List(items) =>
      var r := EvalAll(items, data, env);
      if r.Err? then Err(r.error) else Ok(Arr(r.value, r.value == []))
    case EmptyNode => Err(UnsupportedNode)
    case Op(op, args) =>
      var operator := OperatorOf(op);
      if operator.Var? then Ok(Resolved(data, PathOf(args), env))
      else if IsBinary(operator) then
        if !HasTwo(args) then Err(TooFew(operator))
        else
          var left := Eval(args.items[0], data, env);
          if left.Err? then left
          else
            var right := Eval(args.items[1], data, env);
            if right.Err? then right else Ok(Truth(Binary(operator, left.value, right.value, env)))
      else if operator.And? || operator.Or? then
        if !args.List? then Err(if operator.And? then AndNeedsList else OrNeedsList)
        else Junction(args.items, operator.And?, data, env)
      else if operator.Not? then
        var r := Eval(Target(args), data, env);
        if r.Err? then r else Ok(Truth(!IsTruthy(r.value)))
      else Err(UnsupportedOperator(op))
  }

  function EvalAll(items: seq<Rule>, data: Data, env: Env): Result<seq<Value>, EvalError>
    decreases items, 1
  {
    if items == [] then Ok([])
    else
      var first := Eval(items[0], data, env);
      if first.Err? then Err(first.error)
      else
        var rest := EvalAll(items[1..], data, env);
        if rest.Err? then rest else Ok([first.value] + rest.value)
  }

  /** `and` stops at the first falsy item, `or` at the first truthy one; later items are not evaluated. */
  function Junction(items: seq<Rule>, conjunctive: bool, data: Data, env: Env): Evaluated
    decreases items, 1
  {
    if items == [] then Ok(Truth(conjunctive))
    else
      var first := Eval(items[0], data, env);
      if first.Err? then first
      else if IsTruthy(first.value) != conjunctive then Ok(Truth(!conjunctive))
      else Junction(items[1..], conjunctive, data, env)
  }

  /** A rule passes, fails, or cannot be evaluated. */
  function Outcome(rule: Rule, data: Data, env: Env): Result<bool, EvalError> {
    Truthiness(Eval(rule, data, env))
  }

  function Truthiness(r: Evaluated): Result<bool, EvalError> {
    if r.Err? then Err(r.error) else Ok(IsTruthy(r.value))
  }

  // ----- The evaluator as it runs ---------------------------------------------------------------

  method EvalNode(rule: Rule, data: Data, env: Env) returns (r: Evaluated)
    ensures r == Eval(rule, data, env)
    decreases rule, 2
  {
    match rule
    case Literal(scalar) =>
      return Ok(Atom(scalar));
    case List(items) =>
      var evaluated: seq<Value> := [];
      assert items[0..] == items;
      for i := 0 to |items|
        invariant EvalAll(items, data, env) == Prepended(evaluated, EvalAll(items[i..], data, env))
      {
        var ev := EvalNode(items[i], data, env);
        if ev.Err? {
          return ev;
        }
        PrependedTwice(evaluated, ev.value, EvalAll(items[i + 1..], data, env));
        evaluated := evaluated + [ev.value];
      }
      return Ok(Arr(evaluated, evaluated == []));
    case Op(op, args) =>
      r := ApplyOperator(op, args, data, env);
    case EmptyNode =>
      return Err(UnsupportedNode);
  }

  /** What is left of a list's evaluation, put behind the values already there. */
  ghost function Prepended(values: seq<Value>, rest: Result<seq<Value>, EvalError>): (r: Result<seq<Value>, EvalError>)
    ensures values == [] ==> r == rest
    ensures rest == Ok([]) ==> r == Ok(values)
  {
    assert values + [] == values;
    if rest.Err? then rest else assert values == [] ==> values + rest.value == rest.value; Ok(values + rest.value)
  }

  lemma PrependedTwice(values: seq<Value>, v: Value, rest: Result<seq<Value>, EvalError>)
    ensures Prepended(values, Prepended([v], rest)) == Prepended(values + [v], rest)
  {
    if rest.Ok? {
      assert values + ([v] + rest.value) == values + [v] + rest.value;
    }
  }

  method ApplyOperator(op: string, args: Rule, data: Data, env: Env) returns (r: Evaluated)
    ensures r == Eval(Op(op, args), data, env)
    decreases args, 3
  {
    hide OperatorOf;
    var operator := OperatorOf(op);
    if operator.Var? {
      var v := ResolveVar(data, PathOf(args), env);
      return Ok(v);
    }
    if IsBinary(operator) {
      if !HasTwo(args) {
        return Err(TooFew(operator));
      }
      var left := EvalNode(args.items[0], data, env);
      if left.Err? {
        return left;
      }
      var right := EvalNode(args.items[1], data, env);
      if right.Err? {
        return right;
      }
      if operator.In? {
        var found := FindIn(left.value, right.value, env);
        return Ok(Truth(found));
      }
      return Ok(Truth(Binary(operator, left.value, right.value, env)));
    }
    if operator.And? || operator.Or? {
      if !args.List? {
        return Err(if operator.And? then AndNeedsList else OrNeedsList);
      }
      var list := args.items;
      assert list[0..] == list;
      for i := 0 to |list|
        invariant Junction(list, operator.And?, data, env) == Junction(list[i..], operator.And?, data, env)
      {
        var res := EvalNode(list[i], data, env);
        if res.Err? {
          return res;
        }
        if IsTruthy(res.value) != operator.And? {
          return Ok(Truth(!operator.And?));
        }
      }
      return Ok(Truth(operator.And?));
    }
    if operator.Not? {
      var res := EvalNode(Target(args), data, env);
      if res.Err? {
        return res;
      }
      return Ok(Truth(!IsTruthy(res.value)));
    }
    return Err(UnsupportedOperator(op));
  }
}
