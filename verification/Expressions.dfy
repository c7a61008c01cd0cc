// The bluebook expression language as dispatch evaluates it: leaf expressions with checked
// 64-bit integers and floor division, and the predicates a `given` or `invariant` is made of.
module Expressions {

  // A plain scalar an expression reads or answers. `Nil` is an unset field.
  datatype Value = Nil | Bool(b: bool) | Int(i: int) | Float(f: real) | Str(s: string)

  // Fields or arguments by name.
  type Env = map<string, Value>

  // An evaluation either answers or faults; a fault is a crash of the dispatch, not a refusal.
  datatype Eval<+T> = Ok(value: T) | Fault {
    predicate IsFailure() { Fault? }
    function PropagateFailure<U>(): Eval<U>
      requires Fault?
    {
      Fault
    }
    function Extract(): T
      requires Ok?
    {
      value
    }
  }

  datatype ArithOp = Add | Sub | Mul | Div

  datatype Sign = Positive | Negative | Zero

  datatype Leaf =
    | IntLit(i: int)
    | FloatLit(f: real)
    | StrLit(s: string)
    | BoolLit(b: bool)
    | NilLit
    | Lookup(name: string)
    | Arith(op: ArithOp, left: Leaf, right: Leaf)
    | Modulo(receiver: Leaf, divisor: Leaf)
    | SignTest(test: Sign, receiver: Leaf)
    | Assigned(receiver: Leaf, negated: bool)

  datatype Cmp = Lt | Le | Gt | Ge | Eq | Ne {
    predicate Ordering() { !Eq? && !Ne? }
    // The three flags of the operator table: which primitives an operator asks, and whether
    // its answer is turned over.
    predicate ComparesLessThan() { Ordering() }
    predicate ComparesEqual() { !Lt? && !Ge? }
    predicate Negated() { Ge? || Gt? || Ne? }
  }

  datatype Pred =
    | Or(l: Pred, r: Pred)
    | And(l: Pred, r: Pred)
    | Not(p: Pred)
    | Compare(cmp: Cmp, left: Leaf, right: Leaf)
    | Test(e: Leaf)

  const INT64_MIN: int := -0x8000_0000_0000_0000
  const INT64_MAX: int := 0x7FFF_FFFF_FFFF_FFFF

  predicate Fits64(n: int) { INT64_MIN <= n <= INT64_MAX }

  predicate Numeric(v: Value) { v.Int? || v.Float? }

  function AsReal(v: Value): real
    requires Numeric(v)
  {
    if v.Int? then v.i as real else v.f
  }

  // The quotient rounded toward negative infinity; Dafny's own `/` rounds by Euclid.
  function FloorDiv(a: int, b: int): int
    requires b != 0
  {
    if b > 0 then a / b else (-a) / (-b)
  }

  // An Integer outside 64 bits faults; Float arithmetic is modelled over the reals.
  function Checked(n: int): Eval<Value> {
    if Fits64(n) then Ok(Int(n)) else Fault
  }

  function Combine(op: ArithOp, l: Value, r: Value): Eval<Value> {
    if !Numeric(l) || !Numeric(r) then Fault
    else if op.Div? && AsReal(r) == 0.0 then Fault
    else if l.Int? && r.Int? then
      Checked(match op
              case Add => l.i + r.i
              case Sub => l.i - r.i
              case Mul => l.i * r.i
              case Div => FloorDiv(l.i, r.i))
    else
      Ok(Float(match op
               case Add => AsReal(l) + AsReal(r)
               case Sub => AsReal(l) - AsReal(r)
               case Mul => AsReal(l) * AsReal(r)
               case Div => AsReal(l) / AsReal(r)))
  }

  function Remainder(l: Value, r: Value): Eval<Value> {
    if !Numeric(l) || !Numeric(r) || AsReal(r) == 0.0 then Fault
    else if l.Int? && r.Int? then Ok(Int(l.i - r.i * FloorDiv(l.i, r.i)))
    else Ok(Float(AsReal(l) - AsReal(r) * ((AsReal(l) / AsReal(r)).Floor as real)))
  }

  // Arguments are read before a field of the same name; a name neither holds cannot be resolved.
  function Interpret(e: Leaf, state: Env, args: Env): Eval<Value> {
    match e
    case IntLit(i) => Ok(Int(i))
    case FloatLit(f) => Ok(Float(f))
    case StrLit(s) => Ok(Str(s))
    case BoolLit(b) => Ok(Bool(b))
    case NilLit => Ok(Nil)
    case Lookup(name) =>
      if name in args then Ok(args[name]) else if name in state then Ok(state[name]) else Fault
    case Arith(op, left, right) =>
      var l :- Interpret(left, state, args);
      var r :- Interpret(right, state, args);
      Combine(op, l, r)
    case Modulo(receiver, divisor) =>
      var l :- Interpret(receiver, state, args);
      var r :- Interpret(divisor, state, args);
      Remainder(l, r)
    case SignTest(test, receiver) =>
      var v :- Interpret(receiver, state, args);
      if !Numeric(v) then Fault
      else Ok(Bool(match test
                   case Positive => AsReal(v) > 0.0
                   case Negative => AsReal(v) < 0.0
                   case Zero => AsReal(v) == 0.0))
    case Assigned(receiver, negated) =>
      var v :- Interpret(receiver, state, args);
      Ok(Bool(v.Nil? == negated))
  }

  // Strings compare by their bytes.
  predicate StrLess(a: string, b: string) {
    if b == "" then false
    else if a == "" then true
    else a[0] < b[0] || (a[0] == b[0] && StrLess(a[1..], b[1..]))
  }

  function LessThan(l: Value, r: Value): Eval<bool> {
    if Numeric(l) && Numeric(r) then Ok(AsReal(l) < AsReal(r))
    else if l.Str? && r.Str? then Ok(StrLess(l.s, r.s))
    else Fault
  }

  predicate SameValue(l: Value, r: Value) {
    if Numeric(l) && Numeric(r) then AsReal(l) == AsReal(r) else l == r
  }

  // The two primitives, asked as the operator's flags say.
  function Apply(cmp: Cmp, l: Value, r: Value): Eval<bool> {
    var less :- if cmp.ComparesLessThan() then LessThan(l, r) else Ok(false);
    var result := less || (cmp.ComparesEqual() && SameValue(l, r));
    Ok(result != cmp.Negated())
  }

  predicate Truthy(v: Value) { !v.Nil? && v != Bool(false) }

  // `||` and `&&` leave their right side unread when the left side decides.
  function Holds(p: Pred, state: Env, args: Env): Eval<bool> {
    match p
    case Or(l, r) =>
      var a :- Holds(l, state, args);
      if a then Ok(true) else Holds(r, state, args)
    case And(l, r) =>
      var a :- Holds(l, state, args);
      if !a then Ok(false) else Holds(r, state, args)
    case Not(q) =>
      var a :- Holds(q, state, args);
      Ok(!a)
    case Compare(cmp, left, right) =>
      var l :- Interpret(left, state, args);
      var r :- Interpret(right, state, args);
      Apply(cmp, l, r)
    case Test(e) =>
      var v :- Interpret(e, state, args);
      Ok(Truthy(v))
  }

  // ----- What integer arithmetic means, without the machine -----

  // An expression of whole numbers: literals, names that hold one, and the four operators.
  predicate IntegerExpr(e: Leaf, state: Env, args: Env) {
    match e
    case IntLit(_) => true
    case Lookup(name) =>
      if name in args then args[name].Int? else name in state && state[name].Int?
    case Arith(_, left, right) => IntegerExpr(left, state, args) && IntegerExpr(right, state, args)
    case _ => false
  }

  // The mathematical value, on unbounded integers with the real quotient rounded down. It is
  // arbitrary where a divisor is zero; `Defined` says where that is.
  ghost function Exact(e: Leaf, state: Env, args: Env): int
    requires IntegerExpr(e, state, args)
  {
    match e
    case IntLit(i) => i
    case Lookup(name) => if name in args then args[name].i else state[name].i
    case Arith(op, left, right) =>
      var l, r := Exact(left, state, args), Exact(right, state, args);
      match op
      case Add => l + r
      case Sub => l - r
      case Mul => l * r
      case Div => if r == 0 then 0 else (l as real / r as real).Floor
  }

  // No divisor is zero and every intermediate result fits a signed 64-bit integer.
  ghost predicate Defined(e: Leaf, state: Env, args: Env)
    requires IntegerExpr(e, state, args)
  {
    match e
    case Arith(op, left, right) =>
      && Defined(left, state, args)
      && Defined(right, state, args)
      && (op.Div? ==> Exact(right, state, args) != 0)
      && Fits64(Exact(e, state, args))
    case _ => true
  }

  lemma MulStep(q: int, p: int, b: int)
    requires b > 0
    ensures q > p ==> q * b >= p * b + b
  {
    var d := q - p - 1;
    assert q * b == p * b + b + d * b;
    assert d >= 0 ==> d * b >= 0;
  }

  lemma FloorDivPositive(a: int, b: int)
    requires b > 0
    ensures a / b == (a as real / b as real).Floor
  {
    var q := a / b;
    var x := a as real / b as real;
    assert x * (b as real) == a as real;
    var f := x.Floor;
    assert f as real <= x < (f + 1) as real;
    assert (f as real) * (b as real) <= a as real;
    assert a as real < ((f + 1) as real) * (b as real);
    assert (f * b) as real <= a as real;
    assert a as real < ((f + 1) * b) as real;
    assert q * b <= a < q * b + b;
    assert (f + 1) * b == f * b + b;
    MulStep(q, f, b);
    MulStep(f, q, b);
  }

  lemma FloorDivIsFloor(a: int, b: int)
    requires b != 0
    ensures FloorDiv(a, b) == (a as real / b as real).Floor
  {
    if b > 0 {
      FloorDivPositive(a, b);
    } else {
      FloorDivPositive(-a, -b);
      assert a as real / b as real == (-a) as real / (-b) as real by {
        var x := a as real / b as real;
        assert x * (b as real) == a as real;
        assert (-b) as real == -(b as real);
        assert x * ((-b) as real) == (-a) as real;
      }
    }
  }

  lemma WholeNumbersCombine(op: ArithOp, a: int, b: int)
    ensures Combine(op, Int(a), Int(b)) ==
            if op.Div? && b == 0 then Fault
            else
              var n := match op
                       case Add => a + b
                       case Sub => a - b
                       case Mul => a * b
                       case Div => (a as real / b as real).Floor;
              if Fits64(n) then Ok(Int(n)) else Fault
  {
    if b != 0 {
      FloorDivIsFloor(a, b);
    }
  }

  // Integer arithmetic answers its mathematical value exactly when no divisor is zero and every
  // intermediate fits, and faults otherwise.
  lemma {:induction false} IntegerArithmeticIsExact(e: Leaf, state: Env, args: Env)
    requires IntegerExpr(e, state, args)
    ensures Interpret(e, state, args) ==
            if Defined(e, state, args) then Ok(Int(Exact(e, state, args))) else Fault
  {
    match e
    case Arith(op, left, right) =>
      hide Combine, Fits64;
      IntegerArithmeticIsExact(left, state, args);
      IntegerArithmeticIsExact(right, state, args);
      WholeNumbersCombine(op, Exact(left, state, args), Exact(right, state, args));
    case _ =>
  }

  // ----- What the operator table means -----

  lemma {:induction false} StrLessTotal(a: string, b: string)
    ensures StrLess(a, b) <==> (a != b && !StrLess(b, a))
    decreases |a|
  {
    if a != "" && b != "" {
      StrLessTotal(a[1..], b[1..]);
      assert a == [a[0]] + a[1..] && b == [b[0]] + b[1..];
    }
  }

  // Over two numbers or two strings the six operators are one total order and its equality.
  lemma OperatorsAreOneOrder(l: Value, r: Value)
    requires (Numeric(l) && Numeric(r)) || (l.Str? && r.Str?)
    ensures Apply(Lt, l, r) == Apply(Gt, r, l)
    ensures Apply(Le, l, r) == Apply(Ge, r, l)
    ensures Apply(Lt, l, r).Ok? && Apply(Le, l, r).Ok? && Apply(Eq, l, r).Ok?
    ensures Apply(Le, l, r).value == !Apply(Gt, l, r).value
    ensures Apply(Le, l, r).value == (Apply(Lt, l, r).value || Apply(Eq, l, r).value)
    ensures !(Apply(Lt, l, r).value && Apply(Eq, l, r).value)
    ensures Apply(Ne, l, r).value == !Apply(Eq, l, r).value
  {
    if l.Str? {
      StrLessTotal(l.s, r.s);
      StrLessTotal(r.s, l.s);
    }
  }
}
