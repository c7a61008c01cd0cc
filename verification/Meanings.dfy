// What an expression means, in the arithmetic of the reals, the order of texts and the logic of two
// values, and where evaluation departs from it by faulting or by leaving a side unread.
module Meanings {
  import opened Expressions

  // ----- Text order -----

  // At the first character where they part the one is lower, or it ends there.
  ghost predicate Before(a: string, b: string) {
    exists k: nat :: PartsAt(a, b, k)
  }

  ghost predicate PartsAt(a: string, b: string, k: nat) {
    k <= |a| && k < |b| && (forall i :: 0 <= i < k ==> a[i] == b[i]) && (k == |a| || a[k] < b[k])
  }

  lemma {:induction false} StrLessIsBefore(a: string, b: string)
    ensures StrLess(a, b) <==> Before(a, b)
    decreases |a|
  {
    if b != "" && (a == "" || a[0] < b[0]) {
      assert PartsAt(a, b, 0);
    } else if a != "" && b != "" && a[0] == b[0] {
      StrLessIsBefore(a[1..], b[1..]);
      if StrLess(a, b) {
        var k: nat :| PartsAt(a[1..], b[1..], k);
        forall i | 0 < i < k + 1 ensures a[i] == b[i] { assert a[1..][i - 1] == b[1..][i - 1]; }
        assert PartsAt(a, b, k + 1);
      }
      if k: nat :| PartsAt(a, b, k) {
        assert PartsAt(a[1..], b[1..], k - 1);
      }
    }
  }

  // ----- Values -----

  predicate IsNumber(v: Value) {
    match v case Int(_) => true case Float(_) => true case _ => false
  }

  function Number(v: Value): real
    requires IsNumber(v)
  {
    match v case Int(i) => i as real case Float(f) => f
  }

  ghost predicate Ranked(a: Value, b: Value) {
    (IsNumber(a) && IsNumber(b)) || (a.Str? && b.Str?)
  }

  ghost predicate Below(a: Value, b: Value)
    requires Ranked(a, b)
  {
    if a.Str? then Before(a.s, b.s) else Number(a) < Number(b)
  }

  // A whole number and a decimal of one size are the same; beyond that values of two kinds never are.
  predicate Same(a: Value, b: Value) {
    if IsNumber(a) && IsNumber(b) then Number(a) == Number(b) else a == b
  }

  // The six operators, and no others, on any two values.
  lemma OperatorsCompare(a: Value, b: Value)
    ensures Apply(Eq, a, b) == Ok(Same(a, b)) && Apply(Ne, a, b) == Ok(!Same(a, b))
    ensures Ranked(a, b) ==> Apply(Lt, a, b) == Ok(Below(a, b)) && Apply(Gt, a, b) == Ok(Below(b, a))
    ensures Ranked(a, b) ==> Apply(Le, a, b) == Ok(!Below(b, a)) && Apply(Ge, a, b) == Ok(!Below(a, b))
    ensures !Ranked(a, b) ==>
              Apply(Lt, a, b).Fault? && Apply(Gt, a, b).Fault? && Apply(Le, a, b).Fault? && Apply(Ge, a, b).Fault?
  {
    if Ranked(a, b) {
      OperatorsAreOneOrder(a, b);
      OperatorsAreOneOrder(b, a);
      if a.Str? {
        StrLessIsBefore(a.s, b.s);
        StrLessIsBefore(b.s, a.s);
      }
    }
  }

  lemma Products(a: Value, b: Value, op: ArithOp)
    requires IsNumber(a) && IsNumber(b) && (a.Float? || b.Float?) && op.Mul?
    ensures var c := Combine(op, a, b); c.Ok? && c.value.Float? && c.value.f == AsReal(a) * AsReal(b)
  {
    var c := Combine(op, a, b);
    assert c.Ok? && c.value.Float?;
    var x, y := AsReal(a), AsReal(b);
    assert c.value.f == x * y;
  }

  // With a decimal on either side a sum and a difference, and a product and a quotient, undo each other.
  lemma DecimalsCompute(a: Value, b: Value)
    requires IsNumber(a) && IsNumber(b) && (a.Float? || b.Float?)
    ensures AsReal(a) == Number(a) && AsReal(b) == Number(b)
    ensures Combine(Add, a, b) == Ok(Float(Number(a) + Number(b)))
    ensures exists d :: Combine(Sub, a, b) == Ok(Float(d)) && d + Number(b) == Number(a)
    ensures var p := Combine(Mul, a, b); p.Ok? && p.value.Float? && p.value.f == AsReal(a) * AsReal(b)
    ensures Number(b) == 0.0 ==> Combine(Div, a, b).Fault? && Remainder(a, b).Fault?
    ensures Number(b) != 0.0 ==> exists q :: Combine(Div, a, b) == Ok(Float(q)) && q * Number(b) == Number(a)
  {
    assert AsReal(a) == Number(a) && AsReal(b) == Number(b);
    Products(a, b, Mul);
    assert Combine(Sub, a, b) == Ok(Float(Number(a) - Number(b)));
    if Number(b) != 0.0 {
      var q := Number(a) / Number(b);
      assert q * Number(b) == Number(a);
      assert Combine(Div, a, b) == Ok(Float(q));
    }
  }

  // A modulo leaves what the whole quotients leave: it takes the divisor's sign and is smaller.
  lemma ModuloLeaves(a: int, b: int)
    requires b != 0
    ensures exists r :: Remainder(Int(a), Int(b)) == Ok(Int(r)) && Leaves(a, b, r)
    ensures forall r, s :: Leaves(a, b, r) && Leaves(a, b, s) ==> r == s
  {
    var q := FloorDiv(a, b);
    var r := a - b * q;
    FloorDivBounds(a, b);
    assert a == b * q + r;
    assert Leaves(a, b, r);
    assert Remainder(Int(a), Int(b)) == Ok(Int(r));
    forall r, s | Leaves(a, b, r) && Leaves(a, b, s) ensures r == s {
      var m :| a == b * m + r;
      var n :| a == b * n + s;
      assert b * m - b * n == b * (m - n);
      SmallMultiple(b, m - n, s - r);
    }
  }

  ghost predicate Leaves(a: int, b: int, r: int) {
    (exists q :: a == b * q + r) && (0 <= r < b || b < r <= 0)
  }

  lemma SmallMultiple(b: int, k: int, d: int)
    requires d == b * k && b != 0 && (-b < d < b || b < d < -b)
    ensures k == 0
  {
    if k >= 1 {
      MulStep(k, 0, if b > 0 then b else -b);
    } else if k <= -1 {
      MulStep(-k, 0, if b > 0 then b else -b);
    }
  }

  lemma FloorDivBounds(a: int, b: int)
    requires b != 0
    ensures var r := a - b * FloorDiv(a, b); 0 <= r < b || b < r <= 0
  {
    if b > 0 {
      assert a == b * (a / b) + a % b;
    } else {
      assert -a == -b * ((-a) / (-b)) + (-a) % (-b);
    }
  }

  lemma NoNumbersFault(op: ArithOp, a: Value, b: Value)
    requires !IsNumber(a) || !IsNumber(b)
    ensures Combine(op, a, b).Fault? && Remainder(a, b).Fault?
  {
  }

  // ----- Leaves -----

  // A name answers the argument it was given, else the field; one neither holds cannot be resolved.
  lemma NamesAnswer(name: string, state: Env, args: Env, v: Value)
    ensures Interpret(Lookup(name), state, args[name := v]) == Ok(v)
    ensures Interpret(Lookup(name), state[name := v], args - {name}) == Ok(v)
    ensures Interpret(Lookup(name), state - {name}, args - {name}).Fault?
  {
  }

  // A sign test answers for numbers alone, and `set?` for anything.
  lemma TestsAnswer(e: Leaf, state: Env, args: Env, v: Value)
    requires Interpret(e, state, args) == Ok(v)
    ensures !IsNumber(v) ==> forall test :: Interpret(SignTest(test, e), state, args).Fault?
    ensures IsNumber(v) ==>
              && Interpret(SignTest(Positive, e), state, args) == Ok(Bool(Number(v) > 0.0))
              && Interpret(SignTest(Negative, e), state, args) == Ok(Bool(Number(v) < 0.0))
              && Interpret(SignTest(Zero, e), state, args) == Ok(Bool(Number(v) == 0.0))
    ensures Interpret(Assigned(e, false), state, args) == Ok(Bool(v != Nil))
    ensures Interpret(Assigned(e, true), state, args) == Ok(Bool(v == Nil))
  {
  }

  // ----- Predicates -----

  // Every part answers, whether or not evaluation would come to read it.
  ghost predicate Answers(p: Pred, state: Env, args: Env) {
    match p
    case Or(l, r) => Answers(l, state, args) && Answers(r, state, args)
    case And(l, r) => Answers(l, state, args) && Answers(r, state, args)
    case Not(q) => Answers(q, state, args)
    case Compare(cmp, left, right) =>
      var a, b := Interpret(left, state, args), Interpret(right, state, args);
      a.Ok? && b.Ok? && (cmp == Eq || cmp == Ne || Ranked(a.value, b.value))
    case Test(e) => Interpret(e, state, args).Ok?
  }

  // The predicate in the logic of two values; anything but false and nil is true.
  ghost predicate Means(p: Pred, state: Env, args: Env)
    requires Answers(p, state, args)
  {
    match p
    case Or(l, r) => Means(l, state, args) || Means(r, state, args)
    case And(l, r) => Means(l, state, args) && Means(r, state, args)
    case Not(q) => !Means(q, state, args)
    case Compare(cmp, left, right) =>
      var a, b := Interpret(left, state, args).value, Interpret(right, state, args).value;
      (match cmp
       case Eq => Same(a, b)
       case Ne => !Same(a, b)
       case Lt => Below(a, b)
       case Gt => Below(b, a)
       case Le => !Below(b, a)
       case Ge => !Below(a, b))
    case Test(e) =>
      var v := Interpret(e, state, args).value;
      v != Nil && v != Bool(false)
  }

  // Where every part answers, evaluation answers what the predicate means.
  lemma {:induction false} HoldsIsMeant(p: Pred, state: Env, args: Env)
    requires Answers(p, state, args)
    ensures Holds(p, state, args) == Ok(Means(p, state, args))
  {
    match p
    case Or(l, r) =>
      HoldsIsMeant(l, state, args);
      HoldsIsMeant(r, state, args);
    case And(l, r) =>
      HoldsIsMeant(l, state, args);
      HoldsIsMeant(r, state, args);
    case Not(q) => HoldsIsMeant(q, state, args);
    case Compare(cmp, left, right) =>
      hide Apply, Below, Same;
      OperatorsCompare(Interpret(left, state, args).value, Interpret(right, state, args).value);
    case Test(_) =>
  }

  // Every part that evaluation comes to read answers; one it leaves unread need not.
  ghost predicate ReadPartsAnswer(p: Pred, state: Env, args: Env) {
    match p
    case Or(l, r) => ReadPartsAnswer(l, state, args)
        && (Holds(l, state, args) == Ok(false) ==> ReadPartsAnswer(r, state, args))
    case And(l, r) => ReadPartsAnswer(l, state, args)
        && (Holds(l, state, args) == Ok(true) ==> ReadPartsAnswer(r, state, args))
    case Not(q) => ReadPartsAnswer(q, state, args)
    case _ => Answers(p, state, args)
  }

  // A predicate faults exactly when a part that is read does not answer: the right side of `||` is read
  // when the left is false, and of `&&` when it is true.
  lemma {:induction false} FaultsAreRead(p: Pred, state: Env, args: Env)
    ensures Holds(p, state, args).Ok? <==> ReadPartsAnswer(p, state, args)
  {
    match p
    case Or(l, r) =>
      FaultsAreRead(l, state, args);
      FaultsAreRead(r, state, args);
    case And(l, r) =>
      FaultsAreRead(l, state, args);
      FaultsAreRead(r, state, args);
    case Not(q) => FaultsAreRead(q, state, args);
    case Compare(_, left, right) =>
      var a, b := Interpret(left, state, args), Interpret(right, state, args);
      if a.Ok? && b.Ok? {
        hide Apply, Below, Same;
        OperatorsCompare(a.value, b.value);
      }
    case Test(_) =>
  }

  // And a side decided by the left is what the left decided.
  lemma LeftDecides(l: Pred, r: Pred, state: Env, args: Env)
    ensures Holds(l, state, args) == Ok(true) ==> Holds(Or(l, r), state, args) == Ok(true)
    ensures Holds(l, state, args) == Ok(false) ==> Holds(And(l, r), state, args) == Ok(false)
    ensures Holds(l, state, args) == Ok(false) ==> Holds(Or(l, r), state, args) == Holds(r, state, args)
    ensures Holds(l, state, args) == Ok(true) ==> Holds(And(l, r), state, args) == Holds(r, state, args)
    ensures Holds(Not(And(l, r)), state, args) == Holds(Or(Not(l), Not(r)), state, args)
    ensures Holds(Not(Or(l, r)), state, args) == Holds(And(Not(l), Not(r)), state, args)
  {
  }
}
