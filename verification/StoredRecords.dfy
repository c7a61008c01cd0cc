// What an additive change means for the records stored before it: each of them is a record of the new
// declaration as it stands.
module StoredRecords {
  import opened Wrappers
  import opened AdditiveShape

  // ----- Values and the forms they hold -----

  datatype Scalar = Text(text: string) | Number(number: real) | Flag(flag: bool)

  // A value as a row stores it: nothing of a value object's type is in it but its members' names.
  datatype Value = Plain(scalar: Scalar) | Object(fields: map<string, Value>) | List(items: seq<Value>)

  // Which scalars a primitive type admits.
  type Admits = (string, Scalar) -> bool

  ghost predicate AdmitsSome(admits: Admits, name: string) { exists s :: admits(name, s) }

  // Every primitive admits some scalar.
  ghost predicate Inhabited(admits: Admits) {
    forall name :: AdmitsSome(admits, name)
  }

  function MemberNames(members: seq<Form>): set<string> {
    set m | m in members :: m.name
  }

  ghost predicate HoldsOne(admits: Admits, v: Value, s: Signature)
    decreases s
  {
    match s
    case Primitive(name) => v.Plain? && admits(name, v.scalar)
    case Container(_, members) =>
      v.Object? && v.fields.Keys == MemberNames(members)
      && forall m :: m in members ==> m.name in v.fields && Holds(admits, v.fields[m.name], m)
  }

  ghost predicate Holds(admits: Admits, v: Value, f: Form)
    decreases f
  {
    if f.list then v.List? && forall x :: x in v.items ==> HoldsOne(admits, x, f.signature)
    else HoldsOne(admits, v, f.signature)
  }

  // A type names each of its members once.
  predicate OneOfEach(members: seq<Form>) {
    forall i, j :: 0 <= i < j < |members| ==> members[i].name != members[j].name
  }

  predicate WellFormed(s: Signature)
    decreases s
  {
    s.Container? ==> OneOfEach(s.members) && forall m :: m in s.members ==> WellFormed(m.signature)
  }

  // ----- When one form takes every value of another -----

  // Type names apart, the same members, each taking every value of the other's.
  ghost predicate TakesOne(admits: Admits, h: Signature, c: Signature)
    decreases h
  {
    match h
    case Primitive(name) => c.Primitive? && forall s :: admits(name, s) ==> admits(c.name, s)
    case Container(_, members) =>
      c.Container? && MemberNames(members) == MemberNames(c.members)
      && forall m, n :: m in members && n in c.members && m.name == n.name ==> Takes(admits, m, n)
  }

  ghost predicate Takes(admits: Admits, h: Form, c: Form)
    decreases h
  {
    h.list == c.list && TakesOne(admits, h.signature, c.signature)
  }

  lemma {:induction false} TakesValues(admits: Admits, v: Value, h: Signature, c: Signature)
    requires TakesOne(admits, h, c) && HoldsOne(admits, v, h)
    ensures HoldsOne(admits, v, c)
    decreases h
  {
    if h.Container? {
      forall n | n in c.members ensures n.name in v.fields && Holds(admits, v.fields[n.name], n) {
        assert n.name in MemberNames(c.members);
        var m :| m in h.members && m.name == n.name;
        var x := v.fields[m.name];
        assert Holds(admits, x, m) && Takes(admits, m, n);
        if m.list {
          forall y | y in x.items ensures HoldsOne(admits, y, n.signature) {
            TakesValues(admits, y, m.signature, n.signature);
          }
        } else {
          TakesValues(admits, x, m.signature, n.signature);
        }
      }
    }
  }

  lemma TakesValue(admits: Admits, v: Value, h: Form, c: Form)
    requires Takes(admits, h, c) && Holds(admits, v, h)
    ensures Holds(admits, v, c)
  {
    if h.list {
      forall x | x in v.items ensures HoldsOne(admits, x, c.signature) {
        TakesValues(admits, x, h.signature, c.signature);
      }
    } else {
      TakesValues(admits, v, h.signature, c.signature);
    }
  }

  lemma {:induction false} TakesItself(admits: Admits, s: Signature)
    requires WellFormed(s)
    ensures TakesOne(admits, s, s)
    decreases s
  {
    if s.Container? {
      forall m, n | m in s.members && n in s.members && m.name == n.name ensures Takes(admits, m, n) {
        assert m == n;
        TakesItself(admits, m.signature);
      }
    }
  }

  ghost function Named(members: seq<Form>, name: string): (m: Form)
    requires name in MemberNames(members)
    ensures m in members && m.name == name
  {
    var m :| m in members && m.name == name;
    m
  }

  // Some value a form holds.
  ghost function SampleOne(admits: Admits, s: Signature): (v: Value)
    requires Inhabited(admits) && WellFormed(s)
    ensures HoldsOne(admits, v, s) && !v.List?
    decreases s
  {
    match s
    case Primitive(name) =>
      assert AdmitsSome(admits, name);
      var x :| admits(name, x);
      Plain(x)
    case Container(_, members) =>
      var v := Object(map name | name in MemberNames(members) :: Sample(admits, Named(members, name)));
      assert forall m :: m in members ==> m.name in MemberNames(members) && Named(members, m.name) == m;
      v
  }

  ghost function Sample(admits: Admits, f: Form): (v: Value)
    requires Inhabited(admits) && WellFormed(f.signature)
    ensures Holds(admits, v, f)
    decreases f
  {
    var one := SampleOne(admits, f.signature);
    if f.list then List([one]) else one
  }

  ghost predicate HoldsAll(admits: Admits, h: Form, c: Form) {
    forall v :: Holds(admits, v, h) ==> Holds(admits, v, c)
  }

  ghost predicate HoldsAllOne(admits: Admits, h: Signature, c: Signature) {
    forall v :: HoldsOne(admits, v, h) ==> HoldsOne(admits, v, c)
  }

  lemma MembersTaken(admits: Admits, h: Signature, c: Signature, m: Form, n: Form)
    requires Inhabited(admits) && WellFormed(h) && WellFormed(c) && HoldsAllOne(admits, h, c)
    requires h.Container? && c.Container? && m in h.members && n in c.members && m.name == n.name
    ensures HoldsAll(admits, m, n)
  {
    var sample := SampleOne(admits, h);
    forall v | Holds(admits, v, m) ensures Holds(admits, v, n) {
      var other := Object(sample.fields[m.name := v]);
      assert other.fields.Keys == MemberNames(h.members);
      forall k | k in h.members ensures k.name in other.fields && Holds(admits, other.fields[k.name], k) {
        if k.name == m.name {
          assert k == m;
        }
      }
      assert HoldsOne(admits, other, h);
      assert HoldsOne(admits, other, c);
    }
  }

  // A form that holds every value of another's takes them by its members.
  lemma {:induction false} HoldingTakes(admits: Admits, h: Signature, c: Signature)
    requires Inhabited(admits) && WellFormed(h) && WellFormed(c) && HoldsAllOne(admits, h, c)
    ensures TakesOne(admits, h, c)
    decreases h
  {
    var sample := SampleOne(admits, h);
    assert HoldsOne(admits, sample, c);
    match h
    case Primitive(name) =>
      forall s | admits(name, s) ensures admits(c.name, s) {
        assert HoldsOne(admits, Plain(s), h);
      }
    case Container(_, members) =>
      forall m, n | m in members && n in c.members && m.name == n.name ensures Takes(admits, m, n) {
        MembersTaken(admits, h, c, m, n);
        ListsAlike(admits, m, n);
        HoldingTakes(admits, m.signature, n.signature);
      }
  }

  lemma ListsAlike(admits: Admits, h: Form, c: Form)
    requires Inhabited(admits) && WellFormed(h.signature) && WellFormed(c.signature) && HoldsAll(admits, h, c)
    ensures h.list == c.list && HoldsAllOne(admits, h.signature, c.signature)
  {
    if h.list {
      assert Holds(admits, List([]), h);
      assert Holds(admits, List([]), c);
      forall x | HoldsOne(admits, x, h.signature) ensures HoldsOne(admits, x, c.signature) {
        assert Holds(admits, List([x]), h);
        assert Holds(admits, List([x]), c);
        assert x in List([x]).items;
      }
    } else {
      assert Holds(admits, SampleOne(admits, h.signature), h);
      forall x | HoldsOne(admits, x, h.signature) ensures HoldsOne(admits, x, c.signature) {
        assert Holds(admits, x, h);
      }
    }
  }

  lemma HoldingTakesForm(admits: Admits, h: Form, c: Form)
    requires Inhabited(admits) && WellFormed(h.signature) && WellFormed(c.signature)
    ensures HoldsAll(admits, h, c) <==> Takes(admits, h, c)
  {
    if HoldsAll(admits, h, c) {
      ListsAlike(admits, h, c);
      HoldingTakes(admits, h.signature, c.signature);
    }
    if Takes(admits, h, c) {
      forall v | Holds(admits, v, h) ensures Holds(admits, v, c) {
        TakesValue(admits, v, h, c);
      }
    }
  }

  // ----- Records -----

  // The lifecycle field and the state it stands in.
  datatype Standing = Standing(field: string, state: string)

  datatype Record = Record(values: map<string, Value>, standing: Option<Standing>)

  ghost predicate HeldIn(admits: Admits, a: Aggregate, name: string, v: Value) {
    exists x :: x in a.attributes && x.form.name == name && Holds(admits, v, x.form)
  }

  predicate Stands(a: Aggregate, standing: Option<Standing>) {
    if a.lifecycle.None? then standing.None?
    else
      standing.Some? && standing.value.field == a.lifecycle.value.field
      && standing.value.state in a.lifecycle.value.states
  }

  // A record an aggregate admits: every value held by an attribute of its name, no required one
  // missing, in a declared state.
  ghost predicate Fits(admits: Admits, r: Record, a: Aggregate) {
    && (forall name :: name in r.values ==> HeldIn(admits, a, name, r.values[name]))
    && (forall x :: x in a.attributes && !x.optional ==> x.form.name in r.values)
    && Stands(a, r.standing)
  }

  ghost predicate CarriesOver(admits: Admits, held: Aggregate, current: Aggregate) {
    forall r: Record :: Fits(admits, r, held) ==> Fits(admits, r, current)
  }

  // A lifecycle has at least the state it starts in, and each type names each of its members once.
  ghost predicate Sound(a: Aggregate) {
    && a.Valid() && (a.lifecycle.Some? ==> a.lifecycle.value.states != [])
    && forall x :: x in a.attributes ==> WellFormed(x.form.signature)
  }

  function FieldOf(a: Aggregate): Option<string> {
    if a.lifecycle.Some? then Some(a.lifecycle.value.field) else None
  }

  // The new declaration serves the old one's records: each old attribute is there and takes its values,
  // what is required was required, and each state it had it has.
  ghost predicate Serves(admits: Admits, held: Aggregate, current: Aggregate) {
    && (forall x :: x in held.attributes ==> TakenIn(admits, current, x.form))
    && (forall y :: y in current.attributes && !y.optional ==> RequiredIn(held, y.form.name))
    && FieldOf(held) == FieldOf(current) && StatesKept(held, current)
  }

  ghost predicate TakenIn(admits: Admits, a: Aggregate, h: Form) {
    exists y :: y in a.attributes && y.form.name == h.name && Takes(admits, h, y.form)
  }

  predicate RequiredIn(a: Aggregate, name: string) {
    exists x :: x in a.attributes && x.form.name == name && !x.optional
  }

  lemma ServingCarriesOver(admits: Admits, held: Aggregate, current: Aggregate)
    requires Serves(admits, held, current)
    ensures CarriesOver(admits, held, current)
  {
    forall r: Record | Fits(admits, r, held) ensures Fits(admits, r, current) {
      forall name | name in r.values ensures HeldIn(admits, current, name, r.values[name]) {
        assert HeldIn(admits, held, name, r.values[name]);
        var x :| x in held.attributes && x.form.name == name && Holds(admits, r.values[name], x.form);
        assert TakenIn(admits, current, x.form);
        var y :| y in current.attributes && y.form.name == name && Takes(admits, x.form, y.form);
        TakesValue(admits, r.values[name], x.form, y.form);
      }
    }
  }

  // ----- Records enough to tell -----

  ghost function AttributeNamed(a: Aggregate, name: string): (x: Attribute)
    requires exists x :: x in a.attributes && x.form.name == name
    ensures x in a.attributes && x.form.name == name
  {
    var x :| x in a.attributes && x.form.name == name;
    x
  }

  // A record of every attribute but one.
  ghost function Whole(admits: Admits, a: Aggregate, but: Option<string>, standing: Option<Standing>): Record
    requires Inhabited(admits) && Sound(a)
  {
    var names := set x | x in a.attributes :: x.form.name;
    Record(map name | name in names && but != Some(name) :: Sample(admits, AttributeNamed(a, name).form), standing)
  }

  lemma OptionalOnce(a: Aggregate, x: Attribute)
    requires a.Valid() && x in a.attributes
    ensures OptionalIn(a, x.form.name) <==> x.optional
    ensures RequiredIn(a, x.form.name) <==> !x.optional
  {
  }

  lemma WholeFits(admits: Admits, a: Aggregate, but: Option<string>, standing: Option<Standing>)
    requires Inhabited(admits) && Sound(a) && Stands(a, standing)
    requires but.Some? ==> !RequiredIn(a, but.value)
    ensures Fits(admits, Whole(admits, a, but, standing), a)
  {
    var r := Whole(admits, a, but, standing);
    forall name | name in r.values ensures HeldIn(admits, a, name, r.values[name]) {
      assert Holds(admits, r.values[name], AttributeNamed(a, name).form);
    }
    forall x | x in a.attributes && !x.optional ensures x.form.name in r.values {
      OptionalOnce(a, x);
    }
  }

  function FirstStanding(a: Aggregate): Option<Standing>
    requires a.lifecycle.Some? ==> a.lifecycle.value.states != []
  {
    if a.lifecycle.None? then None else Some(Standing(a.lifecycle.value.field, a.lifecycle.value.states[0]))
  }

  lemma CarryingKeepsStates(admits: Admits, held: Aggregate, current: Aggregate)
    requires Inhabited(admits) && Sound(held) && CarriesOver(admits, held, current)
    ensures FieldOf(held) == FieldOf(current) && StatesKept(held, current)
  {
    WholeFits(admits, held, None, FirstStanding(held));
    assert Fits(admits, Whole(admits, held, None, FirstStanding(held)), current);
    if held.lifecycle.Some? {
      forall s | s in held.lifecycle.value.states ensures s in current.lifecycle.value.states {
        var standing := Some(Standing(held.lifecycle.value.field, s));
        WholeFits(admits, held, None, standing);
        assert Fits(admits, Whole(admits, held, None, standing), current);
      }
    }
  }

  lemma CarryingRequires(admits: Admits, held: Aggregate, current: Aggregate, y: Attribute)
    requires Inhabited(admits) && Sound(held) && CarriesOver(admits, held, current)
    requires y in current.attributes && !y.optional
    ensures RequiredIn(held, y.form.name)
  {
    if !RequiredIn(held, y.form.name) {
      WholeFits(admits, held, Some(y.form.name), FirstStanding(held));
    }
  }

  lemma CarryingTakes(admits: Admits, held: Aggregate, current: Aggregate, x: Attribute)
    requires Inhabited(admits) && Sound(held) && Sound(current) && CarriesOver(admits, held, current)
    requires x in held.attributes
    ensures TakenIn(admits, current, x.form)
  {
    hide Whole, Holds, Stands;
    var whole, name := Whole(admits, held, None, FirstStanding(held)), x.form.name;
    WholeFits(admits, held, None, FirstStanding(held));
    assert name in whole.values by { NamesAll(admits, held, x, FirstStanding(held)); }
    assert HeldIn(admits, current, name, whole.values[name]);
    var y :| y in current.attributes && y.form.name == name;
    forall v | Holds(admits, v, x.form) ensures Holds(admits, v, y.form) {
      SwappedFits(admits, held, whole, x, v);
      SwappedHolds(admits, current, whole, y, v);
    }
    HoldingTakesForm(admits, x.form, y.form);
  }

  lemma NamesAll(admits: Admits, a: Aggregate, x: Attribute, standing: Option<Standing>)
    requires Inhabited(admits) && Sound(a) && x in a.attributes
    ensures x.form.name in Whole(admits, a, None, standing).values
  {
  }

  lemma SwappedFits(admits: Admits, a: Aggregate, r: Record, x: Attribute, v: Value)
    requires Fits(admits, r, a) && x in a.attributes && Holds(admits, v, x.form)
    ensures Fits(admits, r.(values := r.values[x.form.name := v]), a)
  {
    hide Holds;
    var now := r.(values := r.values[x.form.name := v]);
    forall name | name in now.values ensures HeldIn(admits, a, name, now.values[name]) {
      if name != x.form.name {
        assert HeldIn(admits, a, name, r.values[name]);
      }
    }
  }

  lemma SwappedHolds(admits: Admits, a: Aggregate, r: Record, y: Attribute, v: Value)
    requires a.Valid() && y in a.attributes && Fits(admits, r.(values := r.values[y.form.name := v]), a)
    ensures Holds(admits, v, y.form)
  {
    hide Holds;
    var now := r.(values := r.values[y.form.name := v]);
    assert HeldIn(admits, a, y.form.name, now.values[y.form.name]);
  }

  // Every record stored carries over exactly when the new declaration serves it.
  lemma CarriesOverIsServes(admits: Admits, held: Aggregate, current: Aggregate)
    requires Inhabited(admits) && Sound(held) && Sound(current)
    ensures CarriesOver(admits, held, current) <==> Serves(admits, held, current)
  {
    if CarriesOver(admits, held, current) {
      CarryingKeepsStates(admits, held, current);
      forall y | y in current.attributes && !y.optional ensures RequiredIn(held, y.form.name) {
        CarryingRequires(admits, held, current, y);
      }
      forall x | x in held.attributes ensures TakenIn(admits, current, x.form) {
        CarryingTakes(admits, held, current, x);
      }
    }
    if Serves(admits, held, current) {
      ServingCarriesOver(admits, held, current);
    }
  }

  // ----- What an additive change means -----

  // An attribute declared in another form that takes every value of the one it had: a value object
  // renamed, or a primitive that admits whatever the other did.
  ghost predicate Respelled(admits: Admits, held: Aggregate, current: Aggregate) {
    exists x, y :: x in held.attributes && y in current.attributes && x.form.name == y.form.name
                   && x.form != y.form && Takes(admits, x.form, y.form)
  }

  lemma AddingServes(admits: Admits, held: Aggregate, current: Aggregate)
    requires Sound(held) && Sound(current) && OnlyAdds(held, current)
    ensures Serves(admits, held, current)
  {
    forall x | x in held.attributes ensures TakenIn(admits, current, x.form) {
      FormsIn(held, x.form);
      FormsIn(current, x.form);
      var y :| y in current.attributes && y.form == x.form;
      TakesItself(admits, x.form.signature);
      assert Takes(admits, x.form, y.form);
    }
    forall y | y in current.attributes && !y.optional ensures RequiredIn(held, y.form.name) {
      OptionalOnce(current, y);
      FormsIn(current, y.form);
      var f :| f in Project(held).forms && f.name == y.form.name;
      FormsIn(held, f);
      var x :| x in held.attributes && x.form == f;
      OptionalOnce(held, x);
    }
  }

  lemma ServingOnlyAdds(admits: Admits, held: Aggregate, current: Aggregate)
    requires Sound(held) && Sound(current) && Serves(admits, held, current)
    requires held.identity == current.identity && !Respelled(admits, held, current)
    ensures OnlyAdds(held, current)
  {
    forall f | f in Project(held).forms ensures f in Project(current).forms {
      FormsIn(held, f);
      var x :| x in held.attributes && x.form == f;
      assert TakenIn(admits, current, x.form);
      var y :| y in current.attributes && y.form.name == f.name && Takes(admits, f, y.form);
      assert y.form == f;
      FormsIn(current, f);
    }
    forall f | f in Project(current).forms && !Names(Project(held).forms, f.name) ensures OptionalIn(current, f.name) {
      FormsIn(current, f);
      var y :| y in current.attributes && y.form == f;
      if !y.optional {
        RequiredIsNamed(held, f.name);
      }
    }
    forall x | x in held.attributes && OptionalIn(held, x.form.name) ensures OptionalIn(current, x.form.name) {
      assert TakenIn(admits, current, x.form);
      var y :| y in current.attributes && y.form.name == x.form.name && Takes(admits, x.form, y.form);
      OptionalOnce(held, x);
      OptionalOnce(current, y);
    }
  }

  lemma RequiredIsNamed(a: Aggregate, name: string)
    requires RequiredIn(a, name)
    ensures Names(Project(a).forms, name)
  {
    var x :| x in a.attributes && x.form.name == name && !x.optional;
    FormsIn(a, x.form);
  }

  // A change called additive leaves every stored record one of the new declaration's, whatever the
  // primitives admit.
  lemma AdditiveRecordsCarryOver(admits: Admits, held: Aggregate, current: Aggregate)
    requires Sound(held) && Sound(current) && OnlyAdds(held, current)
    ensures held.identity == current.identity && CarriesOver(admits, held, current)
  {
    AddingServes(admits, held, current);
    ServingCarriesOver(admits, held, current);
  }

  // And it is called additive exactly when the identity is kept, every stored record carries over, and
  // no attribute that takes its old values was spelled anew.
  lemma AdditiveUnlessRespelled(admits: Admits, held: Aggregate, current: Aggregate)
    requires Inhabited(admits) && Sound(held) && Sound(current)
    ensures OnlyAdds(held, current) <==>
            held.identity == current.identity && CarriesOver(admits, held, current) && !Respelled(admits, held, current)
  {
    CarriesOverIsServes(admits, held, current);
    if OnlyAdds(held, current) {
      AddingServes(admits, held, current);
      forall x, y | x in held.attributes && y in current.attributes && x.form.name == y.form.name
          ensures x.form == y.form {
        FormsIn(held, x.form);
        FormsIn(current, x.form);
        FormsIn(current, y.form);
        OneForm(current, x.form, y.form);
      }
    } else if held.identity == current.identity && Serves(admits, held, current) && !Respelled(admits, held, current) {
      ServingOnlyAdds(admits, held, current);
    }
  }

  // A value object renamed, its members kept: every record carries over, and the change is called
  // breaking.
  lemma RenamedTypeIsCalledBreaking(admits: Admits, name: string, was: string, to: string, members: seq<Form>)
    requires Inhabited(admits) && was != to && WellFormed(Container(was, members))
    ensures var held := Aggregate([name], None, [Attribute(Form(name, false, Container(was, members)), false)]);
            var current := Aggregate([name], None, [Attribute(Form(name, false, Container(to, members)), false)]);
            && CarriesOver(admits, held, current) && !OnlyAdds(held, current)
            && NeedsRule(Project(held), Project(current))
  {
    var h, c := Form(name, false, Container(was, members)), Form(name, false, Container(to, members));
    var held, current := Aggregate([name], None, [Attribute(h, false)]), Aggregate([name], None, [Attribute(c, false)]);
    TakesItself(admits, Container(was, members));
    assert Takes(admits, h, c);
    assert Attribute(h, false) in held.attributes && Attribute(c, false) in current.attributes;
    assert Respelled(admits, held, current);
    AdditiveUnlessRespelled(admits, held, current);
    assert TakenIn(admits, current, h) && RequiredIn(held, name);
    ServingCarriesOver(admits, held, current);
    FormsIn(held, h);
    FormsIn(current, c);
    assert Retyped(h, c);
  }
}
