// Whether a change to a bluebook's storage shape only adds, decided by the shared rule over two
// declarations, by the implicit edge over a scaffold diff, and by the disposable ledger over a
// held projection.
module AdditiveShape {
  import opened Wrappers
  import opened Lists

  // An attribute as it is stored: a container spells out its members.
  datatype Signature = Primitive(name: string) | Container(typeName: string, members: seq<Form>)

  datatype Form = Form(name: string, list: bool, signature: Signature)

  datatype Attribute = Attribute(form: Form, optional: bool)

  datatype Lifecycle = Lifecycle(field: string, states: seq<string>)

  datatype Aggregate = Aggregate(identity: seq<string>, lifecycle: Option<Lifecycle>, attributes: seq<Attribute>) {
    // A build refuses an attribute declared twice.
    ghost predicate Valid() {
      forall i, j :: 0 <= i < j < |attributes| ==> attributes[i].form.name != attributes[j].form.name
    }
  }

  // The projection a store keeps: neither `optional` nor the lifecycle's states are in it.
  datatype Shape = Shape(identity: seq<string>, lifecycleField: Option<string>, forms: seq<Form>)

  type Bluebook = map<string, Aggregate>

  function FormsOf(attributes: seq<Attribute>): seq<Form> {
    seq(|attributes|, i requires 0 <= i < |attributes| => attributes[i].form)
  }

  function Project(a: Aggregate): Shape {
    Shape(a.identity, if a.lifecycle.Some? then Some(a.lifecycle.value.field) else None, FormsOf(a.attributes))
  }

  // ----- The shared rule -----

  predicate Names(forms: seq<Form>, name: string) {
    exists f :: f in forms && f.name == name
  }

  predicate OptionalIn(a: Aggregate, name: string) {
    exists x :: x in a.attributes && x.form.name == name && x.optional
  }

  // Every form held is held still, and every name gained is optional.
  predicate Widened(held: Shape, current: Shape, aggregate: Aggregate) {
    && held.identity == current.identity && held.lifecycleField == current.lifecycleField
    && (forall f :: f in held.forms ==> f in current.forms)
    && (forall f :: f in current.forms && !Names(held.forms, f.name) ==> OptionalIn(aggregate, f.name))
  }

  // An attribute the held declaration marked optional is required now.
  predicate Tightened(held: Aggregate, current: Aggregate) {
    exists x :: x in held.attributes && OptionalIn(held, x.form.name) && !OptionalIn(current, x.form.name)
  }

  predicate StatesKept(held: Aggregate, current: Aggregate) {
    held.lifecycle.None?
    || (current.lifecycle.Some? && forall s :: s in held.lifecycle.value.states ==> s in current.lifecycle.value.states)
  }

  predicate OnlyAdds(held: Aggregate, current: Aggregate) {
    StatesKept(held, current) && Widened(Project(held), Project(current), current) && !Tightened(held, current)
  }

  predicate Shared(held: Bluebook, current: Bluebook) {
    forall name :: name in held && name in current ==> OnlyAdds(held[name], current[name])
  }

  // ----- The scaffold diff -----

  // The same members under another type name.
  predicate Retyped(h: Form, c: Form) {
    && h != c && h.signature.Container? && c.signature.Container?
    && h.signature.members == c.signature.members && h.list == c.list
  }

  predicate HasMember(c: Form, m: Form) {
    c.signature.Container? && exists n :: n in c.signature.members && n.name == m.name && n.signature == m.signature
  }

  // A member that vanished from a kept attribute or changed its type.
  predicate Drifted(h: Form, c: Form) {
    h.signature.Container? && exists m :: m in h.signature.members && !HasMember(c, m)
  }

  // Some change of this aggregate that a rule, or an unresolved line, would have to name.
  predicate NeedsRule(held: Shape, current: Shape) {
    || held.identity != current.identity
    || (exists h, c :: h in held.forms && c in current.forms && h.name == c.name && Retyped(h, c))
    || (exists h :: h in held.forms && !Names(current.forms, h.name))
    || (exists h, c :: h in held.forms && c in current.forms && h.name == c.name && h != c && Drifted(h, c))
  }

  // A vanished aggregate is a rename when exactly one new aggregate has its whole shape.
  function Candidates(appeared: seq<string>, shape: Shape, current: Bluebook): seq<string>
    requires forall name :: name in appeared ==> name in current
  {
    if appeared == [] then []
    else
      var rest := Candidates(appeared[1..], shape, current);
      assert appeared[0] in appeared;
      if Project(current[appeared[0]]) == shape then [appeared[0]] + rest else rest
  }

  // The vanished names left without a successor, and the renames claimed.
  datatype Claims = Claims(unclaimed: seq<string>, renames: seq<Rename>)

  datatype Rename = Rename(to: string, was: string)

  // Each rename takes its new name out of the running.
  function Claim(vanished: seq<string>, appeared: seq<string>, held: Bluebook, current: Bluebook): (r: Claims)
    requires forall name :: name in vanished ==> name in held
    requires forall name :: name in appeared ==> name in current
    ensures |r.unclaimed| + |r.renames| == |vanished|
  {
    if vanished == [] then Claims([], [])
    else
      assert vanished[0] in vanished;
      var candidates := Candidates(appeared, Project(held[vanished[0]]), current);
      if |candidates| != 1 then
        var rest := Claim(vanished[1..], appeared, held, current);
        rest.(unclaimed := [vanished[0]] + rest.unclaimed)
      else
        WithoutIsIn(appeared, {candidates[0]});
        var rest := Claim(vanished[1..], Without(appeared, {candidates[0]}), held, current);
        rest.(renames := [Rename(candidates[0], vanished[0])] + rest.renames)
  }

  lemma {:induction false} WithoutIsIn(s: seq<string>, chosen: set<string>)
    ensures forall x :: x in Without(s, chosen) ==> x in s
  {
    if s != [] {
      WithoutIsIn(s[1..], chosen);
    }
  }

  ghost predicate Enumerates(names: seq<string>, all: set<string>) {
    NoDuplicates(names) && forall n :: n in names <==> n in all
  }

  // The names gone from and new to a bluebook, each in the shape's order.
  ghost predicate Differ(held: Bluebook, current: Bluebook, vanished: seq<string>, appeared: seq<string>) {
    Enumerates(vanished, held.Keys - current.Keys) && Enumerates(appeared, current.Keys - held.Keys)
  }

  // The diff is empty: no aggregate needs a rule or was renamed, none was retired or left unclaimed.
  predicate NothingToSay(held: Bluebook, current: Bluebook, vanished: seq<string>, appeared: seq<string>)
    requires forall name :: name in vanished ==> name in held
    requires forall name :: name in appeared ==> name in current
  {
    && Claim(vanished, appeared, held, current) == Claims([], [])
    && forall name :: name in held && name in current ==> !NeedsRule(Project(held[name]), Project(current[name]))
  }

  // ----- The three verdicts -----

  predicate Implicit(held: Bluebook, current: Bluebook, vanished: seq<string>, appeared: seq<string>)
    requires forall name :: name in vanished ==> name in held
    requires forall name :: name in appeared ==> name in current
  {
    NothingToSay(held, current, vanished, appeared) && Shared(held, current)
  }

  // The ledger sees only what the store kept of the held side.
  predicate Ledger(held: map<string, Shape>, current: Bluebook) {
    && (forall name :: name in held && name in current && held[name] != Project(current[name]) ==>
          Widened(held[name], Project(current[name]), current[name]))
    && held.Keys <= current.Keys
  }

  function Projection(b: Bluebook): map<string, Shape> {
    map name | name in b :: Project(b[name])
  }

  lemma FormsIn(a: Aggregate, f: Form)
    ensures f in Project(a).forms <==> exists x :: x in a.attributes && x.form == f
  {
    if x :| x in a.attributes && x.form == f {
      var i :| 0 <= i < |a.attributes| && a.attributes[i] == x;
      assert Project(a).forms[i] == f;
    }
  }

  lemma OneForm(a: Aggregate, f: Form, g: Form)
    requires a.Valid() && f in Project(a).forms && g in Project(a).forms && f.name == g.name
    ensures f == g
  {
  }

  // A change that only adds leaves the scaffold nothing to name.
  lemma WidenedNeedsNoRule(held: Aggregate, current: Aggregate)
    requires held.Valid() && current.Valid() && Widened(Project(held), Project(current), current)
    ensures !NeedsRule(Project(held), Project(current))
  {
    forall h, c | h in Project(held).forms && c in Project(current).forms && h.name == c.name ensures h == c {
      OneForm(current, h, c);
    }
  }

  lemma HeadIn(names: seq<string>)
    requires names != []
    ensures exists n :: n in names
  {
    assert names[0] in names;
  }

  // The implicit edge is the shared rule with no aggregate gone, whatever was renamed or added.
  lemma ImplicitIsShared(held: Bluebook, current: Bluebook, vanished: seq<string>, appeared: seq<string>)
    requires Differ(held, current, vanished, appeared)
    requires forall name :: name in held ==> held[name].Valid()
    requires forall name :: name in current ==> current[name].Valid()
    ensures Implicit(held, current, vanished, appeared) <==> Shared(held, current) && held.Keys <= current.Keys
  {
    if held.Keys <= current.Keys {
      if vanished != [] {
        HeadIn(vanished);
      }
      if Shared(held, current) {
        forall name | name in held && name in current ensures !NeedsRule(Project(held[name]), Project(current[name])) {
          WidenedNeedsNoRule(held[name], current[name]);
        }
      }
    } else {
      var name :| name in held && name !in current;
      assert name in held.Keys - current.Keys;
      assert name in vanished;
    }
  }

  // The ledger's verdict is the shared rule with no aggregate gone, but for what a projection does
  // not record: an optional attribute made required, and a lifecycle state dropped.
  lemma LedgerIsShared(held: Bluebook, current: Bluebook)
    requires forall name :: name in current ==> current[name].Valid()
    ensures Shared(held, current) && held.Keys <= current.Keys <==>
            && Ledger(Projection(held), current)
            && (forall name :: name in held && name in current ==>
                  !Tightened(held[name], current[name]) && StatesKept(held[name], current[name]))
  {
    forall name | name in held && name in current && Project(held[name]) == Project(current[name])
      ensures Widened(Project(held[name]), Project(current[name]), current[name])
    {
      SameShapeWidens(Project(held[name]), current[name]);
    }
  }

  lemma SameShapeWidens(shape: Shape, current: Aggregate)
    ensures Widened(shape, shape, current)
  {
  }

  // ----- What a diff names -----

  // The one appeared aggregate of a shape.
  ghost predicate OnlyMatch(to: string, shape: Shape, appeared: seq<string>, current: Bluebook)
    requires forall name :: name in appeared ==> name in current
  {
    && to in appeared && Project(current[to]) == shape
    && forall other :: other in appeared && Project(current[other]) == shape ==> other == to
  }

  lemma {:induction false} CandidatesMatch(appeared: seq<string>, shape: Shape, current: Bluebook)
    requires NoDuplicates(appeared) && forall name :: name in appeared ==> name in current
    ensures var c := Candidates(appeared, shape, current);
            && NoDuplicates(c) && forall n :: n in c <==> n in appeared && n in current && Project(current[n]) == shape
  {
    if appeared != [] {
      assert appeared == [appeared[0]] + appeared[1..];
      CandidatesMatch(appeared[1..], shape, current);
    }
  }

  lemma TwoDiffer(s: seq<string>, i: nat, j: nat)
    requires NoDuplicates(s) && i < j < |s|
    ensures s[i] != s[j]
  {
  }

  lemma OneCandidate(appeared: seq<string>, shape: Shape, current: Bluebook, to: string)
    requires NoDuplicates(appeared) && forall name :: name in appeared ==> name in current
    ensures Candidates(appeared, shape, current) == [to] <==> OnlyMatch(to, shape, appeared, current)
  {
    CandidatesMatch(appeared, shape, current);
    var c := Candidates(appeared, shape, current);
    if c == [to] {
      assert forall n :: n in c <==> n == to;
    }
    if OnlyMatch(to, shape, appeared, current) {
      assert to in c;
      forall i | 0 <= i < |c| ensures c[i] == to {
        assert c[i] in c;
      }
      if |c| > 1 {
        TwoDiffer(c, 0, 1);
      }
    }
  }

  lemma {:induction false} WithoutKeeps(s: seq<string>, x: string)
    requires NoDuplicates(s)
    ensures NoDuplicates(Without(s, {x})) && forall y :: y in Without(s, {x}) <==> y in s && y != x
  {
    if s != [] {
      assert s == [s[0]] + s[1..];
      WithoutKeeps(s[1..], x);
      var rest := Without(s[1..], {x});
      forall j | 0 <= j < |rest| ensures rest[j] != s[0] {
        assert rest[j] in rest;
      }
    }
  }

  // A rename leads from a vanished aggregate to an appeared one of its whole shape, to each at most once.
  lemma {:induction false} RenamesKeepShape(vanished: seq<string>, appeared: seq<string>, held: Bluebook,
      current: Bluebook)
    requires NoDuplicates(vanished) && NoDuplicates(appeared)
    requires forall name :: name in vanished ==> name in held
    requires forall name :: name in appeared ==> name in current
    ensures var r := Claim(vanished, appeared, held, current);
            && (forall x :: x in r.renames ==>
                  x.was in vanished && x.to in appeared && Project(current[x.to]) == Project(held[x.was]))
            && (forall x, y :: x in r.renames && y in r.renames && x.to == y.to ==> x == y)
            && (forall name :: name in vanished <==> name in r.unclaimed || exists x :: x in r.renames && x.was == name)
  {
    if vanished != [] {
      assert vanished == [vanished[0]] + vanished[1..];
      var candidates := Candidates(appeared, Project(held[vanished[0]]), current);
      CandidatesMatch(appeared, Project(held[vanished[0]]), current);
      if |candidates| == 1 {
        WithoutKeeps(appeared, candidates[0]);
        RenamesKeepShape(vanished[1..], Without(appeared, {candidates[0]}), held, current);
      } else {
        RenamesKeepShape(vanished[1..], appeared, held, current);
      }
    }
  }

  // Where no two vanished aggregates share a shape, one counts as renamed exactly when a single appeared
  // aggregate has its shape.
  lemma {:induction false} RenamedToTheOnlyMatch(vanished: seq<string>, appeared: seq<string>, held: Bluebook,
      current: Bluebook)
    requires NoDuplicates(vanished) && NoDuplicates(appeared)
    requires forall name :: name in vanished ==> name in held
    requires forall name :: name in appeared ==> name in current
    requires forall a, b :: a in vanished && b in vanished && Project(held[a]) == Project(held[b]) ==> a == b
    ensures var r := Claim(vanished, appeared, held, current);
            && (forall to, was :: Rename(to, was) in r.renames <==>
                  was in vanished && OnlyMatch(to, Project(held[was]), appeared, current))
            && (forall was :: was in r.unclaimed <==>
                  was in vanished && forall to :: !OnlyMatch(to, Project(held[was]), appeared, current))
  {
    if vanished != [] {
      var first := vanished[0];
      assert vanished == [first] + vanished[1..];
      var candidates := Candidates(appeared, Project(held[first]), current);
      forall to ensures candidates == [to] <==> OnlyMatch(to, Project(held[first]), appeared, current) {
        OneCandidate(appeared, Project(held[first]), current, to);
      }
      if |candidates| == 1 {
        var left := Without(appeared, {candidates[0]});
        assert candidates == [candidates[0]];
        WithoutKeeps(appeared, candidates[0]);
        RenamedToTheOnlyMatch(vanished[1..], left, held, current);
        forall to, was | was in vanished[1..]
          ensures OnlyMatch(to, Project(held[was]), left, current) <==>
                  OnlyMatch(to, Project(held[was]), appeared, current)
        {
          assert Project(held[was]) != Project(held[first]);
        }
      } else {
        RenamedToTheOnlyMatch(vanished[1..], appeared, held, current);
      }
    }
  }

  predicate StillMember(m: Form, s: Signature) {
    s.Container? && exists n :: n in s.members && n.name == m.name && n.signature == m.signature
  }

  // A kept attribute the scaffold has nothing to say of: it is as it was, or was primitive, or keeps every
  // member's type and is not the same piece under another name.
  predicate KeptQuietly(h: Form, c: Form) {
    || h == c || h.signature.Primitive?
    || ((forall m :: m in h.signature.members ==> StillMember(m, c.signature))
        && (c.signature.Primitive? || h.signature.members != c.signature.members || h.list != c.list))
  }

  // The diff is empty exactly when no aggregate is gone, each identifies its records as before, and each
  // attribute it had is there and quietly kept.
  lemma NothingToSayWhen(held: Bluebook, current: Bluebook, vanished: seq<string>, appeared: seq<string>)
    requires Differ(held, current, vanished, appeared)
    requires forall name :: name in held ==> held[name].Valid()
    requires forall name :: name in current ==> current[name].Valid()
    ensures NothingToSay(held, current, vanished, appeared) <==>
            && held.Keys <= current.Keys
            && forall name :: name in held && name in current ==> QuietlyKept(held[name], current[name])
  {
    hide NeedsRule, QuietlyKept;
    forall name | name in held && name in current
      ensures NeedsRule(Project(held[name]), Project(current[name])) <==> !QuietlyKept(held[name], current[name])
    {
      QuietOrNamed(held[name], current[name]);
    }
    if held.Keys <= current.Keys {
      if vanished != [] {
        HeadIn(vanished);
      }
    } else {
      var name :| name in held && name !in current;
      assert name in held.Keys - current.Keys;
      assert name in vanished;
    }
  }

  ghost predicate QuietlyKept(held: Aggregate, current: Aggregate) {
    && held.identity == current.identity
    && forall x :: x in held.attributes ==>
         exists y :: y in current.attributes && y.form.name == x.form.name && KeptQuietly(x.form, y.form)
  }

  lemma QuietOrNamed(held: Aggregate, current: Aggregate)
    requires held.Valid() && current.Valid()
    ensures NeedsRule(Project(held), Project(current)) <==> !QuietlyKept(held, current)
  {
    hide KeptQuietly, Retyped, Drifted;
    var was, now := Project(held).forms, Project(current).forms;
    forall f ensures f in was <==> exists x :: x in held.attributes && x.form == f { FormsIn(held, f); }
    forall f ensures f in now <==> exists x :: x in current.attributes && x.form == f { FormsIn(current, f); }
    forall h, c | h in was && c in now ensures KeptQuietly(h, c) <==> !Retyped(h, c) && !(h != c && Drifted(h, c)) {
      QuietForm(h, c);
    }
    if QuietlyKept(held, current) {
      forall h, c | h in was && c in now && h.name == c.name ensures KeptQuietly(h, c) {
        var x :| x in held.attributes && x.form == h;
        var y :| y in current.attributes && y.form.name == h.name && KeptQuietly(h, y.form);
        OneForm(current, y.form, c);
      }
    } else if held.identity == current.identity {
      var x :| x in held.attributes
               && forall y :: y in current.attributes && y.form.name == x.form.name ==> !KeptQuietly(x.form, y.form);
      assert x.form in was;
      if Names(now, x.form.name) {
        var c :| c in now && c.name == x.form.name;
        var y :| y in current.attributes && y.form == c;
        assert !KeptQuietly(x.form, c);
      }
    }
  }

  lemma QuietForm(h: Form, c: Form)
    ensures KeptQuietly(h, c) <==> !Retyped(h, c) && !(h != c && Drifted(h, c))
  {
  }

  // ----- Changes one after another -----

  // Additive changes compose, aggregate by aggregate; a bluebook's do exactly when every aggregate that
  // went missing in between and came back only adds to what it was.
  lemma OnlyAddsComposes(a: Aggregate, b: Aggregate, c: Aggregate)
    requires a.Valid() && b.Valid() && c.Valid() && OnlyAdds(a, b) && OnlyAdds(b, c)
    ensures OnlyAdds(a, c)
  {
    forall f | f in Project(c).forms && !Names(Project(a).forms, f.name) ensures OptionalIn(c, f.name) {
      if Names(Project(b).forms, f.name) {
        assert OptionalIn(b, f.name);
        var x :| x in b.attributes && x.form.name == f.name && x.optional;
        assert !Tightened(b, c);
      }
    }
    forall x | x in a.attributes && OptionalIn(a, x.form.name) ensures OptionalIn(c, x.form.name) {
      assert OptionalIn(b, x.form.name);
      var y :| y in b.attributes && y.form.name == x.form.name && y.optional;
    }
  }

  lemma SharedComposes(a: Bluebook, b: Bluebook, c: Bluebook)
    requires forall name :: name in a ==> a[name].Valid()
    requires forall name :: name in b ==> b[name].Valid()
    requires forall name :: name in c ==> c[name].Valid()
    requires Shared(a, b) && Shared(b, c)
    ensures Shared(a, c) <==> forall name :: name in a && name in c && name !in b ==> OnlyAdds(a[name], c[name])
  {
    hide OnlyAdds;
    forall name | name in a && name in b && name in c ensures OnlyAdds(a[name], c[name]) {
      OnlyAddsComposes(a[name], b[name], c[name]);
    }
  }

  // Dropped and declared anew, an aggregate is compared with nothing: each step only adds, and the
  // two together need not.
  lemma SharedMayNotCompose(name: string, before: Aggregate, after: Aggregate)
    requires !OnlyAdds(before, after)
    ensures Shared(map[name := before], map[]) && Shared(map[], map[name := after])
    ensures !Shared(map[name := before], map[name := after])
  {
    assert name in map[name := before] && name in map[name := after];
  }
}
