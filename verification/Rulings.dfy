// Which verdict a dispatch comes to, for every command and record: the rules in their fixed order, the
// first that fails giving the refusal, and the record they leave.
module Rulings {
  import opened Wrappers
  import opened Expressions
  import opened Dispatch

  // ----- Rule lists -----

  ghost predicate Clears(rules: seq<Pred>, state: Env, args: Env) {
    forall p :: p in rules ==> Holds(p, state, args) == Ok(true)
  }

  // The `k`th rule is the first that does not hold, and it answers no.
  ghost predicate FailsAt(rules: seq<Pred>, state: Env, args: Env, k: nat) {
    k < |rules| && Holds(rules[k], state, args) == Ok(false)
    && forall i :: 0 <= i < k ==> Holds(rules[i], state, args) == Ok(true)
  }

  // The first that does not hold faults.
  ghost predicate FaultsIn(rules: seq<Pred>, state: Env, args: Env) {
    exists k :: 0 <= k < |rules| && Holds(rules[k], state, args) == Fault
                && forall i :: 0 <= i < k ==> Holds(rules[i], state, args) == Ok(true)
  }

  lemma {:induction false} JudgeIsFirst(rules: seq<Pred>, state: Env, args: Env, index: nat)
    ensures var j := Judge(rules, state, args, index);
            && (j.Pass? <==> Clears(rules, state, args))
            && (forall k: nat :: j == Fails(index + k) <==> FailsAt(rules, state, args, k))
            && (j.Fails? ==> j.index >= index)
            && (j.Faults? <==> FaultsIn(rules, state, args))
    decreases |rules|
  {
    hide Holds;
    if rules != [] {
      var first, rest := Holds(rules[0], state, args), rules[1..];
      JudgeIsFirst(rest, state, args, index + 1);
      assert rules == [rules[0]] + rest && rules[0] in rules;
      if first == Ok(true) {
        var j := Judge(rules, state, args, index);
        assert j == Judge(rest, state, args, index + 1);
        forall k: nat ensures FailsAt(rules, state, args, k) <==> k > 0 && FailsAt(rest, state, args, k - 1) {
          if k > 0 {
            FailsLater(rules, state, args, k);
          }
        }
        FaultsLater(rules, state, args);
        forall k: nat ensures j == Fails(index + k) <==> FailsAt(rules, state, args, k) {
          if k > 0 {
            assert j == Fails(index + 1 + (k - 1)) <==> FailsAt(rest, state, args, k - 1);
          }
        }
      } else {
        FirstDecides(rules, state, args);
      }
    }
  }

  lemma FailsLater(rules: seq<Pred>, state: Env, args: Env, k: nat)
    requires rules != [] && Holds(rules[0], state, args) == Ok(true) && k > 0
    ensures FailsAt(rules, state, args, k) <==> FailsAt(rules[1..], state, args, k - 1)
  {
    hide Holds;
    var rest := rules[1..];
    assert forall i :: 0 <= i < |rest| ==> rest[i] == rules[i + 1];
    if FailsAt(rest, state, args, k - 1) {
      forall i | 0 <= i < k ensures Holds(rules[i], state, args) == Ok(true) {
        if i > 0 {
          assert rest[i - 1] == rules[i];
        }
      }
    }
  }

  lemma FaultsLater(rules: seq<Pred>, state: Env, args: Env)
    requires rules != [] && Holds(rules[0], state, args) == Ok(true)
    ensures FaultsIn(rules, state, args) <==> FaultsIn(rules[1..], state, args)
  {
    hide Holds;
    var rest := rules[1..];
    assert forall i :: 0 <= i < |rest| ==> rest[i] == rules[i + 1];
    if FaultsIn(rest, state, args) {
      var k :| 0 <= k < |rest| && Holds(rest[k], state, args) == Fault
               && forall i :: 0 <= i < k ==> Holds(rest[i], state, args) == Ok(true);
      forall i | 0 <= i < k + 1 ensures Holds(rules[i], state, args) == Ok(true) {
        if i > 0 {
          assert rest[i - 1] == rules[i];
        }
      }
      assert Holds(rules[k + 1], state, args) == Fault;
    }
  }

  lemma FirstDecides(rules: seq<Pred>, state: Env, args: Env)
    requires rules != [] && Holds(rules[0], state, args) != Ok(true)
    ensures !Clears(rules, state, args)
    ensures forall k: nat :: FailsAt(rules, state, args, k) <==> k == 0 && Holds(rules[0], state, args) == Ok(false)
    ensures FaultsIn(rules, state, args) <==> Holds(rules[0], state, args) == Fault
  {
    hide Holds;
    assert rules[0] in rules;
  }

  // ----- What an effect puts -----

  // A value lands in a field as it is when there is none, or when it is of the field's kind and passes
  // the checks of its value object; else it is refused by its kind, or by the first check that fails.
  lemma CoercedLands(schema: Schema, target: string, v: Value)
    requires target in schema.fields
    ensures var put, field, state := Coerced(schema, target, v), schema.fields[target], map["value" := v];
            && (put.Put? <==> v.Nil? || (Conforms(field.kind, v) && Clears(field.checks, state, map[])))
            && (put.Put? ==> put.v == v)
            && (put == PutRefused(TypeMismatch(target)) <==> !v.Nil? && !Conforms(field.kind, v))
            && (put == PutRefused(ValueRefused(target)) <==>
                  !v.Nil? && Conforms(field.kind, v) && exists k: nat :: FailsAt(field.checks, state, map[], k))
            && (put.PutCrashed? <==> !v.Nil? && Conforms(field.kind, v) && FaultsIn(field.checks, state, map[]))
  {
    hide Judge, Clears, FailsAt, FaultsIn;
    var checks, state := schema.fields[target].checks, map["value" := v];
    JudgeIsFirst(checks, state, map[], 0);
    var j := Judge(checks, state, map[]);
    if j.Fails? {
      assert j == Fails(0 + j.index) && FailsAt(checks, state, map[], j.index);
    }
  }

  // What a name holds for a command: nothing when nobody gave it.
  predicate Gives(env: Env, name: string, v: Value) {
    if name in env then env[name] == v else v.Nil?
  }

  // An assignment lands what it names: a literal, an argument, a field of the record as it was, or an
  // expression read from both.
  lemma AssignmentsLand(schema: Schema, target: string, pre: Row, args: Env, name: string, v: Value, e: Leaf)
    requires target in schema.fields
    ensures Effected(schema, Effect(target, SetTo(Literal(v))), pre, args) == Coerced(schema, target, v)
    ensures Gives(args, name, v) ==>
            Effected(schema, Effect(target, SetTo(Argument(name))), pre, args) == Coerced(schema, target, v)
    ensures Gives(pre, name, v) ==>
            Effected(schema, Effect(target, SetTo(State(name))), pre, args) == Coerced(schema, target, v)
    ensures Interpret(e, pre, args) == Ok(v) ==>
            Effected(schema, Effect(target, SetTo(Computed(e))), pre, args) == Coerced(schema, target, v)
    ensures Interpret(e, pre, args).Fault? ==>
            Effected(schema, Effect(target, SetTo(Computed(e))), pre, args).PutCrashed?
  {
    hide Coerced, Interpret;
  }

  // What a step counts from: an empty field counts as zero.
  predicate Counts(pre: Row, target: string, n: int) {
    Gives(pre, target, Int(n)) || (Gives(pre, target, Nil) && n == 0)
  }

  // A step lands the sum, the difference or the product of what the field held and what it is given, or
  // crashes past 64 bits.
  lemma StepsLand(schema: Schema, target: string, pre: Row, args: Env, name: string, n: int, step: int)
    requires target in schema.fields && Counts(pre, target, n) && Gives(args, name, Int(step))
    ensures forall source :: source == Literal(Int(step)) || source == Argument(name) ==>
              && Effected(schema, Effect(target, Increment(source)), pre, args)
                 == (if -0x8000_0000_0000_0000 <= n + step <= 0x7FFF_FFFF_FFFF_FFFF
                     then Coerced(schema, target, Int(n + step)) else PutCrashed)
              && Effected(schema, Effect(target, Decrement(source)), pre, args)
                 == (if -0x8000_0000_0000_0000 <= n - step <= 0x7FFF_FFFF_FFFF_FFFF
                     then Coerced(schema, target, Int(n - step)) else PutCrashed)
              && Effected(schema, Effect(target, Multiply(source)), pre, args)
                 == (if -0x8000_0000_0000_0000 <= n * step <= 0x7FFF_FFFF_FFFF_FFFF
                     then Coerced(schema, target, Int(n * step)) else PutCrashed)
  {
    hide Coerced;
  }

  // A clamp lands the nearest number within its bounds.
  lemma ClampsLand(schema: Schema, target: string, pre: Row, args: Env, n: int, min: int, max: int)
    requires target in schema.fields && Counts(pre, target, n) && min <= max
    ensures exists m ::
              && min <= m <= max
              && Effected(schema, Effect(target, Clamp(min, max)), pre, args) == Coerced(schema, target, Int(m))
              && (min <= n <= max ==> m == n) && (n < min ==> m == min) && (n > max ==> m == max)
  {
    hide Coerced;
    var m := if n < min then min else if n > max then max else n;
    assert Effected(schema, Effect(target, Clamp(min, max)), pre, args) == Coerced(schema, target, Int(m));
  }

  // ----- The record a command leaves -----

  // The `i`th effect is the first that puts nothing.
  ghost predicate FirstUnput(schema: Schema, effects: seq<Effect>, pre: Row, args: Env, i: nat)
    requires forall e :: e in effects ==> e.target in schema.fields
  {
    i < |effects| && !Effected(schema, effects[i], pre, args).Put?
    && forall j :: 0 <= j < i ==> Effected(schema, effects[j], pre, args).Put?
  }

  lemma {:induction false} ApplyIsFirst(schema: Schema, effects: seq<Effect>, pre: Row, args: Env, candidate: Row)
    requires forall e :: e in effects ==> e.target in schema.fields
    ensures var out := ApplyEffects(schema, effects, pre, args, candidate);
            && (out.Saved? <==> AllPut(schema, effects, pre, args))
            && (!out.Saved? ==> exists i: nat :: FirstUnput(schema, effects, pre, args, i))
            && (forall i: nat :: FirstUnput(schema, effects, pre, args, i) ==>
                  out == match Effected(schema, effects[i], pre, args) case PutRefused(why) => Refused(why) case _ =>
                      Crashed)
    decreases |effects|
  {
    hide Effected;
    if effects != [] {
      var first, rest := Effected(schema, effects[0], pre, args), effects[1..];
      assert effects == [effects[0]] + rest && effects[0] in effects;
      if first.Put? {
        var next := candidate[effects[0].target := first.v];
        ApplyIsFirst(schema, rest, pre, args, next);
        forall i: nat ensures FirstUnput(schema, effects, pre, args, i + 1) <==>
            FirstUnput(schema, rest, pre, args, i) {
          UnputLater(schema, effects, pre, args, i);
        }
        forall i: nat | FirstUnput(schema, effects, pre, args, i)
          ensures i > 0 && FirstUnput(schema, rest, pre, args, i - 1) && effects[i] == rest[i - 1]
        {
          assert FirstUnput(schema, effects, pre, args, (i - 1) + 1);
        }
        if !ApplyEffects(schema, effects, pre, args, candidate).Saved? {
          var i: nat :| FirstUnput(schema, rest, pre, args, i);
          assert FirstUnput(schema, effects, pre, args, i + 1);
        }
      } else {
        assert FirstUnput(schema, effects, pre, args, 0);
      }
    }
  }

  lemma UnputLater(schema: Schema, effects: seq<Effect>, pre: Row, args: Env, i: nat)
    requires effects != [] && forall e :: e in effects ==> e.target in schema.fields
    requires Effected(schema, effects[0], pre, args).Put?
    ensures FirstUnput(schema, effects, pre, args, i + 1) <==> FirstUnput(schema, effects[1..], pre, args, i)
  {
    hide Effected;
    var rest := effects[1..];
    assert forall j :: 0 <= j < |rest| ==> rest[j] == effects[j + 1];
    if FirstUnput(schema, rest, pre, args, i) {
      forall j | 0 <= j < i + 1 ensures Effected(schema, effects[j], pre, args).Put? {
        if j > 0 {
          assert rest[j - 1] == effects[j];
        }
      }
    }
  }

  // The `k`th move is the first declared one that admits the state.
  predicate MovesBy(moves: seq<Move>, current: string, k: nat) {
    k < |moves| && Leaves(moves[k], current) && forall i :: 0 <= i < k ==> !Leaves(moves[i], current)
  }

  predicate Leaves(move: Move, current: string) {
    move.from.None? || exists i :: 0 <= i < |move.from.value| && move.from.value[i] == current
  }

  lemma {:induction false} MoveIsFirst(moves: seq<Move>, current: string)
    ensures forall k: nat :: MovesBy(moves, current, k) ==> MoveFor(moves, current) == Some(moves[k])
    ensures MoveFor(moves, current).Some? ==> exists k: nat :: MovesBy(moves, current, k)
  {
    if moves != [] {
      var rest := moves[1..];
      MoveIsFirst(rest, current);
      assert Admits(moves[0], current) == Leaves(moves[0], current);
      assert forall i :: 0 <= i < |rest| ==> rest[i] == moves[i + 1];
      if Leaves(moves[0], current) {
        assert MovesBy(moves, current, 0);
      } else {
        forall k: nat | MovesBy(moves, current, k) ensures k > 0 && MovesBy(rest, current, k - 1) {
          assert forall i :: 0 <= i < k - 1 ==> rest[i] == moves[i + 1];
        }
        if k: nat :| MovesBy(rest, current, k) {
          forall i | 0 <= i < k + 1 ensures !Leaves(moves[i], current) {
            if i > 0 {
              assert rest[i - 1] == moves[i];
            }
          }
          assert MovesBy(moves, current, k + 1);
        }
      }
    }
  }

  // `after` is the record a command makes of another: each effect's field holds what the effect puts, the
  // lifecycle field the state the first admitting move leads to, and every other field what it held.
  ghost predicate Becomes(schema: Schema, command: Command, row: Row, args: Env, after: Row)
    requires WellFormed(command, schema)
  {
    && (forall name :: name in after <==> name in row || Targets(command.effects, name) || Moves(schema, command, name))
    && (forall e :: e in command.effects ==>
        e.target in after && Effected(schema, e, row, args) == Put(after[e.target]))
    && (command.moves != [] ==>
          exists k: nat :: MovesBy(command.moves, CurrentState(schema, row), k) && schema.lifecycle.value in after
                           && after[schema.lifecycle.value] == Str(command.moves[k].target))
    && (forall name :: name in row && !Targets(command.effects, name) && !Moves(schema, command, name) ==>
          name in after && after[name] == row[name])
  }

  lemma BecomesOnce(schema: Schema, command: Command, row: Row, args: Env, a: Row, b: Row)
    requires WellFormed(command, schema)
    requires Becomes(schema, command, row, args, a) && Becomes(schema, command, row, args, b)
    ensures a == b
  {
    hide Effected, CurrentState;
    assert a.Keys == b.Keys;
    forall name | name in a ensures a[name] == b[name] {
      TargetsByMembers(command.effects, name);
      if Moves(schema, command, name) {
        MovedOnce(command.moves, CurrentState(schema, row));
      }
    }
  }

  lemma MovedOnce(moves: seq<Move>, current: string)
    ensures forall k: nat, l: nat :: MovesBy(moves, current, k) && MovesBy(moves, current, l) ==> k == l
  {
  }

  lemma AdvancedBecomes(schema: Schema, command: Command, row: Row, args: Env)
    requires WellFormed(command, schema) && AllPut(schema, command.effects, row, args)
    requires command.moves != [] ==> MoveFor(command.moves, CurrentState(schema, row)).Some?
    ensures var out := ApplyEffects(schema, command.effects, row, args, row);
            out.Saved? && Becomes(schema, command, row, args, Advanced(schema, command, row, out.row))
  {
    hide Effected, CurrentState, MoveFor, ApplyEffects;
    UpdateSetSettles(schema, command.effects, row, args, row);
    MoveIsFirst(command.moves, CurrentState(schema, row));
    forall e | e in command.effects ensures Targets(command.effects, e.target) {
      TargetsByMembers(command.effects, e.target);
    }
    forall name ensures Targets(command.effects, name) ==> name in schema.fields {
      TargetsByMembers(command.effects, name);
    }
  }

  // ----- The verdict -----

  // The state a record's lifecycle field holds.
  predicate StandsIn(schema: Schema, row: Row, state: string) {
    if schema.lifecycle.Some? && schema.lifecycle.value in row && row[schema.lifecycle.value].Str?
    then row[schema.lifecycle.value].s == state else state == ""
  }

  // The command may be sent to a record that stands so, and some declared move leaves there.
  ghost predicate StateAdmits(command: Command, state: string) {
    && (command.from.Some? ==> exists i :: 0 <= i < |command.from.value| && command.from.value[i] == state)
    && (command.moves != [] ==> exists m :: m in command.moves && Leaves(m, state))
  }

  // Past the role, the givens and the lifecycle.
  ghost predicate Entered(schema: Schema, command: Command, row: Row, args: Env, roleHeld: bool) {
    && roleHeld && Clears(command.givens, row, args)
    && exists state :: StandsIn(schema, row, state) && StateAdmits(command, state)
  }

  // An argument does not shadow a settled field of its name in an `ensures`.
  function Unshadowed(args: Env, settled: Row): Env {
    map name | name in args && name !in settled :: args[name]
  }

  // The rules in their order, each verdict by what it takes to come to it.
  ghost predicate Rules(schema: Schema, command: Command, row: Row, args: Env, roleHeld: bool, verdict: Verdict)
    requires WellFormed(command, schema)
  {
    match verdict
    case Saved(r) =>
      Entered(schema, command, row, args, roleHeld) && Becomes(schema, command, row, args, r)
      && Clears(command.ensuring, r, Unshadowed(args, r)) && Clears(schema.invariants, r, map[])
    case Refused(Unauthorized) => !roleHeld
    case Refused(GivenNotMet(k)) => roleHeld && FailsAt(command.givens, row, args, k)
    case Refused(LifecycleBlocked(state)) =>
      roleHeld && Clears(command.givens, row, args) && StandsIn(schema, row, state) && !StateAdmits(command, state)
    case Refused(EnsuresNotMet(k)) =>
      Entered(schema, command, row, args, roleHeld)
      && exists r :: Becomes(schema, command, row, args, r) && FailsAt(command.ensuring, r, Unshadowed(args, r), k)
    case Refused(InvariantBroken(k)) =>
      Entered(schema, command, row, args, roleHeld)
      && exists r :: Becomes(schema, command, row, args, r) && Clears(command.ensuring, r, Unshadowed(args, r))
                     && FailsAt(schema.invariants, r, map[], k)
    case Refused(NotFound) => false
    case Refused(why) =>
      Entered(schema, command, row, args, roleHeld)
      && exists i: nat :: FirstUnput(schema, command.effects, row, args, i)
                          && Effected(schema, command.effects[i], row, args) == PutRefused(why)
    case Crashed =>
      || (roleHeld && FaultsIn(command.givens, row, args))
      || (Entered(schema, command, row, args, roleHeld)
          && ((exists i: nat :: FirstUnput(schema, command.effects, row, args, i)
                                && Effected(schema, command.effects[i], row, args).PutCrashed?)
              || (exists r :: Becomes(schema, command, row, args, r)
                              && (FaultsIn(command.ensuring, r, Unshadowed(args, r))
                                  || (Clears(command.ensuring, r, Unshadowed(args, r))
                                      && FaultsIn(schema.invariants, r, map[]))))))
  }

  lemma StateIsCurrent(schema: Schema, row: Row)
    ensures forall state :: StandsIn(schema, row, state) <==> state == CurrentState(schema, row)
  {
  }

  lemma AdmitsIsLeaving(command: Command, state: string)
    ensures StateAdmits(command, state) <==>
            (command.from.Some? ==> state in command.from.value)
                && (command.moves != [] ==> MoveFor(command.moves, state).Some?)
  {
    FirstAdmittingMove(command.moves, state);
    forall m | m in command.moves ensures Admits(m, state) == Leaves(m, state) { }
  }

  lemma EnteredIs(schema: Schema, command: Command, row: Row, args: Env, roleHeld: bool)
    ensures var state := CurrentState(schema, row);
            Entered(schema, command, row, args, roleHeld) <==>
            roleHeld && Judge(command.givens, row, args).Pass? && StateAdmits(command, state)
    ensures roleHeld ==> (Judge(command.givens, row, args).Pass? <==> Clears(command.givens, row, args))
  {
    hide Judge, Clears, StateAdmits, CurrentState, StandsIn;
    StateIsCurrent(schema, row);
    JudgeIsFirst(command.givens, row, args, 0);
  }

  lemma UnshadowedIs(args: Env, settled: Row)
    ensures Unshadowed(args, settled) == args - settled.Keys
  {
  }

  // Only the kind of a value, or a check of its value object, refuses it.
  lemma PutRefusals(schema: Schema, e: Effect, pre: Row, args: Env)
    requires e.target in schema.fields
    ensures var put := Effected(schema, e, pre, args);
            put.PutRefused? ==> put.why.TypeMismatch? || put.why.ValueRefused?
  {
    hide Judge, Interpret, Combine;
  }

  // What comes after the writes.
  lemma SettledRules(schema: Schema, command: Command, row: Row, args: Env, roleHeld: bool, r: Row)
    requires WellFormed(command, schema) && Entered(schema, command, row, args, roleHeld)
    requires Becomes(schema, command, row, args, r)
    ensures Rules(schema, command, row, args, roleHeld, Settled(schema, command, r, args))
  {
    hide Judge, Becomes, Entered, FailsAt, FaultsIn, Clears, FirstUnput;
    UnshadowedIs(args, r);
    JudgeIsFirst(command.ensuring, r, args - r.Keys, 0);
    JudgeIsFirst(schema.invariants, r, map[], 0);
    var j, i := Judge(command.ensuring, r, args - r.Keys), Judge(schema.invariants, r, map[]);
    if j.Fails? {
      assert j == Fails(0 + j.index) && FailsAt(command.ensuring, r, args - r.Keys, j.index);
    }
    if i.Fails? {
      assert i == Fails(0 + i.index) && FailsAt(schema.invariants, r, map[], i.index);
    }
  }

  // Every dispatch comes to a verdict the rules give.
  lemma DispatchedRules(schema: Schema, command: Command, row: Row, args: Env, roleHeld: bool)
    requires WellFormed(command, schema)
    ensures Rules(schema, command, row, args, roleHeld, Dispatched(schema, command, row, args, roleHeld))
  {
    hide Judge, Becomes, FailsAt, FaultsIn, Clears, FirstUnput, ApplyEffects, Effected, MoveFor, StateAdmits, StandsIn,
        CurrentState, Settled, Advanced, AllPut;
    var state := CurrentState(schema, row);
    StateIsCurrent(schema, row);
    AdmitsIsLeaving(command, state);
    JudgeIsFirst(command.givens, row, args, 0);
    var j := Judge(command.givens, row, args);
    if j.Fails? {
      assert j == Fails(0 + j.index) && FailsAt(command.givens, row, args, j.index);
    }
    if roleHeld && j.Pass? && StateAdmits(command, state) {
      var out := ApplyEffects(schema, command.effects, row, args, row);
      ApplyIsFirst(schema, command.effects, row, args, row);
      if out.Saved? {
        AdvancedBecomes(schema, command, row, args);
        SettledRules(schema, command, row, args, roleHeld, Advanced(schema, command, row, out.row));
      } else {
        var i: nat :| FirstUnput(schema, command.effects, row, args, i);
        UnputIs(schema, command, row, args, i);
      }
    }
  }

  lemma UnputIs(schema: Schema, command: Command, row: Row, args: Env, i: nat)
    requires WellFormed(command, schema) && FirstUnput(schema, command.effects, row, args, i)
    ensures i < |command.effects| && command.effects[i].target in schema.fields
    ensures var put := Effected(schema, command.effects[i], row, args);
            put.PutCrashed? || (put.PutRefused? && (put.why.TypeMismatch? || put.why.ValueRefused?))
  {
    hide Effected;
    PutRefusals(schema, command.effects[i], row, args);
  }

  // Past the lifecycle, a record the command can make of this one is the one it settles.
  lemma BecomesSettles(schema: Schema, command: Command, row: Row, args: Env, roleHeld: bool, r: Row)
    requires WellFormed(command, schema) && Entered(schema, command, row, args, roleHeld)
    requires Becomes(schema, command, row, args, r)
    ensures Dispatched(schema, command, row, args, roleHeld) == Settled(schema, command, r, args)
  {
    assert AllPut(schema, command.effects, row, args);
    hide Judge, Becomes, Entered, ApplyEffects, Effected, MoveFor, StateAdmits, CurrentState, Settled, Advanced, AllPut;
    EnteredIs(schema, command, row, args, roleHeld);
    AdmitsIsLeaving(command, CurrentState(schema, row));
    AdvancedBecomes(schema, command, row, args);
    var out := ApplyEffects(schema, command.effects, row, args, row);
    BecomesOnce(schema, command, row, args, r, Advanced(schema, command, row, out.row));
  }

  lemma UnputStops(schema: Schema, command: Command, row: Row, args: Env, roleHeld: bool, i: nat)
    requires WellFormed(command, schema) && Entered(schema, command, row, args, roleHeld)
    requires FirstUnput(schema, command.effects, row, args, i)
    ensures Dispatched(schema, command, row, args, roleHeld) ==
            match Effected(schema, command.effects[i], row, args) case PutRefused(why) => Refused(why) case _ => Crashed
  {
    assert !AllPut(schema, command.effects, row, args) by {
      assert command.effects[i] in command.effects;
    }
    hide Judge, Entered, ApplyEffects, Effected, MoveFor, StateAdmits, CurrentState, Settled, Advanced, AllPut,
        FirstUnput;
    EnteredIs(schema, command, row, args, roleHeld);
    AdmitsIsLeaving(command, CurrentState(schema, row));
    ApplyIsFirst(schema, command.effects, row, args, row);
    UnputIs(schema, command, row, args, i);
  }

  lemma GivensDecide(schema: Schema, command: Command, row: Row, args: Env, roleHeld: bool)
    requires WellFormed(command, schema) && roleHeld
    ensures var verdict := Dispatched(schema, command, row, args, roleHeld);
            && (forall k: nat :: FailsAt(command.givens, row, args, k) ==> verdict == Refused(GivenNotMet(k)))
            && (FaultsIn(command.givens, row, args) ==> verdict == Crashed)
            && (Clears(command.givens, row, args) ==>
                  forall state :: StandsIn(schema, row, state) && !StateAdmits(command, state) ==>
                      verdict == Refused(LifecycleBlocked(state)))
  {
    hide Judge, ApplyEffects, MoveFor, StateAdmits, StandsIn, CurrentState, Settled, Advanced, Clears, FailsAt,
        FaultsIn;
    StateIsCurrent(schema, row);
    AdmitsIsLeaving(command, CurrentState(schema, row));
    JudgeIsFirst(command.givens, row, args, 0);
    var j := Judge(command.givens, row, args);
    forall k: nat | FailsAt(command.givens, row, args, k) ensures j == Fails(k) {
      assert j == Fails(0 + k);
    }
  }

  lemma SettledDecide(schema: Schema, command: Command, r: Row, args: Env)
    ensures var verdict := Settled(schema, command, r, args);
            && (forall k: nat :: FailsAt(command.ensuring, r, Unshadowed(args, r), k) ==>
                verdict == Refused(EnsuresNotMet(k)))
            && (FaultsIn(command.ensuring, r, Unshadowed(args, r)) ==> verdict == Crashed)
            && (Clears(command.ensuring, r, Unshadowed(args, r)) ==>
                  && (forall k: nat :: FailsAt(schema.invariants, r, map[], k) ==>
                      verdict == Refused(InvariantBroken(k)))
                  && (FaultsIn(schema.invariants, r, map[]) ==> verdict == Crashed)
                  && (Clears(schema.invariants, r, map[]) ==> verdict == Saved(r)))
  {
    hide Judge, Clears, FailsAt, FaultsIn, Unshadowed;
    UnshadowedIs(args, r);
    JudgeIsFirst(command.ensuring, r, args - r.Keys, 0);
    JudgeIsFirst(schema.invariants, r, map[], 0);
    var j, i := Judge(command.ensuring, r, args - r.Keys), Judge(schema.invariants, r, map[]);
    forall k: nat | FailsAt(command.ensuring, r, args - r.Keys, k) ensures j == Fails(k) {
      assert j == Fails(0 + k);
    }
    forall k: nat | FailsAt(schema.invariants, r, map[], k) ensures i == Fails(k) {
      assert i == Fails(0 + k);
    }
  }

  // Past the writes the record decides.
  lemma RecordDecides(schema: Schema, command: Command, row: Row, args: Env, roleHeld: bool, r: Row, verdict: Verdict)
    requires WellFormed(command, schema) && Entered(schema, command, row, args, roleHeld)
    requires Becomes(schema, command, row, args, r)
    requires match verdict
             case Saved(after) => after == r && Clears(command.ensuring, r, Unshadowed(args, r))
                 && Clears(schema.invariants, r, map[])
             case Refused(EnsuresNotMet(k)) => FailsAt(command.ensuring, r, Unshadowed(args, r), k)
             case Refused(InvariantBroken(k)) =>
               Clears(command.ensuring, r, Unshadowed(args, r)) && FailsAt(schema.invariants, r, map[], k)
             case Crashed =>
               || FaultsIn(command.ensuring, r, Unshadowed(args, r))
               || (Clears(command.ensuring, r, Unshadowed(args, r)) && FaultsIn(schema.invariants, r, map[]))
             case _ => false
    ensures Dispatched(schema, command, row, args, roleHeld) == verdict
  {
    hide Dispatched, Settled, Becomes, Entered, Clears, FailsAt, FaultsIn, Unshadowed;
    BecomesSettles(schema, command, row, args, roleHeld, r);
    SettledDecide(schema, command, r, args);
  }

  // And only to that one.
  lemma RulesDecide(schema: Schema, command: Command, row: Row, args: Env, roleHeld: bool, verdict: Verdict)
    requires WellFormed(command, schema) && Rules(schema, command, row, args, roleHeld, verdict)
    ensures Dispatched(schema, command, row, args, roleHeld) == verdict
  {
    hide Dispatched, Becomes, Entered, Clears, FailsAt, FaultsIn, Effected, StandsIn, StateAdmits, Unshadowed;
    NotEntered(schema, command, row, args);
    match verdict {
      case Saved(r) => RecordDecides(schema, command, row, args, roleHeld, r, verdict);
      case Refused(Unauthorized) => NotHeld(schema, command, row, args);
      case Refused(GivenNotMet(_)) => GivensDecide(schema, command, row, args, roleHeld);
      case Refused(LifecycleBlocked(_)) => GivensDecide(schema, command, row, args, roleHeld);
      case Refused(EnsuresNotMet(k)) =>
        var r :| Becomes(schema, command, row, args, r) && FailsAt(command.ensuring, r, Unshadowed(args, r), k);
        RecordDecides(schema, command, row, args, roleHeld, r, verdict);
      case Refused(InvariantBroken(k)) =>
        var r :| Becomes(schema, command, row, args, r) && Clears(command.ensuring, r, Unshadowed(args, r))
                 && FailsAt(schema.invariants, r, map[], k);
        RecordDecides(schema, command, row, args, roleHeld, r, verdict);
      case Refused(NotFound) =>
      case Refused(TypeMismatch(_)) => UnputDecides(schema, command, row, args, roleHeld, verdict.why);
      case Refused(ValueRefused(_)) => UnputDecides(schema, command, row, args, roleHeld, verdict.why);
      case Crashed => CrashDecides(schema, command, row, args, roleHeld);
    }
  }

  lemma UnputDecides(schema: Schema, command: Command, row: Row, args: Env, roleHeld: bool, why: Refusal)
    requires WellFormed(command, schema) && Entered(schema, command, row, args, roleHeld)
    requires exists i: nat :: FirstUnput(schema, command.effects, row, args, i)
                              && Effected(schema, command.effects[i], row, args) == PutRefused(why)
    ensures Dispatched(schema, command, row, args, roleHeld) == Refused(why)
  {
    hide Dispatched, Entered, Effected;
    var i: nat :| FirstUnput(schema, command.effects, row, args, i)
                  && Effected(schema, command.effects[i], row, args) == PutRefused(why);
    UnputStops(schema, command, row, args, roleHeld, i);
  }

  lemma CrashDecides(schema: Schema, command: Command, row: Row, args: Env, roleHeld: bool)
    requires WellFormed(command, schema) && Rules(schema, command, row, args, roleHeld, Crashed)
    ensures Dispatched(schema, command, row, args, roleHeld) == Crashed
  {
    hide Dispatched, Becomes, Entered, Clears, FailsAt, FaultsIn, Effected, StandsIn, StateAdmits, Unshadowed;
    if roleHeld && FaultsIn(command.givens, row, args) {
      GivensDecide(schema, command, row, args, roleHeld);
    } else if i: nat :| FirstUnput(schema, command.effects, row, args, i)
                        && Effected(schema, command.effects[i], row, args).PutCrashed? {
      UnputStops(schema, command, row, args, roleHeld, i);
    } else {
      var r :| Becomes(schema, command, row, args, r)
               && (FaultsIn(command.ensuring, r, Unshadowed(args, r))
                   || (Clears(command.ensuring, r, Unshadowed(args, r)) && FaultsIn(schema.invariants, r, map[])));
      RecordDecides(schema, command, row, args, roleHeld, r, Crashed);
    }
  }

  lemma NotHeld(schema: Schema, command: Command, row: Row, args: Env)
    requires WellFormed(command, schema)
    ensures Dispatched(schema, command, row, args, false) == Refused(Unauthorized)
  {
  }

  lemma NotEntered(schema: Schema, command: Command, row: Row, args: Env)
    ensures !Entered(schema, command, row, args, false)
  {
  }

  // Every dispatch comes to exactly the verdict the rules give: it saves a record exactly when the role
  // is held, every given holds, the lifecycle admits the command, every effect puts a value, and every
  // `ensures` and invariant holds of the record it makes; else the first rule that fails is the refusal.
  lemma DispatchedExactly(schema: Schema, command: Command, row: Row, args: Env, roleHeld: bool, verdict: Verdict)
    requires WellFormed(command, schema)
    ensures Dispatched(schema, command, row, args, roleHeld) == verdict <==>
            Rules(schema, command, row, args, roleHeld, verdict)
  {
    hide Dispatched, Rules;
    DispatchedRules(schema, command, row, args, roleHeld);
    if Rules(schema, command, row, args, roleHeld, verdict) {
      RulesDecide(schema, command, row, args, roleHeld, verdict);
    }
  }
}
