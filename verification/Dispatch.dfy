// One command dispatched against one record: the fixed order of role, givens, lifecycle,
// one simultaneous update set, ensures and invariants.
module Dispatch {
  import opened Wrappers
  import opened Expressions

  datatype Kind = Integer | Decimal | Textual

  // A field whose value object holds one primitive. `checks` are the rules its value object
  // declares over `value`; a field without any may be written by a statement unseen.
  datatype Field = Field(kind: Kind, checks: seq<Pred>) {
    predicate Writable() { checks == [] }
  }

  datatype Schema = Schema(fields: map<string, Field>, lifecycle: Option<string>, invariants: seq<Pred>) {
    ghost predicate Valid() {
      lifecycle.Some? ==> lifecycle.value !in fields
    }
    function Names(): set<string> {
      fields.Keys + (if lifecycle.Some? then {lifecycle.value} else {})
    }
  }

  type Row = Env

  predicate Conforms(kind: Kind, v: Value) {
    v.Nil? || match kind
              case Integer => v.Int?
              case Decimal => v.Float?
              case Textual => v.Str?
  }

  ghost predicate WellTyped(row: Row, schema: Schema) {
    && row.Keys == schema.Names()
    && (forall name :: name in schema.fields ==> Conforms(schema.fields[name].kind, row[name]))
    && (schema.lifecycle.Some? ==> Conforms(Textual, row[schema.lifecycle.value]))
  }

  datatype Source = Literal(v: Value) | Argument(name: string) | State(field: string) | Computed(e: Leaf)

  datatype Op =
    | SetTo(source: Source)
    | Increment(source: Source)
    | Decrement(source: Source)
    | Multiply(source: Source)
    | Clamp(min: int, max: int)

  datatype Effect = Effect(target: string, op: Op)

  // One declared move of the lifecycle; without `from` any state admits it.
  datatype Move = Move(from: Option<seq<string>>, target: string)

  datatype Command = Command(
    givens: seq<Pred>,
    from: Option<seq<string>>,
    moves: seq<Move>,
    effects: seq<Effect>,
    ensuring: seq<Pred>,
    emits: seq<string>)

  datatype Refusal =
    | NotFound
    | Unauthorized
    | GivenNotMet(index: nat)
    | LifecycleBlocked(current: string)
    | TypeMismatch(target: string)
    | ValueRefused(target: string)
    | EnsuresNotMet(index: nat)
    | InvariantBroken(index: nat)

  // A dispatch saves a record, refuses in the domain's own words, or crashes.
  datatype Verdict = Saved(row: Row) | Refused(why: Refusal) | Crashed

  ghost predicate Targets(effects: seq<Effect>, name: string) {
    exists i :: 0 <= i < |effects| && effects[i].target == name
  }

  ghost predicate DistinctTargets(effects: seq<Effect>) {
    forall i, j :: 0 <= i < j < |effects| ==> effects[i].target != effects[j].target
  }

  // What a bluebook's build already guarantees of a command of this aggregate.
  ghost predicate WellFormed(command: Command, schema: Schema) {
    && schema.Valid()
    && DistinctTargets(command.effects)
    && (forall e :: e in command.effects ==> e.target in schema.fields)
    && (command.from.Some? || command.moves != [] ==> schema.lifecycle.Some?)
  }

  // ----- Rules -----

  datatype Judgement = Pass | Fails(index: nat) | Faults

  function Judge(rules: seq<Pred>, state: Env, args: Env, index: nat := 0): Judgement
    decreases |rules|
  {
    if rules == [] then Pass
    else match Holds(rules[0], state, args)
         case Fault => Faults
         case Ok(held) => if held then Judge(rules[1..], state, args, index + 1) else Fails(index)
  }

  // ----- The update set -----

  datatype Put = Put(v: Value) | PutRefused(why: Refusal) | PutCrashed

  // A value lands in a field as its value object admits it.
  function Coerced(schema: Schema, target: string, v: Value): Put
    requires target in schema.fields
  {
    if v.Nil? then Put(v)
    else if !Conforms(schema.fields[target].kind, v) then PutRefused(TypeMismatch(target))
    else match Judge(schema.fields[target].checks, map["value" := v], map[])
         case Pass => Put(v)
         case Fails(_) => PutRefused(ValueRefused(target))
         case Faults => PutCrashed
  }

  function Held(pre: Row, name: string): Value {
    if name in pre then pre[name] else Nil
  }

  // An argument's value for a name, the literal itself otherwise.
  function Amount(source: Source, args: Env): Option<Value> {
    match source
    case Literal(v) => Some(v)
    case Argument(name) => Some(Held(args, name))
    case _ => None
  }

  function Stepped(schema: Schema, target: string, op: ArithOp, pre: Row, source: Source, args: Env): Put
    requires target in schema.fields
  {
    var current := if Held(pre, target).Nil? then Int(0) else Held(pre, target);
    var amount := Amount(source, args);
    if amount.None? || !Numeric(amount.value) || !Numeric(current) then PutRefused(TypeMismatch(target))
    else match Combine(op, current, amount.value)
         case Fault => PutCrashed
         case Ok(v) => Coerced(schema, target, v)
  }

  function ClampInto(schema: Schema, target: string, min: int, max: int, pre: Row): Put
    requires target in schema.fields
  {
    var current := if Held(pre, target).Nil? then Int(0) else Held(pre, target);
    if current.Int? && min <= max then
      Coerced(schema, target, Int(if current.i < min then min else if current.i > max then max else current.i))
    else PutRefused(TypeMismatch(target))
  }

  // What one effect writes. Every source reads `pre`, the record as it was before the command.
  function Effected(schema: Schema, effect: Effect, pre: Row, args: Env): Put
    requires effect.target in schema.fields
  {
    match effect.op
    case SetTo(Literal(v)) => Coerced(schema, effect.target, v)
    case SetTo(Argument(name)) => Coerced(schema, effect.target, Held(args, name))
    case SetTo(State(name)) => Coerced(schema, effect.target, Held(pre, name))
    case SetTo(Computed(e)) =>
      (match Interpret(e, pre, args)
       case Fault => PutCrashed
       case Ok(v) => Coerced(schema, effect.target, v))
    case Increment(source) => Stepped(schema, effect.target, Add, pre, source, args)
    case Decrement(source) => Stepped(schema, effect.target, Sub, pre, source, args)
    case Multiply(source) => Stepped(schema, effect.target, Mul, pre, source, args)
    case Clamp(min, max) => ClampInto(schema, effect.target, min, max, pre)
  }

  function ApplyEffects(schema: Schema, effects: seq<Effect>, pre: Row, args: Env, candidate: Row): Verdict
    requires forall e :: e in effects ==> e.target in schema.fields
    decreases |effects|
  {
    if effects == [] then Saved(candidate)
    else match Effected(schema, effects[0], pre, args)
         case Put(v) => ApplyEffects(schema, effects[1..], pre, args, candidate[effects[0].target := v])
         case PutRefused(why) => Refused(why)
         case PutCrashed => Crashed
  }

  // ----- The lifecycle -----

  function CurrentState(schema: Schema, row: Row): string {
    if schema.lifecycle.Some? && Held(row, schema.lifecycle.value).Str? then row[schema.lifecycle.value].s else ""
  }

  predicate Admits(move: Move, current: string) {
    move.from.None? || current in move.from.value
  }

  // The first declared move that admits the current state.
  function MoveFor(moves: seq<Move>, current: string): Option<Move> {
    if moves == [] then None
    else if Admits(moves[0], current) then Some(moves[0])
    else MoveFor(moves[1..], current)
  }

  // ----- The order -----

  function Dispatched(schema: Schema, command: Command, row: Row, args: Env, roleHeld: bool): Verdict
    requires WellFormed(command, schema)
  {
    var current := CurrentState(schema, row);
    if !roleHeld then Refused(Unauthorized)
    else match Judge(command.givens, row, args)
         case Faults => Crashed
         case Fails(index) => Refused(GivenNotMet(index))
         case Pass =>
           if command.from.Some? && current !in command.from.value then Refused(LifecycleBlocked(current))
           else if command.moves != [] && MoveFor(command.moves, current).None? then Refused(LifecycleBlocked(current))
           else match ApplyEffects(schema, command.effects, row, args, row)
                case Refused(why) => Refused(why)
                case Crashed => Crashed
                case Saved(written) => Settled(schema, command, Advanced(schema, command, row, written), args)
  }

  function Advanced(schema: Schema, command: Command, row: Row, written: Row): Row
    requires WellFormed(command, schema)
    requires command.moves != [] ==> MoveFor(command.moves, CurrentState(schema, row)).Some?
  {
    if command.moves == [] then written
    else written[schema.lifecycle.value := Str(MoveFor(command.moves, CurrentState(schema, row)).value.target)]
  }

  // An argument sharing a settled field's name does not shadow it in an `ensures`.
  function Settled(schema: Schema, command: Command, settled: Row, args: Env): Verdict {
    match Judge(command.ensuring, settled, args - settled.Keys)
    case Faults => Crashed
    case Fails(index) => Refused(EnsuresNotMet(index))
    case Pass =>
      match Judge(schema.invariants, settled, map[])
      case Faults => Crashed
      case Fails(index) => Refused(InvariantBroken(index))
      case Pass => Saved(settled)
  }

  // ----- What the update set settles -----

  ghost predicate AllPut(schema: Schema, effects: seq<Effect>, pre: Row, args: Env)
    requires forall e :: e in effects ==> e.target in schema.fields
  {
    forall e :: e in effects ==> Effected(schema, e, pre, args).Put?
  }

  // `after` holds what every effect puts and is `before` everywhere else.
  ghost predicate SettlesTo(schema: Schema, effects: seq<Effect>, pre: Row, args: Env, before: Row, after: Row)
    requires forall e :: e in effects ==> e.target in schema.fields
  {
    && (forall name :: name in after <==> name in before || Targets(effects, name))
    && (forall e :: e in effects ==>
          e.target in after && Effected(schema, e, pre, args) == Put(after[e.target]))
    && (forall name :: name in before && !Targets(effects, name) ==> name in after && after[name] == before[name])
  }

  lemma {:induction false} UpdateSetSettles(schema: Schema, effects: seq<Effect>, pre: Row, args: Env, candidate: Row)
    requires forall e :: e in effects ==> e.target in schema.fields
    requires DistinctTargets(effects)
    ensures ApplyEffects(schema, effects, pre, args, candidate).Saved? <==> AllPut(schema, effects, pre, args)
    ensures var out := ApplyEffects(schema, effects, pre, args, candidate);
            out.Saved? ==> SettlesTo(schema, effects, pre, args, candidate, out.row)
    decreases |effects|
  {
    if effects != [] {
      var first := Effected(schema, effects[0], pre, args);
      if first.Put? {
        var next := candidate[effects[0].target := first.v];
        UpdateSetSettles(schema, effects[1..], pre, args, next);
        assert effects == [effects[0]] + effects[1..];
        var out := ApplyEffects(schema, effects, pre, args, candidate);
        if out.Saved? {
          assert !Targets(effects[1..], effects[0].target);
          forall name ensures Targets(effects, name) <==> name == effects[0].target || Targets(effects[1..], name) {
            TargetsSplit(effects, name);
          }
          forall e | e in effects
            ensures e.target in out.row && Effected(schema, e, pre, args) == Put(out.row[e.target])
          {
            assert e == effects[0] || e in effects[1..];
          }
        }
      } else {
        assert effects[0] in effects;
      }
    }
  }

  lemma TargetsSplit(effects: seq<Effect>, name: string)
    requires effects != []
    ensures Targets(effects, name) <==> name == effects[0].target || Targets(effects[1..], name)
  {
    if Targets(effects[1..], name) {
      var i :| 0 <= i < |effects[1..]| && effects[1..][i].target == name;
      assert effects[i + 1].target == name;
    }
    if Targets(effects, name) && name != effects[0].target {
      var i :| 0 <= i < |effects| && effects[i].target == name;
      assert effects[1..][i - 1].target == name;
    }
  }

  ghost predicate SameMembers(effects: seq<Effect>, other: seq<Effect>) {
    forall e :: e in effects <==> e in other
  }

  lemma SameTargets(effects: seq<Effect>, other: seq<Effect>, name: string)
    requires SameMembers(effects, other)
    ensures Targets(effects, name) <==> Targets(other, name)
  {
    TargetsByMembers(effects, name);
    TargetsByMembers(other, name);
  }

  lemma SettledOnce(schema: Schema, effects: seq<Effect>, other: seq<Effect>, pre: Row, args: Env, before: Row, a: Row,
      b: Row)
    requires SameMembers(effects, other)
    requires forall e :: e in effects ==> e.target in schema.fields
    requires SettlesTo(schema, effects, pre, args, before, a)
    requires SettlesTo(schema, other, pre, args, before, b)
    ensures a == b
  {
    forall name
      ensures name in a <==> name in b
      ensures name in a && name in b ==> a[name] == b[name]
    {
      SameTargets(effects, other, name);
      if name in a && Targets(effects, name) {
        TargetsByMembers(effects, name);
        var e :| e in effects && e.target == name;
        assert e in other;
      }
    }
    assert a.Keys == b.Keys;
  }

  lemma {:induction false} WrittenOnce(effects: seq<Effect>, e: Effect)
    requires DistinctTargets(effects)
    ensures multiset(effects)[e] <= 1
  {
    if effects != [] {
      WrittenOnce(effects[1..], e);
      assert effects == [effects[0]] + effects[1..];
      if e == effects[0] {
        assert e !in effects[1..];
      }
    }
  }

  lemma WrittenTwice(effects: seq<Effect>, i: nat, j: nat)
    requires i < j < |effects| && effects[i] == effects[j]
    ensures multiset(effects)[effects[i]] >= 2
  {
    assert effects == effects[..j] + [effects[j]] + effects[j + 1..];
    assert effects[i] in effects[..j];
  }

  lemma StillDistinct(effects: seq<Effect>, other: seq<Effect>)
    requires multiset(effects) == multiset(other) && SameMembers(effects, other)
    requires DistinctTargets(effects)
    ensures DistinctTargets(other)
  {
    forall i, j | 0 <= i < j < |other| ensures other[i].target != other[j].target {
      assert other[i] in effects && other[j] in effects;
      if other[i] == other[j] {
        WrittenTwice(other, i, j);
        WrittenOnce(effects, other[i]);
      }
    }
  }

  // Declaration order carries no meaning: any rearrangement of distinct effects saves the same
  // record, and saves one exactly when the declared order does.
  lemma EffectsInAnyOrder(schema: Schema, effects: seq<Effect>, other: seq<Effect>, pre: Row, args: Env, candidate: Row)
    requires multiset(effects) == multiset(other)
    requires DistinctTargets(effects)
    requires forall e :: e in effects ==> e.target in schema.fields
    ensures SameMembers(effects, other)
    ensures var a, b :=
            ApplyEffects(schema, effects, pre, args, candidate), ApplyEffects(schema, other, pre, args, candidate);
            a.Saved? == b.Saved? && (a.Saved? ==> a == b)
  {
    forall e ensures e in effects <==> e in other {
      assert e in effects <==> e in multiset(effects);
      assert e in other <==> e in multiset(other);
    }
    StillDistinct(effects, other);
    UpdateSetSettles(schema, effects, pre, args, candidate);
    UpdateSetSettles(schema, other, pre, args, candidate);
    var a, b := ApplyEffects(schema, effects, pre, args, candidate), ApplyEffects(schema, other, pre, args, candidate);
    if a.Saved? {
      SettledOnce(schema, effects, other, pre, args, candidate, a.row, b.row);
    }
  }

  lemma TargetsByMembers(effects: seq<Effect>, name: string)
    ensures Targets(effects, name) <==> exists e :: e in effects && e.target == name
  {
    if e :| e in effects && e.target == name {
      var i :| 0 <= i < |effects| && effects[i] == e;
      assert effects[i].target == name;
    }
  }

  // The build's check, in declaration order: the first field written again.
  method RefuseDuplicateTargets(effects: seq<Effect>) returns (clash: Option<string>)
    ensures clash.None? <==> DistinctTargets(effects)
    ensures clash.Some? ==>
            exists i, j :: 0 <= i < j < |effects| && effects[i].target == effects[j].target == clash.value
  {
    var seen: map<string, Effect> := map[];
    var k := 0;
    while k < |effects|
      invariant 0 <= k <= |effects|
      invariant forall name :: name in seen <==> exists i :: 0 <= i < k && effects[i].target == name
      invariant DistinctTargets(effects[..k])
    {
      if effects[k].target in seen {
        return Some(effects[k].target);
      }
      seen := seen[effects[k].target := effects[k]];
      k := k + 1;
    }
    assert effects[..k] == effects;
    return None;
  }

  // The refusal is needed: two writes of one field that put different values leave a record that
  // depends on which was declared first.
  lemma DoubleWriteNeedsAnOrder(schema: Schema, a: Effect, b: Effect, pre: Row, args: Env)
    requires a.target == b.target && a.target in schema.fields
    requires Effected(schema, a, pre, args).Put? && Effected(schema, b, pre, args).Put?
    requires Effected(schema, a, pre, args) != Effected(schema, b, pre, args)
    ensures ApplyEffects(schema, [a, b], pre, args, pre) != ApplyEffects(schema, [b, a], pre, args, pre)
  {
    var va, vb := Effected(schema, a, pre, args).v, Effected(schema, b, pre, args).v;
    assert [a, b][1..] == [b] && [b, a][1..] == [a];
    var first, second := pre[a.target := va], pre[a.target := vb];
    assert ApplyEffects(schema, [a, b], pre, args, pre) == ApplyEffects(schema, [b], pre, args, first);
    assert ApplyEffects(schema, [b, a], pre, args, pre) == ApplyEffects(schema, [a], pre, args, second);
    assert ApplyEffects(schema, [b], pre, args, first) == Saved(first[a.target := vb]);
    assert ApplyEffects(schema, [a], pre, args, second) == Saved(second[a.target := va]);
    assert first[a.target := vb][a.target] == vb && second[a.target := va][a.target] == va;
  }

  // ----- What a saved record says -----

  lemma {:induction false} JudgePasses(rules: seq<Pred>, state: Env, args: Env, index: nat)
    ensures Judge(rules, state, args, index).Pass? <==> forall p :: p in rules ==> Holds(p, state, args) == Ok(true)
    decreases |rules|
  {
    if rules != [] {
      JudgePasses(rules[1..], state, args, index + 1);
      assert rules == [rules[0]] + rules[1..] && rules[0] in rules;
    }
  }

  lemma {:induction false} FirstAdmittingMove(moves: seq<Move>, current: string)
    ensures MoveFor(moves, current).Some? <==> exists m :: m in moves && Admits(m, current)
    ensures MoveFor(moves, current).Some? ==>
              MoveFor(moves, current).value in moves && Admits(MoveFor(moves, current).value, current)
  {
    if moves != [] {
      FirstAdmittingMove(moves[1..], current);
      assert moves == [moves[0]] + moves[1..];
    }
  }

  predicate Moves(schema: Schema, command: Command, name: string) {
    command.moves != [] && schema.lifecycle == Some(name)
  }

  // Everything a saved dispatch owes: the caller's role, every given before the writes, the
  // lifecycle guard, a declared move, each effect read from the old record and no other field
  // touched, and every ensures and invariant on the record that was saved.
  ghost predicate Lawful(schema: Schema, command: Command, row: Row, args: Env, roleHeld: bool, settled: Row)
    requires WellFormed(command, schema)
  {
    var current := CurrentState(schema, row);
    && roleHeld
    && (forall p :: p in command.givens ==> Holds(p, row, args) == Ok(true))
    && (command.from.Some? ==> current in command.from.value)
    && (forall e :: e in command.effects ==>
          e.target in settled && Effected(schema, e, row, args) == Put(settled[e.target]))
    && (command.moves != [] ==>
          exists m :: m in command.moves && Admits(m, current) && schema.lifecycle.value in settled
            && settled[schema.lifecycle.value] == Str(m.target))
    && (forall name :: name in row && !Targets(command.effects, name) && !Moves(schema, command, name) ==>
          name in settled && settled[name] == row[name])
    && (forall p :: p in command.ensuring ==> Holds(p, settled, args - settled.Keys) == Ok(true))
    && (forall p :: p in schema.invariants ==> Holds(p, settled, map[]) == Ok(true))
  }

  lemma SavedIsLawful(schema: Schema, command: Command, row: Row, args: Env, roleHeld: bool)
    requires WellFormed(command, schema)
    requires Dispatched(schema, command, row, args, roleHeld).Saved?
    ensures Lawful(schema, command, row, args, roleHeld, Dispatched(schema, command, row, args, roleHeld).row)
  {
    var current := CurrentState(schema, row);
    hide Dispatched, Judge, ApplyEffects, Effected, MoveFor, CurrentState, Advanced, Holds, SettlesTo;
    JudgePasses(command.givens, row, args, 0);
    UpdateSetSettles(schema, command.effects, row, args, row);
    var settled := Dispatched(schema, command, row, args, roleHeld).row;
    JudgePasses(command.ensuring, settled, args - settled.Keys, 0);
    JudgePasses(schema.invariants, settled, map[], 0);
    DispatchedPasses(schema, command, row, args, roleHeld);
    var written := ApplyEffects(schema, command.effects, row, args, row).row;
    AdvancedMoves(schema, command, row, args, written);
  }

  // Where a dispatch that saves has come through.
  lemma DispatchedPasses(schema: Schema, command: Command, row: Row, args: Env, roleHeld: bool)
    requires WellFormed(command, schema)
    requires Dispatched(schema, command, row, args, roleHeld).Saved?
    ensures roleHeld && Judge(command.givens, row, args).Pass?
    ensures command.from.Some? ==> CurrentState(schema, row) in command.from.value
    ensures command.moves != [] ==> MoveFor(command.moves, CurrentState(schema, row)).Some?
    ensures ApplyEffects(schema, command.effects, row, args, row).Saved?
    ensures var settled := Dispatched(schema, command, row, args, roleHeld).row;
            && settled == Advanced(schema, command, row, ApplyEffects(schema, command.effects, row, args, row).row)
            && Judge(command.ensuring, settled, args - settled.Keys).Pass?
            && Judge(schema.invariants, settled, map[]).Pass?
  {
    hide Judge, ApplyEffects, MoveFor, CurrentState, Advanced;
  }

  lemma AdvancedMoves(schema: Schema, command: Command, row: Row, args: Env, written: Row)
    requires WellFormed(command, schema)
    requires SettlesTo(schema, command.effects, row, args, row, written)
    requires command.moves != [] ==> MoveFor(command.moves, CurrentState(schema, row)).Some?
    ensures var settled := Advanced(schema, command, row, written); var current := CurrentState(schema, row);
            && (forall e :: e in command.effects ==>
                  e.target in settled && Effected(schema, e, row, args) == Put(settled[e.target]))
            && (command.moves != [] ==>
                  exists m :: m in command.moves && Admits(m, current) && schema.lifecycle.value in settled
                    && settled[schema.lifecycle.value] == Str(m.target))
            && (forall name :: name in row && !Targets(command.effects, name) && !Moves(schema, command, name) ==>
                  name in settled && settled[name] == row[name])
  {
    hide Effected, CurrentState, MoveFor;
    var current := CurrentState(schema, row);
    FirstAdmittingMove(command.moves, current);
    var settled := Advanced(schema, command, row, written);
    if command.moves != [] {
      var m := MoveFor(command.moves, current).value;
      assert m in command.moves && Admits(m, current);
      assert settled[schema.lifecycle.value] == Str(m.target);
    }
  }

  lemma AdvancedIsTyped(schema: Schema, command: Command, row: Row, written: Row)
    requires WellFormed(command, schema) && WellTyped(written, schema)
    requires command.moves != [] ==> MoveFor(command.moves, CurrentState(schema, row)).Some?
    ensures WellTyped(Advanced(schema, command, row, written), schema)
  {
  }

  // A saved record is as well typed as the one it replaces.
  lemma SavedIsTyped(schema: Schema, command: Command, row: Row, args: Env, roleHeld: bool)
    requires WellFormed(command, schema) && WellTyped(row, schema)
    requires Dispatched(schema, command, row, args, roleHeld).Saved?
    ensures WellTyped(Dispatched(schema, command, row, args, roleHeld).row, schema)
  {
    UpdateSetSettles(schema, command.effects, row, args, row);
    var written := ApplyEffects(schema, command.effects, row, args, row).row;
    forall e | e in command.effects ensures Conforms(schema.fields[e.target].kind, written[e.target]) {
      PutConforms(schema, e, row, args);
    }
    forall name ensures Targets(command.effects, name) ==> exists e :: e in command.effects && e.target == name {
      TargetsByMembers(command.effects, name);
    }
    assert WellTyped(written, schema);
    AdvancedIsTyped(schema, command, row, written);
  }

  lemma PutConforms(schema: Schema, e: Effect, pre: Row, args: Env)
    requires e.target in schema.fields
    ensures Effected(schema, e, pre, args).Put? ==>
              Conforms(schema.fields[e.target].kind, Effected(schema, e, pre, args).v)
  {
  }
}
