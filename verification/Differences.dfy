// Comparing a bluebook's dump with what was assembled back from it: the paths at which two trees
// differ, a key that is absent counting as one that holds nothing.
module Differences {
  datatype Tree = Nil | Scalar(text: string) | List(items: seq<Tree>) | Hash(fields: map<string, Tree>)

  datatype Step = Key(name: string) | Index(at: int)

  type Path = seq<Step>

  function Held(fields: map<string, Tree>, key: string): Tree {
    if key in fields then fields[key] else Nil
  }

  // Both are containers the comparison looks into.
  predicate Comparable(a: Tree, b: Tree) {
    (a.Hash? && b.Hash?) || (a.List? && b.List? && |a.items| == |b.items|)
  }

  // The paths at which the trees differ.
  function Differences(a: Tree, b: Tree): set<Path>
    decreases a
  {
    if a == b then {}
    else if a.Hash? && b.Hash? then
      (set k, p | k in a.fields && p in Differences(a.fields[k], Held(b.fields, k)) :: [Key(k)] + p)
      + (set k | k in b.fields && k !in a.fields && b.fields[k] != Nil :: [Key(k)])
    else if a.List? && b.List? && |a.items| == |b.items| then
      set i, p | 0 <= i < |a.items| && p in Differences(a.items[i], b.items[i]) :: [Index(i)] + p
    else {[]}
  }

  // The other comparison: it walks only the keys of its first tree.
  function OneSided(a: Tree, b: Tree): set<Path>
    decreases a
  {
    if a == b then {}
    else if a.Hash? && b.Hash? then
      set k, p | k in a.fields && p in OneSided(a.fields[k], Held(b.fields, k)) :: [Key(k)] + p
    else if a.List? && b.List? && |a.items| == |b.items| then
      set i, p | 0 <= i < |a.items| && p in OneSided(a.items[i], b.items[i]) :: [Index(i)] + p
    else {[]}
  }

  // A tree without the keys that hold nothing.
  function Pruned(t: Tree): Tree {
    match t
    case Hash(fields) => Hash(map k | k in fields && fields[k] != Nil :: Pruned(fields[k]))
    case List(items) => List(seq(|items|, i requires 0 <= i < |items| => Pruned(items[i])))
    case _ => t
  }

  // A tree without the keys another lacks.
  function Trimmed(t: Tree, like: Tree): Tree
    decreases t
  {
    if t.Hash? && like.Hash? then
      Hash(map k | k in t.fields && k in like.fields :: Trimmed(t.fields[k], like.fields[k]))
    else if t.List? && like.List? && |t.items| == |like.items| then
      List(seq(|t.items|, i requires 0 <= i < |t.items| => Trimmed(t.items[i], like.items[i])))
    else t
  }

  function At(t: Tree, path: Path): Tree
    decreases |path|
  {
    if path == [] then t
    else match path[0]
         case Key(name) => At(if t.Hash? then Held(t.fields, name) else Nil, path[1..])
         case Index(at) => At(if t.List? && 0 <= at < |t.items| then t.items[at] else Nil, path[1..])
  }

  // ----- Nothing reported means alike -----

  lemma NilPruned(t: Tree)
    ensures Pruned(t) == Nil <==> t == Nil
  {
  }

  lemma {:induction false} SilentWhenAlike(a: Tree, b: Tree)
    requires Pruned(a) == Pruned(b)
    ensures Differences(a, b) == {}
    decreases a
  {
    if a == b {
    } else if a.Hash? && b.Hash? {
      forall k | k in a.fields ensures Differences(a.fields[k], Held(b.fields, k)) == {} {
        NilPruned(a.fields[k]);
        NilPruned(Held(b.fields, k));
        SilentAtKey(a.fields, b.fields, k);
        SilentWhenAlike(a.fields[k], Held(b.fields, k));
      }
      forall k | k in b.fields && k !in a.fields ensures b.fields[k] == Nil {
        SilentAtKey(a.fields, b.fields, k);
      }
    } else if a.List? && b.List? {
      assert |Pruned(a).items| == |Pruned(b).items|;
      forall i | 0 <= i < |a.items| ensures Differences(a.items[i], b.items[i]) == {} {
        assert Pruned(a).items[i] == Pruned(b).items[i];
        SilentWhenAlike(a.items[i], b.items[i]);
      }
    }
  }

  // At a key, trees pruned alike hold the same, pruned.
  lemma SilentAtKey(a: map<string, Tree>, b: map<string, Tree>, k: string)
    requires Pruned(Hash(a)) == Pruned(Hash(b))
    ensures Pruned(Held(a, k)) == Pruned(Held(b, k))
  {
    var x, y := Pruned(Hash(a)).fields, Pruned(Hash(b)).fields;
    assert k in x <==> k in y;
    assert Held(a, k) != Nil <==> k in x;
    assert Held(b, k) != Nil <==> k in y;
  }

  lemma {:induction false} AlikeWhenSilent(a: Tree, b: Tree)
    requires Differences(a, b) == {}
    ensures Pruned(a) == Pruned(b)
    decreases a
  {
    assert a != b && !Comparable(a, b) ==> [] in Differences(a, b);
    if a == b {
    } else if a.Hash? && b.Hash? {
      forall k ensures Pruned(Held(a.fields, k)) == Pruned(Held(b.fields, k)) {
        if k in a.fields {
          assert forall p :: p in Differences(a.fields[k], Held(b.fields, k)) ==> [Key(k)] + p in Differences(a, b);
          AlikeWhenSilent(a.fields[k], Held(b.fields, k));
        } else {
          assert k in b.fields && b.fields[k] != Nil ==> [Key(k)] in Differences(a, b);
        }
      }
      SameFields(a.fields, b.fields);
    } else if a.List? && b.List? && |a.items| == |b.items| {
      forall i | 0 <= i < |a.items| ensures Pruned(a.items[i]) == Pruned(b.items[i]) {
        assert forall p :: p in Differences(a.items[i], b.items[i]) ==> [Index(i)] + p in Differences(a, b);
        AlikeWhenSilent(a.items[i], b.items[i]);
      }
    }
  }

  lemma SameFields(a: map<string, Tree>, b: map<string, Tree>)
    requires forall k :: Pruned(Held(a, k)) == Pruned(Held(b, k))
    ensures Pruned(Hash(a)) == Pruned(Hash(b))
  {
    var x, y := Pruned(Hash(a)).fields, Pruned(Hash(b)).fields;
    forall k ensures k in x <==> k in y
             ensures k in x ==> x[k] == y[k]
    {
      assert Pruned(Held(a, k)) == Pruned(Held(b, k));
      NilPruned(Held(a, k));
      NilPruned(Held(b, k));
    }
    assert x == y;
  }

  // Nothing is reported exactly when the trees are equal up to keys that hold nothing.
  lemma SilentIffAlike(a: Tree, b: Tree)
    ensures Differences(a, b) == {} <==> Pruned(a) == Pruned(b)
  {
    if Pruned(a) == Pruned(b) {
      SilentWhenAlike(a, b);
    }
    if Differences(a, b) == {} {
      AlikeWhenSilent(a, b);
    }
  }

  // Every path reported leads to a real difference, between things not looked into further.
  lemma {:induction false} ReportsAreReal(a: Tree, b: Tree, path: Path)
    requires path in Differences(a, b)
    ensures At(a, path) != At(b, path) && !Comparable(At(a, path), At(b, path))
    decreases a
  {
    if a.Hash? && b.Hash? {
      if k, p :| k in a.fields && p in Differences(a.fields[k], Held(b.fields, k)) && path == [Key(k)] + p {
        assert path[1..] == p;
        ReportsAreReal(a.fields[k], Held(b.fields, k), p);
      } else {
        var k :| k in b.fields && k !in a.fields && b.fields[k] != Nil && path == [Key(k)];
        assert path[1..] == [];
      }
    } else if a.List? && b.List? && |a.items| == |b.items| {
      var i, p :| 0 <= i < |a.items| && p in Differences(a.items[i], b.items[i]) && path == [Index(i)] + p;
      assert path[1..] == p;
      ReportsAreReal(a.items[i], b.items[i], p);
    }
  }

  // ----- The one-sided comparison -----

  // It reports what the other reports, but for keys only the second tree has.
  lemma {:induction false} OneSidedTrims(a: Tree, b: Tree)
    ensures OneSided(a, b) == Differences(a, Trimmed(b, a))
    decreases a
  {
    if a == b {
      TrimmedToItself(a);
    } else if a.Hash? && b.Hash? {
      var c := Trimmed(b, a);
      forall k | k in a.fields
          ensures OneSided(a.fields[k], Held(b.fields, k)) == Differences(a.fields[k], Held(c.fields, k)) {
        OneSidedTrims(a.fields[k], Held(b.fields, k));
      }
      TrimmedHash(a, b);
    } else if a.List? && b.List? && |a.items| == |b.items| {
      var c := Trimmed(b, a);
      forall i | 0 <= i < |a.items| ensures OneSided(a.items[i], b.items[i]) == Differences(a.items[i], c.items[i]) {
        OneSidedTrims(a.items[i], b.items[i]);
      }
      TrimmedList(a, b);
    }
  }

  lemma TrimmedHash(a: Tree, b: Tree)
    requires a != b && a.Hash? && b.Hash?
    requires forall k :: k in a.fields ==>
               OneSided(a.fields[k], Held(b.fields, k)) == Differences(a.fields[k], Held(Trimmed(b, a).fields, k))
    ensures OneSided(a, b) == Differences(a, Trimmed(b, a))
  {
    var c := Trimmed(b, a);
    assert a == c ==> forall k :: k in a.fields ==> Held(c.fields, k) == a.fields[k];
  }

  lemma TrimmedList(a: Tree, b: Tree)
    requires a != b && a.List? && b.List? && |a.items| == |b.items|
    requires forall i :: 0 <= i < |a.items| ==>
             OneSided(a.items[i], b.items[i]) == Differences(a.items[i], Trimmed(b, a).items[i])
    ensures OneSided(a, b) == Differences(a, Trimmed(b, a))
  {
    var c := Trimmed(b, a);
    assert a == c ==> forall i :: 0 <= i < |a.items| ==> c.items[i] == a.items[i];
  }

  lemma {:induction false} TrimmedToItself(t: Tree)
    ensures Trimmed(t, t) == t
  {
    match t {
      case Hash(fields) =>
        forall k | k in fields ensures Trimmed(fields[k], fields[k]) == fields[k] { TrimmedToItself(fields[k]); }
        assert Trimmed(t, t).fields == fields;
      case List(items) =>
        forall i | 0 <= i < |items| ensures Trimmed(items[i], items[i]) == items[i] { TrimmedToItself(items[i]); }
        assert Trimmed(t, t).items == items;
      case _ =>
    }
  }

  // So it is silent exactly when the second tree, cut down to the first one's keys, is alike.
  lemma OneSidedSilent(a: Tree, b: Tree)
    ensures OneSided(a, b) == {} <==> Pruned(a) == Pruned(Trimmed(b, a))
  {
    OneSidedTrims(a, b);
    SilentIffAlike(a, Trimmed(b, a));
  }
}
