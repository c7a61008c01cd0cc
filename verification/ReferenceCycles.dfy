// Rings of references: the build's depth-first search over a bluebook's aggregates, and the search
// for jobs that need each other in a circle.
module ReferenceCycles {
  import opened Wrappers
  import opened Lists

  // What an entity references, and the pieces nested in it.
  datatype Entity = Entity(references: seq<string>, entities: seq<Entity>)

  datatype Aggregate = Aggregate(name: string, references: seq<string>, entities: seq<Entity>)

  type Graph<N> = map<N, seq<N>>

  // An edge between declared names; a name the graph does not declare is dangling, not an edge.
  predicate Arrow<N(==)>(g: Graph<N>, a: N, b: N) {
    a in g && b in g && b in g[a]
  }

  predicate Walk<N(==)>(g: Graph<N>, path: seq<N>) {
    && (forall n :: n in path ==> n in g)
    && (forall i :: 0 <= i < |path| - 1 ==> Arrow(g, path[i], path[i + 1]))
  }

  // A walk that ends where it can step back to its start.
  predicate Closed<N(==)>(g: Graph<N>, ring: seq<N>) {
    ring != [] && Walk(g, ring) && Arrow(g, ring[|ring| - 1], ring[0])
  }

  ghost predicate IsRing<N(!new)>(g: Graph<N>, ring: seq<N>) {
    Closed(g, ring) && NoDuplicates(ring)
  }

  // ----- The depth-first search -----

  datatype Mark = Visiting | Done

  // The marks, the path and the finished names of a search tell one story.
  ghost predicate Fits<N(!new)>(g: Graph<N>, state: map<N, Mark>, path: seq<N>, finished: seq<N>) {
    && NoDuplicates(path) && Walk(g, path)
    && (forall n :: n in path <==> n in state && state[n] == Visiting)
    && (forall n :: n in finished <==> n in state && state[n] == Done)
    && state.Keys <= g.Keys
    && Settled(g, finished)
  }

  ghost predicate Kept<N(!new)>(before: seq<N>, after: seq<N>) {
    forall n :: n in before ==> n in after
  }

  // The first `k` targets that are names are finished.
  ghost predicate Passed<N>(g: Graph<N>, targets: seq<N>, k: nat, finished: seq<N>) {
    k <= |targets| && forall i :: 0 <= i < k && targets[i] in g ==> targets[i] in finished
  }

  lemma OnPath<N(!new)>(g: Graph<N>, state: map<N, Mark>, path: seq<N>, finished: seq<N>, node: N)
    requires Fits(g, state, path, finished) && path != [] && path[|path| - 1] == node
    ensures node in g
  {
    assert node in path;
  }

  lemma NonePassed<N(!new)>(g: Graph<N>, targets: seq<N>, finished: seq<N>)
    ensures Passed(g, targets, 0, finished) && Kept(finished, finished)
  {
  }

  lemma PassedOneMore<N(!new)>(g: Graph<N>, targets: seq<N>, k: nat, finished: seq<N>)
    requires k < |targets| && Passed(g, targets, k, finished) && (targets[k] in g ==> targets[k] in finished)
    ensures Passed(g, targets, k + 1, finished)
  {
  }

  lemma AllPassed<N(!new)>(g: Graph<N>, node: N, finished: seq<N>)
    requires node in g && Passed(g, g[node], |g[node]|, finished)
    ensures forall b :: Arrow(g, node, b) ==> b in finished
  {
  }

  lemma KeptOn<N(!new)>(a: seq<N>, b: seq<N>, c: seq<N>)
    requires Kept(a, b) && Kept(b, c)
    ensures Kept(a, c)
  {
  }

  lemma PassedStill<N(!new)>(g: Graph<N>, targets: seq<N>, k: nat, before: seq<N>, after: seq<N>)
    requires Passed(g, targets, k, before) && Kept(before, after)
    ensures Passed(g, targets, k, after)
  {
  }

  class CycleSearch<N(==,!new)> {
    const edges: Graph<N>
    var state: map<N, Mark>
    var path: seq<N>
    // The finished names, in the order they finished.
    ghost var finished: seq<N>

    ghost predicate Valid()
      reads this
    {
      Fits(edges, state, path, finished)
    }

    ghost function Unmarked(): nat
      reads this
    {
      |edges.Keys - state.Keys|
    }

    constructor (edges: Graph<N>)
      ensures Valid() && this.edges == edges && path == [] && state == map[]
    {
      this.edges := edges;
      state := map[];
      path := [];
      finished := [];
    }

    // Answers a ring, or marks `node` done; nothing it passed leads back to the path.
    method From(node: N) returns (ring: Option<seq<N>>)
      requires Valid() && node in edges
      requires path != [] ==> Arrow(edges, path[|path| - 1], node)
      modifies this
      ensures ring.Some? ==> IsRing(edges, ring.value)
      ensures ring.None? ==> Valid() && path == old(path) && node in finished
      ensures ring.None? ==> Kept(old(finished), finished) && Unmarked() <= old(Unmarked())
      decreases Unmarked(), 0
    {
      hide IsRing, Unmarked, Walk, Settled, NoDuplicates;
      if node in state && state[node] == Done {
        return None;
      }
      if node in state {
        RingOnPath(edges, path, node);
        return Some(path[IndexOf(path, node)..]);
      }
      Enter(node);
      ring := FirstThrough(node);
      if ring.None? {
        Leave(node);
      }
    }

    method Enter(node: N)
      requires Valid() && node in edges && node !in state
      requires path != [] ==> Arrow(edges, path[|path| - 1], node)
      modifies this`state, this`path
      ensures Valid() && path == old(path) + [node] && state == old(state)[node := Visiting]
      ensures Unmarked() < old(Unmarked())
    {
      Entered(edges, state, path, finished, node);
      state := state[node := Visiting];
      path := path + [node];
    }

    method Leave(node: N)
      requires Valid() && path != [] && path[|path| - 1] == node
      requires forall b :: Arrow(edges, node, b) ==> b in finished
      modifies this
      ensures Valid() && path == old(path)[..|old(path)| - 1]
      ensures finished == old(finished) + [node] && Unmarked() == old(Unmarked())
    {
      Left(edges, state, path, finished);
      path := path[..|path| - 1];
      state := state[node := Done];
      finished := finished + [node];
    }

    method FromKey(keys: seq<N>, k: nat) returns (ring: Option<seq<N>>)
      requires Valid() && path == [] && k < |keys| && keys[k] in edges && Passed(edges, keys, k, finished)
      modifies this
      ensures ring.Some? ==> IsRing(edges, ring.value)
      ensures ring.None? ==> Valid() && path == [] && Passed(edges, keys, k + 1, finished)
    {
      ghost var before := finished;
      ring := From(keys[k]);
      if ring.None? {
        PassedStill(edges, keys, k, before, finished);
      }
    }

    method FromEach(keys: seq<N>) returns (ring: Option<seq<N>>)
      requires Valid() && path == [] && forall i :: 0 <= i < |keys| ==> keys[i] in edges
      modifies this
      ensures ring.Some? ==> IsRing(edges, ring.value)
      ensures ring.None? ==> Settled(edges, finished) && Passed(edges, keys, |keys|, finished)
    {
      ring := None;
      var k := 0;
      while k < |keys| && ring.None?
        invariant 0 <= k <= |keys|
        invariant ring.Some? ==> IsRing(edges, ring.value)
        invariant ring.None? ==> Valid() && path == [] && Passed(edges, keys, k, finished)
      {
        ring := FromKey(keys, k);
        k := k + 1;
      }
    }

    method FirstThrough(node: N) returns (ring: Option<seq<N>>)
      requires Valid() && path != [] && path[|path| - 1] == node
      modifies this
      ensures ring.Some? ==> IsRing(edges, ring.value)
      ensures ring.None? ==> Valid() && path == old(path) && forall b :: Arrow(edges, node, b) ==> b in finished
      ensures ring.None? ==> Kept(old(finished), finished) && Unmarked() <= old(Unmarked())
      decreases Unmarked(), 1
    {
      OnPath(edges, state, path, finished, node);
      hide IsRing, Fits, Passed, Kept, Unmarked;
      NonePassed(edges, edges[node], finished);
      var targets := edges[node];
      var k := 0;
      while k < |targets|
        invariant 0 <= k <= |targets|
        invariant Valid() && path == old(path)
        invariant Kept(old(finished), finished) && Unmarked() <= old(Unmarked())
        invariant Passed(edges, targets, k, finished)
      {
        if targets[k] in edges {
          ghost var before := finished;
          assert targets[k] in targets;
          ring := From(targets[k]);
          if ring.Some? {
            return;
          }
          PassedStill(edges, targets, k, before, finished);
          KeptOn(old(finished), before, finished);
        }
        PassedOneMore(edges, targets, k, finished);
        k := k + 1;
      }
      AllPassed(edges, node, finished);
      return None;
    }
  }

  lemma Fewer<N(!new)>(a: set<N>, b: set<N>)
    requires a < b
    ensures |a| < |b|
  {
    var x :| x in b && x !in a;
    FewerOrSame(a, b - {x});
  }

  lemma {:induction false} FewerOrSame<N(!new)>(a: set<N>, b: set<N>)
    requires a <= b
    ensures |a| <= |b|
    decreases |a|
  {
    if a != {} {
      var x :| x in a;
      FewerOrSame(a - {x}, b - {x});
    }
  }

  function IndexOf<N(==)>(s: seq<N>, x: N): (k: nat)
    requires x in s
    ensures k < |s| && s[k] == x
  {
    if s[0] == x then 0 else 1 + IndexOf(s[1..], x)
  }

  // Every name points only at names finished before it.
  ghost predicate Settled<N(!new)>(g: Graph<N>, finished: seq<N>) {
    forall i, b :: 0 <= i < |finished| && Arrow(g, finished[i], b) ==> b in finished[..i]
  }

  lemma SettledOnceMore<N(!new)>(g: Graph<N>, finished: seq<N>, node: N)
    requires Settled(g, finished) && forall b :: Arrow(g, node, b) ==> b in finished
    ensures Settled(g, finished + [node])
  {
    var more := finished + [node];
    forall i, b | 0 <= i < |more| && Arrow(g, more[i], b) ensures b in more[..i] {
      assert more[..i] == finished[..i];
      if i == |finished| {
        assert finished[..i] == finished;
      }
    }
  }

  lemma Pushed<N(!new)>(g: Graph<N>, path: seq<N>, node: N)
    requires NoDuplicates(path) && Walk(g, path) && node !in path && node in g
    requires path != [] ==> Arrow(g, path[|path| - 1], node)
    ensures NoDuplicates(path + [node]) && Walk(g, path + [node])
  {
  }

  lemma Popped<N(!new)>(g: Graph<N>, path: seq<N>)
    requires NoDuplicates(path) && Walk(g, path) && path != []
    ensures var shorter := path[..|path| - 1];
            NoDuplicates(shorter) && Walk(g, shorter) &&
            forall n :: n in shorter <==> n in path && n != path[|path| - 1]
  {
    assert path == path[..|path| - 1] + [path[|path| - 1]];
  }

  lemma Entered<N(!new)>(g: Graph<N>, state: map<N, Mark>, path: seq<N>, finished: seq<N>, node: N)
    requires Fits(g, state, path, finished) && node in g && node !in state
    requires path != [] ==> Arrow(g, path[|path| - 1], node)
    ensures Fits(g, state[node := Visiting], path + [node], finished)
    ensures |g.Keys - state[node := Visiting].Keys| < |g.Keys - state.Keys|
  {
    Pushed(g, path, node);
    var before, after := g.Keys - state.Keys, g.Keys - state[node := Visiting].Keys;
    assert node in before && node !in after && after <= before;
    Fewer(after, before);
  }

  lemma Left<N(!new)>(g: Graph<N>, state: map<N, Mark>, path: seq<N>, finished: seq<N>)
    requires Fits(g, state, path, finished) && path != []
    requires forall b :: Arrow(g, path[|path| - 1], b) ==> b in finished
    ensures var node := path[|path| - 1];
            && Fits(g, state[node := Done], path[..|path| - 1], finished + [node])
            && state[node := Done].Keys == state.Keys
  {
    var node := path[|path| - 1];
    SettledOnceMore(g, finished, node);
    Popped(g, path);
    assert node in path;
  }

  lemma RingOnPath<N(!new)>(g: Graph<N>, path: seq<N>, node: N)
    requires NoDuplicates(path) && Walk(g, path) && node in path
    requires Arrow(g, path[|path| - 1], node)
    ensures IsRing(g, path[IndexOf(path, node)..])
  {
    var k := IndexOf(path, node);
    var ring := path[k..];
    forall n | n in ring ensures n in g { assert n in path; }
    forall i | 0 <= i < |ring| - 1 ensures Arrow(g, ring[i], ring[i + 1]) {
      assert Arrow(g, path[k + i], path[k + i + 1]);
    }
  }

  lemma FinishedHasNoRing<N(!new)>(g: Graph<N>, keys: seq<N>, finished: seq<N>)
    requires Settled(g, finished) && Passed(g, keys, |keys|, finished)
    requires forall n :: n in g ==> n in keys
    ensures forall ring :: !Closed(g, ring)
  {
    forall ring ensures !Closed(g, ring) {
      SettledHasNoRing(g, finished, ring);
    }
  }

  // The check over a bluebook's names, in declaration order.
  method FindCycle<N(==,!new)>(keys: seq<N>, edges: Graph<N>) returns (ring: Option<seq<N>>)
    requires forall n :: n in keys <==> n in edges
    ensures ring.Some? ==> IsRing(edges, ring.value)
    ensures ring.None? ==> forall closed :: !Closed(edges, closed)
  {
    var search := new CycleSearch(edges);
    ring := search.FromEach(keys);
    if ring.None? {
      FinishedHasNoRing(edges, keys, search.finished);
    }
  }

  lemma {:induction false} FirstIndex<N(!new)>(s: seq<N>, x: N, i: nat)
    requires i <= |s| && x in s[..i]
    ensures x in s && IndexOf(s, x) < i
  {
    if s[0] != x {
      assert s[..i] == [s[0]] + s[1..][..i - 1];
      FirstIndex(s[1..], x, i - 1);
    }
  }

  lemma {:induction false} WalkFalls<N(!new)>(g: Graph<N>, finished: seq<N>, ring: seq<N>, j: nat)
    requires Settled(g, finished) && Walk(g, ring) && j < |ring|
    requires forall n :: n in g ==> n in finished
    ensures IndexOf(finished, ring[j]) + j <= IndexOf(finished, ring[0])
  {
    if j > 0 {
      WalkFalls(g, finished, ring, j - 1);
      assert Arrow(g, ring[j - 1], ring[j - 1 + 1]);
      FirstIndex(finished, ring[j], IndexOf(finished, ring[j - 1]));
    }
  }

  lemma SettledHasNoRing<N(!new)>(g: Graph<N>, finished: seq<N>, ring: seq<N>)
    requires Settled(g, finished)
    requires forall n :: n in g ==> n in finished
    ensures !Closed(g, ring)
  {
    if Closed(g, ring) {
      var last := |ring| - 1;
      WalkFalls(g, finished, ring, last);
      FirstIndex(finished, ring[0], IndexOf(finished, ring[last]));
      assert false;
    }
  }

  // ----- What a bluebook declares -----

  function Owned(entities: seq<Entity>): seq<string> {
    if entities == [] then [] else entities[0].references + Owned(entities[1..])
  }

  // Every aggregate's targets: its own references and those of the pieces it owns directly.
  function PointsAt(aggregates: seq<Aggregate>): Graph<string> {
    if aggregates == [] then map[]
    else
      var last := aggregates[|aggregates| - 1];
      PointsAt(aggregates[..|aggregates| - 1])[last.name := last.references + Owned(last.entities)]
  }

  function Others<N(==)>(targets: seq<N>, name: N): seq<N> {
    if targets == [] then []
    else if targets[0] == name then Others(targets[1..], name) else [targets[0]] + Others(targets[1..], name)
  }

  // A name's own mention of itself is no edge.
  function SelfFree<N(==)>(g: Graph<N>): Graph<N> {
    map n | n in g :: Others(g[n], n)
  }

  lemma {:induction false} OthersIn<N>(targets: seq<N>, name: N, x: N)
    ensures x in Others(targets, name) <==> x in targets && x != name
  {
    if targets != [] {
      OthersIn(targets[1..], name, x);
    }
  }

  lemma SelfFreeArrow<N>(g: Graph<N>, a: N, b: N)
    ensures Arrow(SelfFree(g), a, b) <==> Arrow(g, a, b) && a != b
  {
    if a in g {
      OthersIn(g[a], a, b);
    }
  }

  predicate Steps<N(==)>(g: Graph<N>, ring: seq<N>, i: nat)
    requires i < |ring|
  {
    Arrow(g, ring[i], ring[if i + 1 < |ring| then i + 1 else 0])
  }

  lemma ClosedBySteps<N>(g: Graph<N>, ring: seq<N>)
    ensures Closed(g, ring) <==> ring != [] && forall i :: 0 <= i < |ring| ==> Steps(g, ring, i)
  {
    if ring != [] && forall i :: 0 <= i < |ring| ==> Steps(g, ring, i) {
      forall i | 0 <= i < |ring| - 1 ensures Arrow(g, ring[i], ring[i + 1]) { assert Steps(g, ring, i); }
      assert Steps(g, ring, |ring| - 1);
      forall n | n in ring ensures n in g {
        var i :| 0 <= i < |ring| && ring[i] == n;
        assert Steps(g, ring, i);
      }
    }
  }

  // A ring through at least two names.
  ghost predicate Joins<N(!new)>(g: Graph<N>, ring: seq<N>) {
    Closed(g, ring) && exists i, j :: 0 <= i < j < |ring| && ring[i] != ring[j]
  }

  // Standing still along a ring adds nothing: without those steps it is a ring of real edges.
  lemma {:induction false} DropStandingStill<N(!new)>(g: Graph<N>, ring: seq<N>) returns (moved: seq<N>)
    requires Joins(g, ring)
    ensures Closed(SelfFree(g), moved)
    decreases |ring|
  {
    ClosedBySteps(g, ring);
    if i :| 0 <= i < |ring| - 1 && ring[i] == ring[i + 1] {
      var shorter := ring[..i] + ring[i + 1..];
      ShorterJoins(g, ring, i);
      moved := DropStandingStill(g, shorter);
    } else if |ring| > 1 && ring[|ring| - 1] == ring[0] {
      LastJoins(g, ring);
      moved := DropStandingStill(g, ring[..|ring| - 1]);
    } else {
      moved := ring;
      forall i | 0 <= i < |ring| ensures Steps(SelfFree(g), ring, i) {
        assert Steps(g, ring, i);
        SelfFreeArrow(g, ring[i], ring[if i + 1 < |ring| then i + 1 else 0]);
      }
      ClosedBySteps(SelfFree(g), ring);
    }
  }

  lemma ShorterJoins<N(!new)>(g: Graph<N>, ring: seq<N>, i: nat)
    requires Joins(g, ring) && i < |ring| - 1 && ring[i] == ring[i + 1]
    ensures Joins(g, ring[..i] + ring[i + 1..])
  {
    var shorter := ring[..i] + ring[i + 1..];
    var a, b :| 0 <= a < b < |ring| && ring[a] != ring[b];
    var x, y := if a > i then a - 1 else a, if b > i then b - 1 else b;
    assert shorter[x] == ring[a] && shorter[y] == ring[b];
    forall k | 0 <= k < |shorter| - 1 ensures Arrow(g, shorter[k], shorter[k + 1]) {
      if k < i {
        assert Arrow(g, ring[k], ring[k + 1]);
      } else {
        assert Arrow(g, ring[k + 1], ring[k + 1 + 1]);
      }
    }
    forall n | n in shorter ensures n in g { assert n in ring; }
  }

  lemma LastJoins<N(!new)>(g: Graph<N>, ring: seq<N>)
    requires Joins(g, ring) && |ring| > 1 && ring[|ring| - 1] == ring[0]
    ensures Joins(g, ring[..|ring| - 1])
  {
    var shorter := ring[..|ring| - 1];
    var a, b :| 0 <= a < b < |ring| && ring[a] != ring[b];
    if b == |ring| - 1 {
      assert a > 0 && shorter[0] != shorter[a];
    } else {
      assert shorter[a] != shorter[b];
    }
    assert Arrow(g, ring[|ring| - 2], ring[|ring| - 2 + 1]);
    forall k | 0 <= k < |shorter| - 1 ensures Arrow(g, shorter[k], shorter[k + 1]) {
      assert Arrow(g, ring[k], ring[k + 1]);
    }
    forall n | n in shorter ensures n in g { assert n in ring; }
  }

  lemma SelfFreeJoins<N(!new)>(g: Graph<N>, ring: seq<N>)
    requires Closed(SelfFree(g), ring)
    ensures Joins(g, ring)
  {
    ClosedBySteps(SelfFree(g), ring);
    forall i | 0 <= i < |ring| ensures Steps(g, ring, i) {
      assert Steps(SelfFree(g), ring, i);
      SelfFreeArrow(g, ring[i], ring[if i + 1 < |ring| then i + 1 else 0]);
    }
    ClosedBySteps(g, ring);
    assert Steps(SelfFree(g), ring, 0);
    SelfFreeArrow(g, ring[0], ring[if 1 < |ring| then 1 else 0]);
    assert ring[0] != ring[1];
  }

  function NamesOf(aggregates: seq<Aggregate>): seq<string> {
    seq(|aggregates|, i requires 0 <= i < |aggregates| => aggregates[i].name)
  }

  lemma {:induction false} DeclaredNames(aggregates: seq<Aggregate>, n: string)
    ensures n in NamesOf(aggregates) <==> n in PointsAt(aggregates)
  {
    if aggregates != [] {
      var init := aggregates[..|aggregates| - 1];
      DeclaredNames(init, n);
      assert NamesOf(aggregates) == NamesOf(init) + [aggregates[|aggregates| - 1].name];
    }
  }

  // The build's check: refused with a ring exactly when references lead through two or more
  // aggregates back to where they started; one aggregate pointing at itself is admitted.
  method ValidateReferences(aggregates: seq<Aggregate>) returns (ring: Option<seq<string>>)
    ensures ring.None? ==> forall walk :: !Joins(PointsAt(aggregates), walk)
    ensures ring.Some? ==> Joins(PointsAt(aggregates), ring.value) && NoDuplicates(ring.value)
  {
    var g := PointsAt(aggregates);
    forall n ensures n in NamesOf(aggregates) <==> n in SelfFree(g) {
      DeclaredNames(aggregates, n);
    }
    ring := FindCycle(NamesOf(aggregates), SelfFree(g));
    if ring.Some? {
      SelfFreeJoins(g, ring.value);
    } else {
      forall walk ensures !Joins(g, walk) {
        if Joins(g, walk) {
          var moved := DropStandingStill(g, walk);
          assert false;
        }
      }
    }
  }

  // ----- Pieces nested in pieces -----

  function DeepOwned(entities: seq<Entity>): seq<string> {
    if entities == [] then []
    else entities[0].references + DeepOwned(entities[0].entities) + DeepOwned(entities[1..])
  }

  function DeepPointsAt(aggregates: seq<Aggregate>): Graph<string> {
    if aggregates == [] then map[]
    else
      var last := aggregates[|aggregates| - 1];
      DeepPointsAt(aggregates[..|aggregates| - 1])[last.name := last.references + DeepOwned(last.entities)]
  }

  predicate Shallow(entities: seq<Entity>) {
    forall e :: e in entities ==> DeepOwned(e.entities) == []
  }

  lemma {:induction false} ShallowOwned(entities: seq<Entity>)
    requires Shallow(entities)
    ensures DeepOwned(entities) == Owned(entities)
  {
    if entities != [] {
      assert entities[0] in entities;
      ShallowOwned(entities[1..]);
    }
  }

  // The check sees every reference of a bluebook whose nested pieces hold none.
  lemma {:induction false} ShallowIsSeen(aggregates: seq<Aggregate>)
    requires forall a :: a in aggregates ==> Shallow(a.entities)
    ensures DeepPointsAt(aggregates) == PointsAt(aggregates)
  {
    if aggregates != [] {
      assert aggregates[|aggregates| - 1] in aggregates;
      ShallowOwned(aggregates[|aggregates| - 1].entities);
      ShallowIsSeen(aggregates[..|aggregates| - 1]);
    }
  }

  // What the pieces nested in the pieces reference.
  function Nested(entities: seq<Entity>): seq<string> {
    if entities == [] then [] else DeepOwned(entities[0].entities) + Nested(entities[1..])
  }

  lemma {:induction false} DeepIsOwnedOrNested(entities: seq<Entity>, x: string)
    ensures x in DeepOwned(entities) <==> x in Owned(entities) || x in Nested(entities)
  {
    if entities != [] {
      DeepIsOwnedOrNested(entities[1..], x);
    }
  }

  function NestedAt(aggregates: seq<Aggregate>): Graph<string> {
    if aggregates == [] then map[]
    else
      var last := aggregates[|aggregates| - 1];
      NestedAt(aggregates[..|aggregates| - 1])[last.name := Nested(last.entities)]
  }

  lemma {:induction false} DeepTargets(aggregates: seq<Aggregate>, a: string, x: string)
    ensures a in PointsAt(aggregates) <==> a in DeepPointsAt(aggregates)
    ensures a in PointsAt(aggregates) <==> a in NestedAt(aggregates)
    ensures a in PointsAt(aggregates) ==>
              (x in DeepPointsAt(aggregates)[a] <==> x in PointsAt(aggregates)[a] || x in NestedAt(aggregates)[a])
  {
    if aggregates != [] {
      DeepTargets(aggregates[..|aggregates| - 1], a, x);
      DeepIsOwnedOrNested(aggregates[|aggregates| - 1].entities, x);
    }
  }

  // Every declared name a nested piece references is a direct target too, or the aggregate itself.
  ghost predicate NothingHidden(aggregates: seq<Aggregate>) {
    var g, nested := PointsAt(aggregates), NestedAt(aggregates);
    forall a, b :: a in g && a in nested && b in g && b in nested[a] ==> b == a || b in g[a]
  }

  ghost predicate SameEdges<N(!new)>(g: Graph<N>, h: Graph<N>) {
    forall a, b :: Arrow(g, a, b) <==> Arrow(h, a, b)
  }

  // The check reads exactly the edges a bluebook makes when, and only when, nothing is hidden.
  lemma SeenUnlessHidden(aggregates: seq<Aggregate>)
    ensures SameEdges(SelfFree(PointsAt(aggregates)), SelfFree(DeepPointsAt(aggregates))) <==> NothingHidden(aggregates)
  {
    var g, deep, nested := PointsAt(aggregates), DeepPointsAt(aggregates), NestedAt(aggregates);
    forall a, b
      ensures Arrow(SelfFree(g), a, b) <==> Arrow(g, a, b) && a != b
      ensures Arrow(SelfFree(deep), a, b) <==> Arrow(deep, a, b) && a != b
      ensures a in g <==> a in deep
      ensures a in g <==> a in nested
      ensures a in g ==> (b in deep[a] <==> b in g[a] || b in nested[a])
      ensures b in g <==> b in deep
    {
      SelfFreeArrow(g, a, b);
      SelfFreeArrow(deep, a, b);
      DeepTargets(aggregates, a, b);
      DeepTargets(aggregates, b, a);
    }
    if SameEdges(SelfFree(g), SelfFree(deep)) {
      forall a, b | a in g && a in nested && b in g && b in nested[a] ensures b == a || b in g[a] {
        assert Arrow(SelfFree(deep), a, b) <==> Arrow(SelfFree(g), a, b);
      }
    }
  }

  lemma SameRings<N(!new)>(g: Graph<N>, h: Graph<N>, ring: seq<N>)
    requires SameEdges(g, h) && Closed(g, ring)
    ensures Closed(h, ring)
  {
    ClosedBySteps(g, ring);
    ClosedBySteps(h, ring);
    forall i | 0 <= i < |ring| ensures Steps(h, ring, i) { assert Steps(g, ring, i); }
  }

  // Where nothing is hidden the check's verdict is the bluebook's: it refuses exactly when references,
  // however deep, lead through two or more aggregates back to where they started.
  lemma VerdictUnlessHidden(aggregates: seq<Aggregate>)
    requires NothingHidden(aggregates)
    ensures (exists ring :: Joins(PointsAt(aggregates), ring)) <==>
            (exists ring :: Joins(DeepPointsAt(aggregates), ring))
  {
    var g, deep := PointsAt(aggregates), DeepPointsAt(aggregates);
    SeenUnlessHidden(aggregates);
    if ring :| Joins(g, ring) {
      var moved := DropStandingStill(g, ring);
      SameRings(SelfFree(g), SelfFree(deep), moved);
      SelfFreeJoins(deep, moved);
    }
    if ring :| Joins(deep, ring) {
      var moved := DropStandingStill(deep, ring);
      SameRings(SelfFree(deep), SelfFree(g), moved);
      SelfFreeJoins(g, moved);
    }
  }

  lemma TwoAggregates(a: Aggregate, b: Aggregate)
    ensures PointsAt([a, b])
            == map[][a.name := a.references + Owned(a.entities)][b.name := b.references + Owned(b.entities)]
    ensures DeepPointsAt([a, b])
         == map[][a.name := a.references + DeepOwned(a.entities)][b.name := b.references + DeepOwned(b.entities)]
  {
    assert [a, b][..1] == [a] && [a][..0] == [];
    assert PointsAt([a]) == map[][a.name := a.references + Owned(a.entities)];
    assert DeepPointsAt([a]) == map[][a.name := a.references + DeepOwned(a.entities)];
  }

  // A ring through a piece nested in a piece is admitted: the check reads only directly owned pieces.
  lemma NestedRingIsAdmitted()
    ensures var board := Aggregate("Board", [], [Entity([], [Entity(["Product"], [])])]);
            var bluebook := [board, Aggregate("Product", ["Board"], [])];
            && Joins(DeepPointsAt(bluebook), ["Board", "Product"])
            && forall walk :: !Joins(PointsAt(bluebook), walk)
  {
    var board := Aggregate("Board", [], [Entity([], [Entity(["Product"], [])])]);
    var bluebook := [board, Aggregate("Product", ["Board"], [])];
    var product, inner := bluebook[1], Entity(["Product"], []);
    TwoAggregates(board, product);
    assert [inner][1..] == [] && board.entities[1..] == [];
    assert DeepOwned([inner]) == ["Product"] + DeepOwned(inner.entities) + DeepOwned([]) == ["Product"];
    assert DeepOwned(board.entities) == [] + DeepOwned([inner]) + DeepOwned([]) == ["Product"];
    assert Owned(board.entities) == [] + Owned([]) == [];
    var deep, g := DeepPointsAt(bluebook), PointsAt(bluebook);
    assert deep == map[][board.name := [] + DeepOwned(board.entities)][product.name := ["Board"] + DeepOwned([])];
    assert g == map[][board.name := [] + Owned(board.entities)][product.name := ["Board"] + Owned([])];
    assert "Board"[0] != "Product"[0];
    assert deep["Board"] == ["Product"] && deep["Product"] == ["Board"];
    var ring := ["Board", "Product"];
    assert "Product" in deep["Board"] && "Board" in deep["Product"];
    assert ring[0] != ring[1];
    assert Joins(deep, ring);
    assert g["Board"] == [] && g.Keys == {"Board", "Product"} && g["Product"] == ["Board"];
    forall walk ensures !Joins(g, walk) {
      SettledHasNoRing(g, ring, walk);
    }
  }

  // ----- Jobs that need each other -----

  predicate Declared<N(==,!new)>(g: Graph<N>) {
    forall a :: a in g ==> forall b :: b in g[a] ==> b in g
  }

  // A path of jobs, each needing the next, that extends `path` and needs its start again; tried in
  // the declared order from the `k`th need on.
  function CycleFrom<N(==,!new)>(g: Graph<N>, start: N, path: seq<N>, k: nat): Option<seq<N>>
    requires Declared(g) && path != [] && Walk(g, path) && NoDuplicates(path)
    requires k <= |g[path[|path| - 1]]|
    decreases |g.Keys - Names(path)|, |g[path[|path| - 1]]| - k
  {
    var needs := g[path[|path| - 1]];
    if k == |needs| then None
    else if needs[k] == start then Some(path)
    else if needs[k] in path then CycleFrom(g, start, path, k + 1)
    else
      Longer(g, path, needs[k]);
      var found := CycleFrom(g, start, path + [needs[k]], 0);
      if found.Some? then found else CycleFrom(g, start, path, k + 1)
  }

  function Names<N>(path: seq<N>): set<N> {
    set n | n in path
  }

  lemma NamesGrow<N(!new)>(path: seq<N>, next: N)
    ensures Names(path + [next]) == Names(path) + {next}
  {
  }

  lemma Longer<N(!new)>(g: Graph<N>, path: seq<N>, next: N)
    requires path != [] && Walk(g, path) && NoDuplicates(path) && next !in path && Arrow(g, path[|path| - 1], next)
    ensures Walk(g, path + [next]) && NoDuplicates(path + [next])
    ensures |g.Keys - Names(path + [next])| < |g.Keys - Names(path)|
  {
    Pushed(g, path, next);
    NamesGrow(path, next);
    var before, after := g.Keys - Names(path), g.Keys - Names(path + [next]);
    assert next in before && after == before - {next};
    Fewer(after, before);
  }

  // What it finds is a ring from its start.
  lemma {:induction false} FoundIsRing<N(!new)>(g: Graph<N>, start: N, path: seq<N>, k: nat)
    requires Declared(g) && path != [] && Walk(g, path) && NoDuplicates(path) && path[0] == start
    requires k <= |g[path[|path| - 1]]|
    ensures var found := CycleFrom(g, start, path, k);
            found.Some? ==> IsRing(g, found.value) && found.value[0] == start
    decreases |g.Keys - Names(path)|, |g[path[|path| - 1]]| - k
  {
    var needs := g[path[|path| - 1]];
    if k < |needs| && needs[k] != start {
      if needs[k] !in path {
        Longer(g, path, needs[k]);
        FoundIsRing(g, start, path + [needs[k]], 0);
      }
      FoundIsRing(g, start, path, k + 1);
    }
  }

  // A ring that extends the path is not missed.
  lemma {:induction false} RingIsFound<N(!new)>(g: Graph<N>, ring: seq<N>, n: nat, k: nat)
    requires Declared(g) && IsRing(g, ring) && 0 < n <= |ring|
    requires Walk(g, ring[..n]) && NoDuplicates(ring[..n])
    requires k <= |g[ring[n - 1]]| && Next(ring, n) in g[ring[n - 1]][k..]
    ensures CycleFrom(g, ring[0], ring[..n], k).Some?
    decreases |ring| - n, |g[ring[n - 1]]| - k
  {
    var needs, next := g[ring[n - 1]], Next(ring, n);
    assert needs[k..][1..] == needs[k + 1..];
    if needs[k] != next {
      RingIsFound(g, ring, n, k + 1);
    } else if n < |ring| {
      GrowsAlong(g, ring, n);
      RingIsFound(g, ring, n + 1, 0);
    }
  }

  function Next<N>(ring: seq<N>, n: nat): N
    requires 0 < n <= |ring|
  {
    if n < |ring| then ring[n] else ring[0]
  }

  lemma GrowsAlong<N(!new)>(g: Graph<N>, ring: seq<N>, n: nat)
    requires IsRing(g, ring) && 0 < n < |ring| && Walk(g, ring[..n]) && NoDuplicates(ring[..n])
    ensures ring[..n] + [ring[n]] == ring[..n + 1] && ring[n] !in ring[..n] && ring[n] != ring[0]
    ensures Walk(g, ring[..n + 1]) && NoDuplicates(ring[..n + 1])
    ensures Next(ring, n + 1) in g[ring[n]] && g[ring[n]][0..] == g[ring[n]]
  {
    assert Arrow(g, ring[n - 1], ring[n - 1 + 1]);
    assert ring[..n][n - 1] == ring[n - 1];
    assert ring[n] !in ring[..n];
    Longer(g, ring[..n], ring[n]);
    assert ring[..n] + [ring[n]] == ring[..n + 1];
    if n + 1 < |ring| {
      assert Arrow(g, ring[n], ring[n + 1]);
    }
  }

  // A closed walk holds a ring from the same start.
  lemma {:induction false} RingWithin<N(!new)>(g: Graph<N>, walk: seq<N>) returns (ring: seq<N>)
    requires Closed(g, walk)
    ensures IsRing(g, ring) && ring[0] == walk[0]
    decreases |walk|
  {
    if i, j :| 0 <= i < j < |walk| && walk[i] == walk[j] {
      var shorter := walk[..i] + walk[j..];
      forall n | n in shorter ensures n in g { assert n in walk; }
      forall k | 0 <= k < |shorter| - 1 ensures Arrow(g, shorter[k], shorter[k + 1]) {
        if k < i {
          assert Arrow(g, walk[k], walk[k + 1]);
        } else {
          assert Arrow(g, walk[k + j - i], walk[k + j - i + 1]);
        }
      }
      ring := RingWithin(g, shorter);
    } else {
      ring := walk;
    }
  }

  // A job is refused exactly when needs lead from it back to it, its own need included.
  lemma JobCycles<N(!new)>(g: Graph<N>, start: N)
    requires Declared(g) && start in g
    ensures CycleFrom(g, start, [start], 0).Some? <==> exists walk :: Closed(g, walk) && walk[0] == start
  {
    FoundIsRing(g, start, [start], 0);
    if walk :| Closed(g, walk) && walk[0] == start {
      var ring := RingWithin(g, walk);
      assert ring[..1] == [start] && g[start][0..] == g[start];
      assert |ring| > 1 ==> Arrow(g, ring[0], ring[0 + 1]);
      RingIsFound(g, ring, 1, 0);
    }
  }
}
