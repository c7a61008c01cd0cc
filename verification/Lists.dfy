// Lists split by a set of chosen members, and lists with the same members in another order.
module Lists {
  function Among<T(==)>(s: seq<T>, chosen: set<T>): seq<T> {
    if s == [] then []
    else if s[0] in chosen then [s[0]] + Among(s[1..], chosen) else Among(s[1..], chosen)
  }

  function Without<T(==)>(s: seq<T>, chosen: set<T>): seq<T> {
    if s == [] then []
    else if s[0] in chosen then Without(s[1..], chosen) else [s[0]] + Without(s[1..], chosen)
  }

  ghost predicate NoDuplicates<T>(s: seq<T>) {
    forall i, j :: 0 <= i < j < |s| ==> s[i] != s[j]
  }

  lemma {:induction false} ChosenAndNot<T>(s: seq<T>, chosen: set<T>)
    ensures multiset(s) == multiset(Among(s, chosen)) + multiset(Without(s, chosen))
  {
    if s == [] {
    } else {
      ChosenAndNot(s[1..], chosen);
      assert s == [s[0]] + s[1..];
    }
  }

  lemma {:induction false} AmongIsIn<T>(s: seq<T>, chosen: set<T>, x: T)
    ensures x in Among(s, chosen) <==> x in s && x in chosen
  {
    if s == [] {
    } else {
      AmongIsIn(s[1..], chosen, x);
      assert s == [s[0]] + s[1..];
    }
  }

  lemma {:induction false} AmongOnce<T>(s: seq<T>, chosen: set<T>)
    requires NoDuplicates(s)
    ensures NoDuplicates(Among(s, chosen))
  {
    if s == [] {
    } else {
      AmongIsIn(s[1..], chosen, s[0]);
      AmongOnce(s[1..], chosen);
    }
  }

  lemma {:induction false} CountedOnce<T>(s: seq<T>, x: T)
    requires NoDuplicates(s)
    ensures multiset(s)[x] == if x in s then 1 else 0
  {
    if s == [] {
    } else {
      CountedOnce(s[1..], x);
      assert s == [s[0]] + s[1..];
    }
  }

  lemma SameMembersOnce<T>(a: seq<T>, b: seq<T>)
    requires NoDuplicates(a) && NoDuplicates(b)
    requires forall x :: x in a <==> x in b
    ensures multiset(a) == multiset(b)
  {
    forall x ensures multiset(a)[x] == multiset(b)[x] {
      CountedOnce(a, x);
      CountedOnce(b, x);
    }
  }

  // The head of a rearranged list, found again in the other one.
  lemma HeadElsewhere<T>(a: seq<T>, b: seq<T>) returns (k: nat)
    requires a != [] && multiset(a) == multiset(b)
    ensures k < |b| && b[k] == a[0]
    ensures multiset(a[1..]) == multiset(b[..k] + b[k + 1..])
  {
    assert a[0] in multiset(a);
    k :| 0 <= k < |b| && b[k] == a[0];
    assert a == [a[0]] + a[1..];
    assert multiset(a) == multiset{a[0]} + multiset(a[1..]);
    assert b == b[..k] + [b[k]] + b[k + 1..];
    assert multiset(b) == multiset(b[..k]) + multiset{a[0]} + multiset(b[k + 1..]);
    assert multiset(a[1..]) == multiset(a) - multiset{a[0]};
    assert multiset(b[..k] + b[k + 1..]) == multiset(b) - multiset{a[0]};
  }

  // ----- Keeping the order -----

  // A member left out comes before a chosen one.
  ghost predicate LeftFirst<T>(s: seq<T>, chosen: set<T>) {
    exists i, j :: 0 <= i < j < |s| && s[i] !in chosen && s[j] in chosen
  }

  lemma LeftFirstBehind<T>(s: seq<T>, chosen: set<T>)
    requires s != [] && s[0] in chosen
    ensures LeftFirst(s, chosen) <==> LeftFirst(s[1..], chosen)
  {
    var rest := s[1..];
    if i, j :| 0 <= i < j < |s| && s[i] !in chosen && s[j] in chosen {
      assert rest[i - 1] !in chosen && rest[j - 1] in chosen;
    }
    if i, j :| 0 <= i < j < |rest| && rest[i] !in chosen && rest[j] in chosen {
      assert s[i + 1] !in chosen && s[j + 1] in chosen;
    }
  }

  lemma {:induction false} NoneChosen<T>(s: seq<T>, chosen: set<T>)
    requires Among(s, chosen) == []
    ensures Without(s, chosen) == s
    ensures forall x :: x in s ==> x !in chosen
  {
    if s == [] {
    } else {
      NoneChosen(s[1..], chosen);
      assert s == [s[0]] + s[1..];
    }
  }

  lemma ChosenBehind<T>(s: seq<T>, chosen: set<T>)
    requires s != [] && s[0] !in chosen && Among(s[1..], chosen) != []
    ensures Among(s, chosen)[0] != s[0] && LeftFirst(s, chosen)
  {
    var rest, first := s[1..], Among(s[1..], chosen)[0];
    assert first in rest && first in chosen by {
      assert first in Among(rest, chosen);
      AmongIsIn(rest, chosen, first);
    }
    var j :| 0 <= j < |rest| && rest[j] == first;
    LeftAt(s, chosen, j + 1);
  }

  lemma LeftAt<T>(s: seq<T>, chosen: set<T>, j: nat)
    requires 0 < j < |s| && s[0] !in chosen && s[j] in chosen
    ensures LeftFirst(s, chosen)
  {
  }

  lemma LeftHead<T>(s: seq<T>, chosen: set<T>)
    requires s != [] && s[0] !in chosen
    ensures Among(s, chosen) + Without(s, chosen) == s <==> !LeftFirst(s, chosen)
  {
    var rest := s[1..];
    if Among(rest, chosen) == [] {
      NoneChosen(rest, chosen);
      assert Among(s, chosen) == [] && Without(s, chosen) == [s[0]] + rest;
      forall j | 0 < j < |s| ensures s[j] !in chosen { assert s[j] == rest[j - 1]; }
    } else {
      ChosenBehind(s, chosen);
      assert (Among(s, chosen) + Without(s, chosen))[0] == Among(s, chosen)[0];
    }
  }

  lemma HeadsApart<T>(head: T, a: seq<T>, b: seq<T>, rest: seq<T>)
    ensures [head] + a + b == [head] + rest <==> a + b == rest
  {
    assert [head] + a + b == [head] + (a + b);
    assert ([head] + (a + b))[1..] == a + b && ([head] + rest)[1..] == rest;
  }

  lemma ChosenHead<T>(s: seq<T>, chosen: set<T>)
    requires s != [] && s[0] in chosen
    ensures Among(s, chosen) + Without(s, chosen) == s <==>
            Among(s[1..], chosen) + Without(s[1..], chosen) == s[1..]
  {
    HeadsApart(s[0], Among(s[1..], chosen), Without(s[1..], chosen), s[1..]);
    assert s == [s[0]] + s[1..];
  }

  // Putting the chosen members first leaves the list as it is exactly when they came first already.
  lemma {:induction false} SplitKeepsOrder<T>(s: seq<T>, chosen: set<T>)
    ensures Among(s, chosen) + Without(s, chosen) == s <==> !LeftFirst(s, chosen)
  {
    if s == [] {
    } else if s[0] !in chosen {
      LeftHead(s, chosen);
    } else {
      SplitKeepsOrder(s[1..], chosen);
      LeftFirstBehind(s, chosen);
      ChosenHead(s, chosen);
    }
  }
}
