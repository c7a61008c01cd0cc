// The order in which a planner deals its items, and the price each is dealt at: one order for one set of
// prices, however the items were listed.
module DealOrder {
  import opened Expressions
  import opened ShardPlanner

  // Dearer, or as dear and no later by name.
  ghost predicate NoLater(a: string, b: string, prices: Prices)
    requires a in prices && b in prices
  {
    prices[a] > prices[b] || (prices[a] == prices[b] && (a == b || StrLess(a, b)))
  }

  ghost predicate InOrder(order: seq<string>, prices: Prices)
    requires Priced(order, prices)
  {
    forall i, j :: 0 <= i < j < |order| ==> NoLater(order[i], order[j], prices)
  }

  ghost predicate Leads(head: string, order: seq<string>, prices: Prices)
    requires head in prices && Priced(order, prices)
  {
    forall x :: x in order ==> NoLater(head, x, prices)
  }

  lemma {:induction false} StrLessChains(a: string, b: string, c: string)
    requires StrLess(a, b) && StrLess(b, c)
    ensures StrLess(a, c)
  {
    if a != "" && a[0] == b[0] == c[0] {
      StrLessChains(a[1..], b[1..], c[1..]);
    }
  }

  lemma NoLaterChains(a: string, b: string, c: string, prices: Prices)
    requires a in prices && b in prices && c in prices
    requires NoLater(a, b, prices) && NoLater(b, c, prices)
    ensures NoLater(a, c, prices)
  {
    if StrLess(a, b) && StrLess(b, c) {
      StrLessChains(a, b, c);
    }
  }

  lemma InOrderFromHead(head: string, order: seq<string>, prices: Prices)
    requires head in prices && Priced(order, prices)
    ensures InOrder([head] + order, prices) <==> InOrder(order, prices) && Leads(head, order, prices)
  {
    hide NoLater;
    var s := [head] + order;
    if InOrder(s, prices) {
      forall i, j | 0 <= i < j < |order| ensures NoLater(order[i], order[j], prices) {
        assert s[i + 1] == order[i] && s[j + 1] == order[j];
      }
      forall x | x in order ensures NoLater(head, x, prices) {
        var j :| 0 <= j < |order| && order[j] == x;
        assert s[0] == head && s[j + 1] == x;
      }
    }
  }

  // Two items, one way round or the other.
  lemma SoonerIsNoLater(a: string, b: string, prices: Prices)
    requires a in prices && b in prices
    ensures if Sooner(a, b, prices) then NoLater(a, b, prices) else NoLater(b, a, prices)
  {
    StrLessTotal(a, b);
  }

  lemma {:induction false} PlaceInOrder(item: string, order: seq<string>, prices: Prices)
    requires item in prices && Priced(order, prices) && InOrder(order, prices)
    ensures InOrder(Place(item, order, prices), prices)
  {
    if order != [] {
      hide InOrder, NoLater, Sooner;
      var rest := order[1..];
      assert order == [order[0]] + rest;
      InOrderFromHead(order[0], rest, prices);
      SoonerIsNoLater(item, order[0], prices);
      if Sooner(item, order[0], prices) {
        forall x | x in order ensures NoLater(item, x, prices) {
          if x != order[0] {
            NoLaterChains(item, order[0], x, prices);
          }
        }
        InOrderFromHead(item, order, prices);
      } else {
        var placed := Place(item, rest, prices);
        PlaceInOrder(item, rest, prices);
        forall x | x in placed ensures NoLater(order[0], x, prices) {
          assert x in multiset(placed);
          assert x == item || x in rest;
        }
        InOrderFromHead(order[0], placed, prices);
      }
    }
  }

  // Items are dealt dearest first, and by name where two cost the same.
  lemma {:induction false} DealtInOrder(items: seq<string>, prices: Prices)
    requires Priced(items, prices)
    ensures InOrder(Ordered(items, prices), prices)
  {
    if items != [] {
      DealtInOrder(items[1..], prices);
      PlaceInOrder(items[0], Ordered(items[1..], prices), prices);
    }
  }

  lemma {:induction false} OneOrder(a: seq<string>, b: seq<string>, prices: Prices)
    requires Priced(a, prices) && Priced(b, prices) && InOrder(a, prices) && InOrder(b, prices)
    requires multiset(a) == multiset(b)
    ensures a == b
  {
    hide InOrder, NoLater;
    assert |multiset(a)| == |a| && |multiset(b)| == |b|;
    if a != [] {
      HeadsAgree(a, b, prices);
      assert a == [a[0]] + a[1..] && b == [b[0]] + b[1..];
      TailsAlike(a, b);
      InOrderFromHead(a[0], a[1..], prices);
      InOrderFromHead(b[0], b[1..], prices);
      OneOrder(a[1..], b[1..], prices);
    }
  }

  lemma TailsAlike(a: seq<string>, b: seq<string>)
    requires multiset(a) == multiset(b) && a != [] && b != [] && a[0] == b[0]
    ensures multiset(a[1..]) == multiset(b[1..])
  {
    assert a == [a[0]] + a[1..] && b == [b[0]] + b[1..];
    assert multiset(a[1..]) == multiset(a) - multiset{a[0]} && multiset(b[1..]) == multiset(b) - multiset{b[0]};
  }

  lemma HeadsAgree(a: seq<string>, b: seq<string>, prices: Prices)
    requires Priced(a, prices) && Priced(b, prices) && InOrder(a, prices) && InOrder(b, prices)
    requires multiset(a) == multiset(b) && a != [] && b != []
    ensures a[0] == b[0]
  {
    assert a[0] in multiset(b) && b[0] in multiset(a);
    var i :| 0 <= i < |b| && b[i] == a[0];
    var j :| 0 <= j < |a| && a[j] == b[0];
    if a[0] != b[0] {
      assert NoLater(b[0], b[i], prices) && NoLater(a[0], a[j], prices);
      StrLessTotal(a[0], b[0]);
    }
  }

  // So the plan is the same however the items were listed.
  lemma ListedAnyhow(items: seq<string>, other: seq<string>, prices: Prices)
    requires Priced(items, prices) && Priced(other, prices) && multiset(items) == multiset(other)
    ensures Ordered(items, prices) == Ordered(other, prices)
  {
    hide InOrder;
    DealtInOrder(items, prices);
    DealtInOrder(other, prices);
    OneOrder(Ordered(items, prices), Ordered(other, prices), prices);
  }

  // An item's price is its recorded time; without one, half the recorded times lie on either side of it;
  // and without any record it is the item's size.
  lemma PricedBy(item: string, table: map<string, real>, names: seq<string>, sizes: map<string, real>)
    requires forall name :: name in names <==> name in table
    requires table == map[] ==> item in sizes
    ensures names != [] <==> table != map[]
    ensures table == map[] ==> PriceOf(item, table, [], sizes) == sizes[item]
    ensures table != map[] ==>
              var times := TimesOf(names, table);
              var price := PriceOf(item, table, times, sizes);
              |times| == |names| && (forall i :: 0 <= i < |names| ==> times[i] == table[names[i]]) &&
              if item in table then price == table[item]
              else 2 * AtMost(times, price) >= |times| && 2 * AtLeast(times, price) >= |times|
  {
    if names != [] {
      assert names[0] in table;
      if item !in table {
        UntimedAtMedian(item, table, names, sizes);
      }
    }
  }
}
