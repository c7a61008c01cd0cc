// The split every sharded job family shares: items dearest first, each to the lightest group so far.
module ShardPlanner {
  import opened Wrappers
  import opened Expressions
  import opened Lists

  type Prices = map<string, real>

  // ----- Prices -----

  function Insert(x: real, sorted: seq<real>): seq<real> {
    if sorted == [] || x <= sorted[0] then [x] + sorted else [sorted[0]] + Insert(x, sorted[1..])
  }

  function Ranked(values: seq<real>): seq<real> {
    if values == [] then [] else Insert(values[0], Ranked(values[1..]))
  }

  ghost predicate Ascending(s: seq<real>) {
    forall i, j :: 0 <= i < j < |s| ==> s[i] <= s[j]
  }

  lemma AscendsFromHead(head: real, rest: seq<real>)
    requires Ascending(rest) && forall x :: x in rest ==> head <= x
    ensures Ascending([head] + rest)
  {
    var s := [head] + rest;
    forall j | 0 < j < |s| ensures s[0] <= s[j] && s[j] == rest[j - 1] {
      assert rest[j - 1] in rest;
    }
  }

  lemma {:induction false} InsertHolds(x: real, sorted: seq<real>)
    ensures multiset(Insert(x, sorted)) == multiset(sorted) + multiset{x}
  {
    if sorted != [] && x > sorted[0] {
      InsertHolds(x, sorted[1..]);
      assert sorted == [sorted[0]] + sorted[1..];
    }
  }

  lemma InsertedOver(x: real, rest: seq<real>, low: real)
    requires low <= x && forall y :: y in rest ==> low <= y
    ensures forall y :: y in Insert(x, rest) ==> low <= y
  {
    hide Insert;
    InsertHolds(x, rest);
    forall y | y in Insert(x, rest) ensures low <= y {
      assert y in multiset(Insert(x, rest));
      assert y == x || y in rest;
    }
  }

  lemma {:induction false} InsertAscends(x: real, sorted: seq<real>)
    requires Ascending(sorted)
    ensures Ascending(Insert(x, sorted))
  {
    if sorted == [] {
    } else if x <= sorted[0] {
      forall y | y in sorted ensures x <= y { }
      AscendsFromHead(x, sorted);
    } else {
      var rest := sorted[1..];
      InsertAscends(x, rest);
      forall y | y in rest ensures sorted[0] <= y { }
      InsertedOver(x, rest, sorted[0]);
      AscendsFromHead(sorted[0], Insert(x, rest));
    }
  }

  lemma {:induction false} RankedSorts(values: seq<real>)
    ensures Ascending(Ranked(values)) && multiset(Ranked(values)) == multiset(values) && |Ranked(values)| == |values|
  {
    if values != [] {
      RankedSorts(values[1..]);
      InsertAscends(values[0], Ranked(values[1..]));
      InsertHolds(values[0], Ranked(values[1..]));
      assert values == [values[0]] + values[1..];
      assert |multiset(Ranked(values))| == |multiset(values)|;
    }
  }

  function Median(values: seq<real>): real
    requires values != []
  {
    RankedSorts(values);
    var ranked := Ranked(values);
    (ranked[(|ranked| - 1) / 2] + ranked[|ranked| / 2]) / 2.0
  }

  // The times a table records, in its own order.
  function TimesOf(names: seq<string>, table: map<string, real>): seq<real>
    requires forall name :: name in names ==> name in table
  {
    seq(|names|, i requires 0 <= i < |names| => table[names[i]])
  }

  // The recorded time, the table's median for an item it lacks, or every item's size without a table.
  function PriceOf(item: string, table: map<string, real>, times: seq<real>, sizes: map<string, real>): real
    requires table != map[] ==> times != []
    requires table == map[] ==> item in sizes
  {
    if table == map[] then sizes[item] else if item in table then table[item] else Median(times)
  }

  lemma MedianIs(values: seq<real>)
    requires values != []
    ensures |Ranked(values)| == |values|
    ensures 2.0 * Median(values) == Ranked(values)[(|values| - 1) / 2] + Ranked(values)[|values| / 2]
  {
    hide Ranked;
    RankedSorts(values);
  }

  // Half of the times are no more than the median and half no less.
  lemma MedianWithin(values: seq<real>, i: nat)
    requires i < |values|
    ensures |Ranked(values)| == |values|
    ensures i <= (|values| - 1) / 2 ==> Ranked(values)[i] <= Median(values)
    ensures |values| / 2 <= i ==> Median(values) <= Ranked(values)[i]
  {
    hide Ranked;
    hide Median, Ascending;
    RankedSorts(values);
    MedianIs(values);
    var ranked, low, high := Ranked(values), (|values| - 1) / 2, |values| / 2;
    assert low <= high < |values|;
    Rises(ranked, low, high);
    if i <= low {
      Rises(ranked, i, low);
    }
    if high <= i {
      Rises(ranked, high, i);
    }
  }

  lemma Rises(s: seq<real>, i: nat, j: nat)
    requires Ascending(s) && i <= j < |s|
    ensures s[i] <= s[j]
  {
  }

  // How many values are no more than a price, and how many no less.
  function AtMost(values: seq<real>, price: real): nat {
    if values == [] then 0 else (if values[0] <= price then 1 else 0) + AtMost(values[1..], price)
  }

  function AtLeast(values: seq<real>, price: real): nat {
    if values == [] then 0 else (if values[0] >= price then 1 else 0) + AtLeast(values[1..], price)
  }

  lemma {:induction false} InsertCounts(x: real, sorted: seq<real>, price: real)
    ensures AtMost(Insert(x, sorted), price) == AtMost([x] + sorted, price)
    ensures AtLeast(Insert(x, sorted), price) == AtLeast([x] + sorted, price)
  {
    assert ([x] + sorted)[1..] == sorted;
    if sorted != [] && x > sorted[0] {
      InsertCounts(x, sorted[1..], price);
      assert ([x] + sorted[1..])[1..] == sorted[1..];
    }
  }

  lemma {:induction false} RankedCounts(values: seq<real>, price: real)
    ensures AtMost(Ranked(values), price) == AtMost(values, price)
    ensures AtLeast(Ranked(values), price) == AtLeast(values, price)
  {
    if values != [] {
      RankedCounts(values[1..], price);
      InsertCounts(values[0], Ranked(values[1..]), price);
      assert ([values[0]] + Ranked(values[1..]))[1..] == Ranked(values[1..]);
    }
  }

  lemma {:induction false} FrontCounts(s: seq<real>, n: nat, price: real)
    requires n <= |s| && forall i :: 0 <= i < n ==> s[i] <= price
    ensures AtMost(s, price) >= n
  {
    if n > 0 {
      FrontCounts(s[1..], n - 1, price);
    }
  }

  lemma {:induction false} BackCounts(s: seq<real>, n: nat, price: real)
    requires n <= |s| && forall i :: n <= i < |s| ==> s[i] >= price
    ensures AtLeast(s, price) >= |s| - n
  {
    if s != [] {
      BackCounts(s[1..], if n > 0 then n - 1 else 0, price);
    }
  }

  lemma MedianCounts(values: seq<real>)
    requires values != []
    ensures 2 * AtMost(values, Median(values)) >= |values| && 2 * AtLeast(values, Median(values)) >= |values|
  {
    hide Median, Ranked, AtMost, AtLeast;
    var ranked, price := Ranked(values), Median(values);
    RankedSorts(values);
    forall i: nat | i < |ranked|
      ensures i <= (|values| - 1) / 2 ==> ranked[i] <= price
      ensures |values| / 2 <= i ==> ranked[i] >= price
    {
      MedianWithin(values, i);
    }
    FrontCounts(ranked, (|values| - 1) / 2 + 1, price);
    BackCounts(ranked, |values| / 2, price);
    RankedCounts(values, price);
  }

  // An item the table lacks is priced so that half of the recorded times are no more and half no less.
  lemma UntimedAtMedian(item: string, table: map<string, real>, names: seq<string>, sizes: map<string, real>)
    requires item !in table && names != [] && forall name :: name in names <==> name in table
    ensures var times := TimesOf(names, table);
            table != map[] &&
            var price := PriceOf(item, table, times, sizes);
            2 * AtMost(times, price) >= |times| && 2 * AtLeast(times, price) >= |times|
  {
    assert names[0] in names;
    MedianCounts(TimesOf(names, table));
  }

  // ----- The split, over prices in the order they are dealt -----

  function Sum(prices: seq<real>): real {
    if prices == [] then 0.0 else Sum(prices[..|prices| - 1]) + prices[|prices| - 1]
  }

  // What a group holds when the i-th price went to group `to[i]`.
  function Load(prices: seq<real>, to: seq<nat>, group: nat): real
    requires |prices| == |to|
  {
    if prices == [] then 0.0
    else
      var n := |prices| - 1;
      Load(prices[..n], to[..n], group) + if to[n] == group then prices[n] else 0.0
  }

  // The lightest of the first `n` loads, the lowest numbered when they tie.
  function Lightest(loads: seq<real>, n: nat): (g: nat)
    requires 0 < n <= |loads|
    ensures g < n && forall i :: 0 <= i < n ==> loads[g] <= loads[i]
    ensures forall i :: 0 <= i < g ==> loads[g] < loads[i]
  {
    if n == 1 then 0
    else
      var before := Lightest(loads, n - 1);
      if loads[n - 1] < loads[before] then n - 1 else before
  }

  function Loads(prices: seq<real>, to: seq<nat>, groups: nat): seq<real>
    requires |prices| == |to|
  {
    seq(groups, g requires 0 <= g < groups => Load(prices, to, g))
  }

  function Deal(prices: seq<real>, groups: nat): (to: seq<nat>)
    requires groups > 0
    ensures |to| == |prices| && forall i :: 0 <= i < |to| ==> to[i] < groups
  {
    if prices == [] then []
    else
      var before := Deal(prices[..|prices| - 1], groups);
      before + [Lightest(Loads(prices[..|prices| - 1], before, groups), groups)]
  }

  // ----- How even it is -----

  ghost predicate Assigns(to: seq<nat>, count: nat, groups: nat) {
    |to| == count && forall i :: 0 <= i < |to| ==> to[i] < groups
  }

  ghost predicate NonNegative(prices: seq<real>) {
    forall i :: 0 <= i < |prices| ==> prices[i] >= 0.0
  }

  ghost predicate Descending(prices: seq<real>) {
    forall i, j :: 0 <= i < j < |prices| ==> prices[i] >= prices[j]
  }

  // The loads of the first `groups` groups together.
  function Together(prices: seq<real>, to: seq<nat>, groups: nat): real
    requires |prices| == |to|
  {
    if groups == 0 then 0.0 else Together(prices, to, groups - 1) + Load(prices, to, groups - 1)
  }

  lemma {:induction false} TogetherGrows(prices: seq<real>, to: seq<nat>, groups: nat)
    requires |prices| == |to| && prices != []
    ensures var n := |prices| - 1;
            Together(prices, to, groups)
            == Together(prices[..n], to[..n], groups) + if to[n] < groups then prices[n] else 0.0
  {
    if groups > 0 {
      TogetherGrows(prices, to, groups - 1);
    }
  }

  // Nothing is lost and nothing counted twice.
  lemma {:induction false} TogetherIsSum(prices: seq<real>, to: seq<nat>, groups: nat)
    requires Assigns(to, |prices|, groups)
    ensures Together(prices, to, groups) == Sum(prices)
  {
    if prices == [] {
      NothingDealt(groups);
    } else {
      var n := |prices| - 1;
      TogetherGrows(prices, to, groups);
      TogetherIsSum(prices[..n], to[..n], groups);
    }
  }

  lemma {:induction false} NothingDealt(groups: nat)
    ensures Together([], [], groups) == 0.0
  {
    if groups > 0 {
      NothingDealt(groups - 1);
    }
  }

  lemma {:induction false} LoadNonNegative(prices: seq<real>, to: seq<nat>, group: nat)
    requires |prices| == |to| && NonNegative(prices)
    ensures 0.0 <= Load(prices, to, group) <= Sum(prices)
  {
    if prices != [] {
      var n := |prices| - 1;
      LoadNonNegative(prices[..n], to[..n], group);
    }
  }

  // A group's load is at least any one of its prices.
  lemma {:induction false} LoadHolds(prices: seq<real>, to: seq<nat>, i: nat)
    requires |prices| == |to| && NonNegative(prices) && i < |prices|
    ensures Load(prices, to, to[i]) >= prices[i]
  {
    var n := |prices| - 1;
    LoadNonNegative(prices[..n], to[..n], to[i]);
    if i < n {
      LoadHolds(prices[..n], to[..n], i);
    }
  }

  lemma {:induction false} SumPrefix(prices: seq<real>, k: nat)
    requires k <= |prices| && NonNegative(prices)
    ensures Sum(prices[..k]) <= Sum(prices)
  {
    if k < |prices| {
      SumPrefix(prices[..|prices| - 1], k);
      assert prices[..|prices| - 1][..k] == prices[..k];
    } else {
      assert prices[..k] == prices;
    }
  }

  lemma {:induction false} DealPrefix(prices: seq<real>, groups: nat, k: nat)
    requires groups > 0 && k <= |prices|
    ensures Deal(prices, groups)[..k] == Deal(prices[..k], groups)
  {
    if k < |prices| {
      DealPrefix(prices[..|prices| - 1], groups, k);
      assert prices[..|prices| - 1][..k] == prices[..k];
    } else {
      assert prices[..k] == prices;
    }
  }

  // A group's load is what it held before its last item, and that item.
  lemma {:induction false} LastItem(prices: seq<real>, to: seq<nat>, group: nat) returns (last: nat)
    requires |prices| == |to| && exists i :: 0 <= i < |to| && to[i] == group
    ensures last < |prices| && to[last] == group
    ensures Load(prices, to, group) == Load(prices[..last], to[..last], group) + prices[last]
  {
    var n := |prices| - 1;
    if to[n] == group {
      last := n;
    } else {
      var i :| 0 <= i < |to| && to[i] == group;
      assert to[..n][i] == group;
      last := LastItem(prices[..n], to[..n], group);
      assert prices[..n][..last] == prices[..last] && to[..n][..last] == to[..last];
    }
  }

  lemma {:induction false} EmptyGroup(prices: seq<real>, to: seq<nat>, group: nat)
    requires |prices| == |to| && forall i :: 0 <= i < |to| ==> to[i] != group
    ensures Load(prices, to, group) == 0.0
  {
    if prices != [] {
      EmptyGroup(prices[..|prices| - 1], to[..|prices| - 1], group);
    }
  }

  // An item goes to the lightest group of those before it.
  lemma GoesToLightest(prices: seq<real>, groups: nat, last: nat, g: nat)
    requires groups > 0 && last < |prices| && g < groups
    ensures var to := Deal(prices, groups);
            Load(prices[..last], to[..last], to[last]) <= Load(prices[..last], to[..last], g)
  {
    var to, before := Deal(prices, groups), prices[..last];
    DealPrefix(prices, groups, last);
    DealPrefix(prices, groups, last + 1);
    assert prices[..last + 1][..last] == before;
    var loads := Loads(before, to[..last], groups);
    assert to[last] == to[..last + 1][last] == Lightest(loads, groups);
    assert loads[to[last]] <= loads[g];
  }

  // So before its last item a group was no heavier than the mean.
  lemma LightestIsBelowMean(prices: seq<real>, groups: nat, last: nat)
    requires groups > 0 && last < |prices|
    ensures var to := Deal(prices, groups);
            groups as real * Load(prices[..last], to[..last], to[last]) <= Sum(prices[..last])
  {
    hide Deal, Sum, Load, Together;
    var to, before := Deal(prices, groups), prices[..last];
    var low := Load(before, to[..last], to[last]);
    forall g | 0 <= g < groups ensures low <= Load(before, to[..last], g) {
      GoesToLightest(prices, groups, last, g);
    }
    Upper(before, to[..last], groups, low);
    TogetherIsSum(before, to[..last], groups);
  }

  lemma {:induction false} Upper(prices: seq<real>, to: seq<nat>, groups: nat, low: real)
    requires |prices| == |to| && forall g :: 0 <= g < groups ==> low <= Load(prices, to, g)
    ensures groups as real * low <= Together(prices, to, groups)
  {
    if groups > 0 {
      Upper(prices, to, groups - 1, low);
      assert groups as real * low == (groups - 1) as real * low + low;
    }
  }

  // No group holds more than the mean of all and, for its share of the rest, its last item.
  lemma MeanAndLast(prices: seq<real>, groups: nat, last: nat)
    requires groups > 0 && NonNegative(prices) && last < |prices|
    ensures var to := Deal(prices, groups);
            groups as real * (Load(prices[..last], to[..last], to[last]) + prices[last])
            <= Sum(prices) + (groups as real - 1.0) * prices[last]
  {
    hide Deal, Sum, Load;
    LightestIsBelowMean(prices, groups, last);
    SumBefore(prices, last);
    var to := Deal(prices, groups);
    Spread(groups as real, Load(prices[..last], to[..last], to[last]), prices[last], Sum(prices[..last]), Sum(prices));
  }

  lemma Spread(m: real, load: real, price: real, before: real, total: real)
    requires m * load <= before && before + price <= total
    ensures m * (load + price) <= total + (m - 1.0) * price
  {
  }

  lemma SumBefore(prices: seq<real>, last: nat)
    requires NonNegative(prices) && last < |prices|
    ensures Sum(prices[..last]) + prices[last] <= Sum(prices)
  {
    SumPrefix(prices, last + 1);
    assert prices[..last + 1][..last] == prices[..last];
  }

  // No group is heavier than the mean of all and one item more.
  lemma WithinMeanAndOne(prices: seq<real>, groups: nat, group: nat) returns (i: nat)
    requires groups > 0 && group < groups && NonNegative(prices) && prices != []
    ensures i < |prices|
    ensures groups as real * Load(prices, Deal(prices, groups), group) <= Sum(prices)
            + (groups as real - 1.0) * prices[i]
  {
    hide Deal, Sum, Load;
    var to := Deal(prices, groups);
    if exists k :: 0 <= k < |to| && to[k] == group {
      i := LastItem(prices, to, group);
      MeanAndLast(prices, groups, i);
    } else {
      i := 0;
      EmptyGroup(prices, to, group);
      LoadNonNegative(prices, to, group);
      Positive(groups as real - 1.0, prices[0]);
    }
  }

  lemma Positive(a: real, b: real)
    requires a >= 0.0 && b >= 0.0
    ensures a * b >= 0.0
  {
  }

  // ----- Against any other split -----

  // `most` bounds every load of some split of the same items into as many groups.
  ghost predicate Achieves(prices: seq<real>, other: seq<nat>, groups: nat, most: real) {
    Assigns(other, |prices|, groups) && forall g :: 0 <= g < groups ==> Load(prices, other, g) <= most
  }

  lemma AnySplitHoldsTheMean(prices: seq<real>, other: seq<nat>, groups: nat, most: real)
    requires Achieves(prices, other, groups, most)
    ensures Sum(prices) <= groups as real * most
  {
    hide Sum, Load, Together;
    Below(prices, other, groups, most);
    TogetherIsSum(prices, other, groups);
  }

  lemma {:induction false} Below(prices: seq<real>, to: seq<nat>, groups: nat, high: real)
    requires |prices| == |to| && forall g :: 0 <= g < groups ==> Load(prices, to, g) <= high
    ensures Together(prices, to, groups) <= groups as real * high
  {
    if groups > 0 {
      Below(prices, to, groups - 1, high);
      assert groups as real * high == (groups - 1) as real * high + high;
    }
  }

  // ----- When the last item is dear -----

  // An item that shares no group of a split held to `most` with another as dear as `price` counts for two.
  function Weights(prices: seq<real>, price: real, most: real): seq<real> {
    seq(|prices|, i requires 0 <= i < |prices| => if prices[i] + price > most then 2.0 else 1.0)
  }

  lemma WeightsFront(prices: seq<real>, price: real, most: real, n: nat)
    requires n <= |prices|
    ensures Weights(prices, price, most)[..n] == Weights(prices[..n], price, most)
  {
  }

  // A group that counts for less than two would have taken one item more.
  lemma {:induction false} LightCounts(prices: seq<real>, to: seq<nat>, group: nat, price: real, most: real)
    requires |prices| == |to| && price <= most
    ensures var count, load := Load(Weights(prices, price, most), to, group), Load(prices, to, group);
            count >= 2.0 || (count == 1.0 && load + price <= most) || (count == 0.0 && load == 0.0)
  {
    if prices != [] {
      var n := |prices| - 1;
      WeightsFront(prices, price, most, n);
      LightCounts(prices[..n], to[..n], group, price, most);
    }
  }

  // A group held to `most` counts for no more than two, when three items as dear would be too many.
  lemma {:induction false} HeldCounts(prices: seq<real>, to: seq<nat>, group: nat, price: real, most: real)
    requires |prices| == |to| && price >= 0.0 && 3.0 * price > most
    requires forall i :: 0 <= i < |prices| ==> prices[i] >= price
    ensures var count, load := Load(Weights(prices, price, most), to, group), Load(prices, to, group);
            || (count == 0.0 && load == 0.0) || (count == 1.0 && load >= price)
            || (count == 2.0 && (load >= 2.0 * price || load + price > most)) || (count >= 3.0 && load > most)
  {
    if prices != [] {
      var n := |prices| - 1;
      WeightsFront(prices, price, most, n);
      HeldCounts(prices[..n], to[..n], group, price, most);
    }
  }

  // The heaviest group of another split bounds its first groups' loads too.
  lemma {:induction false} PrefixLoad(prices: seq<real>, to: seq<nat>, group: nat, k: nat)
    requires |prices| == |to| && NonNegative(prices) && k <= |prices|
    ensures Load(prices[..k], to[..k], group) <= Load(prices, to, group)
  {
    if k < |prices| {
      var n := |prices| - 1;
      PrefixLoad(prices[..n], to[..n], group, k);
      assert prices[..n][..k] == prices[..k] && to[..n][..k] == to[..k];
    } else {
      assert prices[..k] == prices && to[..k] == to;
    }
  }

  // Every group of the other split counts for no more than two of the items up to the last.
  lemma OtherCounts(prices: seq<real>, other: seq<nat>, groups: nat, most: real, last: nat)
    requires Achieves(prices, other, groups, most) && NonNegative(prices) && Descending(prices)
    requires last < |prices| && 3.0 * prices[last] > most
    ensures Sum(Weights(prices[..last + 1], prices[last], most)) <= groups as real * 2.0
  {
    hide Load, Sum, Weights;
    var upTo, price, to := prices[..last + 1], prices[last], other[..last + 1];
    var weights := Weights(upTo, price, most);
    WeightsLength(upTo, price, most);
    forall g | 0 <= g < groups ensures Load(weights, to, g) <= 2.0 {
      PrefixLoad(prices, other, g, last + 1);
      HeldCounts(upTo, to, g, price, most);
    }
    Below(weights, to, groups, 2.0);
    TogetherIsSum(weights, to, groups);
  }

  lemma WeightsLength(prices: seq<real>, price: real, most: real)
    ensures |Weights(prices, price, most)| == |prices|
  {
  }

  // Were the last item to bring the lightest group over `most`, every group would count for two before.
  lemma DealtCounts(prices: seq<real>, groups: nat, most: real, last: nat)
    requires groups > 0 && last < |prices| && prices[last] <= most
    requires var to := Deal(prices, groups); Load(prices[..last], to[..last], to[last]) + prices[last] > most
    ensures groups as real * 2.0 <= Sum(Weights(prices[..last], prices[last], most))
  {
    hide Load, Sum, Weights, Deal;
    var to, before, price := Deal(prices, groups), prices[..last], prices[last];
    var weights := Weights(before, price, most);
    WeightsLength(before, price, most);
    forall g | 0 <= g < groups ensures 2.0 <= Load(weights, to[..last], g) {
      GoesToLightest(prices, groups, last, g);
      LightCounts(before, to[..last], g, price, most);
    }
    Upper(weights, to[..last], groups, 2.0);
    TogetherIsSum(weights, to[..last], groups);
  }

  lemma OneMoreWeight(prices: seq<real>, price: real, most: real, last: nat)
    requires last < |prices|
    ensures Sum(Weights(prices[..last + 1], price, most)) > Sum(Weights(prices[..last], price, most))
  {
    WeightsFront(prices[..last + 1], price, most, last);
    assert prices[..last + 1][..last] == prices[..last];
  }

  // A last item dearer than a third of `most` leaves its group within `most`.
  lemma DearLastFits(prices: seq<real>, groups: nat, other: seq<nat>, most: real, last: nat)
    requires groups > 0 && NonNegative(prices) && Descending(prices) && Achieves(prices, other, groups, most)
    requires last < |prices| && 3.0 * prices[last] > most
    ensures var to := Deal(prices, groups); Load(prices[..last], to[..last], to[last]) + prices[last] <= most
  {
    hide Load, Sum, Weights, Deal;
    var to := Deal(prices, groups);
    LoadHolds(prices, other, last);
    assert Load(prices, other, other[last]) <= most;
    if Load(prices[..last], to[..last], to[last]) + prices[last] > most {
      DealtCounts(prices, groups, most, last);
      OtherCounts(prices, other, groups, most, last);
      OneMoreWeight(prices, prices[last], most, last);
    }
  }

  // Dearest first, no group is heavier than four thirds, less a third of a group's share, of what the
  // heaviest group of any other split must hold.
  lemma WithinFourThirds(prices: seq<real>, groups: nat, group: nat, other: seq<nat>, most: real)
    requires groups > 0 && group < groups && NonNegative(prices) && Descending(prices)
    requires Achieves(prices, other, groups, most)
    ensures 3.0 * groups as real * Load(prices, Deal(prices, groups), group) <= (4.0 * groups as real - 1.0) * most
  {
    hide Deal, Sum, Load;
    var to := Deal(prices, groups);
    var m := groups as real;
    assert most >= 0.0 by {
      LoadNonNegative(prices, other, 0);
      assert Load(prices, other, 0) <= most;
    }
    if exists k :: 0 <= k < |to| && to[k] == group {
      var last := LastItem(prices, to, group);
      var load := Load(prices[..last], to[..last], group);
      if 3.0 * prices[last] > most {
        DearLastFits(prices, groups, other, most, last);
        MostIsEnough(m, load + prices[last], most);
      } else {
        MeanAndLast(prices, groups, last);
        AnySplitHoldsTheMean(prices, other, groups, most);
        ThirdMore(m, load, prices[last], Sum(prices), most);
      }
    } else {
      EmptyGroup(prices, to, group);
      MostIsEnough(m, 0.0, most);
    }
  }

  lemma MostIsEnough(m: real, load: real, most: real)
    requires m >= 1.0 && load <= most && most >= 0.0
    ensures 3.0 * m * load <= (4.0 * m - 1.0) * most
  {
    assert m * load <= m * most;
    assert 1.0 * most <= m * most;
  }

  lemma ThirdMore(m: real, load: real, price: real, total: real, most: real)
    requires m >= 1.0 && m * (load + price) <= total + (m - 1.0) * price
    requires total <= m * most && 3.0 * price <= most
    ensures 3.0 * m * (load + price) <= (4.0 * m - 1.0) * most
  {
    assert (m - 1.0) * (3.0 * price) <= (m - 1.0) * most;
  }

  // ----- The split itself -----

  // Dearest first, then by name.
  predicate Sooner(a: string, b: string, prices: Prices)
    requires a in prices && b in prices
  {
    prices[a] > prices[b] || (prices[a] == prices[b] && StrLess(a, b))
  }

  predicate Priced(items: seq<string>, prices: Prices) { forall x :: x in items ==> x in prices }

  function Place(item: string, order: seq<string>, prices: Prices): (r: seq<string>)
    requires item in prices && Priced(order, prices)
    ensures multiset(r) == multiset(order) + multiset{item}
    ensures Priced(r, prices)
  {
    if order == [] then [item]
    else
      assert order == [order[0]] + order[1..];
      if Sooner(item, order[0], prices) then [item] + order
      else [order[0]] + Place(item, order[1..], prices)
  }

  function Ordered(items: seq<string>, prices: Prices): (r: seq<string>)
    requires Priced(items, prices)
    ensures multiset(r) == multiset(items) && Priced(r, prices)
  {
    if items == [] then []
    else
      assert items == [items[0]] + items[1..];
      Place(items[0], Ordered(items[1..], prices), prices)
  }

  function PricesOf(order: seq<string>, prices: Prices): seq<real>
    requires Priced(order, prices)
  {
    seq(|order|, i requires 0 <= i < |order| => prices[order[i]])
  }

  ghost predicate Falls(order: seq<string>, prices: Prices)
    requires Priced(order, prices)
  {
    forall i, j :: 0 <= i < j < |order| ==> prices[order[i]] >= prices[order[j]]
  }

  // No dearer than `top`.
  ghost predicate Under(order: seq<string>, prices: Prices, top: real)
    requires Priced(order, prices)
  {
    forall x :: x in order ==> prices[x] <= top
  }

  lemma FallsFromHead(head: string, order: seq<string>, prices: Prices)
    requires head in prices && Priced(order, prices)
    ensures Falls([head] + order, prices) <==> Falls(order, prices) && Under(order, prices, prices[head])
  {
    var s := [head] + order;
    if Falls(s, prices) {
      forall i, j | 0 <= i < j < |order| ensures prices[order[i]] >= prices[order[j]] {
        assert s[i + 1] == order[i] && s[j + 1] == order[j];
      }
      forall x | x in order ensures prices[x] <= prices[head] {
        var j :| 0 <= j < |order| && order[j] == x;
        assert s[0] == head && s[j + 1] == x;
      }
    }
  }

  lemma {:induction false} PlaceFalls(item: string, order: seq<string>, prices: Prices)
    requires item in prices && Priced(order, prices) && Falls(order, prices)
    ensures Falls(Place(item, order, prices), prices)
  {
    if order != [] {
      var rest := order[1..];
      assert order == [order[0]] + rest;
      FallsFromHead(order[0], rest, prices);
      if Sooner(item, order[0], prices) {
        FallsFromHead(item, order, prices);
      } else {
        var placed := Place(item, rest, prices);
        PlaceFalls(item, rest, prices);
        forall x | x in placed ensures prices[x] <= prices[order[0]] {
          assert x in multiset(placed);
          assert x == item || x in rest;
        }
        FallsFromHead(order[0], placed, prices);
      }
    }
  }

  lemma {:induction false} OrderedDescends(items: seq<string>, prices: Prices)
    requires Priced(items, prices)
    ensures Falls(Ordered(items, prices), prices)
  {
    if items != [] {
      OrderedDescends(items[1..], prices);
      PlaceFalls(items[0], Ordered(items[1..], prices), prices);
    }
  }

  // The items that went to a group, in the order they were dealt.
  function Group(order: seq<string>, to: seq<nat>, group: nat): seq<string>
    requires |order| == |to|
  {
    if order == [] then []
    else
      var n := |order| - 1;
      if to[n] == group then Group(order[..n], to[..n], group) + [order[n]] else Group(order[..n], to[..n], group)
  }

  lemma {:induction false} InGroup(order: seq<string>, to: seq<nat>, group: nat, x: string)
    requires |order| == |to|
    ensures x in Group(order, to, group) <==> exists i :: 0 <= i < |order| && order[i] == x && to[i] == group
    ensures multiset(Group(order, to, group))[x] <= multiset(order)[x]
  {
    if order != [] {
      var n := |order| - 1;
      InGroup(order[..n], to[..n], group, x);
      assert order == order[..n] + [order[n]];
      if i :| 0 <= i < n && order[i] == x && to[i] == group {
        assert order[..n][i] == x && to[..n][i] == group;
      }
    }
  }

  method LightestGroup(loads: array<real>) returns (lightest: nat)
    requires loads.Length > 0
    ensures lightest == Lightest(loads[..], loads.Length)
  {
    lightest := 0;
    var g := 1;
    while g < loads.Length
      invariant 1 <= g <= loads.Length
      invariant lightest == Lightest(loads[..], g)
    {
      if loads[g] < loads[lightest] {
        lightest := g;
      }
      g := g + 1;
    }
  }

  ghost function Groups(order: seq<string>, to: seq<nat>, groups: nat): seq<seq<string>>
    requires |order| == |to|
  {
    seq(groups, g requires 0 <= g < groups => Group(order, to, g))
  }

  // The items of each group: dearest first, each to the lightest group so far.
  method Partition(items: seq<string>, groups: nat, prices: Prices) returns (dealt: seq<seq<string>>)
    requires groups > 0 && Priced(items, prices)
    ensures var order := Ordered(items, prices);
            dealt == Groups(order, Deal(PricesOf(order, prices), groups), groups)
  {
    hide Deal, Load, Group, Groups, Loads, Lightest, Ordered;
    var order := Ordered(items, prices);
    ghost var costs := PricesOf(order, prices);
    var loads := new real[groups](g => 0.0);
    dealt := seq(groups, g => []);
    NoneDealt(order, costs, groups, loads[..], dealt);
    var k := 0;
    while k < |order|
      invariant 0 <= k <= |order| && loads.Length == groups && |dealt| == groups
      invariant loads[..] == Loads(costs[..k], Deal(costs[..k], groups), groups)
      invariant dealt == Groups(order[..k], Deal(costs[..k], groups), groups)
    {
      var lightest := LightestGroup(loads);
      var item := order[k];
      ghost var held := loads[..];
      OneMore(order, costs, k, groups, held, dealt);
      loads[lightest] := loads[lightest] + prices[item];
      assert loads[..] == held[lightest := held[lightest] + costs[k]];
      dealt := dealt[lightest := dealt[lightest] + [item]];
      k := k + 1;
    }
    assert order[..k] == order && costs[..k] == costs;
  }

  lemma NoneDealt(order: seq<string>, costs: seq<real>, groups: nat, loads: seq<real>, dealt: seq<seq<string>>)
    requires groups > 0 && |order| == |costs| && |loads| == groups && |dealt| == groups
    requires forall g :: 0 <= g < groups ==> loads[g] == 0.0 && dealt[g] == []
    ensures loads == Loads(costs[..0], Deal(costs[..0], groups), groups)
    ensures dealt == Groups(order[..0], Deal(costs[..0], groups), groups)
  {
    assert costs[..0] == [] && order[..0] == [];
  }

  // What one more item does to the loads and the groups.
  lemma OneMore(order: seq<string>, costs: seq<real>, k: nat, groups: nat, loads: seq<real>, dealt: seq<seq<string>>)
    requires groups > 0 && k < |order| == |costs|
    requires loads == Loads(costs[..k], Deal(costs[..k], groups), groups)
    requires dealt == Groups(order[..k], Deal(costs[..k], groups), groups)
    ensures |loads| == |dealt| == groups
    ensures var g := Lightest(loads, groups);
            && Loads(costs[..k + 1], Deal(costs[..k + 1], groups), groups) == loads[g := loads[g] + costs[k]]
            && Groups(order[..k + 1], Deal(costs[..k + 1], groups), groups) == dealt[g := dealt[g] + [order[k]]]
  {
    hide Load, Group;
    var before, g := Deal(costs[..k], groups), Lightest(loads, groups);
    assert order[..k + 1][..k] == order[..k] && costs[..k + 1][..k] == costs[..k];
    assert Deal(costs[..k + 1], groups) == before + [g];
    DealtOneMore(costs[..k + 1], before, g, groups);
    GroupedOneMore(order[..k + 1], before, g, groups);
  }

  lemma DealtOneMore(prices: seq<real>, before: seq<nat>, to: nat, groups: nat)
    requires prices != [] && |before| == |prices| - 1 && to < groups
    ensures var n := |prices| - 1; var loads := Loads(prices[..n], before, groups);
            Loads(prices, before + [to], groups) == loads[to := loads[to] + prices[n]]
  {
    assert (before + [to])[..|prices| - 1] == before;
  }

  lemma GroupedOneMore(order: seq<string>, before: seq<nat>, to: nat, groups: nat)
    requires order != [] && |before| == |order| - 1 && to < groups
    ensures var n := |order| - 1; var held := Groups(order[..n], before, groups);
            Groups(order, before + [to], groups) == held[to := held[to] + [order[n]]]
  {
    assert (before + [to])[..|order| - 1] == before;
  }

  lemma OneOfEach(s: seq<string>, x: string, i: nat, j: nat)
    requires multiset(s)[x] <= 1 && i < |s| && j < |s| && s[i] == x && s[j] == x
    ensures i == j
  {
    if i < j {
      TwiceCounted(s, i, j);
    } else if j < i {
      TwiceCounted(s, j, i);
    }
  }

  // Every item is dealt to exactly one group, once, and nothing else is.
  lemma DealtExactlyOnce(items: seq<string>, groups: nat, prices: Prices, x: string)
    requires groups > 0 && Priced(items, prices) && NoDuplicates(items)
    ensures var order := Ordered(items, prices); var to := Deal(PricesOf(order, prices), groups);
            && (forall g :: 0 <= g < groups && x in Group(order, to, g) ==>
                  x in items && multiset(Group(order, to, g))[x] == 1)
            && (forall g, h :: x in Group(order, to, g) && x in Group(order, to, h) ==> g == h)
            && (x in items ==> exists g :: 0 <= g < groups && x in Group(order, to, g))
  {
    hide Ordered, Deal, Group;
    var order := Ordered(items, prices);
    var to := Deal(PricesOf(order, prices), groups);
    CountedOnce(items, x);
    assert multiset(order)[x] <= 1 && (x in items <==> x in order);
    forall g: nat
      ensures x in Group(order, to, g) ==> (exists i :: 0 <= i < |order| && order[i] == x && to[i] == g)
      ensures x in Group(order, to, g) ==> x in items && multiset(Group(order, to, g))[x] == 1
    {
      InGroup(order, to, g, x);
      assert x in Group(order, to, g) <==> x in multiset(Group(order, to, g));
    }
    forall g: nat, h: nat | x in Group(order, to, g) && x in Group(order, to, h) ensures g == h {
      var i :| 0 <= i < |order| && order[i] == x && to[i] == g;
      var j :| 0 <= j < |order| && order[j] == x && to[j] == h;
      OneOfEach(order, x, i, j);
    }
    if x in items {
      var i :| 0 <= i < |order| && order[i] == x;
      InGroup(order, to, to[i], x);
      assert x in Group(order, to, to[i]);
    }
  }

  lemma TwiceCounted(s: seq<string>, i: nat, j: nat)
    requires i < j < |s| && s[i] == s[j]
    ensures multiset(s)[s[i]] >= 2
  {
    assert s == s[..j] + [s[j]] + s[j + 1..];
    assert s[i] in s[..j];
  }

  lemma PricesNonNegative(items: seq<string>, prices: Prices)
    requires Priced(items, prices) && forall x :: x in items ==> prices[x] >= 0.0
    ensures NonNegative(PricesOf(Ordered(items, prices), prices))
  {
    var order := Ordered(items, prices);
    forall i | 0 <= i < |order| ensures prices[order[i]] >= 0.0 {
      assert order[i] in multiset(order);
      assert order[i] in multiset(items);
    }
  }

  // The plan is within four thirds of any other plan for the same items and groups.
  lemma PlanWithinFourThirds(items: seq<string>, groups: nat, prices: Prices, group: nat, other: seq<nat>, most: real)
    requires groups > 0 && group < groups && Priced(items, prices) && forall x :: x in items ==> prices[x] >= 0.0
    requires Achieves(PricesOf(Ordered(items, prices), prices), other, groups, most)
    ensures var costs := PricesOf(Ordered(items, prices), prices);
            3.0 * groups as real * Load(costs, Deal(costs, groups), group) <= (4.0 * groups as real - 1.0) * most
  {
    hide Ordered, Deal, Load, Achieves;
    OrderedDescends(items, prices);
    PricesNonNegative(items, prices);
    var order := Ordered(items, prices);
    var costs := PricesOf(order, prices);
    forall i, j | 0 <= i < j < |costs| ensures costs[i] >= costs[j] {
      assert prices[order[i]] >= prices[order[j]];
    }
    WithinFourThirds(costs, groups, group, other, most);
  }

  // ----- Dealing features to legs by their place -----

  function LegOf(index: nat, legs: nat): (leg: nat)
    requires legs > 0
    ensures 1 <= leg <= legs
  {
    if (index + 1) % legs == 0 then legs else (index + 1) % legs
  }

  lemma SmallMod(a: nat, n: nat)
    requires a < n
    ensures a % n == a
  {
  }

  // Dealing by place gives every feature to exactly one of the legs 1 to n.
  lemma OneLegEach(index: nat, legs: nat, leg: nat)
    requires 1 <= leg <= legs
    ensures (index + 1) % legs == leg % legs <==> leg == LegOf(index, legs)
  {
    if leg < legs {
      SmallMod(leg, legs);
    } else {
      assert leg % legs == 0;
    }
    assert 0 <= (index + 1) % legs < legs;
  }
}
