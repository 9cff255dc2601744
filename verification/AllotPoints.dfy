/** Sharing a point budget across balance series, water-filling from the shallowest. */
module AllotPoints {
  import opened Prelude

  function Total(sizes: seq<nat>): nat {
    if sizes == [] then 0 else Total(sizes[..|sizes| - 1]) + sizes[|sizes| - 1]
  }

  /** One point for each series that wants any. */
  function Ones(sizes: seq<nat>): (out: seq<nat>)
    ensures |out| == |sizes|
  {
    seq(|sizes|, i requires 0 <= i < |sizes| => Min(1, sizes[i]))
  }

  /** How many series want any. */
  function Takers(sizes: seq<nat>): nat {
    Total(Ones(sizes))
  }

  // ----- the order series are served in -----

  /** order lists each of the first n indices once. */
  ghost predicate Lists(order: seq<nat>, n: nat) {
    && |order| == n
    && (forall a :: 0 <= a < |order| ==> order[a] < n)
    && (forall a, b :: 0 <= a < b < |order| ==> order[a] != order[b])
    && (forall i :: 0 <= i < n ==> i in order)
  }

  /** Sizes ascending along the order, equal sizes keeping their input order. */
  ghost predicate StableOrder(order: seq<nat>, sizes: seq<nat>)
    requires forall a :: 0 <= a < |order| ==> order[a] < |sizes|
  {
    forall a, b :: 0 <= a < b < |order| ==>
      sizes[order[a]] < sizes[order[b]] || (sizes[order[a]] == sizes[order[b]] && order[a] < order[b])
  }

  /** Where a new index goes: after every index whose series is no larger. */
  function Slot(order: seq<nat>, sizes: seq<nat>, size: nat): (k: nat)
    requires forall a :: 0 <= a < |order| ==> order[a] < |sizes|
    ensures k <= |order|
  {
    if order == [] || sizes[order[|order| - 1]] <= size then |order|
    else Slot(order[..|order| - 1], sizes, size)
  }

  lemma {:induction false} SlotSplits(order: seq<nat>, sizes: seq<nat>, size: nat)
    requires forall a :: 0 <= a < |order| ==> order[a] < |sizes|
    requires forall a, b :: 0 <= a < b < |order| ==> sizes[order[a]] <= sizes[order[b]]
    ensures forall a :: 0 <= a < Slot(order, sizes, size) ==> sizes[order[a]] <= size
    ensures forall a :: Slot(order, sizes, size) <= a < |order| ==> size < sizes[order[a]]
  {
    if order != [] {
      var n := |order| - 1;
      assert forall a :: 0 <= a < n ==> sizes[order[a]] <= sizes[order[n]];
      if sizes[order[n]] > size {
        SlotSplits(order[..n], sizes, size);
      } else {
        assert Slot(order, sizes, size) == |order|;
      }
    }
  }

  method SortBySize(sizes: seq<nat>) returns (order: seq<nat>)
    ensures Lists(order, |sizes|) && StableOrder(order, sizes)
  {
    order := [];
    for i := 0 to |sizes|
      invariant Lists(order, i) && StableOrder(order, sizes)
    {
      var k := Slot(order, sizes, sizes[i]);
      SlotSplits(order, sizes, sizes[i]);
      ListsInsert(order, i, k);
      StableInsert(order, sizes, i, k);
      order := order[..k] + [i] + order[k..];
    }
  }

  lemma ListsInsert(order: seq<nat>, i: nat, k: nat)
    requires Lists(order, i) && k <= i
    ensures Lists(order[..k] + [i] + order[k..], i + 1)
  {
    var grown := order[..k] + [i] + order[k..];
    forall m | 0 <= m < i + 1 ensures m in grown {
      if m < i {
        assert m in order;
        var a :| 0 <= a < |order| && order[a] == m;
        assert grown[if a < k then a else a + 1] == m;
      } else {
        assert grown[k] == i;
      }
    }
  }

  lemma StableInsert(order: seq<nat>, sizes: seq<nat>, i: nat, k: nat)
    requires i < |sizes| && k <= |order|
    requires (forall a :: 0 <= a < |order| ==> order[a] < i) && StableOrder(order, sizes)
    requires forall a :: 0 <= a < k ==> sizes[order[a]] <= sizes[i]
    requires forall a :: k <= a < |order| ==> sizes[i] < sizes[order[a]]
    ensures StableOrder(order[..k] + [i] + order[k..], sizes)
  {
    var grown := order[..k] + [i] + order[k..];
    forall a, b | 0 <= a < b < |grown|
      ensures sizes[grown[a]] < sizes[grown[b]] || (sizes[grown[a]] == sizes[grown[b]] && grown[a] < grown[b])
    {
      var a', b' := if a < k then a else a - 1, if b < k then b else b - 1;
      assert a != k ==> grown[a] == order[a'];
      assert b != k ==> grown[b] == order[b'];
    }
  }

  // ----- the allotment -----

  /** The values of v at the listed indices, in that order. */
  function Pick(v: seq<nat>, order: seq<nat>): (out: seq<nat>)
    requires forall a :: 0 <= a < |order| ==> order[a] < |v|
    ensures |out| == |order|
  {
    seq(|order|, a requires 0 <= a < |order| => v[order[a]])
  }

  lemma {:induction false} TotalWithout(v: seq<nat>, k: nat)
    requires k < |v|
    ensures Total(v) == Total(v[..k] + v[k + 1..]) + v[k]
  {
    var n := |v| - 1;
    if k < n {
      TotalWithout(v[..n], k);
      assert (v[..k] + v[k + 1..])[..n - 1] == v[..n][..k] + v[..n][k + 1..];
    } else {
      assert v[..k] + v[k + 1..] == v[..n];
    }
  }

  /** Serving every index once serves the whole total. */
  lemma {:induction false} OrderKeepsTotal(v: seq<nat>, order: seq<nat>)
    requires Lists(order, |v|)
    ensures Total(Pick(v, order)) == Total(v)
  {
    if v != [] {
      var n := |v| - 1;
      assert n in order;
      var k :| 0 <= k < |order| && order[k] == n;
      var rest := order[..k] + order[k + 1..];
      WithoutLast(order, n, k);
      var picked := Pick(v, order);
      TotalWithout(picked, k);
      hide Total;
      OrderKeepsTotal(v[..n], rest);
      PickWithout(v, order, k);
      assert Total(v) == Total(v[..n]) + v[n] by { TotalLast(v); }
    }
  }

  lemma TotalLast(v: seq<nat>)
    requires v != []
    ensures Total(v) == Total(v[..|v| - 1]) + v[|v| - 1]
  {
  }

  lemma PickWithout(v: seq<nat>, order: seq<nat>, k: nat)
    requires v != [] && k < |order|
    requires forall a :: 0 <= a < |order| ==> order[a] < |v|
    requires forall a :: 0 <= a < |order| && a != k ==> order[a] < |v| - 1
    ensures var rest := order[..k] + order[k + 1..];
            && (forall a :: 0 <= a < |rest| ==> rest[a] < |v| - 1)
            && Pick(v, order)[..k] + Pick(v, order)[k + 1..] == Pick(v[..|v| - 1], rest)
  {
    var rest := order[..k] + order[k + 1..];
    assert forall a :: 0 <= a < |rest| ==> rest[a] == order[if a < k then a else a + 1];
  }

  /** Taking the last index out of an order of n + 1 leaves an order of n. */
  lemma WithoutLast(order: seq<nat>, n: nat, k: nat)
    requires Lists(order, n + 1) && k <= n && order[k] == n
    ensures Lists(order[..k] + order[k + 1..], n)
    ensures forall a :: 0 <= a < |order| && a != k ==> order[a] < n
  {
    var rest := order[..k] + order[k + 1..];
    forall i | 0 <= i < n ensures i in rest {
      assert i in order;
      var a :| 0 <= a < |order| && order[a] == i;
      assert rest[if a < k then a else a - 1] == i;
    }
    forall a | 0 <= a < |order| && a != k ensures order[a] < n {
      assert order[a] != order[k];
    }
  }

  /** One pass: an equal share of what is left, at least one, at most what is wanted. */
  function Share(remaining: int, left: nat, size: nat): (share: nat)
    requires left > 0
    ensures share <= size && (size > 0 ==> share > 0)
  {
    Min(Max(1, TruncDiv(remaining, left)), size)
  }

  /**
    What the loop knows after serving some series of a budget that can give each a point. level
    bounds every share so far; once a series is trimmed, shares stay within one of each other.
   */
  ghost predicate Filling(given: seq<nat>, wanted: seq<nat>, remaining: nat, level: nat, trimmed: bool) {
    && |given| <= |wanted|
    && var left := |wanted| - |given|;
    && 1 <= level && level * left <= remaining
    && (forall a :: 0 <= a < |given| ==> given[a] <= wanted[a])
    && (!trimmed ==> forall a :: 0 <= a < |given| ==> given[a] == wanted[a] <= level)
    && (trimmed ==>
          && remaining <= (level + 1) * left
          && (forall a :: 0 <= a < |given| ==> given[a] <= level + 1)
          && (forall a :: 0 <= a < |given| && given[a] < wanted[a] ==> level <= given[a])
          && (forall a :: |given| <= a < |wanted| ==> level < wanted[a]))
  }

  ghost predicate Ascending(wanted: seq<nat>) {
    forall a, b :: 0 <= a < b < |wanted| ==> wanted[a] <= wanted[b]
  }

  lemma Quotient(n: nat, d: nat) returns (q: nat)
    requires d > 0
    ensures q == n / d == TruncDiv(n, d) && q * d <= n < (q + 1) * d
  {
    q := n / d;
    assert n == d * q + n % d;
  }

  lemma QuotientWithin(n: nat, d: nat, q: nat, level: nat)
    requires d > 0 && q * d <= n < (q + 1) * d
    ensures level * d <= n ==> level <= q
    ensures n <= (level + 1) * d ==> q <= level + 1
  {
    if q < level {
      Multiply(q + 1, level, d);
    }
    if level + 1 < q {
      Multiply(level + 2, q, d);
    }
  }

  /** The equal share s of the remainder, between level and one more than level once trimmed. */
  lemma ShareBounds(remaining: nat, left: nat, level: nat) returns (s: nat)
    requires left > 0 && 1 <= level && level * left <= remaining
    ensures s == remaining / left == TruncDiv(remaining, left)
    ensures level <= s <= remaining
    ensures s * left <= remaining < (s + 1) * left
    ensures remaining <= (level + 1) * left ==> s <= level + 1 && (s == level + 1 ==> remaining == (level + 1) * left)
  {
    s := Quotient(remaining, left);
    QuotientWithin(remaining, left, s, level);
    Multiply(1, left, s);
  }

  lemma OneFewer(k: nat, left: nat)
    requires left > 0
    ensures k * (left - 1) == k * left - k
  {
  }

  /** One pass keeps the filling invariant; the level it settles on never falls. */
  lemma ServeOne(given: seq<nat>, wanted: seq<nat>, remaining: nat, level: nat, trimmed: bool)
    returns (level': nat, trimmed': bool)
    requires Ascending(wanted) && |given| < |wanted|
    requires Filling(given, wanted, remaining, level, trimmed)
    ensures var share := Share(remaining, |wanted| - |given|, wanted[|given|]);
            share <= remaining && Filling(given + [share], wanted, remaining - share, level', trimmed')
    ensures level <= level'
  {
    var left, size := |wanted| - |given|, wanted[|given|];
    var s := ShareBounds(remaining, left, level);
    var share := Share(remaining, left, size);
    assert share == Min(s, size);
    level' := if trimmed then level else s;
    trimmed' := trimmed || size > s;
    OneFewer(level', left);
    OneFewer(level' + 1, left);
    FillingStep(given, wanted, remaining, level, trimmed, s);
  }

  lemma FillingStep(given: seq<nat>, wanted: seq<nat>, remaining: nat, level: nat, trimmed: bool, s: nat)
    requires Ascending(wanted) && |given| < |wanted|
    requires Filling(given, wanted, remaining, level, trimmed)
    requires level <= s <= remaining
    requires var left, k := |wanted| - |given|, if trimmed then level else s;
             && s * left <= remaining < (s + 1) * left
             && k * (left - 1) == k * left - k && (k + 1) * (left - 1) == (k + 1) * left - (k + 1)
             && (trimmed ==> s <= level + 1 && (s == level + 1 ==> remaining == (level + 1) * left))
    ensures var share := Min(s, wanted[|given|]);
            Filling(given + [share], wanted, remaining - share,
                    if trimmed then level else s, trimmed || wanted[|given|] > s)
  {
    var share, k := Min(s, wanted[|given|]), if trimmed then level else s;
    var left := |wanted| - |given|;
    var more := given + [share];
    assert |wanted| - |more| == left - 1;
    assert k * (left - 1) <= remaining - share;
    assert trimmed || wanted[|given|] > s ==> remaining - share <= (k + 1) * (left - 1);
  }

  lemma Multiply(a: nat, b: nat, c: nat)
    requires a <= b
    ensures a * c <= b * c
  {
  }

  /** No series gets more than one point above a trimmed one. */
  ghost predicate MaxMinFair(allot: seq<nat>, sizes: seq<nat>) {
    |allot| == |sizes| &&
    forall i, j :: 0 <= i < |sizes| && 0 <= j < |sizes| && allot[i] < sizes[i] ==> allot[j] <= allot[i] + 1
  }

  /** Served in any order, the allotment is exact, whole for shallow series, and fair. */
  ghost predicate WellShared(allot: seq<nat>, sizes: seq<nat>, budget: nat) {
    && |allot| == |sizes| && Takers(sizes) > 0
    && Total(allot) == budget
    && (forall i :: 0 <= i < |sizes| && sizes[i] <= budget / Takers(sizes) ==> allot[i] == sizes[i])
    && MaxMinFair(allot, sizes)
  }

  lemma SameShares(given: seq<nat>, wanted: seq<nat>)
    requires |given| == |wanted| && forall a :: 0 <= a < |given| ==> given[a] == wanted[a]
    ensures Total(given) == Total(wanted)
  {
    assert given == wanted;
  }

  lemma FullyServed(given: seq<nat>, wanted: seq<nat>, remaining: nat, level: nat, trimmed: bool, budget: nat)
    requires |given| == |wanted| && Filling(given, wanted, remaining, level, trimmed)
    requires Total(given) + remaining == budget < Total(wanted)
    requires Takers(wanted) > 0 && budget / Takers(wanted) <= level
    ensures WellShared(given, wanted, budget)
  {
    hide Takers;
    if !trimmed {
      SameShares(given, wanted);
    }
  }

  lemma TakersInAnyOrder(sizes: seq<nat>, order: seq<nat>)
    requires Lists(order, |sizes|)
    ensures Takers(Pick(sizes, order)) == Takers(sizes)
  {
    OrderKeepsTotal(Ones(sizes), order);
    assert Pick(Ones(sizes), order) == Ones(Pick(sizes, order));
  }

  /** Sharing well in the serving order is sharing well. */
  lemma ServingOrderIrrelevant(allot: seq<nat>, sizes: seq<nat>, order: seq<nat>, budget: nat)
    requires |allot| == |sizes| && Lists(order, |sizes|)
    requires WellShared(Pick(allot, order), Pick(sizes, order), budget)
    ensures WellShared(allot, sizes, budget)
  {
    OrderKeepsTotal(allot, order);
    TakersInAnyOrder(sizes, order);
    hide Total, Takers;
    var given, wanted := Pick(allot, order), Pick(sizes, order);
    forall i | 0 <= i < |sizes| ensures ServedAt(allot, sizes, order, i) {
      assert i in order;
    }
    forall i, j | 0 <= i < |sizes| && 0 <= j < |sizes| && allot[i] < sizes[i] ensures allot[j] <= allot[i] + 1 {
      assert ServedAt(allot, sizes, order, i) && ServedAt(allot, sizes, order, j);
    }
    forall i | 0 <= i < |sizes| && sizes[i] <= budget / Takers(sizes) ensures allot[i] == sizes[i] {
      assert ServedAt(allot, sizes, order, i);
    }
  }

  lemma OnesInAnyOrder(allot: seq<nat>, sizes: seq<nat>, order: seq<nat>)
    requires |allot| == |sizes| && Lists(order, |sizes|)
    requires Pick(allot, order) == Ones(Pick(sizes, order))
    ensures allot == Ones(sizes)
  {
    forall i | 0 <= i < |sizes| ensures allot[i] == Ones(sizes)[i] {
      assert i in order;
      var a :| 0 <= a < |order| && order[a] == i;
      assert Pick(allot, order)[a] == Ones(Pick(sizes, order))[a];
    }
  }

  ghost predicate ServedAt(allot: seq<nat>, sizes: seq<nat>, order: seq<nat>, i: nat)
    requires |allot| == |sizes| && i < |sizes|
    requires forall a :: 0 <= a < |order| ==> order[a] < |sizes|
  {
    exists a :: 0 <= a < |order| && order[a] == i && Pick(allot, order)[a] == allot[i]
      && Pick(sizes, order)[a] == sizes[i]
  }

  /** Nothing wanted is exceeded and nothing non-empty starved. */
  ghost predicate Fits(given: seq<nat>, wanted: seq<nat>) {
    |given| <= |wanted| &&
    forall a :: 0 <= a < |given| ==> given[a] <= wanted[a] && (wanted[a] > 0 ==> given[a] > 0)
  }

  lemma FitsInAnyOrder(allot: seq<nat>, sizes: seq<nat>, order: seq<nat>)
    requires |allot| == |sizes| && Lists(order, |sizes|)
    requires Fits(Pick(allot, order), Pick(sizes, order))
    ensures Fits(allot, sizes)
  {
    forall i | 0 <= i < |sizes| ensures allot[i] <= sizes[i] && (sizes[i] > 0 ==> allot[i] > 0) {
      assert i in order;
      var a :| 0 <= a < |order| && order[a] == i;
      assert Pick(allot, order)[a] <= Pick(sizes, order)[a];
    }
  }

  /** Served smallest first, the series that want nothing come before the others. */
  ghost predicate Splits(wanted: seq<nat>, empty: nat) {
    && empty <= |wanted|
    && (forall a :: 0 <= a < empty ==> wanted[a] == 0)
    && (forall a :: empty <= a < |wanted| ==> wanted[a] > 0)
  }

  lemma {:induction false} SplitsSomewhere(wanted: seq<nat>) returns (empty: nat)
    requires Ascending(wanted)
    ensures Splits(wanted, empty) && Takers(wanted) == |wanted| - empty
  {
    var n := |wanted| - 1;
    if wanted == [] || wanted[n] == 0 {
      empty := |wanted|;
      AllEmpty(wanted);
    } else {
      empty := SplitsSomewhere(wanted[..n]);
      assert Ones(wanted)[..n] == Ones(wanted[..n]);
    }
  }

  lemma {:induction false} AllEmpty(wanted: seq<nat>)
    requires forall a :: 0 <= a < |wanted| ==> wanted[a] == 0
    ensures Takers(wanted) == 0
  {
    if wanted != [] {
      var n := |wanted| - 1;
      assert Ones(wanted)[..n] == Ones(wanted[..n]);
      AllEmpty(wanted[..n]);
    }
  }

  /** The shares the loop hands out, in serving order, and what the loop knows of them. */
  ghost predicate Served(given: seq<nat>, wanted: seq<nat>, empty: nat, budget: int, remaining: int, level: nat,
                         trimmed: bool) {
    var takers := |wanted| - empty;
    && Fits(given, wanted)
    && (0 < takers <= budget ==>
          && remaining >= 0 && Total(given) + remaining == budget && budget / takers <= level
          && (if |given| < empty then remaining == budget && level == budget / takers && !trimmed
              else Filling(given, wanted, remaining, level, trimmed)))
    && (budget < takers ==>
          && remaining <= takers && remaining <= |wanted| - |given|
          && given == Ones(wanted[..|given|]))
  }

  /** Before any series that wants points: each can have an equal share of the whole budget. */
  lemma StartFilling(given: seq<nat>, wanted: seq<nat>, empty: nat, budget: nat)
    requires Splits(wanted, empty) && 0 < |wanted| - empty <= budget
    requires |given| == empty && Fits(given, wanted)
    ensures Filling(given, wanted, budget, budget / (|wanted| - empty), false)
  {
    var takers := |wanted| - empty;
    assert budget == takers * (budget / takers) + budget % takers;
  }

  /** With fewer points left than series, a share is one point, or none if none is wanted. */
  lemma ScarceShare(remaining: int, left: nat, size: nat)
    requires left > 0 && remaining <= left
    ensures Share(remaining, left, size) == Min(1, size)
  {
    if remaining >= 0 {
      assert remaining / left <= 1;
    } else {
      assert TruncDiv(remaining, left) <= 0;
    }
  }

  lemma ServeScarce(given: seq<nat>, wanted: seq<nat>, empty: nat, budget: int, remaining: int, level: nat,
                    trimmed: bool)
    requires Splits(wanted, empty) && |given| < |wanted| && budget < |wanted| - empty
    requires Served(given, wanted, empty, budget, remaining, level, trimmed)
    ensures var share := Share(remaining, |wanted| - |given|, wanted[|given|]);
            Served(given + [share], wanted, empty, budget, Max(0, remaining - share), level, trimmed)
  {
    hide Filling, Share;
    ScarceShare(remaining, |wanted| - |given|, wanted[|given|]);
    var more := given + [Share(remaining, |wanted| - |given|, wanted[|given|])];
    assert more == Ones(wanted[..|given| + 1]);
  }

  lemma ServeNext(given: seq<nat>, wanted: seq<nat>, empty: nat, budget: int, remaining: int, level: nat, trimmed: bool)
    returns (level': nat, trimmed': bool)
    requires Ascending(wanted) && Splits(wanted, empty) && |given| < |wanted|
    requires Served(given, wanted, empty, budget, remaining, level, trimmed)
    ensures var share := Share(remaining, |wanted| - |given|, wanted[|given|]);
            Served(given + [share], wanted, empty, budget, Max(0, remaining - share), level', trimmed')
  {
    hide Filling, Share;
    level', trimmed' := level, trimmed;
    var share := Share(remaining, |wanted| - |given|, wanted[|given|]);
    var more := given + [share];
    TotalLast(more);
    assert more[..|given|] == given;
    if budget < |wanted| - empty {
      ServeScarce(given, wanted, empty, budget, remaining, level, trimmed);
    } else if 0 < |wanted| - empty {
      if |given| >= empty {
        level', trimmed' := ServeOne(given, wanted, remaining, level, trimmed);
      } else if |given| + 1 == empty {
        StartFilling(more, wanted, empty, budget);
      }
    }
  }

  /** A budget below the total is met exactly and fairly, or falls short of a point each. */
  ghost predicate Allotted(allot: seq<nat>, sizes: seq<nat>, budget: int) {
    && Fits(allot, sizes)
    && (Takers(sizes) <= budget ==> WellShared(allot, sizes, budget))
    && (budget < Takers(sizes) ==> allot == Ones(sizes))
  }

  /** The allotment halfway: the first series of the order hold their shares, the others are whole. */
  ghost predicate Partway(allot: seq<nat>, order: seq<nat>, given: seq<nat>, sizes: seq<nat>) {
    && |allot| == |sizes| && Lists(order, |sizes|) && |given| <= |order|
    && (forall a :: 0 <= a < |given| ==> allot[order[a]] == given[a])
    && (forall a :: |given| <= a < |order| ==> allot[order[a]] == sizes[order[a]])
  }

  lemma OneMoreServed(allot: seq<nat>, order: seq<nat>, given: seq<nat>, sizes: seq<nat>, share: nat)
    requires Partway(allot, order, given, sizes) && |given| < |order|
    ensures order[|given|] < |allot|
    ensures Partway(allot[order[|given|] := share], order, given + [share], sizes)
  {
  }

  lemma WholeAtFirst(order: seq<nat>, sizes: seq<nat>)
    requires Lists(order, |sizes|) && StableOrder(order, sizes)
    ensures Partway(sizes, order, [], sizes)
    ensures |order| == |sizes| && forall a :: 0 <= a < |order| ==> order[a] < |sizes|
    ensures Ascending(Pick(sizes, order))
  {
  }

  lemma SharesAtLast(allot: seq<nat>, order: seq<nat>, given: seq<nat>, sizes: seq<nat>)
    requires Partway(allot, order, given, sizes) && |given| == |order|
    ensures |allot| == |sizes| && given == Pick(allot, order)
  {
  }

  /** The filling loop, over an allotment that starts out whole. */
  method Fill(allot: array<nat>, sizes: seq<nat>, order: seq<nat>, budget: int)
    requires allot[..] == sizes && Lists(order, |sizes|) && StableOrder(order, sizes)
    requires budget < Total(sizes)
    modifies allot
    ensures Allotted(allot[..], sizes, budget)
  {
    hide StableOrder, Served, Share, Lists, Ascending, Total, Takers, Splits, Allotted, Partway;
    WholeAtFirst(order, sizes);
    ghost var wanted := Pick(sizes, order);
    ghost var empty := SplitsSomewhere(wanted);
    var remaining, left := budget, |order|;
    ghost var given, level, trimmed := StartServing(wanted, empty, budget);
    for n := 0 to |order|
      invariant left == |order| - n && |given| == n
      invariant Partway(allot[..], order, given, sizes)
      invariant Served(given, wanted, empty, budget, remaining, level, trimmed)
    {
      var i := order[n];
      ghost var before := allot[..];
      var share := Share(remaining, left, sizes[i]);
      level, trimmed := ServeNext(given, wanted, empty, budget, remaining, level, trimmed);
      OneMoreServed(before, order, given, sizes, share);
      allot[i] := share;
      assert allot[..] == before[i := share];
      given := given + [share];
      remaining := Max(0, remaining - share);
      left := left - 1;
    }
    SharesAtLast(allot[..], order, given, sizes);
    ServedAll(allot[..], sizes, order, empty, budget, remaining, level, trimmed);
  }

  /** Every budget: everything, an exact and fair share of it, or a point for whoever wants any. */
  method AllotPoints(sizes: seq<nat>, budget: int) returns (allot: array<nat>)
    ensures fresh(allot) && allot.Length == |sizes|
    ensures Total(sizes) <= budget ==> allot[..] == sizes
    ensures Takers(sizes) <= budget < Total(sizes) ==> WellShared(allot[..], sizes, budget)
    ensures budget < Takers(sizes) && budget < Total(sizes) ==> allot[..] == Ones(sizes)
    ensures forall i :: 0 <= i < |sizes| ==> allot[i] <= sizes[i] && (sizes[i] > 0 ==> allot[i] > 0)
  {
    hide WellShared, Total, Lists, StableOrder, Takers;
    allot := new nat[|sizes|](i requires 0 <= i < |sizes| => sizes[i]);
    assert allot[..] == sizes;
    if Total(sizes) <= budget || |sizes| == 0 {
      if |sizes| == 0 { NothingWanted(sizes); }
      return;
    }
    var order := SortBySize(sizes);
    Fill(allot, sizes, order, budget);
    assert forall i :: 0 <= i < |sizes| ==> allot[i] == allot[..][i];
  }

  lemma NothingWanted(sizes: seq<nat>)
    requires sizes == []
    ensures Total(sizes) == Takers(sizes) == 0 && Ones(sizes) == []
  {
  }

  lemma StartServing(wanted: seq<nat>, empty: nat, budget: int) returns (given: seq<nat>, level: nat, trimmed: bool)
    requires Splits(wanted, empty)
    ensures given == [] && Served(given, wanted, empty, budget, budget, level, trimmed)
  {
    given, level, trimmed := [], 0, false;
    var takers := |wanted| - empty;
    if 0 < takers <= budget {
      level := budget / takers;
      if empty == 0 { StartFilling(given, wanted, empty, budget); }
    }
  }

  lemma ServedScarcely(allot: seq<nat>, sizes: seq<nat>, order: seq<nat>, empty: nat, budget: int, remaining: int,
                       level: nat, trimmed: bool)
    requires |allot| == |sizes| && Lists(order, |sizes|) && empty <= |sizes| && budget < |sizes| - empty
    requires Served(Pick(allot, order), Pick(sizes, order), empty, budget, remaining, level, trimmed)
    ensures allot == Ones(sizes)
  {
    var given, wanted := Pick(allot, order), Pick(sizes, order);
    hide Total, Filling, Takers, Fits, Ones;
    assert wanted[..|given|] == wanted;
    OnesInAnyOrder(allot, sizes, order);
  }

  lemma ServedToTheEnd(given: seq<nat>, wanted: seq<nat>, empty: nat, budget: nat, remaining: int, level: nat,
                       trimmed: bool)
    requires |given| == |wanted| && 0 < |wanted| - empty <= budget && Takers(wanted) == |wanted| - empty
    requires Served(given, wanted, empty, budget, remaining, level, trimmed)
    ensures remaining >= 0 && Filling(given, wanted, remaining, level, trimmed)
    ensures Total(given) + remaining == budget && budget / Takers(wanted) <= level
  {
    hide Total, Filling, Takers, Fits, Ones;
  }

  lemma ServedFairly(allot: seq<nat>, sizes: seq<nat>, order: seq<nat>, empty: nat, budget: int, remaining: int,
                     level: nat, trimmed: bool)
    requires |allot| == |sizes| && Lists(order, |sizes|) && 0 < |sizes| - empty <= budget < Total(sizes)
    requires Takers(Pick(sizes, order)) == |sizes| - empty
    requires Served(Pick(allot, order), Pick(sizes, order), empty, budget, remaining, level, trimmed)
    ensures WellShared(allot, sizes, budget)
  {
    OrderKeepsTotal(sizes, order);
    var given, wanted := Pick(allot, order), Pick(sizes, order);
    hide Total, Filling, WellShared, Takers, Pick, Lists, Served;
    ServedToTheEnd(given, wanted, empty, budget, remaining, level, trimmed);
    FullyServed(given, wanted, remaining, level, trimmed, budget);
    ServingOrderIrrelevant(allot, sizes, order, budget);
  }

  lemma ServedAll(allot: seq<nat>, sizes: seq<nat>, order: seq<nat>, empty: nat, budget: int, remaining: int,
                  level: nat, trimmed: bool)
    requires |allot| == |sizes| && Lists(order, |sizes|) && budget < Total(sizes)
    requires Splits(Pick(sizes, order), empty) && Takers(Pick(sizes, order)) == |sizes| - empty
    requires Served(Pick(allot, order), Pick(sizes, order), empty, budget, remaining, level, trimmed)
    ensures Allotted(allot, sizes, budget)
  {
    FitsInAnyOrder(allot, sizes, order);
    TakersInAnyOrder(sizes, order);
    hide Total, Filling, WellShared, Takers, Pick, Fits, Ones, Served;
    if budget < Takers(sizes) {
      ServedScarcely(allot, sizes, order, empty, budget, remaining, level, trimmed);
    } else {
      if empty == |sizes| { NoneTaken(sizes); }
      ServedFairly(allot, sizes, order, empty, budget, remaining, level, trimmed);
    }
  }

  /** Where nobody wants a point there is nothing to give. */
  lemma {:induction false} NoneTaken(sizes: seq<nat>)
    requires Takers(sizes) == 0
    ensures Total(sizes) == 0
  {
    if sizes != [] {
      var n := |sizes| - 1;
      assert Ones(sizes)[..n] == Ones(sizes[..n]);
      NoneTaken(sizes[..n]);
    }
  }
}
