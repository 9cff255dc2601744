/**
  Strictly increasing integer sequences that run forever in both directions. Month starts,
  local midnights, bucket starts and a bill's due dates are all sequences of this kind, so
  "which one contains this instant" is defined and characterised once, here.
 */
module Grid {
  import opened Prelude

  ghost predicate StrictlyIncreasing(f: int -> int) {
    forall i, j :: i < j ==> f(i) < f(j)
  }

  lemma InOrder(f: int -> int, i: int, j: int)
    requires StrictlyIncreasing(f)
    ensures i < j <==> f(i) < f(j)
    ensures i == j <==> f(i) == f(j)
  {
  }

  /** It is enough that each member is below the next. */
  lemma FromSteps(f: int -> int)
    requires forall i :: f(i) < f(i + 1)
    ensures StrictlyIncreasing(f)
  {
    forall i, j | i < j ensures f(i) < f(j) {
      StepsApart(f, i, j);
    }
  }

  lemma {:induction false} StepsApart(f: int -> int, i: int, j: int)
    requires forall k :: f(k) < f(k + 1)
    requires i < j
    ensures f(i) < f(j)
    decreases j - i
  {
    assert f(j - 1) < f(j - 1 + 1);
    if i < j - 1 {
      StepsApart(f, i, j - 1);
    }
  }

  /** Consecutive members are at least one apart, so members i and j are at least j - i apart. */
  lemma {:induction false} Spread(f: int -> int, i: int, j: int)
    requires StrictlyIncreasing(f)
    requires i <= j
    ensures f(i) + (j - i) <= f(j)
    decreases j - i
  {
    if i < j {
      Spread(f, i, j - 1);
      assert f(j - 1) < f(j);
    }
  }

  /** The index of the last member that is not after t. */
  function Floor(f: int -> int, t: int): (r: int)
    requires StrictlyIncreasing(f)
    ensures f(r) <= t < f(r + 1)
  {
    var start := Min(0, t - f(0));
    Spread(f, start, 0);
    FloorFrom(f, t, start)
  }

  function FloorFrom(f: int -> int, t: int, i: int): (r: int)
    requires StrictlyIncreasing(f)
    requires f(i) <= t
    ensures f(r) <= t < f(r + 1)
    decreases t - f(i)
  {
    if t < f(i + 1) then i else FloorFrom(f, t, i + 1)
  }

  /** Floor is the adjoint of f: it answers every "is member i at or before t" question. */
  lemma FloorAdjoint(f: int -> int, t: int, i: int)
    requires StrictlyIncreasing(f)
    ensures f(i) <= t <==> i <= Floor(f, t)
    ensures f(i) <= t < f(i + 1) <==> i == Floor(f, t)
  {
    var r := Floor(f, t);
    assert i < r ==> f(i) < f(r);
    assert r + 1 < i ==> f(r + 1) < f(i);
    assert r + 1 <= i ==> f(r + 1) <= f(i);
    assert i + 1 < r ==> f(i + 1) < f(r);
    assert i + 1 <= r ==> f(i + 1) <= f(r);
  }

  lemma FloorMonotone(f: int -> int, s: int, t: int)
    requires StrictlyIncreasing(f)
    requires s <= t
    ensures Floor(f, s) <= Floor(f, t)
  {
    FloorAdjoint(f, t, Floor(f, s));
  }
}
