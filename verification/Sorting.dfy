/** The libraries' sort, by an order in which any two elements can be compared. */
module Sorting {

  ghost predicate InOrder<T(!new)>(xs: seq<T>, before: (T, T) -> bool) {
    forall i, j :: 0 <= i < j < |xs| ==> before(xs[i], xs[j])
  }

  ghost predicate Ordering<T(!new)>(before: (T, T) -> bool) {
    && (forall x, y :: before(x, y) || before(y, x))
    && forall x, y, z :: before(x, y) && before(y, z) ==> before(x, z)
  }

  lemma InsertKeeps<T(!new)>(xs: seq<T>, x: T, i: nat, before: (T, T) -> bool)
    requires InOrder(xs, before) && i <= |xs|
    requires (forall k :: 0 <= k < i ==> before(xs[k], x)) && forall k :: i <= k < |xs| ==> before(x, xs[k])
    ensures InOrder(xs[..i] + [x] + xs[i..], before) && multiset(xs[..i] + [x] + xs[i..]) == multiset(xs) + multiset{x}
  {
    assert xs == xs[..i] + xs[i..];
  }

  // What comes before the last element that comes before x also comes before x.
  lemma BelowInserted<T(!new)>(xs: seq<T>, x: T, i: nat, before: (T, T) -> bool)
    requires InOrder(xs, before) && Ordering(before) && 0 < i <= |xs| && before(xs[i - 1], x)
    ensures forall k :: 0 <= k < i ==> before(xs[k], x)
  {
  }

  method Sort<T(!new)>(xs: seq<T>, before: (T, T) -> bool) returns (r: seq<T>)
    requires Ordering(before)
    ensures InOrder(r, before) && multiset(r) == multiset(xs)
  {
    hide InOrder;
    r := [];
    var n := 0;
    assert InOrder(r, before) by {
      Nothing(before);
    }
    while n < |xs|
      invariant 0 <= n <= |xs| && InOrder(r, before) && multiset(r) == multiset(xs[..n])
    {
      var x, i := xs[n], |r|;
      while i > 0 && !before(r[i - 1], x)
        invariant 0 <= i <= |r| && forall k :: i <= k < |r| ==> before(x, r[k])
      {
        i := i - 1;
      }
      if i > 0 {
        BelowInserted(r, x, i, before);
      }
      InsertKeeps(r, x, i, before);
      assert xs[..n + 1] == xs[..n] + [x];
      r := r[..i] + [x] + r[i..];
      n := n + 1;
    }
    assert xs[..n] == xs;
  }

  lemma Nothing<T(!new)>(before: (T, T) -> bool)
    ensures InOrder([], before)
  {
  }
}
