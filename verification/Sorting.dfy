/** Python's `sorted`: stable, by an order given as a test. */
module Sorting {
  /** Puts an element behind all that do not come after it. */
  function Insert<T>(xs: seq<T>, x: T, le: (T, T) -> bool): seq<T> {
    if xs == [] then [x]
    else if le(xs[|xs| - 1], x) then xs + [x]
    else Insert(xs[..|xs| - 1], x, le) + [xs[|xs| - 1]]
  }

  function Sorted<T>(xs: seq<T>, le: (T, T) -> bool): seq<T> {
    if xs == [] then [] else Insert(Sorted(xs[..|xs| - 1], le), xs[|xs| - 1], le)
  }

  predicate Ordered<T>(xs: seq<T>, le: (T, T) -> bool) {
    forall i, j :: 0 <= i < j < |xs| ==> le(xs[i], xs[j])
  }

  ghost predicate IsOrder<T(!new)>(le: (T, T) -> bool) {
    && (forall a, b :: le(a, b) || le(b, a))
    && (forall a, b, c :: le(a, b) && le(b, c) ==> le(a, c))
  }

  lemma {:induction false} InsertKeeps<T>(xs: seq<T>, x: T, le: (T, T) -> bool)
    ensures multiset(Insert(xs, x, le)) == multiset(xs) + multiset{x}
  {
    if xs != [] && !le(xs[|xs| - 1], x) {
      InsertKeeps(xs[..|xs| - 1], x, le);
      assert xs == xs[..|xs| - 1] + [xs[|xs| - 1]];
    }
  }

  lemma InsertStep<T>(xs: seq<T>, last: T, x: T, le: (T, T) -> bool)
    ensures Insert(xs + [last], x, le) == if le(last, x) then xs + [last] + [x] else Insert(xs, x, le) + [last]
  {
    assert (xs + [last])[..|xs|] == xs;
  }

  lemma OrderedSnoc<T>(xs: seq<T>, last: T, le: (T, T) -> bool)
    requires Ordered(xs, le) && forall x :: x in xs ==> le(x, last)
    ensures Ordered(xs + [last], le)
  {
    var all := xs + [last];
    forall i, j | 0 <= i < j < |all| ensures le(all[i], all[j]) {
      assert all[i] == xs[i] && xs[i] in xs;
    }
  }

  lemma OrderedFront<T>(xs: seq<T>, le: (T, T) -> bool)
    requires xs != [] && Ordered(xs, le)
    ensures Ordered(xs[..|xs| - 1], le)
    ensures var last := xs[|xs| - 1]; forall x :: x in xs[..|xs| - 1] ==> le(x, last)
  {
  }

  lemma {:induction false} InsertOrders<T(!new)>(xs: seq<T>, x: T, le: (T, T) -> bool)
    requires IsOrder(le) && Ordered(xs, le)
    ensures Ordered(Insert(xs, x, le), le)
  {
    if xs != [] {
      var front, last := xs[..|xs| - 1], xs[|xs| - 1];
      OrderedFront(xs, le);
      if le(last, x) {
        forall y | y in xs ensures le(y, x) {
          assert y == last || y in front;
        }
        OrderedSnoc(xs, x, le);
      } else {
        InsertOrders(front, x, le);
        InsertKeeps(front, x, le);
        forall y | y in Insert(front, x, le) ensures le(y, last) {
          assert y in multiset(Insert(front, x, le));
        }
        OrderedSnoc(Insert(front, x, le), last, le);
      }
    }
  }

  /** The sort keeps every element and puts them in order. */
  lemma {:induction false} SortedSorts<T(!new)>(xs: seq<T>, le: (T, T) -> bool)
    requires IsOrder(le)
    ensures Ordered(Sorted(xs, le), le) && multiset(Sorted(xs, le)) == multiset(xs)
  {
    hide IsOrder;
    if xs != [] {
      var front, last := xs[..|xs| - 1], xs[|xs| - 1];
      SortedSorts(front, le);
      InsertOrders(Sorted(front, le), last, le);
      InsertKeeps(Sorted(front, le), last, le);
      assert xs == front + [last];
    }
  }
}
