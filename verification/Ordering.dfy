/** Strict total orders and the sorted listing of a finite set. */
module Ordering {

  ghost predicate TotalOrder<T(!new)>(less: (T, T) -> bool) {
    && (forall x :: !less(x, x))
    && (forall x, y, z :: less(x, y) && less(y, z) ==> less(x, z))
    && (forall x, y :: x == y || less(x, y) || less(y, x))
  }

  // ---- lexicographic order ----------------------------------------------------

  predicate LexLess<T(==)>(a: seq<T>, b: seq<T>, less: (T, T) -> bool) {
    if b == [] then false
    else if a == [] then true
    else if a[0] == b[0] then LexLess(a[1..], b[1..], less)
    else less(a[0], b[0])
  }

  lemma {:induction false} LexIrreflexive<T(!new)>(a: seq<T>, less: (T, T) -> bool)
    requires TotalOrder(less)
    ensures !LexLess(a, a, less)
  {
    if a != [] {
      LexIrreflexive(a[1..], less);
    }
  }

  lemma {:induction false} LexTransitive<T(!new)>(a: seq<T>, b: seq<T>, c: seq<T>, less: (T, T) -> bool)
    requires TotalOrder(less)
    requires LexLess(a, b, less) && LexLess(b, c, less)
    ensures LexLess(a, c, less)
  {
    if a != [] && a[0] == b[0] && b[0] == c[0] {
      LexTransitive(a[1..], b[1..], c[1..], less);
    }
  }

  lemma {:induction false} LexConnected<T(!new)>(a: seq<T>, b: seq<T>, less: (T, T) -> bool)
    requires TotalOrder(less)
    ensures a == b || LexLess(a, b, less) || LexLess(b, a, less)
  {
    if a != [] && b != [] && a[0] == b[0] {
      LexConnected(a[1..], b[1..], less);
      assert a == [a[0]] + a[1..] && b == [b[0]] + b[1..];
    }
  }

  predicate CharLess(a: char, b: char) { a < b }

  /** Python's order on strings: by code point, shorter first. */
  predicate StringLess(a: string, b: string) { LexLess(a, b, CharLess) }

  /** Python's order on tuples of strings. */
  predicate TupleLess(a: seq<string>, b: seq<string>) { LexLess(a, b, StringLess) }

  lemma StringOrder()
    ensures TotalOrder(StringLess)
  {
    assert TotalOrder(CharLess);
    forall a ensures !StringLess(a, a) { LexIrreflexive(a, CharLess); }
    forall a, b, c | StringLess(a, b) && StringLess(b, c) ensures StringLess(a, c) { LexTransitive(a, b, c, CharLess); }
    forall a, b ensures a == b || StringLess(a, b) || StringLess(b, a) { LexConnected(a, b, CharLess); }
  }

  lemma TupleOrder()
    ensures TotalOrder(TupleLess)
  {
    StringOrder();
    forall a ensures !TupleLess(a, a) { LexIrreflexive(a, StringLess); }
    forall a, b, c | TupleLess(a, b) && TupleLess(b, c) ensures TupleLess(a, c) { LexTransitive(a, b, c, StringLess); }
    forall a, b ensures a == b || TupleLess(a, b) || TupleLess(b, a) { LexConnected(a, b, StringLess); }
  }

  // ---- sorted listings --------------------------------------------------------

  ghost predicate Sorted<T(!new)>(xs: seq<T>, less: (T, T) -> bool) {
    forall i, j | 0 <= i < j < |xs| :: less(xs[i], xs[j])
  }

  predicate IsLeast<T(==)>(x: T, s: set<T>, less: (T, T) -> bool) {
    x in s && forall y | y in s :: y == x || less(x, y)
  }

  lemma {:induction false} LeastExists<T(!new)>(s: set<T>, less: (T, T) -> bool)
    requires TotalOrder(less) && s != {}
    ensures exists x :: IsLeast(x, s, less)
    decreases |s|
  {
    var x :| x in s;
    if s == {x} {
      assert IsLeast(x, s, less);
    } else {
      var rest := s - {x};
      assert s == rest + {x} && rest != {};
      LeastExists(rest, less);
      var y :| IsLeast(y, rest, less);
      assert IsLeast(if less(x, y) then x else y, s, less);
    }
  }

  /** The elements of a set from least to greatest. */
  function Sort<T(==, !new)>(s: set<T>, less: (T, T) -> bool): (r: seq<T>)
    requires TotalOrder(less)
    ensures Sorted(r, less)
    ensures forall x :: x in r <==> x in s
    decreases |s|
  {
    if s == {} then []
    else
      LeastExists(s, less);
      var x :| IsLeast(x, s, less);
      [x] + Sort(s - {x}, less)
  }

  /** A sorted listing is determined by its elements. */
  lemma {:induction false} SortedUnique<T(!new)>(xs: seq<T>, ys: seq<T>, less: (T, T) -> bool)
    requires TotalOrder(less) && Sorted(xs, less) && Sorted(ys, less)
    requires forall x :: x in xs <==> x in ys
    ensures xs == ys
  {
    if xs != [] || ys != [] {
      assert xs != [] ==> xs[0] in ys;
      assert ys != [] ==> ys[0] in xs;
      assert xs[0] == ys[0];
      forall x ensures x in xs[1..] <==> x in ys[1..] {
        assert x in xs[1..] ==> x in xs && x != xs[0];
        assert x in ys[1..] ==> x in ys && x != ys[0];
        assert x in xs && x != xs[0] ==> x in xs[1..];
        assert x in ys && x != ys[0] ==> x in ys[1..];
      }
      SortedUnique(xs[1..], ys[1..], less);
      assert xs == [xs[0]] + xs[1..] && ys == [ys[0]] + ys[1..];
    }
  }

  lemma SortedTail<T(!new)>(xs: seq<T>, less: (T, T) -> bool)
    requires TotalOrder(less) && Sorted(xs, less) && xs != []
    ensures Sorted(xs[1..], less) && xs[0] !in xs[1..]
  {}

  /** Adding an element above all others appends it. */
  lemma SortExtends<T(!new)>(s: set<T>, x: T, less: (T, T) -> bool)
    requires TotalOrder(less)
    requires forall y | y in s :: less(y, x)
    ensures Sort(s + {x}, less) == Sort(s, less) + [x]
  {
    var xs := Sort(s, less) + [x];
    assert Sorted(xs, less) by {
      forall i, j | 0 <= i < j < |xs| ensures less(xs[i], xs[j]) {
        assert xs[i] in Sort(s, less);
      }
    }
    SortedUnique(Sort(s + {x}, less), xs, less);
  }

  // ---- walking a listing ------------------------------------------------------

  /** The part of `chosen` that a walk over `order` has met after k steps. */
  ghost function Met<T>(order: seq<T>, k: nat, chosen: set<T>): set<T>
    requires k <= |order|
  {
    set x | x in order[..k] && x in chosen
  }

  /** Each step of a sorted walk appends its element to the listing of what was met, if chosen. */
  lemma MetStep<T(!new)>(order: seq<T>, k: nat, chosen: set<T>, less: (T, T) -> bool)
    requires TotalOrder(less) && Sorted(order, less) && k < |order|
    ensures Sort(Met(order, k + 1, chosen), less)
         == if order[k] in chosen then Sort(Met(order, k, chosen), less) + [order[k]]
            else Sort(Met(order, k, chosen), less)
  {
    var x := order[k];
    assert order[..k + 1] == order[..k] + [x];
    if x in chosen {
      assert Met(order, k + 1, chosen) == Met(order, k, chosen) + {x};
      SortExtends(Met(order, k, chosen), x, less);
    } else {
      assert Met(order, k + 1, chosen) == Met(order, k, chosen);
    }
  }

  lemma MetAll<T>(order: seq<T>, chosen: set<T>)
    requires forall x | x in chosen :: x in order
    ensures Met(order, |order|, chosen) == chosen
  {
    assert order[..|order|] == order;
  }

  lemma EmptyDifference<T>(a: set<T>, b: set<T>)
    ensures a - b == {} <==> a <= b
  {
    if a - b == {} {
      forall x | x in a ensures x in b { assert x !in a - b; }
    }
  }

  // ---- reorderings ------------------------------------------------------------

  lemma SameElements<T>(a: seq<T>, b: seq<T>)
    requires multiset(a) == multiset(b)
    ensures forall x :: x in a <==> x in b
  {
    forall x ensures x in a <==> x in b {
      assert x in a <==> x in multiset(a);
      assert x in b <==> x in multiset(b);
    }
  }

  /** A value at two places of a list is there twice in any reordering. */
  lemma TwiceInReordering<T>(a: seq<T>, b: seq<T>, i: nat, j: nat) returns (k: nat, l: nat)
    requires multiset(a) == multiset(b) && i < j < |a| && a[i] == a[j]
    ensures k < l < |b| && b[k] == b[l] == a[i]
  {
    var x := a[i];
    assert multiset(a)[x] >= 2 by {
      assert a == a[..i + 1] + a[i + 1..];
      assert x == a[..i + 1][i] && x in multiset(a[..i + 1]);
      assert x == a[i + 1..][j - i - 1] && x in multiset(a[i + 1..]);
    }
    assert x in multiset(b);
    k :| 0 <= k < |b| && b[k] == x;
    assert b == b[..k] + [x] + b[k + 1..];
    if x in b[..k] {
      var m :| 0 <= m < k && b[m] == x;
      return m, k;
    }
    assert multiset(b[..k])[x] == 0;
    assert x in multiset(b[k + 1..]);
    assert x in b[k + 1..];
    l :| k + 1 <= l < |b| && b[l] == x;
  }
}
