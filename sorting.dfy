/**
 * A stable insertion sort standing in for Python's `sorted` and `list.sort`.
 * Every caller passes its own strict "less than" (a key comparison or a class's `__lt__`).
 */
module Sorting {

  /** `less` is a strict order (irreflexive and transitive), as Python's `<` is on the keys sorted here. */
  ghost predicate StrictOrder<T(!new)>(less: (T, T) -> bool) {
    (forall a :: !less(a, a)) &&
    (forall a, b, c :: less(a, b) && less(b, c) ==> less(a, c))
  }

  /**
   * `less` is a strict weak order: strict, and whatever lies strictly between two
   * elements is below the greater or above the lesser. Ties are then an equivalence,
   * as they are for Python's comparison of keys.
   */
  ghost predicate WeakOrder<T(!new)>(less: (T, T) -> bool) {
    StrictOrder(less) &&
    forall a, b, c {:trigger less(a, c), less(b, c)} :: less(a, c) ==> less(a, b) || less(b, c)
  }

  /** Neither of `a` and `b` is less than the other. */
  predicate Tied<T>(a: T, b: T, less: (T, T) -> bool) {
    !less(a, b) && !less(b, a)
  }

  /** The elements of `s` tied with `x`, in their order in `s`. */
  function Ties<T>(s: seq<T>, x: T, less: (T, T) -> bool): seq<T> {
    if s == [] then []
    else (if Tied(s[0], x, less) then [s[0]] else []) + Ties(s[1..], x, less)
  }

  /** No later element is strictly less than an earlier one. */
  ghost predicate SortedBy<T>(s: seq<T>, less: (T, T) -> bool) {
    forall i, j :: 0 <= i < j < |s| ==> !less(s[j], s[i])
  }

  /** Inserts `x` after every element it is not less than, so equal elements keep their order. */
  function Insert<T>(x: T, s: seq<T>, less: (T, T) -> bool): (r: seq<T>)
    ensures multiset(r) == multiset(s) + multiset{x}
    ensures |r| == |s| + 1
  {
    if s == [] then [x]
    else if less(x, s[0]) then [x] + s
    else
      assert s == [s[0]] + s[1..];
      [s[0]] + Insert(x, s[1..], less)
  }

  /** Sorts left to right, inserting each element into the sorted prefix. */
  function Sort<T>(s: seq<T>, less: (T, T) -> bool): (r: seq<T>)
    ensures multiset(r) == multiset(s)
    ensures |r| == |s|
  {
    if s == [] then []
    else
      assert s == s[..|s| - 1] + [s[|s| - 1]];
      Insert(s[|s| - 1], Sort(s[..|s| - 1], less), less)
  }

  lemma {:induction false} InsertSorted<T(!new)>(x: T, s: seq<T>, less: (T, T) -> bool)
    requires StrictOrder(less) && SortedBy(s, less)
    ensures SortedBy(Insert(x, s, less), less)
  {
    if s == [] {
    } else if less(x, s[0]) {
      var r := [x] + s;
      forall i, j | 0 <= i < j < |r| ensures !less(r[j], r[i]) {
        if i == 0 {
          // r[j] is s[j - 1], which is not below s[0]; x is below s[0], so r[j] is not below x
          assert r[j] == s[j - 1] && !less(s[j - 1], s[0]);
        }
      }
    } else {
      var t := Insert(x, s[1..], less);
      InsertSorted(x, s[1..], less);
      var r := [s[0]] + t;
      forall i, j | 0 <= i < j < |r| ensures !less(r[j], r[i]) {
        if i == 0 {
          assert r[j] in multiset(t);
          assert r[j] in multiset(s[1..]) + multiset{x};
          if r[j] != x {
            assert r[j] in s[1..];
            var k :| 0 <= k < |s[1..]| && s[1..][k] == r[j];
            assert s[k + 1] == r[j];
          }
        }
      }
    }
  }

  lemma {:induction false} TiesAppend<T>(a: seq<T>, b: seq<T>, x: T, less: (T, T) -> bool)
    ensures Ties(a + b, x, less) == Ties(a, x, less) + Ties(b, x, less)
  {
    if a == [] {
      assert a + b == b;
    } else {
      var p := if Tied(a[0], x, less) then [a[0]] else [];
      assert (a + b)[0] == a[0] && (a + b)[1..] == a[1..] + b;
      assert Ties(a + b, x, less) == p + Ties(a[1..] + b, x, less);
      TiesAppend(a[1..], b, x, less);
    }
  }

  /** Inserting `y` into a sorted sequence puts it after every element tied with it. */
  lemma {:induction false} InsertStable<T(!new)>(y: T, s: seq<T>, x: T, less: (T, T) -> bool)
    requires WeakOrder(less) && SortedBy(s, less)
    ensures Ties(Insert(y, s, less), x, less) == Ties(s, x, less) + Ties([y], x, less)
  {
    if s == [] {
    } else if less(y, s[0]) {
      TiesAppend([y], s, x, less);
      if Tied(y, x, less) {
        AboveNoTies(y, s, x, less);
      }
    } else {
      assert s == [s[0]] + s[1..];
      assert SortedBy(s[1..], less);
      InsertStable(y, s[1..], x, less);
      TiesCons(s[0], Insert(y, s[1..], less), s[1..], [y], x, less);
    }
  }

  /** Putting the same element in front of two sequences keeps a split of their ties. */
  lemma TiesCons<T>(h: T, t: seq<T>, u: seq<T>, v: seq<T>, x: T, less: (T, T) -> bool)
    requires Ties(t, x, less) == Ties(u, x, less) + Ties(v, x, less)
    ensures Ties([h] + t, x, less) == Ties([h] + u, x, less) + Ties(v, x, less)
  {
    TiesHead(h, t, x, less);
    TiesHead(h, u, x, less);
    Associative(if Tied(h, x, less) then [h] else [], Ties(u, x, less), Ties(v, x, less));
  }

  lemma TiesHead<T>(h: T, t: seq<T>, x: T, less: (T, T) -> bool)
    ensures Ties([h] + t, x, less) == (if Tied(h, x, less) then [h] else []) + Ties(t, x, less)
  {
    assert ([h] + t)[0] == h && ([h] + t)[1..] == t;
  }

  lemma Associative<T>(a: seq<T>, b: seq<T>, c: seq<T>)
    ensures a + (b + c) == (a + b) + c
  {
  }

  /** Below the first element of a sorted sequence, `y` is tied with none of it, nor is anything tied with `y`. */
  lemma AboveNoTies<T(!new)>(y: T, s: seq<T>, x: T, less: (T, T) -> bool)
    requires WeakOrder(less) && SortedBy(s, less) && s != [] && less(y, s[0]) && Tied(y, x, less)
    ensures Ties(s, x, less) == []
  {
    forall j | 0 <= j < |s| ensures !Tied(s[j], x, less) {
      AboveNotTied(y, s[j], s[0], x, less);
    }
    NoTies(s, x, less);
  }

  /** If `y` is below `b` and `a` is not, then `a` is above `y`, and so above anything tied with `y`. */
  lemma AboveNotTied<T(!new)>(y: T, a: T, b: T, x: T, less: (T, T) -> bool)
    requires WeakOrder(less) && less(y, b) && !less(a, b) && Tied(y, x, less)
    ensures !Tied(a, x, less)
  {
    assert less(y, a);
    assert less(x, a);
  }

  lemma {:induction false} NoTies<T>(s: seq<T>, x: T, less: (T, T) -> bool)
    requires forall j :: 0 <= j < |s| ==> !Tied(s[j], x, less)
    ensures Ties(s, x, less) == []
  {
    if s != [] {
      NoTies(s[1..], x, less);
    }
  }

  /** `Sort` is stable: the elements tied with any `x` come out in the order they went in. */
  lemma {:induction false} SortStable<T(!new)>(s: seq<T>, x: T, less: (T, T) -> bool)
    requires WeakOrder(less)
    ensures Ties(Sort(s, less), x, less) == Ties(s, x, less)
  {
    if s != [] {
      var init, last := s[..|s| - 1], s[|s| - 1];
      SortStable(init, x, less);
      SortSorted(init, less);
      InsertStable(last, Sort(init, less), x, less);
      assert s == init + [last];
      TiesAppend(init, [last], x, less);
    }
  }

  /** `Sort` returns a permutation of its input ordered by `less`. */
  lemma {:induction false} SortSorted<T(!new)>(s: seq<T>, less: (T, T) -> bool)
    requires StrictOrder(less)
    ensures SortedBy(Sort(s, less), less)
    ensures multiset(Sort(s, less)) == multiset(s)
  {
    if s != [] {
      SortSorted(s[..|s| - 1], less);
      InsertSorted(s[|s| - 1], Sort(s[..|s| - 1], less), less);
    }
  }
}
