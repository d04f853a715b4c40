/**
 * The expanding universe of 2023/day11/universe.py. Galaxies sit at integer coordinates;
 * every row and every column without a galaxy grows to `by` (here `factor`) rows or columns, and the
 * answer is the sum of the Manhattan distances between all pairs of galaxies.
 */
module Universe {
  import Sorting

  datatype Coordinate = Coordinate(x: int, y: int)

  /** `Coordinate.__lt__`: reading order, by row and then by column. */
  predicate Lt(a: Coordinate, b: Coordinate) {
    a.y < b.y || (a.y == b.y && a.x < b.x)
  }

  /** Reading order is a strict order, and any two different coordinates are comparable. */
  lemma LtStrictTotal()
    ensures Sorting.StrictOrder(Lt)
    ensures forall a, b :: a != b ==> Lt(a, b) || Lt(b, a)
  {
  }

  /** How many members of `s` lie in `0 .. v - 1`. */
  function CountBelow(s: set<int>, v: int): nat
    decreases v
  {
    if v <= 0 then 0 else CountBelow(s, v - 1) + (if v - 1 in s then 1 else 0)
  }

  /** Between `v` and `w` at most `w - v` of the values can be missing. */
  lemma {:induction false} CountBelowStep(s: set<int>, v: int, w: int)
    requires v <= w
    ensures 0 <= CountBelow(s, w) - CountBelow(s, v) <= w - v
    decreases w - v
  {
    if v < w {
      CountBelowStep(s, v, w - 1);
    }
  }

  /** One axis of `expand`: `factor - 1` further for each missing value before `v`. */
  function Axis(missing: set<int>, factor: int, v: int): int {
    v + (factor - 1) * CountBelow(missing, v)
  }

  /** Where `expand` moves a coordinate. */
  function Expanded(c: Coordinate, factor: int, missingRows: set<int>, missingCols: set<int>): Coordinate {
    Coordinate(Axis(missingCols, factor, c.x), Axis(missingRows, factor, c.y))
  }

  /** `Coordinate.expand`: the two counting loops. */
  method Expand(c: Coordinate, factor: int, missingRows: set<int>, missingCols: set<int>) returns (r: Coordinate)
    ensures r == Expanded(c, factor, missingRows, missingCols)
  {
    var toAdd := factor - 1;
    var expandX := 0;
    var expandY := 0;
    var x := 0;
    while x < c.x
      invariant (c.x <= 0 ==> x == 0) && (c.x > 0 ==> 0 <= x <= c.x)
      invariant expandX == toAdd * CountBelow(missingCols, x)
    {
      if x in missingCols {
        expandX := expandX + toAdd;
      }
      x := x + 1;
    }
    var y := 0;
    while y < c.y
      invariant (c.y <= 0 ==> y == 0) && (c.y > 0 ==> 0 <= y <= c.y)
      invariant expandY == toAdd * CountBelow(missingRows, y)
    {
      if y in missingRows {
        expandY := expandY + toAdd;
      }
      y := y + 1;
    }
    assert CountBelow(missingCols, c.x) == CountBelow(missingCols, x);
    assert CountBelow(missingRows, c.y) == CountBelow(missingRows, y);
    return Coordinate(c.x + expandX, c.y + expandY);
  }

  /** Expanding by 1 leaves every coordinate where it is. */
  lemma ExpandByOne(c: Coordinate, missingRows: set<int>, missingCols: set<int>)
    ensures Expanded(c, 1, missingRows, missingCols) == c
  {
  }

  /** With a factor of at least 1, the gap between two values grows by `factor - 1` per missing value between them. */
  lemma AxisGrows(s: set<int>, factor: int, v: int, w: int)
    requires factor >= 1 && v <= w
    ensures Axis(s, factor, w) - Axis(s, factor, v) == (w - v) + (factor - 1) * (CountBelow(s, w) - CountBelow(s, v))
    ensures Axis(s, factor, w) - Axis(s, factor, v) >= w - v
  {
    CountBelowStep(s, v, w);
    var cv, cw := CountBelow(s, v), CountBelow(s, w);
    MulSub(factor - 1, cw, cv);
    MulNonneg(factor - 1, cw - cv);
  }

  lemma MulSub(a: int, x: int, y: int)
    ensures a * x - a * y == a * (x - y)
  {
  }

  lemma MulNonneg(a: int, b: int)
    requires a >= 0 && b >= 0
    ensures a * b >= 0
  {
  }

  /** The distance along one axis after expansion. */
  lemma AxisDistance(s: set<int>, factor: int, v: int, w: int)
    requires factor >= 1
    ensures Abs(Axis(s, factor, v) - Axis(s, factor, w)) == Abs(v - w) + (factor - 1) * Abs(CountBelow(s, v) - CountBelow(s, w))
  {
    if v <= w {
      CountBelowStep(s, v, w);
    } else {
      CountBelowStep(s, w, v);
    }
    GapAbs(v, w, CountBelow(s, v), CountBelow(s, w), factor - 1, Axis(s, factor, v), Axis(s, factor, w));
  }

  lemma GapAbs(v: int, w: int, cv: int, cw: int, f: int, av: int, aw: int)
    requires f >= 0 && av == v + f * cv && aw == w + f * cw
    requires (v <= w && cv <= cw) || (w <= v && cw <= cv)
    ensures Abs(av - aw) == Abs(v - w) + f * Abs(cv - cw)
  {
    if v <= w && cv <= cw {
      MulSub(f, cw, cv);
      MulNonneg(f, cw - cv);
    } else {
      MulSub(f, cv, cw);
      MulNonneg(f, cv - cw);
    }
  }

  /** With a factor of at least 1, expansion keeps the reading order of any two galaxies. */
  lemma ExpandKeepsOrder(a: Coordinate, b: Coordinate, factor: int, missingRows: set<int>, missingCols: set<int>)
    requires factor >= 1
    ensures Lt(a, b) <==> Lt(Expanded(a, factor, missingRows, missingCols), Expanded(b, factor, missingRows, missingCols))
  {
    if a.x <= b.x {
      AxisGrows(missingCols, factor, a.x, b.x);
    } else {
      AxisGrows(missingCols, factor, b.x, a.x);
    }
    if a.y <= b.y {
      AxisGrows(missingRows, factor, a.y, b.y);
    } else {
      AxisGrows(missingRows, factor, b.y, a.y);
    }
  }

  /** `shortestPathLength`: the Manhattan distance. */
  function Distance(a: Coordinate, b: Coordinate): nat {
    Abs(a.x - b.x) + Abs(a.y - b.y)
  }

  function Abs(v: int): int {
    if v < 0 then -v else v
  }

  /** The distance is symmetric, zero exactly between equal points, and obeys the triangle inequality. */
  lemma DistanceMetric(a: Coordinate, b: Coordinate, c: Coordinate)
    ensures Distance(a, b) == Distance(b, a)
    ensures Distance(a, b) == 0 <==> a == b
    ensures Distance(a, c) <= Distance(a, b) + Distance(b, c)
  {
  }

  /**
   * The distance after expansion: every missing row or column between two galaxies adds
   * `factor - 1` to the distance.
   */
  lemma ExpandedDistance(a: Coordinate, b: Coordinate, factor: int, missingRows: set<int>, missingCols: set<int>)
    requires factor >= 1
    ensures Distance(Expanded(a, factor, missingRows, missingCols), Expanded(b, factor, missingRows, missingCols)) ==
      Distance(a, b) + (factor - 1) * (Abs(CountBelow(missingCols, a.x) - CountBelow(missingCols, b.x))
        + Abs(CountBelow(missingRows, a.y) - CountBelow(missingRows, b.y)))
  {
    AxisDistance(missingCols, factor, a.x, b.x);
    AxisDistance(missingRows, factor, a.y, b.y);
    var dx := Abs(CountBelow(missingCols, a.x) - CountBelow(missingCols, b.x));
    var dy := Abs(CountBelow(missingRows, a.y) - CountBelow(missingRows, b.y));
    MulAdd(factor - 1, dx, dy);
  }

  lemma MulAdd(a: int, x: int, y: int)
    ensures a * (x + y) == a * x + a * y
  {
  }

  /** A universe: its bound and its galaxies, kept in reading order. */
  datatype Universe = Universe(bound: Coordinate, galaxies: seq<Coordinate>)

  /** The `Universe` constructor: the galaxies are copied and sorted. */
  function Make(bound: Coordinate, galaxies: seq<Coordinate>): (u: Universe)
    ensures u.bound == bound && multiset(u.galaxies) == multiset(galaxies)
    ensures Sorting.SortedBy(u.galaxies, Lt)
  {
    LtStrictTotal();
    Sorting.SortSorted(galaxies, Lt);
    Universe(bound, Sorting.Sort(galaxies, Lt))
  }

  /** `set(range(n))`. */
  function Range(n: int): (r: set<int>)
    ensures forall v :: v in r <==> 0 <= v < n
    decreases n
  {
    if n <= 0 then {} else Range(n - 1) + {n - 1}
  }

  /** Some galaxy lies in row `y`. */
  predicate HasRow(galaxies: seq<Coordinate>, y: int) {
    exists k :: 0 <= k < |galaxies| && galaxies[k].y == y
  }

  /** Some galaxy lies in column `x`. */
  predicate HasCol(galaxies: seq<Coordinate>, x: int) {
    exists k :: 0 <= k < |galaxies| && galaxies[k].x == x
  }

  /** The rows below the bound that hold no galaxy. */
  function MissingRows(u: Universe): set<int> {
    set y | 0 <= y < u.bound.y && !HasRow(u.galaxies, y)
  }

  /** The columns below the bound that hold no galaxy. */
  function MissingCols(u: Universe): set<int> {
    set x | 0 <= x < u.bound.x && !HasCol(u.galaxies, x)
  }

  /** Every galaxy of the list, expanded. */
  function ExpandAll(galaxies: seq<Coordinate>, factor: int, missingRows: set<int>, missingCols: set<int>): (r: seq<Coordinate>)
    ensures |r| == |galaxies|
    ensures forall i :: 0 <= i < |r| ==> r[i] == Expanded(galaxies[i], factor, missingRows, missingCols)
  {
    seq(|galaxies|, i requires 0 <= i < |galaxies| => Expanded(galaxies[i], factor, missingRows, missingCols))
  }

  /** A list in reading order stays in reading order when expanded with a factor of at least 1. */
  lemma ExpandAllSorted(galaxies: seq<Coordinate>, factor: int, missingRows: set<int>, missingCols: set<int>)
    requires factor >= 1 && Sorting.SortedBy(galaxies, Lt)
    ensures Sorting.SortedBy(ExpandAll(galaxies, factor, missingRows, missingCols), Lt)
  {
    var r := ExpandAll(galaxies, factor, missingRows, missingCols);
    forall i, j | 0 <= i < j < |r|
      ensures !Lt(r[j], r[i])
    {
      ExpandKeepsOrder(galaxies[j], galaxies[i], factor, missingRows, missingCols);
    }
  }

  /**
   * `Universe.expand`: collects the rows and columns that hold galaxies, expands every
   * galaxy and the bound by the missing ones, and builds a new universe.
   */
  method ExpandUniverse(u: Universe, factor: int) returns (r: Universe)
    ensures var rows, cols := MissingRows(u), MissingCols(u);
      r == Make(Expanded(u.bound, factor, rows, cols), ExpandAll(u.galaxies, factor, rows, cols))
  {
    var rows: set<int> := {};
    var cols: set<int> := {};
    for i := 0 to |u.galaxies|
      invariant forall y {:trigger y in rows} :: y in rows <==> HasRow(u.galaxies[..i], y)
      invariant forall x {:trigger x in cols} :: x in cols <==> HasCol(u.galaxies[..i], x)
    {
      rows := rows + {u.galaxies[i].y};
      cols := cols + {u.galaxies[i].x};
      RowsStep(u.galaxies, i);
    }
    assert u.galaxies[..|u.galaxies|] == u.galaxies;
    var missingRows := Range(u.bound.y) - rows;
    var missingCols := Range(u.bound.x) - cols;
    assert missingRows == MissingRows(u);
    assert missingCols == MissingCols(u);
    var expanded: seq<Coordinate> := [];
    for i := 0 to |u.galaxies|
      invariant expanded == ExpandAll(u.galaxies[..i], factor, missingRows, missingCols)
    {
      var e := Expand(u.galaxies[i], factor, missingRows, missingCols);
      expanded := expanded + [e];
    }
    assert u.galaxies[..|u.galaxies|] == u.galaxies;
    var bound := Expand(u.bound, factor, missingRows, missingCols);
    return Make(bound, expanded);
  }

  /** One more galaxy adds its row and column. */
  lemma RowsStep(galaxies: seq<Coordinate>, i: nat)
    requires i < |galaxies|
    ensures forall y :: HasRow(galaxies[..i + 1], y) <==> HasRow(galaxies[..i], y) || y == galaxies[i].y
    ensures forall x :: HasCol(galaxies[..i + 1], x) <==> HasCol(galaxies[..i], x) || x == galaxies[i].x
  {
    var a, b := galaxies[..i], galaxies[..i + 1];
    forall y
      ensures HasRow(b, y) <==> HasRow(a, y) || y == galaxies[i].y
    {
      if HasRow(b, y) {
        var k :| 0 <= k < |b| && b[k].y == y;
        if k < i {
          assert a[k] == b[k];
        }
      }
      if HasRow(a, y) {
        var k :| 0 <= k < |a| && a[k].y == y;
        assert b[k] == a[k];
      }
      if y == galaxies[i].y {
        assert b[i] == galaxies[i];
      }
    }
    forall x
      ensures HasCol(b, x) <==> HasCol(a, x) || x == galaxies[i].x
    {
      if HasCol(b, x) {
        var k :| 0 <= k < |b| && b[k].x == x;
        if k < i {
          assert a[k] == b[k];
        }
      }
      if HasCol(a, x) {
        var k :| 0 <= k < |a| && a[k].x == x;
        assert b[k] == a[k];
      }
      if x == galaxies[i].x {
        assert b[i] == galaxies[i];
      }
    }
  }

  /** Expansion keeps the number of galaxies. */
  lemma ExpandKeepsCount(u: Universe, factor: int)
    ensures var rows, cols := MissingRows(u), MissingCols(u);
      |Make(Expanded(u.bound, factor, rows, cols), ExpandAll(u.galaxies, factor, rows, cols)).galaxies| == |u.galaxies|
  {
    var rows, cols := MissingRows(u), MissingCols(u);
    var e := ExpandAll(u.galaxies, factor, rows, cols);
    assert |multiset(Make(Expanded(u.bound, factor, rows, cols), e).galaxies)| == |multiset(e)|;
  }

  // ---- galaxyPairs ----

  /** The pairs `galaxyPairs` yields for the galaxies before index `p`, in its order. */
  function PairsBefore(g: seq<Coordinate>, p: nat): seq<(Coordinate, Coordinate)>
    requires p <= |g|
    decreases p
  {
    if p == 0 then [] else PairsBefore(g, p - 1) + Row(g, p - 1, |g|)
  }

  /** The pairs of galaxy `i` with the galaxies `i + 1 .. m - 1`. */
  function Row(g: seq<Coordinate>, i: nat, m: nat): seq<(Coordinate, Coordinate)>
    requires i < |g| && m <= |g|
    decreases m
  {
    if m <= i + 1 then [] else Row(g, i, m - 1) + [(g[i], g[m - 1])]
  }

  /** Row `i` up to `m` pairs galaxy `i` with each later galaxy below `m`, in order. */
  lemma {:induction false} RowContents(g: seq<Coordinate>, i: nat, m: nat)
    requires i < |g| && m <= |g|
    ensures |Row(g, i, m)| == (if m <= i + 1 then 0 else m - i - 1)
    ensures forall k :: 0 <= k < |Row(g, i, m)| ==> Row(g, i, m)[k] == (g[i], g[i + 1 + k])
    decreases m
  {
    if m > i + 1 {
      RowContents(g, i, m - 1);
    }
  }

  lemma TriangleStep(n: int, p: int, a: int, b: int)
    requires 1 <= p <= n && 2 * a == (p - 1) * (2 * n - p) && b == n - p
    ensures 2 * (a + b) == p * (2 * n - p - 1)
  {
  }

  /** There are `p(2n - p - 1) / 2` pairs whose first galaxy has index below `p`. */
  lemma {:induction false} PairsBeforeLength(g: seq<Coordinate>, p: nat)
    requires p <= |g|
    ensures 2 * |PairsBefore(g, p)| == p * (2 * |g| - p - 1)
    decreases p
  {
    if p > 0 {
      PairsBeforeLength(g, p - 1);
      RowContents(g, p - 1, |g|);
      TriangleStep(|g|, p, |PairsBefore(g, p - 1)|, |Row(g, p - 1, |g|)|);
    }
  }

  /** `galaxyPairs` yields `n(n - 1) / 2` pairs for `n` galaxies. */
  lemma PairCount(g: seq<Coordinate>)
    ensures 2 * |PairsBefore(g, |g|)| == |g| * (|g| - 1)
  {
    PairsBeforeLength(g, |g|);
  }

  /** Galaxy `i` is paired with every later galaxy `j`. */
  lemma RowListed(g: seq<Coordinate>, i: nat, j: nat)
    requires i < j < |g|
    ensures (g[i], g[j]) in Row(g, i, |g|)
  {
    RowContents(g, i, |g|);
    assert Row(g, i, |g|)[j - i - 1] == (g[i], g[j]);
  }

  /** Every pair of galaxies `i < j` with `i` below `p` is yielded. */
  lemma {:induction false} PairListed(g: seq<Coordinate>, p: nat, i: nat, j: nat)
    requires p <= |g| && i < p && i < j < |g|
    ensures (g[i], g[j]) in PairsBefore(g, p)
    decreases p
  {
    var a, b := PairsBefore(g, p - 1), Row(g, p - 1, |g|);
    if i == p - 1 {
      RowListed(g, i, j);
      assert (g[i], g[j]) in b;
    } else {
      PairListed(g, p - 1, i, j);
      assert (g[i], g[j]) in a;
    }
    assert (g[i], g[j]) in a + b;
  }

  /** `galaxyPairs` yields every pair of distinct galaxy indices, each in one order only. */
  lemma AllPairs(g: seq<Coordinate>)
    ensures forall i: nat, j: nat :: i < j < |g| ==> (g[i], g[j]) in PairsBefore(g, |g|)
    ensures 2 * |PairsBefore(g, |g|)| == |g| * (|g| - 1)
  {
    forall i: nat, j: nat | i < j < |g|
      ensures (g[i], g[j]) in PairsBefore(g, |g|)
    {
      PairListed(g, |g|, i, j);
    }
    PairCount(g);
  }

  /** The sum of the shortest path lengths of a list of pairs. */
  function SumDistances(pairs: seq<(Coordinate, Coordinate)>): nat
    decreases |pairs|
  {
    if pairs == [] then 0
    else
      var last := pairs[|pairs| - 1];
      SumDistances(pairs[..|pairs| - 1]) + Distance(last.0, last.1)
  }

  /** The sum over two lists of pairs is the sum of their sums. */
  lemma {:induction false} SumDistancesAppend(a: seq<(Coordinate, Coordinate)>, b: seq<(Coordinate, Coordinate)>)
    ensures SumDistances(a + b) == SumDistances(a) + SumDistances(b)
    decreases |b|
  {
    if b == [] {
      assert a + b == a;
    } else {
      var b' := b[..|b| - 1];
      SumDistancesAppend(a, b');
      assert (a + b)[..|a + b| - 1] == a + b';
    }
  }

  /** The driver: the sum of the shortest path lengths over `galaxyPairs`, in nested loops. */
  method Total(galaxies: seq<Coordinate>) returns (total: nat)
    ensures total == SumDistances(PairsBefore(galaxies, |galaxies|))
  {
    var n := |galaxies|;
    total := 0;
    for i := 0 to n
      invariant total == SumDistances(PairsBefore(galaxies, i))
    {
      total := AddRow(galaxies, i, total);
      SumDistancesAppend(PairsBefore(galaxies, i), Row(galaxies, i, n));
    }
  }

  /** The inner loop of the driver: the pairs of galaxy `i` with the galaxies after it. */
  method AddRow(galaxies: seq<Coordinate>, i: nat, total0: nat) returns (total: nat)
    requires i < |galaxies|
    ensures total == total0 + SumDistances(Row(galaxies, i, |galaxies|))
  {
    var n := |galaxies|;
    total := total0;
    for j := i + 1 to n
      invariant total == total0 + SumDistances(Row(galaxies, i, j))
    {
      total := total + Distance(galaxies[i], galaxies[j]);
      RowSumStep(galaxies, i, j);
    }
  }

  /** One more galaxy in row `i` adds its distance. */
  lemma RowSumStep(g: seq<Coordinate>, i: nat, j: nat)
    requires i < j < |g|
    ensures SumDistances(Row(g, i, j + 1)) == SumDistances(Row(g, i, j)) + Distance(g[i], g[j])
  {
    var row := Row(g, i, j);
    assert Row(g, i, j + 1) == row + [(g[i], g[j])];
    assert (row + [(g[i], g[j])])[..|row|] == row;
  }
}
