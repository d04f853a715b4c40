/**
 * The mirror search of 2023/day13/run.py. A pattern is a grid of ash and rock; a
 * horizontal mirror sits between two rows when the rows on either side, paired outward
 * from it until one side runs out, differ in exactly the wanted number of cells (the
 * smudges). A vertical mirror is a horizontal mirror of the transposed pattern.
 */
module Mirrors {
  import opened Wrappers

  datatype Cell = Ash | Rock

  type Pattern = seq<seq<Cell>>

  /** Every row as long as the first. */
  predicate Rectangular(p: Pattern) {
    forall r :: 0 <= r < |p| ==> |p[r]| == |p[0]|
  }

  /** `transpose`: column `c` of the pattern becomes row `c`; the first row fixes the width. */
  function Transpose(p: Pattern): (t: Pattern)
    requires |p| >= 1 && forall r :: 0 <= r < |p| ==> |p[r]| >= |p[0]|
    ensures |t| == |p[0]| && forall c :: 0 <= c < |t| ==> |t[c]| == |p|
  {
    seq(|p[0]|, c requires 0 <= c < |p[0]| => seq(|p|, r requires 0 <= r < |p| => p[r][c]))
  }

  /** Transposing a rectangular pattern with at least one column twice gives it back. */
  lemma TransposeTwice(p: Pattern)
    requires |p| >= 1 && |p[0]| >= 1 && Rectangular(p)
    ensures Transpose(Transpose(p)) == p
  {
    var t := Transpose(p);
    var tt := Transpose(t);
    assert |tt| == |p|;
    forall r | 0 <= r < |p|
      ensures tt[r] == p[r]
    {
      assert |tt[r]| == |p[r]|;
      forall c | 0 <= c < |p[r]|
        ensures tt[r][c] == p[r][c]
      {
        assert tt[r][c] == t[c][r];
      }
    }
  }

  /** `diff`: the number of positions of `a` where `b` holds a different cell. */
  function Diff(a: seq<Cell>, b: seq<Cell>): (n: nat)
    requires |a| <= |b|
    ensures n <= |a|
    decreases |a|
  {
    if a == [] then 0 else (if a[0] != b[0] then 1 else 0) + Diff(a[1..], b[1..])
  }

  /** Rows of one length differ in as many cells either way round. */
  lemma {:induction false} DiffSymmetric(a: seq<Cell>, b: seq<Cell>)
    requires |a| == |b|
    ensures Diff(a, b) == Diff(b, a)
    decreases |a|
  {
    if a != [] {
      DiffSymmetric(a[1..], b[1..]);
    }
  }

  /** Rows of one length differ nowhere exactly when they are equal. */
  lemma {:induction false} DiffZero(a: seq<Cell>, b: seq<Cell>)
    requires |a| == |b|
    ensures Diff(a, b) == 0 <==> a == b
    decreases |a|
  {
    if a != [] {
      DiffZero(a[1..], b[1..]);
      if a[0] == b[0] && a[1..] == b[1..] {
        assert a == [a[0]] + a[1..] && b == [b[0]] + b[1..];
      }
    }
  }

  function Min(a: int, b: int): int {
    if a <= b then a else b
  }

  /** How many row pairs a mirror below row `row - 1` compares: until one side runs out. */
  function Reach(p: Pattern, row: nat): nat
    requires row <= |p|
  {
    Min(row, |p| - row)
  }

  /** The smudges of the first `i` mirrored row pairs around the line before `row`. */
  function Partial(p: Pattern, row: nat, i: nat): nat
    requires Rectangular(p) && row <= |p| && i <= Reach(p, row)
  {
    if i == 0 then 0 else Partial(p, row, i - 1) + Diff(p[row - i], p[row + i - 1])
  }

  /** More pairs never have fewer smudges. */
  lemma {:induction false} PartialMonotone(p: Pattern, row: nat, i: nat, j: nat)
    requires Rectangular(p) && row <= |p| && i <= j <= Reach(p, row)
    ensures Partial(p, row, i) <= Partial(p, row, j)
    decreases j
  {
    if i < j {
      PartialMonotone(p, row, i, j - 1);
    }
  }

  /** The line before `row` is a mirror with `target` smudges. */
  predicate IsMirror(p: Pattern, row: nat, target: int)
    requires Rectangular(p) && row <= |p|
  {
    Partial(p, row, Reach(p, row)) == target
  }

  /** Pair `i` of the mirror before `row`: the rows `i + 1` above and `i` below the line are equal. */
  predicate PairEqual(p: Pattern, row: nat, i: nat)
    requires row <= |p| && i < Reach(p, row)
  {
    p[row - i - 1] == p[row + i]
  }

  /** Without smudges, a mirror is a line whose mirrored row pairs are equal. */
  lemma MirrorExact(p: Pattern, row: nat)
    requires Rectangular(p) && row <= |p|
    ensures IsMirror(p, row, 0) <==> forall i :: 0 <= i < Reach(p, row) ==> PairEqual(p, row, i)
  {
    PartialZero(p, row, Reach(p, row));
  }

  lemma {:induction false} PartialZero(p: Pattern, row: nat, n: nat)
    requires Rectangular(p) && row <= |p| && n <= Reach(p, row)
    ensures Partial(p, row, n) == 0 <==> forall i :: 0 <= i < n ==> PairEqual(p, row, i)
    decreases n
  {
    if n > 0 {
      PartialZero(p, row, n - 1);
      DiffZero(p[row - n], p[row + n - 1]);
      assert PairEqual(p, row, n - 1) <==> p[row - n] == p[row + n - 1];
    }
  }

  /** The first mirror line at `row` or later, 0 when there is none. */
  function FirstMirror(p: Pattern, target: int, row: nat): (r: nat)
    requires Rectangular(p) && 1 <= row <= |p|
    ensures r == 0 ==> forall k :: row <= k < |p| ==> !IsMirror(p, k, target)
    ensures r != 0 ==> (row <= r < |p| && IsMirror(p, r, target)
      && forall k :: row <= k < r ==> !IsMirror(p, k, target))
    decreases |p| - row
  {
    if row == |p| then 0
    else if IsMirror(p, row, target) then row
    else FirstMirror(p, target, row + 1)
  }

  /**
   * What `process` finds: the smallest row in `1 .. rows - 1` above which the pattern
   * mirrors with `target` smudges, or 0.
   */
  function Reflection(p: Pattern, target: int): (r: nat)
    requires Rectangular(p)
    ensures r == 0 ==> forall k :: 1 <= k < |p| ==> !IsMirror(p, k, target)
    ensures r != 0 ==> (1 <= r < |p| && IsMirror(p, r, target)
      && forall k :: 1 <= k < r ==> !IsMirror(p, k, target))
  {
    if |p| == 0 then 0 else FirstMirror(p, target, 1)
  }

  /**
   * `process`: scans the rows, summing the smudges of the mirrored pairs and giving up on
   * a row as soon as the sum passes `target`.
   */
  method Process(p: Pattern, target: int) returns (r: nat)
    requires Rectangular(p)
    ensures r == Reflection(p, target)
  {
    var rows := |p|;
    var row := 1;
    while row < rows
      invariant 1 <= row && (rows > 0 ==> row <= rows)
      invariant forall k :: 1 <= k < row && k < rows ==> !IsMirror(p, k, target)
    {
      var matches, smudges := MirrorScan(p, row, target);
      if matches && smudges == target {
        return row;
      }
      row := row + 1;
    }
    return 0;
  }

  /** The inner loop of `process` for one row, with its early `break`. */
  method MirrorScan(p: Pattern, row: nat, target: int) returns (matches: bool, smudges: nat)
    requires Rectangular(p) && 1 <= row < |p|
    ensures matches && smudges == target <==> IsMirror(p, row, target)
  {
    var rows := |p|;
    var n := Min(row, rows - row);
    matches := true;
    smudges := 0;
    var i := 0;
    while i < n
      invariant 0 <= i <= n && n == Reach(p, row)
      invariant smudges == Partial(p, row, i)
      invariant matches && i > 0 ==> smudges <= target
    {
      smudges := smudges + Diff(p[row - i - 1], p[row + i]);
      i := i + 1;
      if smudges > target {
        matches := false;
        PartialMonotone(p, row, i, n);
        break;
      }
    }
  }

  /**
   * The printed score of one pattern: 100 for each row above its horizontal mirror plus
   * the columns left of its vertical mirror. Transposing an empty pattern is an
   * IndexError.
   */
  function Score(p: Pattern, target: int): (r: Result<nat>)
    requires Rectangular(p)
    ensures r.Failure? <==> p == []
  {
    if p == [] then Failure("IndexError: list index out of range")
    else Success(100 * Reflection(p, target) + Reflection(Transpose(p), target))
  }
}
