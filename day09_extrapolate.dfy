/**
 * Sequence extrapolation of 2023/day09/extrapolate.py (forward) and
 * 2023/day09/extrapolate-part2.py (backward).
 *
 * Both build a stack of difference rows until a row is all zeros, put a 0 on that row,
 * then pop rows one at a time, each time extending the row below from the one popped.
 * The bottom row is the caller's own list, so the caller sees it extended too: the
 * methods return that list's new contents next to the extrapolated value.
 */
module Extrapolation {

  /** `diffseq`: the differences of neighbouring values, one fewer than the values. */
  function Diff(v: seq<int>): (r: seq<int>)
    ensures |r| == if v == [] then 0 else |v| - 1
  {
    if v == [] then [] else seq(|v| - 1, i requires 0 <= i < |v| - 1 => v[i + 1] - v[i])
  }

  /** `allzeros`; true of the empty list. */
  predicate AllZeros(v: seq<int>) {
    forall i :: 0 <= i < |v| ==> v[i] == 0
  }

  /** The forward extrapolation: the last value plus the extrapolation of the differences. */
  function Next(v: seq<int>): int
    decreases |v|
  {
    if AllZeros(v) then 0 else v[|v| - 1] + Next(Diff(v))
  }

  /** The backward extrapolation: the first value minus the extrapolation of the differences. */
  function Prev(v: seq<int>): int
    decreases |v|
  {
    if AllZeros(v) then 0 else v[0] - Prev(Diff(v))
  }

  /** The loop of `diffseq`. */
  method DiffSeq(values: seq<int>) returns (result: seq<int>)
    ensures |result| == if values == [] then 0 else |values| - 1
    ensures forall i :: 0 <= i < |result| ==> result[i] == values[i + 1] - values[i]
    ensures result == Diff(values)
  {
    result := [];
    var i := 1;
    while i < |values|
      invariant 1 <= i <= if values == [] then 1 else |values|
      invariant |result| == i - 1 && forall k :: 0 <= k < i - 1 ==> result[k] == values[k + 1] - values[k]
    {
      result := result + [values[i] - values[i - 1]];
      i := i + 1;
    }
  }

  /** The early-return loop of `allzeros`. */
  method AllZerosOf(values: seq<int>) returns (zero: bool)
    ensures zero == AllZeros(values)
  {
    for i := 0 to |values|
      invariant forall k :: 0 <= k < i ==> values[k] == 0
    {
      if values[i] != 0 {
        return false;
      }
    }
    return true;
  }

  /**
   * The rows `stack` holds once the first loop stops: each row the differences of the
   * one below, every row but the top not all zeros, the top all zeros.
   */
  ghost predicate DiffRows(values: seq<int>, rows: seq<seq<int>>) {
    |rows| >= 1 && rows[0] == values
    && (forall i, j {:trigger rows[i], rows[j]} :: 0 <= i && j == i + 1 && j < |rows| ==> rows[j] == Diff(rows[i]) && !AllZeros(rows[i]))
  }

  /** Pushing the differences of a top row that is not all zeros keeps the rows well formed. */
  lemma DiffRowsPush(values: seq<int>, rows: seq<seq<int>>)
    requires DiffRows(values, rows) && !AllZeros(rows[|rows| - 1])
    ensures var pushed := rows + [Diff(rows[|rows| - 1])]; DiffRows(values, pushed)
  {
    var pushed := rows + [Diff(rows[|rows| - 1])];
    assert forall k :: 0 <= k < |rows| ==> pushed[k] == rows[k];
  }

  /** The first loop of `extrapolate`: push difference rows until the top is all zeros. */
  method BuildStack(values: seq<int>) returns (stack: seq<seq<int>>)
    ensures DiffRows(values, stack) && AllZeros(stack[|stack| - 1])
  {
    stack := [values];
    var zero := AllZerosOf(values);
    while !zero
      invariant DiffRows(values, stack) && zero == AllZeros(stack[|stack| - 1])
      decreases |stack[|stack| - 1]|
    {
      var d := DiffSeq(stack[|stack| - 1]);
      DiffRowsPush(values, stack);
      stack := stack + [d];
      zero := AllZerosOf(d);
    }
  }

  /** Along the rows, each row's extrapolation is its last value plus the next row's. */
  lemma NextAlongRows(values: seq<int>, rows: seq<seq<int>>, k: nat)
    requires DiffRows(values, rows) && k + 1 < |rows|
    ensures |rows[k]| >= 1 && Next(rows[k]) == rows[k][|rows[k]| - 1] + Next(rows[k + 1])
  {
    assert rows[k + 1] == Diff(rows[k]) && !AllZeros(rows[k]);
  }

  lemma PrevAlongRows(values: seq<int>, rows: seq<seq<int>>, k: nat)
    requires DiffRows(values, rows) && k + 1 < |rows|
    ensures |rows[k]| >= 1 && Prev(rows[k]) == rows[k][0] - Prev(rows[k + 1])
  {
    assert rows[k + 1] == Diff(rows[k]) && !AllZeros(rows[k]);
  }

  /** What `stack` holds during the second loop: the rows below the top untouched, the top extended. */
  ghost predicate ForwardInv(rows: seq<seq<int>>, stack: seq<seq<int>>) {
    1 <= |stack| <= |rows|
    && var t := |stack| - 1; stack[..t] == rows[..t] && stack[t] == rows[t] + [Next(rows[t])]
  }

  ghost predicate BackwardInv(rows: seq<seq<int>>, stack: seq<seq<int>>) {
    1 <= |stack| <= |rows|
    && var t := |stack| - 1; stack[..t] == rows[..t] && stack[t] == [Prev(rows[t])] + rows[t]
  }

  /** One pop of the forward loop: the row below the popped one is extended by its extrapolation. */
  lemma ForwardPop(values: seq<int>, rows: seq<seq<int>>, stack: seq<seq<int>>)
    requires DiffRows(values, rows) && ForwardInv(rows, stack) && |stack| >= 2
    ensures var t := |stack| - 2; var below := stack[t]; var popped := stack[t + 1];
      var ok := |below| >= 1 && |popped| >= 1
        && ForwardInv(rows, stack[..t] + [below + [below[|below| - 1] + popped[|popped| - 1]]]);
      ok
  {
    var t := |stack| - 2;
    assert stack[..t + 1][t] == stack[t] && rows[..t + 1][t] == rows[t];
    assert stack[..t + 1][..t] == stack[..t] && rows[..t + 1][..t] == rows[..t];
    NextAlongRows(values, rows, t);
    var next := stack[..t] + [stack[t] + [stack[t][|stack[t]| - 1] + stack[t + 1][|stack[t + 1]| - 1]]];
    assert next[..t] == stack[..t];
  }

  /** One pop of the backward loop: the row below the popped one gets its extrapolation in front. */
  lemma BackwardPop(values: seq<int>, rows: seq<seq<int>>, stack: seq<seq<int>>)
    requires DiffRows(values, rows) && BackwardInv(rows, stack) && |stack| >= 2
    ensures var t := |stack| - 2; var below := stack[t]; var popped := stack[t + 1];
      var ok := |below| >= 1 && |popped| >= 1
        && BackwardInv(rows, stack[..t] + [[below[0] - popped[0]] + below]);
      ok
  {
    var t := |stack| - 2;
    assert stack[..t + 1][t] == stack[t] && rows[..t + 1][t] == rows[t];
    assert stack[..t + 1][..t] == stack[..t] && rows[..t + 1][..t] == rows[..t];
    PrevAlongRows(values, rows, t);
    var next := stack[..t] + [[stack[t][0] - stack[t + 1][0]] + stack[t]];
    assert next[..t] == stack[..t];
  }

  /** The start of the second loop: a 0 on the all-zero top row is its extrapolation either way. */
  lemma ZeroTop(values: seq<int>, rows: seq<seq<int>>)
    requires DiffRows(values, rows) && AllZeros(rows[|rows| - 1])
    ensures var t := |rows| - 1;
      var ok := ForwardInv(rows, rows[..t] + [rows[t] + [0]]) && BackwardInv(rows, rows[..t] + [[0] + rows[t]]);
      ok
  {
    var t := |rows| - 1;
    assert (rows[..t] + [rows[t] + [0]])[..t] == rows[..t];
    assert (rows[..t] + [[0] + rows[t]])[..t] == rows[..t];
  }

  /**
   * `extrapolate` of extrapolate.py. The value it returns is `Next(values)`, and the
   * caller's list ends with that value appended.
   */
  method ExtrapolateForward(values: seq<int>) returns (next: int, extended: seq<int>)
    ensures next == Next(values) && extended == values + [next]
  {
    var stack := BuildStack(values);
    ghost var rows := stack;
    var top := |stack| - 1;
    ZeroTop(values, rows);
    stack := stack[..top] + [stack[top] + [0]];
    while |stack| > 1
      invariant ForwardInv(rows, stack)
    {
      var t := |stack| - 2;
      var popped := stack[t + 1];
      var below := stack[t];
      ForwardPop(values, rows, stack);
      stack := stack[..t] + [below + [below[|below| - 1] + popped[|popped| - 1]]];
    }
    extended := stack[0];
    next := extended[|extended| - 1];
  }

  /**
   * `extrapolate` of extrapolate-part2.py. The value it returns is `Prev(values)`, and the
   * caller's list starts with that value inserted at index 0.
   */
  method ExtrapolateBackward(values: seq<int>) returns (prev: int, extended: seq<int>)
    ensures prev == Prev(values) && extended == [prev] + values
  {
    var stack := BuildStack(values);
    ghost var rows := stack;
    var top := |stack| - 1;
    ZeroTop(values, rows);
    stack := stack[..top] + [[0] + stack[top]];
    while |stack| > 1
      invariant BackwardInv(rows, stack)
    {
      var t := |stack| - 2;
      var popped := stack[t + 1];
      var below := stack[t];
      BackwardPop(values, rows, stack);
      stack := stack[..t] + [[below[0] - popped[0]] + below];
    }
    extended := stack[0];
    prev := extended[0];
  }

  // ---- properties of the two extrapolations ----

  /** An all-zero or empty history extrapolates to 0 both ways. */
  lemma ZeroHistory(v: seq<int>)
    requires AllZeros(v)
    ensures Next(v) == 0 && Prev(v) == 0
  {
  }

  /** A constant history extrapolates to the same constant both ways. */
  lemma ConstantHistory(v: seq<int>, c: int)
    requires |v| >= 1 && forall i :: 0 <= i < |v| ==> v[i] == c
    ensures Next(v) == c && Prev(v) == c
  {
    if c != 0 {
      assert v[0] != 0;
      assert AllZeros(Diff(v));
    }
  }

  /** An arithmetic history `a + b*i` extrapolates to its next term and to the term before its first. */
  lemma ArithmeticHistory(v: seq<int>, a: int, b: int)
    requires |v| >= 2 && forall i :: 0 <= i < |v| ==> v[i] == a + b * i
    ensures Next(v) == a + b * |v| && Prev(v) == a - b
  {
    var d := Diff(v);
    var n := |v|;
    assert v[n - 1] == a + b * (n - 1) == a + b * n - b;
    if AllZeros(v) {
      assert v[0] == 0 && v[1] == 0;
      assert a == 0 && b == 0;
    } else {
      forall i | 0 <= i < |d|
        ensures d[i] == b
      {
        assert v[i + 1] == a + b * i + b;
      }
      ConstantHistory(d, b);
    }
  }

  function Negate(v: seq<int>): (r: seq<int>)
    ensures |r| == |v|
  {
    seq(|v|, i requires 0 <= i < |v| => -v[i])
  }

  function Reverse(v: seq<int>): (r: seq<int>)
    ensures |r| == |v|
  {
    seq(|v|, i requires 0 <= i < |v| => v[|v| - 1 - i])
  }

  /** Extrapolation commutes with negation. */
  lemma {:induction false} NextNegate(v: seq<int>)
    ensures Next(Negate(v)) == -Next(v)
    decreases |v|
  {
    if !AllZeros(v) {
      var n := Negate(v);
      assert !AllZeros(n) by {
        var i :| 0 <= i < |v| && v[i] != 0;
        assert n[i] != 0;
      }
      assert Diff(n) == Negate(Diff(v));
      NextNegate(Diff(v));
    }
  }

  /** Extrapolating backward is extrapolating the reversed history forward. */
  lemma {:induction false} PrevIsReversedNext(v: seq<int>)
    ensures Prev(v) == Next(Reverse(v))
    decreases |v|
  {
    ReverseZeros(v);
    if !AllZeros(v) {
      ReverseDiff(v);
      NextNegate(Reverse(Diff(v)));
      PrevIsReversedNext(Diff(v));
    }
  }

  lemma ReverseZeros(v: seq<int>)
    ensures AllZeros(Reverse(v)) <==> AllZeros(v)
  {
    var r := Reverse(v);
    if !AllZeros(v) {
      var i :| 0 <= i < |v| && v[i] != 0;
      assert r[|v| - 1 - i] == v[i];
    }
  }

  /** The differences of the reversed history are the reversed differences, negated. */
  lemma ReverseDiff(v: seq<int>)
    ensures Diff(Reverse(v)) == Negate(Reverse(Diff(v)))
  {
    var r := Reverse(v);
    var d := Diff(v);
    var n := Negate(Reverse(d));
    assert |Diff(r)| == |n|;
    forall i | 0 <= i < |n|
      ensures Diff(r)[i] == n[i]
    {
      assert Diff(r)[i] == r[i + 1] - r[i] == v[|v| - 2 - i] - v[|v| - 1 - i];
      assert n[i] == -d[|d| - 1 - i];
    }
  }
}
