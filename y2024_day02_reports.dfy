/**
 * The report-safety rules of 2024/day02/run.py. A report is a list of levels; it is safe
 * when every step between neighbouring levels moves by 1 to 3 in the direction of the
 * first step. With the problem dampener (part 2) a report is also safe when removing one
 * level makes it safe.
 */
module Reports {
  import opened Wrappers

  const IndexError := "IndexError: list index out of range"

  /** `_sign`. */
  function Sign(v: int): (r: int)
    ensures r == -1 || r == 0 || r == 1
    ensures r * v >= 0 && (r == 0 <==> v == 0)
  {
    if v < 0 then -1 else if v > 0 then 1 else 0
  }

  function Abs(v: int): int {
    if v < 0 then -v else v
  }

  /** The step into level `i`. */
  function Delta(levels: seq<int>, i: nat): int
    requires 1 <= i < |levels|
  {
    levels[i] - levels[i - 1]
  }

  /** The step into level `i` moves by 1 to 3, the way the first step does. */
  predicate StepOk(levels: seq<int>, i: nat)
    requires 1 <= i < |levels|
  {
    1 <= Abs(Delta(levels, i)) <= 3 && Sign(Delta(levels, i)) == Sign(Delta(levels, 1))
  }

  /** A safe report: every step is fine (so a report of fewer than two levels is safe). */
  predicate SafeLevels(levels: seq<int>) {
    forall i :: 1 <= i < |levels| ==> StepOk(levels, i)
  }

  predicate Increasing(levels: seq<int>) {
    forall i :: 1 <= i < |levels| ==> 1 <= Delta(levels, i) <= 3
  }

  predicate Decreasing(levels: seq<int>) {
    forall i :: 1 <= i < |levels| ==> 1 <= -Delta(levels, i) <= 3
  }

  /** Safe means gently increasing or gently decreasing throughout. */
  lemma SafeIffMonotone(levels: seq<int>)
    ensures SafeLevels(levels) <==> Increasing(levels) || Decreasing(levels)
  {
    if |levels| >= 2 {
      if SafeLevels(levels) {
        assert StepOk(levels, 1);
        if Delta(levels, 1) > 0 {
          forall i | 1 <= i < |levels|
            ensures 1 <= Delta(levels, i) <= 3
          {
            assert StepOk(levels, i);
          }
        } else {
          forall i | 1 <= i < |levels|
            ensures 1 <= -Delta(levels, i) <= 3
          {
            assert StepOk(levels, i);
          }
        }
      }
    }
  }

  /** `safe_skip` as written: `levels[1]` is read before anything is checked. */
  method SafeSkipAsWritten(levels: seq<int>) returns (r: Result<bool>)
    ensures r.Failure? <==> |levels| < 2
    ensures r.Failure? ==> r.error == IndexError
    ensures r.Success? ==> (r.value <==> SafeLevels(levels))
  {
    if |levels| < 2 {
      return Failure(IndexError);
    }
    var diff := levels[1] - levels[0];
    if Abs(diff) < 1 || Abs(diff) > 3 {
      assert !StepOk(levels, 1);
      return Success(false);
    }
    var initialSign := Sign(diff);
    for i := 2 to |levels|
      invariant forall j :: 1 <= j < i ==> StepOk(levels, j)
    {
      diff := levels[i] - levels[i - 1];
      if Abs(diff) < 1 || Abs(diff) > 3 {
        assert !StepOk(levels, i);
        return Success(false);
      }
      var sign := Sign(diff);
      if sign != initialSign {
        assert !StepOk(levels, i);
        return Success(false);
      }
    }
    return Success(true);
  }

  /** `safe_skip` with too short a report counted as safe, which it vacuously is. */
  method SafeSkip(levels: seq<int>) returns (safe: bool)
    ensures safe <==> SafeLevels(levels)
  {
    if |levels| < 2 {
      return true;
    }
    var r := SafeSkipAsWritten(levels);
    return r.value;
  }

  /** `levels.copy()` followed by `pop(k)`. */
  function Remove(levels: seq<int>, k: nat): (r: seq<int>)
    requires k < |levels|
    ensures |r| == |levels| - 1
    ensures forall i :: 0 <= i < k ==> r[i] == levels[i]
    ensures forall i :: k <= i < |r| ==> r[i] == levels[i + 1]
  {
    levels[..k] + levels[k + 1..]
  }

  /** Safe with the dampener: safe as it is, or once one level is removed. */
  predicate Tolerable(levels: seq<int>) {
    SafeLevels(levels) || exists k :: 0 <= k < |levels| && SafeLevels(Remove(levels, k))
  }

  /** Dropping the first level of a safe report leaves it safe. */
  lemma SafeDropFirst(levels: seq<int>)
    requires |levels| >= 1 && SafeLevels(levels)
    ensures SafeLevels(Remove(levels, 0))
  {
    var r := Remove(levels, 0);
    if |r| >= 2 {
      assert StepOk(levels, 1) && StepOk(levels, 2);
      forall i | 1 <= i < |r|
        ensures StepOk(r, i)
      {
        assert Delta(r, i) == Delta(levels, i + 1);
        assert StepOk(levels, i + 1);
      }
    }
  }

  /** For a non-empty report the dampener rule is just "some removal is safe". */
  lemma TolerableIffRemoval(levels: seq<int>)
    requires |levels| >= 1
    ensures Tolerable(levels) <==> exists k :: 0 <= k < |levels| && SafeLevels(Remove(levels, k))
  {
    if SafeLevels(levels) {
      SafeDropFirst(levels);
    }
  }

  /** Reports of at most two levels are always safe with the dampener. */
  lemma ShortTolerable(levels: seq<int>)
    requires |levels| <= 2
    ensures Tolerable(levels)
  {
    if |levels| == 2 {
      assert SafeLevels(Remove(levels, 0));
    }
  }

  /** The report `safe` tries with skip `skip`: -1 keeps every level. */
  function Candidate(levels: seq<int>, skip: int): seq<int>
    requires -1 <= skip < |levels|
  {
    if skip < 0 then levels else Remove(levels, skip)
  }

  /** Part 2 `safe` as written, trying the skips from `skip` on; an IndexError propagates. */
  function TryFrom(levels: seq<int>, skip: int): Result<bool>
    requires -1 <= skip <= |levels|
    decreases |levels| - skip
  {
    if skip == |levels| then Success(false)
    else
      var c := Candidate(levels, skip);
      if |c| < 2 then Failure(IndexError)
      else if SafeLevels(c) then Success(true)
      else TryFrom(levels, skip + 1)
  }

  /** The skips from `skip` on, as written: an IndexError exactly when a two-level report is left. */
  lemma {:induction false} TryFromRemovals(levels: seq<int>, skip: nat)
    requires |levels| >= 2 && skip <= |levels|
    ensures TryFrom(levels, skip).Failure? <==> |levels| == 2 && skip < 2
    ensures TryFrom(levels, skip).Success? ==>
      (TryFrom(levels, skip).value <==> exists k :: skip <= k < |levels| && SafeLevels(Remove(levels, k)))
    decreases |levels| - skip
  {
    if skip < |levels| {
      TryFromRemovals(levels, skip + 1);
    }
  }

  /**
   * Part 2 `safe` as written raises for a report of fewer than two levels and for an
   * unsafe report of exactly two; otherwise it answers the dampener rule.
   */
  lemma TryAllAsWritten(levels: seq<int>)
    ensures TryFrom(levels, -1).Failure? <==> |levels| < 2 || (|levels| == 2 && !SafeLevels(levels))
    ensures TryFrom(levels, -1).Success? ==> (TryFrom(levels, -1).value <==> Tolerable(levels))
  {
    if |levels| >= 2 {
      TryFromRemovals(levels, 0);
    }
  }

  /** The report `[1, 1]`: as written part 2 raises, though dropping a level makes it safe. */
  lemma TwoLevelsRaise()
    ensures TryFrom([1, 1], -1).Failure?
    ensures Tolerable([1, 1])
  {
    ShortTolerable([1, 1]);
    TryAllAsWritten([1, 1]);
    assert !StepOk([1, 1], 1);
  }

  /** Part 2 `safe` as written: the loop over the skips. */
  method SafeWithSkipsAsWritten(levels: seq<int>) returns (r: Result<bool>)
    ensures r == TryFrom(levels, -1)
  {
    var skip := -1;
    while skip < |levels|
      invariant -1 <= skip <= |levels|
      invariant TryFrom(levels, -1) == TryFrom(levels, skip)
      decreases |levels| - skip
    {
      var candidate := if skip >= 0 then Remove(levels, skip) else levels;
      assert candidate == Candidate(levels, skip);
      var ok := SafeSkipAsWritten(candidate);
      if ok.Failure? {
        return Failure(ok.error);
      }
      if ok.value {
        return Success(true);
      }
      skip := skip + 1;
    }
    return Success(false);
  }

  /** Part 2 `safe` with the corrected `safe_skip`: the dampener rule exactly. */
  method SafeWithSkips(levels: seq<int>) returns (safe: bool)
    ensures safe <==> Tolerable(levels)
  {
    safe := SafeSkip(levels);
    if safe {
      return;
    }
    for skip := 0 to |levels|
      invariant forall k :: 0 <= k < skip ==> !SafeLevels(Remove(levels, k))
    {
      safe := SafeSkip(Remove(levels, skip));
      if safe {
        return;
      }
    }
  }

  /** `Report.safe`: part 1 asks for a safe report, part 2 allows one removal. */
  method Safe(levels: seq<int>, part2: bool) returns (safe: bool)
    ensures safe <==> if part2 then Tolerable(levels) else SafeLevels(levels)
  {
    if part2 {
      safe := SafeWithSkips(levels);
    } else {
      safe := SafeSkip(levels);
    }
  }

  /** The number of safe reports. */
  function SafeCount(reports: seq<seq<int>>, part2: bool): (n: nat)
    ensures n <= |reports|
    decreases |reports|
  {
    if reports == [] then 0
    else
      var last := reports[|reports| - 1];
      SafeCount(reports[..|reports| - 1], part2) + (if (if part2 then Tolerable(last) else SafeLevels(last)) then 1 else 0)
  }

  /** Every report safe without the dampener is safe with it, so part 2 counts at least as many. */
  lemma {:induction false} DampenerCountsMore(reports: seq<seq<int>>)
    ensures SafeCount(reports, false) <= SafeCount(reports, true)
    decreases |reports|
  {
    if reports != [] {
      DampenerCountsMore(reports[..|reports| - 1]);
    }
  }

  /** The driver: `len(list(filter(safe, reports)))`. */
  method NumSafe(reports: seq<seq<int>>, part2: bool) returns (n: nat)
    ensures n == SafeCount(reports, part2)
  {
    n := 0;
    for i := 0 to |reports|
      invariant n == SafeCount(reports[..i], part2)
    {
      var safe := Safe(reports[i], part2);
      assert reports[..i + 1][..i] == reports[..i];
      if safe {
        n := n + 1;
      }
    }
    assert reports[..|reports|] == reports;
  }
}
