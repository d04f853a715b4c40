/**
 * Toy boat races of 2023/day6/run.py. Holding the button for `t` of a race's `time`
 * milliseconds gives speed `t` for the remaining `time - t`; a hold wins when the
 * distance beats the race's record.
 */
module BoatRaces {
  import opened Wrappers
  import Text

  /** The distance travelled when the button is held for `hold` of `time`. */
  function Distance(time: int, hold: int): int {
    (time - hold) * hold
  }

  predicate Beats(time: int, record: int, hold: int) {
    Distance(time, hold) > record
  }

  /** The number of hold times `t` with `1 <= t < n` that beat the record. */
  function WinsBelow(time: int, record: int, n: int): nat
    decreases n
  {
    if n <= 1 then 0 else WinsBelow(time, record, n - 1) + if Beats(time, record, n - 1) then 1 else 0
  }

  /** The hold times `1 .. time-1` that beat the record. */
  function Wins(time: int, record: int): nat {
    WinsBelow(time, record, time)
  }

  /** There are no more wins than hold times tried. */
  lemma {:induction false} WinsBelowBound(time: int, record: int, n: int)
    ensures WinsBelow(time, record, n) <= if n > 1 then n - 1 else 0
    decreases n
  {
    if n > 1 {
      WinsBelowBound(time, record, n - 1);
    }
  }

  /** `numWins`: the loop over `t` in `range(1, time)` with `speed` one more each round. */
  method NumWins(time: int, record: int) returns (result: nat)
    ensures result == Wins(time, record)
    ensures result <= if time > 1 then time - 1 else 0
  {
    result := 0;
    var speed := 0;
    var t := 1;
    while t < time
      invariant 1 <= t <= if time > 1 then time else 1
      invariant speed == t - 1 && result == WinsBelow(time, record, t)
    {
      speed := speed + 1;
      var distance := (time - t) * speed;
      if distance > record {
        result := result + 1;
      }
      t := t + 1;
    }
    WinsBelowBound(time, record, time);
  }

  /** Holding `t` and holding `time - t` go equally far, so a hold wins exactly when its mirror does. */
  lemma HoldMirror(time: int, record: int, t: int)
    requires 1 <= t < time
    ensures 1 <= time - t < time
    ensures Beats(time, record, t) <==> Beats(time, record, time - t)
  {
    assert Distance(time, time - t) == t * (time - t);
  }

  /** Every hold wins a race whose record is below every possible distance. */
  lemma {:induction false} AllWin(time: int, record: int, n: int)
    requires record < 0 && n <= time
    ensures WinsBelow(time, record, n) == if n > 1 then n - 1 else 0
    decreases n
  {
    if n > 1 {
      AllWin(time, record, n - 1);
      assert Distance(time, n - 1) >= 0;
    }
  }

  /**
   * `readNumbers`: the words of one line; the first must be the expected prefix (an empty
   * line fails on `pieces[0]`), the rest are integers.
   */
  function ReadNumbers(pieces: seq<string>, prefix: string): (r: Result<seq<int>>)
    ensures r.Success? <==> |pieces| >= 1 && pieces[0] == prefix && Text.ParseInts(pieces[1..]).Some?
    ensures r.Success? ==> |r.value| == |pieces| - 1
  {
    if |pieces| == 0 then Failure("list index out of range")
    else if pieces[0] != prefix then Failure("unexpected prefix")
    else match Text.ParseInts(pieces[1..])
      case None => Failure("invalid literal for int()")
      case Some(values) => Success(values)
  }

  function Product(xs: seq<nat>): nat
    decreases |xs|
  {
    if xs == [] then 1 else xs[0] * Product(xs[1..])
  }

  /** A race nobody can win makes the product 0. */
  lemma {:induction false} ProductZero(xs: seq<nat>, i: nat)
    requires i < |xs| && xs[i] == 0
    ensures Product(xs) == 0
    decreases |xs|
  {
    if i > 0 {
      ProductZero(xs[1..], i - 1);
    }
  }

  /** The script: both lines read, equal numbers of times and records, the product of the win counts. */
  function Answer(timeLine: string, distanceLine: string): (r: Result<nat>)
    ensures var t := ReadNumbers(Text.Words(timeLine), "Time:");
      var d := ReadNumbers(Text.Words(distanceLine), "Distance:");
      var ok := (r.Success? <==> t.Success? && d.Success? && |t.value| == |d.value|)
        && (r.Success? ==> r.value == Product(seq(|t.value|, i requires 0 <= i < |t.value| => Wins(t.value[i], d.value[i]))));
      ok
  {
    var times :- ReadNumbers(Text.Words(timeLine), "Time:");
    var records :- ReadNumbers(Text.Words(distanceLine), "Distance:");
    if |times| != |records| then Failure("different numbers of times and distances")
    else Success(Product(seq(|times|, i requires 0 <= i < |times| => Wins(times[i], records[i]))))
  }
}
