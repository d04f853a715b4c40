/**
 * Calibration values of 2023/day1-trebuchet/extract.py. `replaceWords` turns every
 * place where a digit 1-9 or its English name starts into that digit, overlapping
 * names included; `extractDigits` reads the first and the last digit as a two-digit number.
 */
module Trebuchet {
  import opened Wrappers
  import Text

  /** The keys of `digitWords` with their digits, in the order the pattern tries them. */
  const DigitWords: seq<(string, char)> := [
    ("one", '1'), ("two", '2'), ("three", '3'), ("four", '4'), ("five", '5'),
    ("six", '6'), ("seven", '7'), ("eight", '8'), ("nine", '9'),
    ("1", '1'), ("2", '2'), ("3", '3'), ("4", '4'), ("5", '5'),
    ("6", '6'), ("7", '7'), ("8", '8'), ("9", '9')
  ]

  predicate IsPrefix(p: string, s: string) {
    |p| <= |s| && s[..|p|] == p
  }

  predicate NonZeroDigit(c: char) {
    '1' <= c <= '9'
  }

  predicate KeysNonZero(keys: seq<(string, char)>) {
    forall k :: 0 <= k < |keys| ==> NonZeroDigit(keys[k].1)
  }

  /** The digit of the first key that starts `s`, if any: what the alternation matches at a position. */
  function MatchFrom(s: string, keys: seq<(string, char)>): (r: Option<char>)
    ensures r.Some? ==> exists k :: 0 <= k < |keys| && IsPrefix(keys[k].0, s) && keys[k].1 == r.value
    ensures r.None? <==> forall k :: 0 <= k < |keys| ==> !IsPrefix(keys[k].0, s)
    decreases |keys|
  {
    if keys == [] then None
    else if IsPrefix(keys[0].0, s) then Some(keys[0].1)
    else MatchFrom(s, keys[1..])
  }

  /** What the pattern matches at the start of `s`, given the keys it alternates over. */
  function MatchAt(s: string, keys: seq<(string, char)>): (r: Option<char>)
    ensures KeysNonZero(keys) && r.Some? ==> NonZeroDigit(r.value)
  {
    MatchFrom(s, keys)
  }

  /** What `replaceWords` returns: the digit of every position where a key starts, left to right. */
  function Spelled(line: string, keys: seq<(string, char)>): (r: string)
    ensures KeysNonZero(keys) ==> forall i :: 0 <= i < |r| ==> NonZeroDigit(r[i])
    decreases |line|
  {
    if line == [] then ""
    else (match MatchAt(line, keys) case Some(d) => [d] case None => "") + Spelled(line[1..], keys)
  }

  /** `re.search`: the leftmost position where a key starts, with its digit. */
  function Search(line: string, keys: seq<(string, char)>): (r: Option<(nat, char)>)
    ensures r.Some? ==> r.value.0 < |line| && MatchAt(line[r.value.0..], keys) == Some(r.value.1)
    ensures r.Some? ==> forall p :: 0 <= p < r.value.0 ==> MatchAt(line[p..], keys).None?
    ensures r.None? ==> forall p :: 0 <= p < |line| ==> MatchAt(line[p..], keys).None?
    decreases |line|
  {
    if line == [] then None
    else if MatchAt(line, keys).Some? then
      assert line[0..] == line;
      Some((0, MatchAt(line, keys).value))
    else
      var rest := Search(line[1..], keys);
      assert line[0..] == line;
      assert forall p :: 0 < p <= |line| ==> line[1..][p - 1..] == line[p..];
      if rest.None? then None else Some((rest.value.0 + 1, rest.value.1))
  }

  /** Positions without a match contribute nothing. */
  lemma {:induction false} SpelledSkip(line: string, keys: seq<(string, char)>, p: nat)
    requires p <= |line| && forall q :: 0 <= q < p ==> MatchAt(line[q..], keys).None?
    ensures Spelled(line, keys) == Spelled(line[p..], keys)
    decreases p
  {
    if p > 0 {
      assert MatchAt(line[0..], keys).None? && line[0..] == line;
      assert line[1..][p - 1..] == line[p..];
      forall q | 0 <= q < p - 1
        ensures MatchAt(line[1..][q..], keys).None?
      {
        assert line[1..][q..] == line[q + 1..];
      }
      SpelledSkip(line[1..], keys, p - 1);
    }
  }

  /**
   * The loop of `replaceWords`, for the compiled pattern `keys` (the script's is
   * `DigitWords`): search, emit the digit, resume one character after the match start.
   */
  method ReplaceWords(line0: string, keys: seq<(string, char)>) returns (result: string)
    ensures result == Spelled(line0, keys)
  {
    result := "";
    var line := line0;
    var found := Search(line, keys);
    while found.Some?
      invariant result + Spelled(line, keys) == Spelled(line0, keys)
      invariant found == Search(line, keys)
      decreases |line|
    {
      var (start, digit) := found.value;
      SpelledSkip(line, keys, start);
      line := line[start + 1..];
      result := result + [digit];
      found := Search(line, keys);
    }
    SpelledSkip(line, keys, |line|);
  }

  /** Every key of the pattern stands for a digit 1-9; `0` is not a key. */
  lemma DigitWordsNonZero()
    ensures KeysNonZero(DigitWords)
  {
  }

  /** `extractDigits`: ten times the first digit plus the last; a line with no digit fails on `digits[0]`. */
  function ExtractDigits(line: string): (r: Result<nat>)
    ensures r.Success? <==> exists i :: 0 <= i < |line| && Text.IsDigit(line[i])
    ensures r.Success? ==> r.value < 100
  {
    var digits := DigitsOf(line);
    if digits == [] then Failure("list index out of range")
    else Success(10 * Text.DigitValue(digits[0]) + Text.DigitValue(digits[|digits| - 1]))
  }

  /** `[ch for ch in chars if ch.isdigit()]`. */
  function DigitsOf(line: string): (r: string)
    ensures forall i :: 0 <= i < |r| ==> Text.IsDigit(r[i])
    ensures |r| == 0 <==> forall i :: 0 <= i < |line| ==> !Text.IsDigit(line[i])
    decreases |line|
  {
    if line == [] then ""
    else (if Text.IsDigit(line[0]) then [line[0]] else "") + DigitsOf(line[1..])
  }

  /** The filter keeps the digits in their order: it splits over a concatenation. */
  lemma {:induction false} DigitsOfAppend(a: string, b: string)
    ensures DigitsOf(a + b) == DigitsOf(a) + DigitsOf(b)
    decreases |a|
  {
    if a == [] {
      assert a + b == b;
    } else {
      DigitsOfAppend(a[1..], b);
      assert (a + b)[1..] == a[1..] + b;
    }
  }

  /** The first digit kept is the line's first digit. */
  lemma FirstDigit(line: string, i: nat)
    requires i < |line| && Text.IsDigit(line[i]) && forall k :: 0 <= k < i ==> !Text.IsDigit(line[k])
    ensures DigitsOf(line) != "" && DigitsOf(line)[0] == line[i]
  {
    var before := line[..i];
    assert forall k :: 0 <= k < |before| ==> before[k] == line[k];
    assert DigitsOf(before) == "";
    assert line == before + line[i..];
    DigitsOfAppend(before, line[i..]);
    assert DigitsOf(line[i..]) == [line[i]] + DigitsOf(line[i + 1..]);
  }

  /** The last digit kept is the line's last digit. */
  lemma LastDigit(line: string, j: nat)
    requires j < |line| && Text.IsDigit(line[j]) && forall k :: j < k < |line| ==> !Text.IsDigit(line[k])
    ensures DigitsOf(line) != "" && DigitsOf(line)[|DigitsOf(line)| - 1] == line[j]
  {
    var after := line[j + 1..];
    assert forall k :: 0 <= k < |after| ==> after[k] == line[j + 1 + k];
    assert DigitsOf(after) == "";
    assert line == line[..j] + [line[j]] + after;
    DigitsOfAppend(line[..j] + [line[j]], after);
    DigitsOfAppend(line[..j], [line[j]]);
    assert DigitsOf([line[j]]) == [line[j]] + DigitsOf([]);
  }

  /**
   * The calibration value of a line is ten times its first digit plus its last digit:
   * `i` is the index of the first digit and `j` that of the last.
   */
  lemma FirstAndLast(line: string, i: nat, j: nat)
    requires i < |line| && Text.IsDigit(line[i]) && forall k :: 0 <= k < i ==> !Text.IsDigit(line[k])
    requires j < |line| && Text.IsDigit(line[j]) && forall k :: j < k < |line| ==> !Text.IsDigit(line[k])
    ensures ExtractDigits(line) == Success(10 * Text.DigitValue(line[i]) + Text.DigitValue(line[j]))
  {
    FirstDigit(line, i);
    LastDigit(line, j);
  }

  /** A lone digit is both the first and the last. */
  lemma SingleDigit(c: char)
    requires Text.IsDigit(c)
    ensures ExtractDigits([c]) == Success(11 * Text.DigitValue(c))
  {
    assert DigitsOf([c]) == [c] + DigitsOf([]);
  }

  /**
   * After `replaceWords` a line with any match gives a calibration value between 11 and
   * 99 whose last digit is not 0, because no key stands for 0 (`DigitWordsNonZero`).
   */
  lemma CalibrationRange(line: string, keys: seq<(string, char)>)
    requires KeysNonZero(keys) && Spelled(line, keys) != ""
    ensures var r := ExtractDigits(Spelled(line, keys)); r.Success? && 11 <= r.value <= 99 && r.value % 10 != 0
  {
    var s := Spelled(line, keys);
    assert Text.IsDigit(s[0]);
    NonZeroDigitsOf(s);
  }

  lemma {:induction false} NonZeroDigitsOf(s: string)
    requires forall i :: 0 <= i < |s| ==> NonZeroDigit(s[i])
    ensures DigitsOf(s) == s
    decreases |s|
  {
    if s != [] {
      NonZeroDigitsOf(s[1..]);
      assert s == [s[0]] + s[1..];
    }
  }
}
