/**
 * The instruction scanner of 2024/day03/run.py. The pattern finds, left to right and
 * without overlap, `mul(a,b)` with one to three digits per operand, `do()` and
 * `don't()`; each enabled `mul` adds `a*b` to the total, and with `--part2` the other two
 * switch the enabling on and off. The enabling carries over from one line to the next.
 */
module MulScanner {
  import opened Wrappers
  import Text

  datatype Token = Mul(a: nat, b: nat) | Do | Dont

  predicate StartsWith(s: string, p: string) {
    |p| <= |s| && s[..|p|] == p
  }

  /**
   * `(\d{1,3})` followed by `close`: the operand and the characters it takes with its
   * delimiter. A longer digit run cannot match, since its fourth digit is not `close`.
   */
  function Operand(s: string, close: char): (r: Option<(nat, nat)>)
    ensures r.Some? ==> 2 <= r.value.1 <= 4 && r.value.1 <= |s| && r.value.0 < 1000
    ensures r.Some? <==> var n := Text.DigitRun(s); 1 <= n <= 3 && n < |s| && s[n] == close
  {
    var n := Text.DigitRun(s);
    if 1 <= n <= 3 && n < |s| && s[n] == close then
      var digits := s[..n];
      Text.NatOfBound(digits);
      assert Text.Pow10(n) <= 1000;
      Some((Text.NatOf(digits), n + 1))
    else None
  }

  /** The `mul(a,b)` alternative at the start of `s`, with its length. */
  function MulAt(s: string): (r: Option<(Token, nat)>)
    ensures r.Some? ==> r.value.0.Mul? && 8 <= r.value.1 <= |s| && StartsWith(s, "mul(")
    ensures r.Some? ==> r.value.0.a < 1000 && r.value.0.b < 1000
  {
    if !StartsWith(s, "mul(") then None
    else match Operand(s[4..], ',')
      case None => None
      case Some((a, n)) =>
        match Operand(s[4 + n..], ')')
        case None => None
        case Some((b, m)) => Some((Mul(a, b), 4 + n + m))
  }

  /** What the pattern matches at the start of `s`, trying its alternatives in order. */
  function TokenAt(s: string): (r: Option<(Token, nat)>)
    ensures r.Some? ==> 1 <= r.value.1 <= |s|
    ensures r.Some? && r.value.0.Mul? ==> r.value.0.a < 1000 && r.value.0.b < 1000
    ensures r == Some((Do, 4)) <==> StartsWith(s, "do()")
    ensures r == Some((Dont, 7)) <==> StartsWith(s, "don't()")
  {
    Exclusive(s);
    if MulAt(s).Some? then MulAt(s)
    else if StartsWith(s, "do()") then Some((Do, 4))
    else if StartsWith(s, "don't()") then Some((Dont, 7))
    else None
  }

  /** No two of `mul(`, `do()` and `don't()` start the same text. */
  lemma Exclusive(s: string)
    ensures !(StartsWith(s, "mul(") && StartsWith(s, "do()"))
    ensures !(StartsWith(s, "mul(") && StartsWith(s, "don't()"))
    ensures !(StartsWith(s, "do()") && StartsWith(s, "don't()"))
  {
    if StartsWith(s, "mul(") {
      assert s[..4][0] == s[0];
    }
    if StartsWith(s, "do()") {
      assert s[..4][2] == s[2];
    }
    if StartsWith(s, "don't()") {
      assert s[..7][2] == s[2];
    }
  }

  /** `pattern.finditer(line)`: the matches left to right, each search resuming after the last match. */
  function Tokens(s: string): (r: seq<Token>)
    ensures forall i :: 0 <= i < |r| && r[i].Mul? ==> r[i].a < 1000 && r[i].b < 1000
    decreases |s|
  {
    if s == [] then []
    else match TokenAt(s)
      case Some((t, n)) => [t] + Tokens(s[n..])
      case None => Tokens(s[1..])
  }

  /** `do()` and `don't()` are one match each. */
  lemma SwitchTokens()
    ensures Tokens("do()") == [Do]
    ensures Tokens("don't()") == [Dont]
  {
    assert "do()"[4..] == [];
    assert "don't()"[7..] == [];
  }

  /** `mul(a,b)` with one-digit operands is one match. */
  lemma MulToken(a: nat, b: nat)
    requires a < 10 && b < 10
    ensures Tokens("mul(" + Text.Digits(a) + "," + Text.Digits(b) + ")") == [Mul(a, b)]
  {
    var s := "mul(" + Text.Digits(a) + "," + Text.Digits(b) + ")";
    var da := Text.Digits(a);
    var db := Text.Digits(b);
    assert |da| == 1 && |db| == 1;
    assert s == "mul(" + [da[0], ','] + [db[0], ')'];
    var first := s[4..];
    assert first == [da[0], ',', db[0], ')'];
    assert Text.DigitRun(first) == 1 by {
      assert Text.DigitRun(first[1..]) == 0;
    }
    var second := s[6..];
    assert second == [db[0], ')'];
    assert Text.DigitRun(second) == 1 by {
      assert Text.DigitRun(second[1..]) == 0;
    }
    assert first[..1] == da && second[..1] == db;
    Text.NatOfDigits(a);
    Text.NatOfDigits(b);
    assert MulAt(s) == Some((Mul(a, b), 8));
    assert s[8..] == [];
  }

  /** The scanner's state: `enabled` and `total`. */
  datatype Scanner = Scanner(enabled: bool, total: int)

  const Start := Scanner(true, 0)

  /** One match of the loop body. */
  function Apply(st: Scanner, t: Token, part2: bool): Scanner {
    match t
    case Mul(a, b) => if st.enabled then st.(total := st.total + a * b) else st
    case Do => if part2 then st.(enabled := true) else st
    case Dont => if part2 then st.(enabled := false) else st
  }

  function Run(st: Scanner, ts: seq<Token>, part2: bool): Scanner
    decreases |ts|
  {
    if ts == [] then st else Apply(Run(st, ts[..|ts| - 1], part2), ts[|ts| - 1], part2)
  }

  /** Running two stretches of matches one after the other, as the lines of the input are. */
  lemma {:induction false} RunAppend(st: Scanner, ts: seq<Token>, us: seq<Token>, part2: bool)
    ensures Run(st, ts + us, part2) == Run(Run(st, ts, part2), us, part2)
    decreases |us|
  {
    if us == [] {
      assert ts + us == ts;
    } else {
      assert (ts + us)[..|ts + us| - 1] == ts + us[..|us| - 1];
      RunAppend(st, ts, us[..|us| - 1], part2);
    }
  }

  /** The matches of all lines in order. */
  function AllTokens(lines: seq<string>): seq<Token>
    decreases |lines|
  {
    if lines == [] then [] else AllTokens(lines[..|lines| - 1]) + Tokens(lines[|lines| - 1])
  }

  /** The script: `enabled` and `total` start once and run over every match of every line. */
  method Scan(lines: seq<string>, part2: bool) returns (total: int)
    ensures total == Run(Start, AllTokens(lines), part2).total
  {
    total := 0;
    var enabled := true;
    for k := 0 to |lines|
      invariant Scanner(enabled, total) == Run(Start, AllTokens(lines[..k]), part2)
    {
      ghost var before := AllTokens(lines[..k]);
      var matches := Tokens(lines[k]);
      assert before + matches[..0] == before;
      for i := 0 to |matches|
        invariant Scanner(enabled, total) == Run(Start, before + matches[..i], part2)
      {
        RunStep(before, matches, i, part2);
        match matches[i] {
          case Mul(a, b) =>
            if enabled {
              total := total + a * b;
            }
          case Do =>
            if part2 {
              enabled := true;
            }
          case Dont =>
            if part2 {
              enabled := false;
            }
        }
      }
      LineStep(lines, k);
    }
    assert lines[..|lines|] == lines;
  }

  /** One more match of the current line. */
  lemma RunStep(before: seq<Token>, matches: seq<Token>, i: nat, part2: bool)
    requires i < |matches|
    ensures Run(Start, before + matches[..i + 1], part2) == Apply(Run(Start, before + matches[..i], part2), matches[i], part2)
  {
    assert (before + matches[..i + 1])[..|before| + i] == before + matches[..i];
  }

  /** One more line: its matches follow those of the lines before. */
  lemma LineStep(lines: seq<string>, k: nat)
    requires k < |lines|
    ensures AllTokens(lines[..k + 1]) == AllTokens(lines[..k]) + Tokens(lines[k])[..|Tokens(lines[k])|]
  {
    assert lines[..k + 1][..k] == lines[..k];
    var m := Tokens(lines[k]);
    assert m[..|m|] == m;
  }

  /** The sum of `a*b` over every `mul` among the first `n` matches. */
  function MulSum(ts: seq<Token>, n: nat): int
    requires n <= |ts|
    decreases n
  {
    if n == 0 then 0 else MulSum(ts, n - 1) + match ts[n - 1] case Mul(a, b) => a * b case _ => 0
  }

  /** Without `--part2` the enabling never changes, so every `mul` counts. */
  lemma {:induction false} Part1CountsAll(ts: seq<Token>, n: nat)
    requires n <= |ts|
    ensures Run(Start, ts[..n], false) == Scanner(true, MulSum(ts, n))
    decreases n
  {
    if n > 0 {
      assert ts[..n][..n - 1] == ts[..n - 1];
      Part1CountsAll(ts, n - 1);
    }
  }

  /**
   * Match `i` is enabled when no `don't()` comes before it, or a `do()` does with no
   * `don't()` between them: the last switch before it, if any, is `do()`.
   */
  ghost predicate EnabledAt(ts: seq<Token>, i: nat)
    requires i <= |ts|
  {
    (forall j :: 0 <= j < i ==> ts[j] != Dont) ||
    (exists j :: 0 <= j < i && ts[j] == Do && forall m :: j < m < i ==> ts[m] != Dont)
  }

  /** The sum of `a*b` over the enabled `mul`s among the first `n` matches. */
  ghost function EnabledSum(ts: seq<Token>, n: nat): int
    requires n <= |ts|
    decreases n
  {
    if n == 0 then 0
    else EnabledSum(ts, n - 1) + if ts[n - 1].Mul? && EnabledAt(ts, n - 1) then ts[n - 1].a * ts[n - 1].b else 0
  }

  /** After a match, the enabling is as the last switch so far says. */
  lemma EnabledStep(ts: seq<Token>, i: nat)
    requires i < |ts|
    ensures ts[i] == Do ==> EnabledAt(ts, i + 1)
    ensures ts[i] == Dont ==> !EnabledAt(ts, i + 1)
    ensures ts[i].Mul? ==> (EnabledAt(ts, i + 1) <==> EnabledAt(ts, i))
  {
    if ts[i] == Dont {
      forall j | 0 <= j < i + 1 && ts[j] == Do
        ensures !(forall m :: j < m < i + 1 ==> ts[m] != Dont)
      {
        assert j < i && ts[i] == Dont;
      }
    }
    if ts[i].Mul? {
      if EnabledAt(ts, i + 1) && exists j :: 0 <= j < i + 1 && ts[j] == Do && forall m :: j < m < i + 1 ==> ts[m] != Dont {
        var j :| 0 <= j < i + 1 && ts[j] == Do && forall m :: j < m < i + 1 ==> ts[m] != Dont;
        assert j < i;
      }
      if EnabledAt(ts, i) && exists j :: 0 <= j < i && ts[j] == Do && forall m :: j < m < i ==> ts[m] != Dont {
        var j :| 0 <= j < i && ts[j] == Do && forall m :: j < m < i ==> ts[m] != Dont;
        assert forall m :: j < m < i + 1 ==> ts[m] != Dont;
      }
    }
  }

  /** With `--part2` the total is the sum over the `mul`s whose last preceding switch is not `don't()`. */
  lemma {:induction false} Part2CountsEnabled(ts: seq<Token>, n: nat)
    requires n <= |ts|
    ensures Run(Start, ts[..n], true) == Scanner(EnabledAt(ts, n), EnabledSum(ts, n))
    decreases n
  {
    if n > 0 {
      assert ts[..n][..n - 1] == ts[..n - 1];
      Part2CountsEnabled(ts, n - 1);
      EnabledStep(ts, n - 1);
    }
  }
}
