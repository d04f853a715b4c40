/**
 * The string operations several solutions share: `str.split` on one separator
 * character and `int` on a decimal string.
 */
module Text {
  import opened Wrappers

  /** `s.split(sep)`: the pieces between separators, an empty piece where two meet or at an end. */
  function Split(s: string, sep: char): (r: seq<string>)
    ensures |r| >= 1
    decreases |s|
  {
    if |s| == 0 then [""]
    else
      var rest := Split(s[1..], sep);
      if s[0] == sep then [""] + rest
      else [[s[0]] + rest[0]] + rest[1..]
  }

  /** `sep.join(parts)`. */
  function Join(parts: seq<string>, sep: char): string
    requires |parts| >= 1
    decreases |parts|
  {
    if |parts| == 1 then parts[0] else parts[0] + [sep] + Join(parts[1..], sep)
  }

  /** Splitting loses nothing: joining the pieces with the separator gives the string back. */
  lemma {:induction false} JoinSplit(s: string, sep: char)
    ensures Join(Split(s, sep), sep) == s
    decreases |s|
  {
    if |s| > 0 {
      var rest := Split(s[1..], sep);
      JoinSplit(s[1..], sep);
      if s[0] == sep {
        assert Split(s, sep) == [""] + rest;
        assert ([""] + rest)[1..] == rest;
      } else {
        var parts := [[s[0]] + rest[0]] + rest[1..];
        assert Split(s, sep) == parts;
        if |rest| == 1 {
          assert s == [s[0]] + s[1..];
        } else {
          assert parts[1..] == rest[1..];
          assert Join(rest, sep) == rest[0] + [sep] + Join(rest[1..], sep);
          assert s == [s[0]] + s[1..];
        }
      }
    }
  }

  predicate IsDigit(c: char) { '0' <= c <= '9' }

  predicate AllDigits(s: string) { forall i :: 0 <= i < |s| ==> IsDigit(s[i]) }

  function DigitValue(c: char): (r: nat)
    requires IsDigit(c)
    ensures r < 10
  {
    (c as int) - ('0' as int)
  }

  /** The value of a string of decimal digits, most significant first. */
  function NatOf(s: string): (r: nat)
    requires AllDigits(s)
    decreases |s|
  {
    if s == [] then 0 else 10 * NatOf(s[..|s| - 1]) + DigitValue(s[|s| - 1])
  }

  function Pow10(n: nat): (r: nat)
    ensures r >= 1
  {
    if n == 0 then 1 else 10 * Pow10(n - 1)
  }

  /** A string of `k` digits stands for a number below `10^k`. */
  lemma {:induction false} NatOfBound(s: string)
    requires AllDigits(s)
    ensures NatOf(s) < Pow10(|s|)
    decreases |s|
  {
    if s != [] {
      NatOfBound(s[..|s| - 1]);
    }
  }

  /** The length of the run of digits `s` starts with. */
  function DigitRun(s: string): (r: nat)
    ensures r <= |s| && (forall i :: 0 <= i < r ==> IsDigit(s[i])) && (r < |s| ==> !IsDigit(s[r]))
    decreases |s|
  {
    if s != [] && IsDigit(s[0]) then 1 + DigitRun(s[1..]) else 0
  }

  /** The decimal digits of `n`, most significant first, with no leading zero. */
  function Digits(n: nat): (r: string)
    ensures AllDigits(r) && |r| >= 1
    decreases n
  {
    if n < 10 then [('0' as int + n) as char] else Digits(n / 10) + [('0' as int + n % 10) as char]
  }

  /** Reading back the digits written for `n` gives `n`. */
  lemma {:induction false} NatOfDigits(n: nat)
    ensures NatOf(Digits(n)) == n
    decreases n
  {
    var d := Digits(n);
    if n >= 10 {
      NatOfDigits(n / 10);
      assert d[..|d| - 1] == Digits(n / 10);
    }
  }

  /**
   * `int(s)` for the forms the puzzle inputs use: an optional sign and at least one
   * decimal digit. Anything else is the ValueError `int` raises.
   */
  function ParseInt(s: string): (r: Option<int>)
    ensures r.Some? <==> (|s| >= 1 && (AllDigits(s) || (s[0] in {'-', '+'} && |s| >= 2 && AllDigits(s[1..]))))
    ensures r.Some? && AllDigits(s) ==> r.value == NatOf(s)
  {
    if |s| >= 1 && AllDigits(s) then Some(NatOf(s))
    else if |s| >= 2 && s[0] == '-' && AllDigits(s[1..]) then Some(-(NatOf(s[1..]) as int))
    else if |s| >= 2 && s[0] == '+' && AllDigits(s[1..]) then Some(NatOf(s[1..]))
    else None
  }

  /** `int` reads back what `str` writes for a natural number, and its negation. */
  lemma ParseIntDigits(n: nat)
    ensures ParseInt(Digits(n)) == Some(n)
    ensures ParseInt(['-'] + Digits(n)) == Some(-(n as int))
  {
    NatOfDigits(n);
    var signed := ['-'] + Digits(n);
    assert signed[1..] == Digits(n);
    assert !IsDigit(signed[0]);
  }

  /** No piece holds the separator. */
  lemma {:induction false} SplitPiece(s: string, sep: char, i: nat)
    requires i < |Split(s, sep)|
    ensures sep !in Split(s, sep)[i]
    decreases |s|
  {
    if |s| > 0 {
      var rest := Split(s[1..], sep);
      if s[0] == sep {
        if i > 0 {
          SplitPiece(s[1..], sep, i - 1);
        }
      } else {
        SplitPiece(s[1..], sep, i);
        if i == 0 {
          assert Split(s, sep)[0] == [s[0]] + rest[0];
        }
      }
    }
  }

  /** The non-empty pieces, in order. */
  function NonEmpty(parts: seq<string>): (r: seq<string>)
    decreases |parts|
  {
    if parts == [] then []
    else if parts[0] == "" then NonEmpty(parts[1..])
    else [parts[0]] + NonEmpty(parts[1..])
  }

  /** The kept pieces are exactly the non-empty ones. */
  lemma {:induction false} NonEmptyPieces(parts: seq<string>)
    ensures var r := NonEmpty(parts); forall i :: 0 <= i < |r| ==> r[i] != "" && r[i] in parts
    ensures var r := NonEmpty(parts); forall i :: 0 <= i < |parts| && parts[i] != "" ==> parts[i] in r
    decreases |parts|
  {
    if parts != [] {
      NonEmptyPieces(parts[1..]);
    }
  }

  /**
   * `s.split()` with no argument, for lines whose only whitespace is the space: the
   * words between runs of spaces, with no empty words.
   */
  function Words(s: string): seq<string> {
    NonEmpty(Split(s, ' '))
  }

  /** The words are non-empty and hold no space. */
  lemma WordsClean(s: string)
    ensures var r := Words(s); forall i :: 0 <= i < |r| ==> r[i] != "" && ' ' !in r[i]
  {
    var r := Words(s);
    var parts := Split(s, ' ');
    NonEmptyPieces(parts);
    forall i | 0 <= i < |r|
      ensures r[i] != "" && ' ' !in r[i]
    {
      var j :| 0 <= j < |parts| && parts[j] == r[i];
      SplitPiece(s, ' ', j);
    }
  }

  /** `[int(p) for p in pieces]`: every piece parsed, or the first failure. */
  function ParseInts(pieces: seq<string>): (r: Option<seq<int>>)
    ensures r.Some? <==> forall i :: 0 <= i < |pieces| ==> ParseInt(pieces[i]).Some?
    ensures r.Some? ==> |r.value| == |pieces| && forall i :: 0 <= i < |pieces| ==> r.value[i] == ParseInt(pieces[i]).value
    decreases |pieces|
  {
    if pieces == [] then Some([])
    else match (ParseInt(pieces[0]), ParseInts(pieces[1..]))
      case (Some(x), Some(xs)) => Some([x] + xs)
      case _ => None
  }

  /** `str(x)` for an integer: its digits, after a minus sign when negative. */
  function IntText(x: int): (r: string)
    ensures |r| >= 1 && ' ' !in r
  {
    if x < 0 then ['-'] + Digits(-x) else Digits(x)
  }

  /** `int(str(x)) == x`. */
  lemma IntTextRoundTrip(x: int)
    ensures ParseInt(IntText(x)) == Some(x)
  {
    if x < 0 {
      ParseIntDigits(-x);
    } else {
      ParseIntDigits(x);
    }
  }

  /** A first piece without the separator splits off whole. */
  lemma {:induction false} SplitFirst(a: string, b: string, sep: char)
    requires sep !in a
    ensures Split(a + [sep] + b, sep) == [a] + Split(b, sep)
    decreases |a|
  {
    var s := a + [sep] + b;
    if a == [] {
      assert s[1..] == b;
    } else {
      SplitFirst(a[1..], b, sep);
      assert s[1..] == a[1..] + [sep] + b;
      assert [a[0]] + a[1..] == a;
    }
  }

  /** Three space-free words joined by single spaces split back into those three words. */
  lemma WordsOfThree(a: string, b: string, c: string)
    requires a != "" && b != "" && c != "" && ' ' !in a && ' ' !in b && ' ' !in c
    ensures Words(a + " " + b + " " + c) == [a, b, c]
  {
    var line := a + " " + b + " " + c;
    var tail := b + [' '] + c;
    SplitAlone(c, ' ');
    SplitFirst(b, c, ' ');
    assert line == a + [' '] + tail;
    SplitFirst(a, tail, ' ');
    AllNonEmpty([a, b, c]);
  }

  /** Two space-free words joined by a single space split back into those two words. */
  lemma WordsOfTwo(a: string, b: string)
    requires a != "" && b != "" && ' ' !in a && ' ' !in b
    ensures Words(a + " " + b) == [a, b]
  {
    SplitAlone(b, ' ');
    assert a + " " + b == a + [' '] + b;
    SplitFirst(a, b, ' ');
    AllNonEmpty([a, b]);
  }

  lemma {:induction false} AllNonEmpty(parts: seq<string>)
    requires forall i :: 0 <= i < |parts| ==> parts[i] != ""
    ensures NonEmpty(parts) == parts
    decreases |parts|
  {
    if parts != [] {
      AllNonEmpty(parts[1..]);
    }
  }

  /** A string without the separator is one piece. */
  lemma {:induction false} SplitAlone(a: string, sep: char)
    requires sep !in a
    ensures Split(a, sep) == [a]
    decreases |a|
  {
    if a != [] {
      SplitAlone(a[1..], sep);
      assert [a[0]] + a[1..] == a;
    }
  }

  /** A separator-free piece list joined and split again gives the pieces back. */
  lemma {:induction false} SplitJoin(parts: seq<string>, sep: char)
    requires |parts| >= 1 && forall i :: 0 <= i < |parts| ==> sep !in parts[i]
    ensures Split(Join(parts, sep), sep) == parts
    decreases |parts|
  {
    if |parts| == 1 {
      SplitAlone(parts[0], sep);
    } else {
      SplitJoin(parts[1..], sep);
      SplitFirst(parts[0], Join(parts[1..], sep), sep);
      assert [parts[0]] + parts[1..] == parts;
    }
  }

  /** A character in none of the pieces, and not the separator, is not in their join. */
  lemma {:induction false} JoinFree(parts: seq<string>, sep: char, c: char)
    requires |parts| >= 1 && c != sep && forall i :: 0 <= i < |parts| ==> c !in parts[i]
    ensures c !in Join(parts, sep)
    decreases |parts|
  {
    if |parts| > 1 {
      JoinFree(parts[1..], sep, c);
    }
  }

  /**
   * The characters `str.strip()` removes: those Python's `str.isspace` accepts (the ASCII
   * tab, line feed, vertical tab, form feed, carriage return, the separators 0x1C-0x1F and
   * the space, and the Unicode spaces and line and paragraph separators).
   */
  predicate IsSpace(c: char) {
    c == ' ' || '\t' <= c <= '\r' || '\U{1C}' <= c <= '\U{1F}' || c == '\U{85}' || c == '\U{A0}' ||
    c == '\U{1680}' || '\U{2000}' <= c <= '\U{200A}' || c == '\U{2028}' || c == '\U{2029}' ||
    c == '\U{202F}' || c == '\U{205F}' || c == '\U{3000}'
  }

  /** `str.lstrip()`: the string without its leading whitespace. */
  function StripStart(s: string): (r: string)
    ensures |r| <= |s| && r == s[|s| - |r|..]
    ensures forall i :: 0 <= i < |s| - |r| ==> IsSpace(s[i])
    ensures r == "" || !IsSpace(r[0])
    decreases |s|
  {
    if s != "" && IsSpace(s[0]) then StripStart(s[1..]) else s
  }

  /** `str.rstrip()`: the string without its trailing whitespace. */
  function StripEnd(s: string): (r: string)
    ensures |r| <= |s| && r == s[..|r|]
    ensures forall i :: |r| <= i < |s| ==> IsSpace(s[i])
    ensures r == "" || !IsSpace(r[|r| - 1])
    decreases |s|
  {
    if s != "" && IsSpace(s[|s| - 1]) then StripEnd(s[..|s| - 1]) else s
  }

  /** `r` stands at index `i` of `s`, with nothing but whitespace before and after it. */
  predicate WhitespaceAround(s: string, r: string, i: int) {
    0 <= i <= |s| - |r| && r == s[i..i + |r|] &&
    (forall k :: 0 <= k < i ==> IsSpace(s[k])) &&
    (forall k :: i + |r| <= k < |s| ==> IsSpace(s[k]))
  }

  /**
   * `str.strip()`: the part of the string left once the whitespace at either end is
   * removed. Everything before and after it is whitespace, and its own ends are not.
   */
  function Strip(s: string): (r: string)
    ensures exists i :: WhitespaceAround(s, r, i)
    ensures r == "" || (!IsSpace(r[0]) && !IsSpace(r[|r| - 1]))
  {
    var t := StripStart(s);
    var r := StripEnd(t);
    assert WhitespaceAround(s, r, |s| - |t|);
    r
  }

  /** Stripping takes characters off the ends only: whatever is left was in the string. */
  lemma StripInside(s: string, c: char)
    requires c !in s
    ensures c !in Strip(s)
  {
    var t := StripStart(s);
    assert forall k :: 0 <= k < |t| ==> t[k] == s[|s| - |t| + k];
    var r := StripEnd(t);
    assert forall k :: 0 <= k < |r| ==> r[k] == t[k];
  }

  /** A string with no whitespace at either end is its own strip. */
  lemma StripClean(s: string)
    requires s == "" || (!IsSpace(s[0]) && !IsSpace(s[|s| - 1]))
    ensures Strip(s) == s
  {
  }

  /** Whitespace at the start of a line is stripped with the rest. */
  lemma StripLeading(c: char, s: string)
    requires IsSpace(c)
    ensures Strip([c] + s) == Strip(s)
  {
    assert ([c] + s)[1..] == s;
  }

  /** Whitespace at the end of a line, such as its line feed, is stripped with the rest. */
  lemma {:induction false} StripTrailing(s: string, c: char)
    requires IsSpace(c)
    ensures Strip(s + [c]) == Strip(s)
    decreases |s|
  {
    if s == "" {
      assert StripStart(s + [c]) == StripStart([c][1..]);
    } else if IsSpace(s[0]) {
      assert (s + [c])[1..] == s[1..] + [c];
      StripTrailing(s[1..], c);
    } else {
      assert StripStart(s + [c]) == s + [c];
      assert (s + [c])[..|s|] == s;
    }
  }
}
