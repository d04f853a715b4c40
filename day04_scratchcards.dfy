/**
 * Scratchcards of 2023/day4/score.py (points per card, numbers kept as strings) and
 * 2023/day4/score-part2.py (numbers as integers, and the copies each card wins).
 */
module Scratchcards {
  import opened Wrappers
  import Text

  datatype Card<T> = Card(number: int, winning: set<T>, have: set<T>)

  /** `len(winning & have)`. */
  function Overlap<T>(card: Card<T>): nat {
    |card.winning * card.have|
  }

  function Pow2(n: nat): (r: nat)
    ensures r >= 1
  {
    if n == 0 then 1 else 2 * Pow2(n - 1)
  }

  /** `0 if overlap == 0 else 2 ** (overlap - 1)`. */
  function Score(overlap: nat): nat {
    if overlap == 0 then 0 else Pow2(overlap - 1)
  }

  /** A card scores 0 exactly when nothing matches; one match scores 1 and each further match doubles the score. */
  lemma ScoreDoubles(overlap: nat)
    ensures Score(overlap) == 0 <==> overlap == 0
    ensures Score(1) == 1
    ensures overlap >= 1 ==> Score(overlap + 1) == 2 * Score(overlap)
  {
  }

  /** The score is always 0 or a power of two. */
  lemma ScorePowerOfTwo(overlap: nat)
    ensures Score(overlap) == 0 || exists k: nat :: k < overlap && Score(overlap) == Pow2(k)
  {
    if overlap > 0 {
      assert Score(overlap) == Pow2(overlap - 1);
    }
  }

  lemma {:induction false} SubsetSize<T>(a: set<T>, b: set<T>)
    requires a <= b
    ensures |a| <= |b|
    decreases |a|
  {
    if a != {} {
      var x :| x in a;
      SubsetSize(a - {x}, b - {x});
    }
  }

  /** No more numbers match than either side holds. */
  lemma OverlapBound<T>(card: Card<T>)
    ensures Overlap(card) <= |card.winning| && Overlap(card) <= |card.have|
  {
    SubsetSize(card.winning * card.have, card.winning);
    SubsetSize(card.winning * card.have, card.have);
  }

  /** score.py compares the numbers as strings: "01" does not match "1". */
  lemma StringsNotNumbers()
    ensures Overlap(Card(1, {"01"}, {"1"})) == 0
  {
    assert "01" != "1" by {
      assert |"01"| != |"1"|;
    }
    assert {"01"} * {"1"} == {};
  }

  function SetOf<T(!new)>(xs: seq<T>): (r: set<T>)
    ensures forall x :: x in r <==> x in xs
  {
    set x | x in xs
  }

  /**
   * The pieces of `Card.parse`: the card number is the second word before `:`, the
   * winning and held numbers the words before and after `|`. A missing `:` or `|` or a
   * missing number is an IndexError, a number that is not an integer a ValueError.
   */
  function CardPieces(line: string): (r: Result<(int, seq<string>, seq<string>)>)
  {
    var pieces := Text.Split(line, ':');
    var head := Text.Words(pieces[0]);
    if |head| < 2 then Failure("list index out of range")
    else match Text.ParseInt(head[1])
      case None => Failure("invalid literal for int()")
      case Some(number) =>
        if |pieces| < 2 then Failure("list index out of range")
        else
          var sides := Text.Split(pieces[1], '|');
          if |sides| < 2 then Failure("list index out of range")
          else Success((number, Text.Words(sides[0]), Text.Words(sides[1])))
  }

  /** score.py's `Card.parse`: numbers kept as the words themselves. */
  function ParseCard(line: string): (r: Result<Card<string>>)
    ensures r.Success? <==> CardPieces(line).Success?
    ensures r.Success? ==> var (n, w, h) := CardPieces(line).value;
      r.value.number == n && (forall x :: x in r.value.winning <==> x in w) && (forall x :: x in r.value.have <==> x in h)
  {
    var (number, winning, have) :- CardPieces(line);
    Success(Card(number, SetOf(winning), SetOf(have)))
  }

  /** score-part2.py's `Card.parse`: every number must also read as an integer. */
  function ParseCardNumbers(line: string): (r: Result<Card<int>>)
    ensures r.Success? ==> CardPieces(line).Success?
    ensures CardPieces(line).Success? ==> var (n, w, h) := CardPieces(line).value;
      r.Success? <==> Text.ParseInts(w).Some? && Text.ParseInts(h).Some?
  {
    var (number, winning, have) :- CardPieces(line);
    match (Text.ParseInts(winning), Text.ParseInts(have))
    case (Some(w), Some(h)) => Success(Card(number, SetOf(w), SetOf(h)))
    case _ => Failure("invalid literal for int()")
  }

  // ---- copies won (score-part2.py) ----

  /** The copies of card `j` among the first `n` cards whose winnings reach card `k`. */
  function Gained(overlaps: seq<nat>, counts: seq<nat>, k: nat, n: nat): nat
    requires n <= |overlaps| && n <= |counts|
    decreases n
  {
    if n == 0 then 0
    else Gained(overlaps, counts, k, n - 1) + if n - 1 + overlaps[n - 1] >= k then counts[n - 1] else 0
  }

  /**
   * The copy counts of the first `n` cards in card-number order: one original, plus the
   * copies of every earlier card `j` whose `overlap` reaches it (`j + overlap >= k`).
   */
  function CountsUpTo(overlaps: seq<nat>, n: nat): (r: seq<nat>)
    requires n <= |overlaps|
    ensures |r| == n
    decreases n
  {
    if n == 0 then []
    else
      var c := CountsUpTo(overlaps, n - 1);
      c + [1 + Gained(overlaps, c, n - 1, n - 1)]
  }

  function Counts(overlaps: seq<nat>): (r: seq<nat>)
    ensures |r| == |overlaps|
  {
    CountsUpTo(overlaps, |overlaps|)
  }

  /** Every card holds at least its original copy. */
  lemma AtLeastOne(overlaps: seq<nat>, k: nat)
    requires k < |overlaps|
    ensures Counts(overlaps)[k] >= 1
  {
    CountsPrefix(overlaps, k + 1, |overlaps|);
  }

  /** Counting more cards does not change the counts of the earlier ones. */
  lemma {:induction false} CountsPrefix(overlaps: seq<nat>, m: nat, n: nat)
    requires m <= n <= |overlaps|
    ensures CountsUpTo(overlaps, n)[..m] == CountsUpTo(overlaps, m)
    decreases n
  {
    if m < n {
      CountsPrefix(overlaps, m, n - 1);
      var c := CountsUpTo(overlaps, n - 1);
      assert (c + [1 + Gained(overlaps, c, n - 1, n - 1)])[..m] == c[..m];
    }
  }

  function Repeat(m: nat, v: int): (r: seq<int>)
    ensures |r| == m
  {
    seq(m, _ => v)
  }

  /** The entries card `j` left in `acc` for card `k`: how many more cards it reaches, `counts[j]` times. */
  function Block(overlaps: seq<nat>, counts: seq<nat>, k: nat, j: nat): seq<int>
    requires j < |overlaps| && j < |counts|
  {
    var left := overlaps[j] + j + 1 - k;
    if left > 0 then Repeat(counts[j], left) else []
  }

  /**
   * `acc` at the start of card `k`: for each earlier card `j`, in order, `counts[j]`
   * entries holding how many more cards it still reaches, if any.
   */
  function Pending(overlaps: seq<nat>, counts: seq<nat>, k: nat, n: nat): seq<int>
    requires n <= |overlaps| && n <= |counts|
    decreases n
  {
    if n == 0 then [] else Pending(overlaps, counts, k, n - 1) + Block(overlaps, counts, k, n - 1)
  }

  predicate AllPositive(a: seq<int>) {
    forall i :: 0 <= i < |a| ==> a[i] > 0
  }

  function DecOne(x: int): int {
    if x > 0 then x - 1 else x
  }

  /** The first loop's effect on `acc`: every positive entry one less. */
  function Dec(a: seq<int>): (r: seq<int>)
    ensures |r| == |a|
  {
    seq(|a|, j requires 0 <= j < |a| => DecOne(a[j]))
  }

  /** The number of positive entries: the copies the first loop adds. */
  function PositiveCount(a: seq<int>): nat
    decreases |a|
  {
    if a == [] then 0 else PositiveCount(a[..|a| - 1]) + if a[|a| - 1] > 0 then 1 else 0
  }

  /** `[x for x in acc if x > 0]`. */
  function Positive(a: seq<int>): seq<int>
    decreases |a|
  {
    if a == [] then [] else Positive(a[..|a| - 1]) + if a[|a| - 1] > 0 then [a[|a| - 1]] else []
  }

  lemma PendingPositive(overlaps: seq<nat>, counts: seq<nat>, k: nat, n: nat)
    requires n <= |overlaps| && n <= |counts|
    ensures AllPositive(Pending(overlaps, counts, k, n))
    ensures |Pending(overlaps, counts, k, n)| == Gained(overlaps, counts, k, n)
    decreases n
  {
    if n > 0 {
      PendingPositive(overlaps, counts, k, n - 1);
      var j := n - 1;
      var left := overlaps[j] + j + 1 - k;
    }
  }

  lemma {:induction false} CountAllPositive(a: seq<int>)
    requires AllPositive(a)
    ensures PositiveCount(a) == |a|
    decreases |a|
  {
    if a != [] {
      CountAllPositive(a[..|a| - 1]);
    }
  }

  /** Filtering acts entry by entry, so it splits over a concatenation. */
  lemma {:induction false} PositiveAppend(a: seq<int>, b: seq<int>)
    ensures Positive(a + b) == Positive(a) + Positive(b)
    decreases |b|
  {
    if b != [] {
      var b' := b[..|b| - 1];
      assert (a + b)[..|a + b| - 1] == a + b' && (a + b)[|a + b| - 1] == b[|b| - 1];
      PositiveAppend(a, b');
    } else {
      assert a + b == a;
    }
  }

  /** A block of positive entries survives the filter whole; a block of zeros vanishes. */
  lemma {:induction false} PositiveRepeat(m: nat, v: int)
    requires v >= 0
    ensures Positive(Repeat(m, v)) == if v > 0 then Repeat(m, v) else []
    decreases m
  {
    if m > 0 {
      assert Repeat(m, v)[..m - 1] == Repeat(m - 1, v);
      PositiveRepeat(m - 1, v);
      if v > 0 {
        assert Repeat(m - 1, v) + [v] == Repeat(m, v);
      }
    }
  }

  /** A block of `m` entries `v > 0`, decremented and filtered, is a block of `v - 1` or nothing. */
  lemma RepeatStep(m: nat, v: int)
    requires v > 0
    ensures Positive(Dec(Repeat(m, v))) == if v > 1 then Repeat(m, v - 1) else []
  {
    assert Dec(Repeat(m, v)) == Repeat(m, v - 1);
    PositiveRepeat(m, v - 1);
  }

  lemma BlockStep(overlaps: seq<nat>, counts: seq<nat>, k: nat, j: nat)
    requires j < |overlaps| && j < |counts|
    ensures Positive(Dec(Block(overlaps, counts, k, j))) == Block(overlaps, counts, k + 1, j)
  {
    var left := overlaps[j] + j + 1 - k;
    if left > 0 {
      RepeatStep(counts[j], left);
    }
  }

  /** Decrementing and filtering the pending entries of card `k` gives those of card `k + 1`. */
  lemma {:induction false} PendingStep(overlaps: seq<nat>, counts: seq<nat>, k: nat, n: nat)
    requires n <= |overlaps| && n <= |counts|
    ensures Positive(Dec(Pending(overlaps, counts, k, n))) == Pending(overlaps, counts, k + 1, n)
    decreases n
  {
    if n > 0 {
      PendingStep(overlaps, counts, k, n - 1);
      BlockStep(overlaps, counts, k, n - 1);
      AdvanceAppend(Pending(overlaps, counts, k, n - 1), Block(overlaps, counts, k, n - 1),
        Pending(overlaps, counts, k + 1, n - 1), Block(overlaps, counts, k + 1, n - 1));
    }
  }

  /** Decrementing and filtering two runs of entries one after the other. */
  lemma AdvanceAppend(before: seq<int>, block: seq<int>, before': seq<int>, block': seq<int>)
    requires Positive(Dec(before)) == before' && Positive(Dec(block)) == block'
    ensures Positive(Dec(before + block)) == before' + block'
  {
    assert Dec(before + block) == Dec(before) + Dec(block);
    PositiveAppend(Dec(before), Dec(block));
  }

  /** The pending entries depend only on the counts of the cards they come from. */
  lemma {:induction false} PendingPrefix(overlaps: seq<nat>, counts: seq<nat>, more: seq<nat>, k: nat, n: nat)
    requires n <= |overlaps| && n <= |counts| <= |more| && counts == more[..|counts|]
    ensures Pending(overlaps, counts, k, n) == Pending(overlaps, more, k, n)
    ensures Gained(overlaps, counts, k, n) == Gained(overlaps, more, k, n)
    decreases n
  {
    if n > 0 {
      PendingPrefix(overlaps, counts, more, k, n - 1);
      assert counts[n - 1] == more[n - 1];
    }
  }

  /** The first loop of a card: each positive pending entry is decremented and adds one copy. */
  method Decrement(acc0: seq<int>) returns (acc: seq<int>, gained: nat)
    ensures acc == Dec(acc0) && gained == PositiveCount(acc0)
  {
    acc := acc0;
    gained := 0;
    for i := 0 to |acc|
      invariant |acc| == |acc0|
      invariant forall j :: 0 <= j < i ==> acc[j] == DecOne(acc0[j])
      invariant forall j :: i <= j < |acc| ==> acc[j] == acc0[j]
      invariant gained == PositiveCount(acc0[..i])
    {
      assert acc0[..i + 1][..i] == acc0[..i];
      if acc[i] > 0 {
        acc := acc[i := acc[i] - 1];
        gained := gained + 1;
      }
    }
    assert acc0[..|acc0|] == acc0;
  }

  /** The filtering comprehension. */
  method KeepPositive(acc0: seq<int>) returns (acc: seq<int>)
    ensures acc == Positive(acc0)
  {
    acc := [];
    for i := 0 to |acc0|
      invariant acc == Positive(acc0[..i])
    {
      assert acc0[..i + 1][..i] == acc0[..i];
      if acc0[i] > 0 {
        acc := acc + [acc0[i]];
      }
    }
    assert acc0[..|acc0|] == acc0;
  }

  /** The appending loop: `m` more entries `v`. */
  method PushCopies(acc0: seq<int>, m: nat, v: int) returns (acc: seq<int>)
    ensures acc == acc0 + Repeat(m, v)
  {
    acc := acc0;
    for i := 0 to m
      invariant acc == acc0 + Repeat(i, v)
    {
      assert Repeat(i + 1, v) == Repeat(i, v) + [v];
      acc := acc + [v];
    }
  }

  /**
   * The copy propagation of score-part2.py over the cards' overlaps in card-number order:
   * `counts` starts at 1 per card and `acc` holds the pending wins of earlier cards.
   */
  method CopyCounts(overlaps: seq<nat>) returns (counts: seq<nat>)
    ensures counts == Counts(overlaps)
  {
    counts := seq(|overlaps|, _ => 1);
    var acc: seq<int> := [];
    for k := 0 to |overlaps|
      invariant |counts| == |overlaps|
      invariant counts[..k] == CountsUpTo(overlaps, k)
      invariant forall j :: k <= j < |overlaps| ==> counts[j] == 1
      invariant acc == Pending(overlaps, counts[..k], k, k)
    {
      ghost var c := counts[..k];
      PendingPositive(overlaps, c, k, k);
      CountAllPositive(acc);
      PendingStep(overlaps, c, k, k);
      var gained;
      acc, gained := Decrement(acc);
      counts := counts[k := counts[k] + gained];
      acc := KeepPositive(acc);
      if overlaps[k] > 0 {
        acc := PushCopies(acc, counts[k], overlaps[k]);
      }
      CountsStep(overlaps, counts, k);
    }
    assert counts[..|overlaps|] == counts;
  }

  /** The bookkeeping of one card: its count is final and `acc` holds the pending wins of the next. */
  lemma CountsStep(overlaps: seq<nat>, counts: seq<nat>, k: nat)
    requires k < |overlaps| == |counts|
    requires counts[..k] == CountsUpTo(overlaps, k)
    requires counts[k] == 1 + Gained(overlaps, counts[..k], k, k)
    ensures counts[..k + 1] == CountsUpTo(overlaps, k + 1)
    ensures var c := counts[..k]; var c' := counts[..k + 1];
      Pending(overlaps, c', k + 1, k + 1)
        == Pending(overlaps, c, k + 1, k) + if overlaps[k] > 0 then Repeat(counts[k], overlaps[k]) else []
  {
    var c := counts[..k];
    var c' := counts[..k + 1];
    assert c'[..k] == c;
    PendingPrefix(overlaps, c, c', k + 1, k);
  }
}
