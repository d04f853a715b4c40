/**
 * The two location-ID lists of 2024/day01/run.py: both read column by column, both
 * sorted, then compared pairwise (part 1, total distance) or by occurrence (part 2,
 * similarity score).
 */
module LocationLists {
  import opened Wrappers
  import Text
  import Sorting

  /** `(a, b) = line.split(maxsplit=2)` then `int` of each: exactly two words, both integers. */
  function ParseLine(line: string): (r: Result<(int, int)>)
    ensures var w := Text.Words(line);
      r.Success? <==> |w| == 2 && Text.ParseInt(w[0]).Some? && Text.ParseInt(w[1]).Some?
    ensures r.Success? ==> var w := Text.Words(line);
      Text.ParseInt(w[0]) == Some(r.value.0) && Text.ParseInt(w[1]) == Some(r.value.1)
  {
    var w := Text.Words(line);
    if |w| != 2 then Failure("wrong number of values to unpack")
    else match (Text.ParseInt(w[0]), Text.ParseInt(w[1]))
      case (Some(a), Some(b)) => Success((a, b))
      case _ => Failure("invalid literal for int()")
  }

  /**
   * The reading loop: the left column and the right column, or the error of the first
   * line that does not parse, which is where the loop stops.
   */
  function ParseLines(lines: seq<string>): (r: Result<(seq<int>, seq<int>)>)
    ensures r.Success? <==> forall i :: 0 <= i < |lines| ==> ParseLine(lines[i]).Success?
    ensures r.Success? ==> |r.value.0| == |lines| && |r.value.1| == |lines|
    ensures r.Success? ==> forall i :: 0 <= i < |lines| ==>
      ParseLine(lines[i]).value == (r.value.0[i], r.value.1[i])
    decreases |lines|
  {
    if lines == [] then Success(([], []))
    else
      var (left, right) :- ParseLines(lines[..|lines| - 1]);
      var (a, b) :- ParseLine(lines[|lines| - 1]);
      Success((left + [a], right + [b]))
  }

  /**
   * When lines fail to parse, the error reported is that of the first of them: the
   * reading loop raises there and never reaches the later ones.
   */
  lemma {:induction false} FirstBadLineWins(lines: seq<string>, i: nat)
    requires i < |lines| && ParseLine(lines[i]).Failure?
    requires forall j :: 0 <= j < i ==> ParseLine(lines[j]).Success?
    ensures ParseLines(lines) == Failure(ParseLine(lines[i]).error)
    decreases |lines|
  {
    var init := lines[..|lines| - 1];
    if i < |lines| - 1 {
      assert init[i] == lines[i];
      forall j | 0 <= j < i
        ensures ParseLine(init[j]).Success?
      {
        assert init[j] == lines[j];
      }
      FirstBadLineWins(init, i);
    } else {
      forall j | 0 <= j < |init|
        ensures ParseLine(init[j]).Success?
      {
        assert init[j] == lines[j];
      }
    }
  }

  /** `["1", "a b"]`: the unpacking error of the first line, not the `int()` error of the second. */
  lemma UnpackingErrorFirst()
    ensures ParseLines(["1", "a b"]) == Failure("wrong number of values to unpack")
  {
    Text.SplitAlone("1", ' ');
    Text.AllNonEmpty(["1"]);
    assert Text.Words("1") == ["1"];
    FirstBadLineWins(["1", "a b"], 0);
  }

  function Less(a: int, b: int): bool {
    a < b
  }

  lemma LessIsStrictOrder()
    ensures Sorting.StrictOrder(Less)
  {
  }

  /** `list.sort()` on integers: ascending, and the same values. */
  lemma SortAscending(s: seq<int>)
    ensures var t := Sorting.Sort(s, Less);
      multiset(t) == multiset(s) && forall i, j :: 0 <= i < j < |t| ==> t[i] <= t[j]
  {
    LessIsStrictOrder();
    Sorting.SortSorted(s, Less);
    var t := Sorting.Sort(s, Less);
    forall i, j | 0 <= i < j < |t|
      ensures t[i] <= t[j]
    {
      assert !Less(t[j], t[i]);
    }
  }

  function Abs(x: int): nat {
    if x < 0 then -x else x
  }

  /** The sum of `abs(left[i] - right[i])` over the first `n` pairs. */
  function Distance(left: seq<int>, right: seq<int>, n: nat): nat
    requires n <= |left| && n <= |right|
    decreases n
  {
    if n == 0 then 0 else Distance(left, right, n - 1) + Abs(left[n - 1] - right[n - 1])
  }

  function TotalDistance(left: seq<int>, right: seq<int>): nat
    requires |left| <= |right|
  {
    Distance(left, right, |left|)
  }

  /** `part1`; `right[i]` fails unless the right list is at least as long. */
  method Part1(left: seq<int>, right: seq<int>) returns (totalDist: nat)
    requires |left| <= |right|
    ensures totalDist == TotalDistance(left, right)
  {
    totalDist := 0;
    for i := 0 to |left|
      invariant totalDist == Distance(left, right, i)
    {
      totalDist := totalDist + Abs(left[i] - right[i]);
    }
  }

  /** Swapping the lists does not change the distance. */
  lemma {:induction false} DistanceSymmetric(left: seq<int>, right: seq<int>, n: nat)
    requires n <= |left| && n <= |right|
    ensures Distance(left, right, n) == Distance(right, left, n)
    decreases n
  {
    if n > 0 {
      DistanceSymmetric(left, right, n - 1);
    }
  }

  /** The distance is 0 exactly when the first `n` pairs are equal. */
  lemma {:induction false} DistanceZero(left: seq<int>, right: seq<int>, n: nat)
    requires n <= |left| && n <= |right|
    ensures Distance(left, right, n) == 0 <==> left[..n] == right[..n]
    decreases n
  {
    if n > 0 {
      DistanceZero(left, right, n - 1);
      assert left[..n] == left[..n - 1] + [left[n - 1]];
      assert right[..n] == right[..n - 1] + [right[n - 1]];
      if left[..n] == right[..n] {
        assert left[..n][..n - 1] == left[..n - 1] && right[..n][..n - 1] == right[..n - 1];
        assert left[..n][n - 1] == right[..n][n - 1];
      }
    }
  }

  /** `list.count`. */
  function Count(s: seq<int>, x: int): (r: nat)
    decreases |s|
  {
    if s == [] then 0 else Count(s[..|s| - 1], x) + if s[|s| - 1] == x then 1 else 0
  }

  /** `right.count(x)` is the multiplicity of `x`, whatever the order of `right`. */
  lemma {:induction false} CountMultiplicity(s: seq<int>, x: int)
    ensures Count(s, x) == multiset(s)[x]
    decreases |s|
  {
    if s != [] {
      CountMultiplicity(s[..|s| - 1], x);
      assert s == s[..|s| - 1] + [s[|s| - 1]];
    }
  }

  /** The sum of `left[i] * right.count(left[i])` over the first `n` entries of `left`. */
  function Similarity(left: seq<int>, right: seq<int>, n: nat): int
    requires n <= |left|
    decreases n
  {
    if n == 0 then 0 else Similarity(left, right, n - 1) + left[n - 1] * Count(right, left[n - 1])
  }

  function TotalSimilarity(left: seq<int>, right: seq<int>): int {
    Similarity(left, right, |left|)
  }

  /** `part2`. */
  method Part2(left: seq<int>, right: seq<int>) returns (totalScore: int)
    ensures totalScore == TotalSimilarity(left, right)
  {
    totalScore := 0;
    for i := 0 to |left|
      invariant totalScore == Similarity(left, right, i)
    {
      var occurrences := 0;
      for j := 0 to |right|
        invariant occurrences == Count(right[..j], left[i])
      {
        assert right[..j + 1][..j] == right[..j];
        if right[j] == left[i] {
          occurrences := occurrences + 1;
        }
      }
      assert right[..|right|] == right;
      totalScore := totalScore + left[i] * occurrences;
    }
  }

  /** The score of one value: the value times its occurrences on the right. */
  function Score(right: seq<int>, x: int): int {
    x * Count(right, x)
  }

  /** Removing entry `k` of the left list removes exactly its score from the total. */
  lemma {:induction false} SimilarityRemove(left: seq<int>, right: seq<int>, k: nat)
    requires k < |left|
    ensures TotalSimilarity(left, right)
      == TotalSimilarity(left[..k] + left[k + 1..], right) + Score(right, left[k])
    decreases |left|
  {
    var n := |left|;
    var rest := left[..k] + left[k + 1..];
    if k < n - 1 {
      var shorter := left[..n - 1];
      SimilarityRemove(shorter, right, k);
      assert shorter[..k] + shorter[k + 1..] == rest[..n - 2];
      assert rest[n - 2] == left[n - 1];
      SimilarityPrefix(left, right, n - 1);
      SimilarityPrefix(rest, right, n - 2);
    } else {
      assert rest == left[..n - 1];
      SimilarityPrefix(left, right, n - 1);
    }
  }

  lemma {:induction false} SimilarityPrefix(left: seq<int>, right: seq<int>, n: nat)
    requires n <= |left|
    ensures Similarity(left, right, n) == TotalSimilarity(left[..n], right)
    decreases n
  {
    if n > 0 {
      SimilarityPrefix(left, right, n - 1);
      assert left[..n][..n - 1] == left[..n - 1];
      SimilarityPrefix(left[..n], right, n - 1);
    }
  }

  /** The similarity score depends only on which values the left list holds, not their order. */
  lemma {:induction false} SimilarityPermutation(left: seq<int>, other: seq<int>, right: seq<int>)
    requires multiset(left) == multiset(other)
    ensures TotalSimilarity(left, right) == TotalSimilarity(other, right)
    decreases |left|
  {
    if left != [] {
      var x := left[|left| - 1];
      var init := left[..|left| - 1];
      var k := IndexOf(other, x);
      var rest := other[..k] + other[k + 1..];
      RemoveMatching(left, other, k);
      SimilarityPermutation(init, rest, right);
      SimilarityRemove(other, right, k);
      SimilarityPrefix(left, right, |left| - 1);
    } else {
      assert |other| == |multiset(other)| == 0;
    }
  }

  lemma IndexOf(s: seq<int>, x: int) returns (k: nat)
    requires x in multiset(s)
    ensures k < |s| && s[k] == x
  {
    k :| 0 <= k < |s| && s[k] == x;
  }

  /** Taking the last entry off one list and an equal entry off the other leaves two permutations. */
  lemma RemoveMatching(left: seq<int>, other: seq<int>, k: nat)
    requires multiset(left) == multiset(other) && k < |other| && left != [] && other[k] == left[|left| - 1]
    ensures multiset(left[..|left| - 1]) == multiset(other[..k] + other[k + 1..])
  {
    var x := other[k];
    var rest := other[..k] + other[k + 1..];
    assert other == other[..k] + [x] + other[k + 1..];
    assert multiset(other) == multiset(rest) + multiset{x};
    assert left == left[..|left| - 1] + [x];
    assert multiset(left) == multiset(left[..|left| - 1]) + multiset{x};
    forall y
      ensures multiset(left[..|left| - 1])[y] == multiset(rest)[y]
    {
      assert multiset(left)[y] == multiset(other)[y];
    }
  }

  /**
   * The script: every line read, both columns sorted, then part 1 or part 2. Sorting does
   * not change part 2's answer: it is the similarity of the lists as read.
   */
  method Run(lines: seq<string>, part2: bool) returns (r: Result<int>)
    ensures r.Success? <==> ParseLines(lines).Success?
    ensures r.Failure? ==> r.error == ParseLines(lines).error
    ensures r.Success? && part2 ==> var (left, right) := ParseLines(lines).value;
      r.value == TotalSimilarity(left, right)
    ensures r.Success? && !part2 ==> var (left, right) := ParseLines(lines).value;
      r.value == TotalDistance(Sorting.Sort(left, Less), Sorting.Sort(right, Less))
  {
    var parsed := ParseLines(lines);
    if parsed.Failure? {
      return Failure(parsed.error);
    }
    var (left, right) := parsed.value;
    var sortedLeft := Sorting.Sort(left, Less);
    var sortedRight := Sorting.Sort(right, Less);
    if part2 {
      var score := Part2(sortedLeft, sortedRight);
      SimilarityPermutation(sortedLeft, left, sortedRight);
      RightOrder(left, sortedRight, right);
      r := Success(score);
    } else {
      var dist := Part1(sortedLeft, sortedRight);
      r := Success(dist);
    }
  }

  /** Only the multiplicities of the right list matter. */
  lemma {:induction false} RightOrder(left: seq<int>, right: seq<int>, other: seq<int>)
    requires multiset(right) == multiset(other)
    ensures TotalSimilarity(left, right) == TotalSimilarity(left, other)
  {
    forall x | x in left
      ensures Count(right, x) == Count(other, x)
    {
      CountMultiplicity(right, x);
      CountMultiplicity(other, x);
    }
    SimilaritySameCounts(left, right, other, |left|);
  }

  lemma {:induction false} SimilaritySameCounts(left: seq<int>, right: seq<int>, other: seq<int>, n: nat)
    requires n <= |left| && forall x | x in left :: Count(right, x) == Count(other, x)
    ensures Similarity(left, right, n) == Similarity(left, other, n)
    decreases n
  {
    if n > 0 {
      SimilaritySameCounts(left, right, other, n - 1);
      assert left[n - 1] in left;
    }
  }
}
