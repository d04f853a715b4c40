/**
 * The almanac maps of 2023/day05/sparsemap.py. A map is a list of `(dest, src, len)`
 * triples, kept sorted by `src`. A key inside a triple's source range moves by
 * `dest - src`; any other key maps to itself. The lookup finds the triple by binary search.
 */
module SparseMaps {
  import opened Wrappers
  import Text
  import Sorting

  datatype Triple = Triple(dest: int, src: int, len: int)

  /** `src <= key <= src + len - 1`: the key lies in the triple's source range. */
  predicate Covers(t: Triple, key: int) {
    t.src <= key <= t.src + t.len - 1
  }

  /** Where a covered key goes: `dest + (key - src)`. */
  function Shift(t: Triple, key: int): int {
    t.dest + (key - t.src)
  }

  /** `str(triple)`: the three values separated by single spaces. */
  function Format(t: Triple): string {
    Text.IntText(t.dest) + " " + Text.IntText(t.src) + " " + Text.IntText(t.len)
  }

  /** One line of `parseFrom`: exactly three values, each an integer, or a ValueError. */
  function ParseTriple(line: string): Result<Triple> {
    ParseValues(Text.Words(line))
  }

  /** `values` as a triple: there must be three, and `int` must accept each. */
  function ParseValues(values: seq<string>): Result<Triple> {
    if |values| != 3 then Failure("expected three map values")
    else match (Text.ParseInt(values[0]), Text.ParseInt(values[1]), Text.ParseInt(values[2]))
      case (Some(dest), Some(src), Some(len)) => Success(Triple(dest, src, len))
      case _ => Failure("invalid literal for int()")
  }

  /** A line is a triple exactly when it holds three integers, which become `dest`, `src` and `len` in that order. */
  lemma ParseTripleMeans(line: string)
    ensures var values := Text.Words(line);
      ParseTriple(line).Success? <==>
        (|values| == 3 && Text.ParseInt(values[0]).Some? && Text.ParseInt(values[1]).Some?
         && Text.ParseInt(values[2]).Some?)
    ensures ParseTriple(line).Success? ==> var values := Text.Words(line);
      Text.ParseInt(values[0]) == Some(ParseTriple(line).value.dest)
      && Text.ParseInt(values[1]) == Some(ParseTriple(line).value.src)
      && Text.ParseInt(values[2]) == Some(ParseTriple(line).value.len)
  {
  }

  /** Reading back what `str(triple)` writes gives the triple. */
  lemma FormatRoundTrip(t: Triple)
    ensures ParseTriple(Format(t)) == Success(t)
  {
    Text.WordsOfThree(Text.IntText(t.dest), Text.IntText(t.src), Text.IntText(t.len));
    Text.IntTextRoundTrip(t.dest);
    Text.IntTextRoundTrip(t.src);
    Text.IntTextRoundTrip(t.len);
  }

  /** How many lines `parseFrom` reads as triples: those before the first line with no values. */
  function BlockLength(lines: seq<string>): (n: nat)
    ensures n <= |lines|
    ensures forall i :: 0 <= i < n ==> Text.Words(lines[i]) != []
    ensures n < |lines| ==> Text.Words(lines[n]) == []
    decreases |lines|
  {
    if lines == [] || Text.Words(lines[0]) == [] then 0 else 1 + BlockLength(lines[1..])
  }

  /** The triples of `lines`, in order, or the error of the first line that is not one. */
  function TriplesOf(lines: seq<string>): (r: Result<seq<Triple>>)
    ensures r.Success? <==> forall i :: 0 <= i < |lines| ==> ParseTriple(lines[i]).Success?
    ensures r.Success? ==> |r.value| == |lines|
    ensures r.Success? ==> forall i :: 0 <= i < |lines| ==> ParseTriple(lines[i]) == Success(r.value[i])
    decreases |lines|
  {
    if lines == [] then Success([])
    else
      match (TriplesOf(lines[..|lines| - 1]), ParseTriple(lines[|lines| - 1]))
      case (Success(init), Success(last)) => Success(init + [last])
      case (Failure(e), _) => Failure(e)
      case (_, Failure(e)) => Failure(e)
  }

  /** A map written out one triple per line, then a line with no values, reads back as those triples. */
  lemma FormattedBlock(ts: seq<Triple>, lines: seq<string>)
    requires |lines| > |ts| && Text.Words(lines[|ts|]) == []
    requires forall i :: 0 <= i < |ts| ==> lines[i] == Format(ts[i])
    ensures BlockLength(lines) == |ts| && TriplesOf(lines[..|ts|]) == Success(ts)
  {
    forall i | 0 <= i < |ts|
      ensures ParseTriple(lines[i]) == Success(ts[i]) && Text.Words(lines[i]) != []
    {
      FormatRoundTrip(ts[i]);
    }
    BlockLengthIs(lines, |ts|);
    ParsedBlock(ts, lines[..|ts|]);
  }

  /** Lines that each parse to the matching triple give exactly those triples. */
  lemma {:induction false} ParsedBlock(ts: seq<Triple>, block: seq<string>)
    requires |block| == |ts| && forall i :: 0 <= i < |ts| ==> ParseTriple(block[i]) == Success(ts[i])
    ensures TriplesOf(block) == Success(ts)
    decreases |block|
  {
    var n := |block|;
    if n > 0 {
      ParsedBlock(ts[..n - 1], block[..n - 1]);
      assert ParseTriple(block[n - 1]) == Success(ts[n - 1]);
      assert ts[..n - 1] + [ts[n - 1]] == ts;
    }
  }

  /** Reading one more line appends its triple. */
  lemma TriplesStep(lines: seq<string>, i: nat, triples: seq<Triple>, t: Triple)
    requires var ok := i < |lines| && TriplesOf(lines[..i]) == Success(triples)
      && ParseTriple(lines[i]) == Success(t);
      ok
    ensures TriplesOf(lines[..i + 1]) == Success(triples + [t])
  {
    assert lines[..i + 1][..i] == lines[..i];
  }

  /** A line with values, not past the block, is inside it. */
  lemma InBlock(lines: seq<string>, i: nat)
    requires i <= BlockLength(lines) && i < |lines| && Text.Words(lines[i]) != []
    ensures i < BlockLength(lines)
  {
  }

  /** `[int(value) for value in values]` on three values succeeds exactly when the triple parses, with the same numbers. */
  lemma IntsOfThree(values: seq<string>)
    requires |values| == 3
    ensures Text.ParseInts(values).None? <==> ParseValues(values).Failure?
    ensures Text.ParseInts(values).Some? ==> var v := Text.ParseInts(values).value;
      ParseValues(values) == Success(Triple(v[0], v[1], v[2]))
  {
    var each := Text.ParseInt(values[0]).Some? && Text.ParseInt(values[1]).Some? && Text.ParseInt(values[2]).Some?;
    assert Text.ParseInts(values).Some? ==> each;
    if each {
      forall i | 0 <= i < 3
        ensures Text.ParseInt(values[i]).Some?
      {
        assert i == 0 || i == 1 || i == 2;
      }
    }
  }

  /** A line of the block that is not a triple fails the whole block. */
  lemma TriplesFail(lines: seq<string>, i: nat)
    requires i < BlockLength(lines) && ParseTriple(lines[i]).Failure?
    ensures TriplesOf(lines[..BlockLength(lines)]).Failure?
  {
    assert lines[..BlockLength(lines)][i] == lines[i];
  }

  /** The first line with no values is where the block ends. */
  lemma BlockLengthIs(lines: seq<string>, n: nat)
    requires n <= |lines| && forall i :: 0 <= i < n ==> Text.Words(lines[i]) != []
    requires n < |lines| ==> Text.Words(lines[n]) == []
    ensures BlockLength(lines) == n
  {
  }

  /** `t.src` as the sort key. */
  function SrcLess(a: Triple, b: Triple): bool {
    a.src < b.src
  }

  predicate SortedBySrc(ts: seq<Triple>) {
    forall i, j :: 0 <= i < j < |ts| ==> ts[i].src <= ts[j].src
  }

  lemma SortBySrc(ts: seq<Triple>)
    ensures SortedBySrc(Sorting.Sort(ts, SrcLess))
  {
    assert Sorting.StrictOrder(SrcLess);
    Sorting.SortSorted(ts, SrcLess);
    var r := Sorting.Sort(ts, SrcLess);
    forall i, j | 0 <= i < j < |r|
      ensures r[i].src <= r[j].src
    {
      assert !SrcLess(r[j], r[i]);
    }
  }

  datatype SparseMap = SparseMap(triples: seq<Triple>)

  /** The constructor: the same triples, sorted by `src`. */
  function Make(ts: seq<Triple>): (m: SparseMap)
    ensures multiset(m.triples) == multiset(ts)
    ensures SortedBySrc(m.triples)
  {
    SortBySrc(ts);
    SparseMap(Sorting.Sort(ts, SrcLess))
  }

  /**
   * `parseFrom`: lines of three values up to the first line with none; every one of them
   * must hold exactly three integers.
   */
  method ParseFrom(lines: seq<string>) returns (r: Result<SparseMap>)
    ensures var block := TriplesOf(lines[..BlockLength(lines)]);
      var ok := (r.Success? <==> block.Success?) && (r.Success? ==> r.value == Make(block.value));
      ok
  {
    var triples: seq<Triple> := [];
    var i := 0;
    var values := if i < |lines| then Text.Words(lines[i]) else [];
    while |values| > 0
      invariant i <= BlockLength(lines)
      invariant values == if i < |lines| then Text.Words(lines[i]) else []
      invariant TriplesOf(lines[..i]) == Success(triples)
      decreases |lines| - i
    {
      InBlock(lines, i);
      if |values| != 3 {
        TriplesFail(lines, i);
        return Failure("expected three map values");
      }
      var parsed := Text.ParseInts(values);
      IntsOfThree(values);
      if parsed.None? {
        TriplesFail(lines, i);
        return Failure("invalid literal for int()");
      }
      var t := Triple(parsed.value[0], parsed.value[1], parsed.value[2]);
      TriplesStep(lines, i, triples, t);
      triples := triples + [t];
      i := i + 1;
      values := if i < |lines| then Text.Words(lines[i]) else [];
    }
    return Success(Make(triples));
  }

  /**
   * `triple(key)`: binary search over the triples for one whose source range holds `key`.
   * When the search gives up, no triple holds it, provided the triples are ordered by
   * both their starts and their ends.
   */
  method FindTriple(m: SparseMap, key: int) returns (r: Option<Triple>)
    ensures r.Some? ==> r.value in m.triples && Covers(r.value, key)
    ensures r.None? && Ordered(m.triples) ==> forall i :: 0 <= i < |m.triples| ==> !Covers(m.triples[i], key)
  {
    var ts := m.triples;
    var low := 0;
    var high := |ts| - 1;
    while low <= high
      invariant 0 <= low <= high + 1 <= |ts|
      invariant Ordered(ts) ==> forall i :: 0 <= i < low ==> ts[i].src + ts[i].len - 1 < key
      invariant Ordered(ts) ==> forall i :: high < i < |ts| ==> key < ts[i].src
      decreases high - low
    {
      // Both bounds are non-negative here, so the float division then `int` is the floor.
      var mid := (low + high) / 2;
      var t := ts[mid];
      if t.src + t.len - 1 < key {
        low := mid + 1;
      } else if key < t.src {
        high := mid - 1;
      } else {
        return Some(t);
      }
    }
    return None;
  }

  /** Starts and ends both ascending: what the binary search relies on. */
  predicate Ordered(ts: seq<Triple>) {
    forall i, j :: 0 <= i < j < |ts| ==>
      ts[i].src <= ts[j].src && ts[i].src + ts[i].len <= ts[j].src + ts[j].len
  }

  /** Every range is non-empty and no two distinct triples share a key. */
  predicate NonOverlapping(ts: seq<Triple>) {
    (forall t | t in ts :: t.len > 0) &&
    forall a, b | a in ts && b in ts && a != b :: a.src + a.len <= b.src || b.src + b.len <= a.src
  }

  /** Sorted by start, ranges that do not overlap are also sorted by end. */
  lemma SortedNonOverlappingOrdered(ts: seq<Triple>)
    requires SortedBySrc(ts) && NonOverlapping(ts)
    ensures Ordered(ts)
  {
    forall i, j | 0 <= i < j < |ts|
      ensures ts[i].src + ts[i].len <= ts[j].src + ts[j].len
    {
      assert ts[i] in ts && ts[j] in ts;
    }
  }

  /** Sorting keeps the set of triples, so it keeps them non-overlapping. */
  lemma MakeNonOverlapping(ts: seq<Triple>)
    ensures NonOverlapping(Make(ts).triples) <==> NonOverlapping(ts)
  {
    var r := Make(ts).triples;
    forall t
      ensures t in r <==> t in ts
    {
      assert t in r <==> t in multiset(r);
      assert t in ts <==> t in multiset(ts);
    }
  }

  /**
   * The reference meaning of a map: the shift of the first triple covering the key, or
   * the key itself when none does.
   */
  function Image(ts: seq<Triple>, key: int): int
    decreases |ts|
  {
    if ts == [] then key
    else if Covers(ts[0], key) then Shift(ts[0], key)
    else Image(ts[1..], key)
  }

  /** Without overlaps, any triple covering the key gives the image. */
  lemma {:induction false} ImageCovered(ts: seq<Triple>, t: Triple, key: int)
    requires NonOverlapping(ts) && t in ts && Covers(t, key)
    ensures Image(ts, key) == Shift(t, key)
    decreases |ts|
  {
    if ts[0] != t {
      assert ts[0] in ts;
      if !Covers(ts[0], key) {
        assert t in ts[1..];
        assert forall u | u in ts[1..] :: u in ts;
        ImageCovered(ts[1..], t, key);
      }
    }
  }

  /** A key that no triple covers maps to itself. */
  lemma {:induction false} ImageUncovered(ts: seq<Triple>, key: int)
    requires forall t | t in ts :: !Covers(t, key)
    ensures Image(ts, key) == key
    decreases |ts|
  {
    if ts != [] {
      assert ts[0] in ts;
      assert forall u | u in ts[1..] :: u in ts;
      ImageUncovered(ts[1..], key);
    }
  }

  /** Without overlaps the order of the triples does not matter, so sorting them changes no image. */
  lemma ImagePermutation(ts: seq<Triple>, us: seq<Triple>, key: int)
    requires NonOverlapping(ts) && multiset(ts) == multiset(us)
    ensures Image(ts, key) == Image(us, key)
  {
    forall t
      ensures t in ts <==> t in us
    {
      assert t in ts <==> t in multiset(ts);
      assert t in us <==> t in multiset(us);
    }
    if t :| t in ts && Covers(t, key) {
      ImageCovered(ts, t, key);
      ImageCovered(us, t, key);
    } else {
      ImageUncovered(ts, key);
      ImageUncovered(us, key);
    }
  }

  /**
   * `__getitem__`: the shift of the triple the search finds, or the key itself. The
   * ValueError for a found triple that does not cover the key cannot happen.
   */
  method Get(m: SparseMap, key: int) returns (value: int)
    ensures value == key || exists t :: t in m.triples && Covers(t, key) && value == Shift(t, key)
    ensures (forall t | t in m.triples :: !Covers(t, key)) ==> value == key
    ensures SortedBySrc(m.triples) && NonOverlapping(m.triples) ==> value == Image(m.triples, key)
  {
    var found := FindTriple(m, key);
    if found.None? {
      if SortedBySrc(m.triples) && NonOverlapping(m.triples) {
        SortedNonOverlappingOrdered(m.triples);
        ImageUncovered(m.triples, key);
      }
      return key;
    }
    var t := found.value;
    assert t.src <= key < t.src + t.len;
    if NonOverlapping(m.triples) {
      ImageCovered(m.triples, t, key);
    }
    return Shift(t, key);
  }

  /** The map built from non-overlapping triples sends each key where the triples say, in any order. */
  lemma MakeImage(ts: seq<Triple>, key: int)
    requires NonOverlapping(ts)
    ensures Image(Make(ts).triples, key) == Image(ts, key)
  {
    MakeNonOverlapping(ts);
    ImagePermutation(Make(ts).triples, ts, key);
  }
}
