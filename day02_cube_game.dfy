/**
 * The cube game of 2023/day2/game.py. A sample is a count of red, green and blue cubes
 * drawn from a bag; a game is possible with a supply when every sample fits inside it,
 * and the smallest supply for a game is the componentwise maximum of its samples.
 */
module CubeGame {
  import opened Wrappers
  import Text
  import Results

  datatype Sample = Sample(red: int, green: int, blue: int)

  // The regular-expression splits of the source, for lines whose only whitespace is the space.

  /** `s` without its leading spaces. */
  function TrimStart(s: string): (r: string)
    ensures |r| <= |s| && r == s[|s| - |r|..]
    ensures forall i :: 0 <= i < |s| - |r| ==> s[i] == ' '
    ensures r == [] || r[0] != ' '
    decreases |s|
  {
    if s != [] && s[0] == ' ' then TrimStart(s[1..]) else s
  }

  /** `s` without its trailing spaces. */
  function TrimEnd(s: string): (r: string)
    ensures |r| <= |s| && r == s[..|r|]
    ensures forall i :: |r| <= i < |s| ==> s[i] == ' '
    ensures r == [] || r[|r| - 1] != ' '
    decreases |s|
  {
    if s != [] && s[|s| - 1] == ' ' then TrimEnd(s[..|s| - 1]) else s
  }

  /** Piece `k` of a split around a separator, without the spaces that touch a separator. */
  function Trimmed(parts: seq<string>, k: nat): string
    requires k < |parts|
  {
    var p := if k > 0 then TrimStart(parts[k]) else parts[k];
    if k < |parts| - 1 then TrimEnd(p) else p
  }

  /** `re.split("\s*" + sep + "\s*", s)`: split at each separator and the spaces around it. */
  function SplitAround(s: string, sep: char): (r: seq<string>)
    ensures |r| == |Text.Split(s, sep)|
  {
    var parts := Text.Split(s, sep);
    seq(|parts|, k requires 0 <= k < |parts| => Trimmed(parts, k))
  }

  /**
   * `re.split("\s+", s)`: split at each run of spaces; a leading or trailing run leaves an
   * empty first or last piece.
   */
  function SplitRuns(s: string): (r: seq<string>)
    ensures |r| >= 1
  {
    var parts := Text.Split(s, ' ');
    if |parts| == 1 then parts
    else [parts[0]] + Text.NonEmpty(parts[1..|parts| - 1]) + [parts[|parts| - 1]]
  }

  /** Two words with one space between them split back into the two words. */
  lemma SplitRunsOfTwo(a: string, b: string)
    requires ' ' !in a && ' ' !in b
    ensures SplitRuns(a + " " + b) == [a, b]
  {
    Text.SplitAlone(b, ' ');
    Text.SplitFirst(a, b, ' ');
    assert a + " " + b == a + [' '] + b;
    assert Text.NonEmpty([]) == [];
  }

  // ---- Sample.parse ----

  /** The counts before any piece is read: every colour 0. */
  const Initial: map<string, int> := map["red" := 0, "green" := 0, "blue" := 0]

  /**
   * One piece `<count> <colour>` of a sample: `counts[parts[1]] = int(parts[0])` reads the
   * count first (a ValueError) and then the colour (an IndexError when there is none).
   */
  function Entry(piece: string): Result<(string, int)> {
    var parts := SplitRuns(piece);
    match Text.ParseInt(parts[0])
    case None => Failure("ValueError: invalid literal for int()")
    case Some(n) => if |parts| < 2 then Failure("IndexError: list index out of range") else Success((parts[1], n))
  }

  /** The counts dictionary after assigning each `(colour, count)` entry in turn. */
  function Assign(entries: seq<(string, int)>): (counts: map<string, int>)
    ensures Initial.Keys <= counts.Keys
    decreases |entries|
  {
    if entries == [] then Initial
    else
      var (colour, n) := entries[|entries| - 1];
      Assign(entries[..|entries| - 1])[colour := n]
  }

  /** What `Sample.parse` makes of a sample's text. */
  function SampleOf(text: string): Result<Sample> {
    var entries :- Results.MapAll(Entry, SplitAround(text, ','));
    Success(Counted(entries))
  }

  /** The sample read off the counts dictionary after all the entries. */
  function Counted(entries: seq<(string, int)>): Sample {
    var counts := Assign(entries);
    Sample(counts["red"], counts["green"], counts["blue"])
  }

  /** The count of one colour in a sample. */
  function Count(s: Sample, colour: string): int {
    if colour == "red" then s.red else if colour == "green" then s.green else s.blue
  }

  /** `Sample.parse`: the loop filling the counts dictionary. */
  method ParseSample(text: string) returns (r: Result<Sample>)
    ensures r == SampleOf(text)
  {
    var counts := Initial;
    var pieces := SplitAround(text, ',');
    ghost var entries: seq<(string, int)> := [];
    for k := 0 to |pieces|
      invariant Results.MapAll(Entry, pieces[..k]) == Success(entries)
      invariant counts == Assign(entries)
    {
      var entry := Entry(pieces[k]);
      if entry.Failure? {
        Results.MapAllFail(Entry, pieces, k, |pieces|);
        assert pieces[..|pieces|] == pieces;
        return Failure(entry.error);
      }
      Results.MapAllStep(Entry, pieces, k, entries);
      AssignStep(entries, entry.value);
      counts := counts[entry.value.0 := entry.value.1];
      entries := entries + [entry.value];
    }
    assert pieces[..|pieces|] == pieces;
    return Success(Sample(counts["red"], counts["green"], counts["blue"]));
  }

  lemma AssignStep(entries: seq<(string, int)>, e: (string, int))
    ensures Assign(entries + [e]) == Assign(entries)[e.0 := e.1]
  {
    assert (entries + [e])[..|entries|] == entries;
  }

  /** A colour no entry names keeps its count of 0. */
  lemma {:induction false} Unmentioned(entries: seq<(string, int)>, colour: string)
    requires colour in Initial && forall i :: 0 <= i < |entries| ==> entries[i].0 != colour
    ensures Assign(entries)[colour] == 0
    decreases |entries|
  {
    if entries != [] {
      var init := entries[..|entries| - 1];
      assert forall i :: 0 <= i < |init| ==> init[i] == entries[i];
      Unmentioned(init, colour);
      assert entries[|entries| - 1].0 != colour;
    }
  }

  /** The last entry naming a colour sets its count. */
  lemma {:induction false} LastMention(entries: seq<(string, int)>, i: nat)
    requires i < |entries| && forall j :: i < j < |entries| ==> entries[j].0 != entries[i].0
    ensures entries[i].0 in Assign(entries) && Assign(entries)[entries[i].0] == entries[i].1
    decreases |entries|
  {
    var init := entries[..|entries| - 1];
    if i < |entries| - 1 {
      assert forall j :: 0 <= j < |init| ==> init[j] == entries[j];
      LastMention(init, i);
      assert entries[|entries| - 1].0 != entries[i].0;
    }
  }

  /**
   * Each colour of the parsed sample is the count of the last entry naming it, and 0 when
   * no entry names it.
   */
  lemma CountedColours(entries: seq<(string, int)>, colour: string)
    requires colour in Initial
    ensures (forall i :: 0 <= i < |entries| ==> entries[i].0 != colour) ==> Count(Counted(entries), colour) == 0
    ensures forall i :: (0 <= i < |entries| && entries[i].0 == colour
                         && (forall j :: i < j < |entries| ==> entries[j].0 != colour))
                        ==> Count(Counted(entries), colour) == entries[i].1
  {
    if forall i :: 0 <= i < |entries| ==> entries[i].0 != colour {
      Unmentioned(entries, colour);
    }
    forall i | 0 <= i < |entries| && entries[i].0 == colour && (forall j :: i < j < |entries| ==> entries[j].0 != colour)
      ensures Count(Counted(entries), colour) == entries[i].1
    {
      LastMention(entries, i);
    }
  }

  /** `str(sample)`. */
  function Format(s: Sample): string {
    Text.IntText(s.red) + " red, " + Text.IntText(s.green) + " green, " + Text.IntText(s.blue) + " blue"
  }

  /** Parsing what `str` writes for a sample gives the sample back. */
  lemma FormatRoundTrip(s: Sample)
    ensures SampleOf(Format(s)) == Success(s)
  {
    var pieces := FormatPieces(s);
    var entries := [("red", s.red), ("green", s.green), ("blue", s.blue)];
    FormatEntries(s, pieces, entries);
    AssignThree(entries);
  }

  /** Each piece `str` writes reads back as its colour and count. */
  lemma FormatEntries(s: Sample, pieces: seq<string>, entries: seq<(string, int)>)
    requires pieces == [Text.IntText(s.red) + " red", Text.IntText(s.green) + " green", Text.IntText(s.blue) + " blue"]
    requires entries == [("red", s.red), ("green", s.green), ("blue", s.blue)]
    ensures Results.MapAll(Entry, pieces) == Success(entries)
  {
    forall i | 0 <= i < 3
      ensures Entry(pieces[i]) == Success(entries[i])
    {
      if i == 0 {
        ColourEntry(pieces[0], s.red, "red");
      } else if i == 1 {
        ColourEntry(pieces[1], s.green, "green");
      } else {
        ColourEntry(pieces[2], s.blue, "blue");
      }
    }
    Results.MapAllOf(Entry, pieces, entries);
  }

  /** The pieces `str` writes for a sample, as the comma split reads them. */
  lemma FormatPieces(s: Sample) returns (pieces: seq<string>)
    ensures pieces == SplitAround(Format(s), ',')
    ensures pieces == [Text.IntText(s.red) + " red", Text.IntText(s.green) + " green", Text.IntText(s.blue) + " blue"]
  {
    var r, g, b := Text.IntText(s.red), Text.IntText(s.green), Text.IntText(s.blue);
    var p0, p1, p2 := r + " red", g + " green", b + " blue";
    assert Format(s) == p0 + [','] + ([' '] + p1) + [','] + ([' '] + p2);
    SplitAroundThree(p0, p1, p2, ',');
    pieces := SplitAround(Format(s), ',');
  }

  /** Three pieces joined by a separator and a space come apart again. */
  lemma SplitAroundThree(a: string, b: string, c: string, sep: char)
    requires sep != ' ' && sep !in a && sep !in b && sep !in c
    requires a != [] && a[|a| - 1] != ' ' && b != [] && b[0] != ' ' && b[|b| - 1] != ' ' && c != [] && c[0] != ' '
    ensures SplitAround(a + [sep] + ([' '] + b) + [sep] + ([' '] + c), sep) == [a, b, c]
  {
    var b', c' := [' '] + b, [' '] + c;
    var text := a + [sep] + b' + [sep] + c';
    SplitThree(a, b', c', sep);
    var parts := Text.Split(text, sep);
    assert TrimStart(b') == b by {
      assert b'[1..] == b;
    }
    assert TrimStart(c') == c by {
      assert c'[1..] == c;
    }
    assert Trimmed(parts, 0) == a;
    assert Trimmed(parts, 1) == b;
    assert Trimmed(parts, 2) == c;
  }

  /** Three pieces without the separator, joined by it, split back into themselves. */
  lemma SplitThree(a: string, b: string, c: string, sep: char)
    requires sep !in a && sep !in b && sep !in c
    ensures Text.Split(a + [sep] + b + [sep] + c, sep) == [a, b, c]
  {
    Text.SplitAlone(c, sep);
    Text.SplitFirst(b, c, sep);
    Text.SplitFirst(a, b + [sep] + c, sep);
    assert a + [sep] + b + [sep] + c == a + [sep] + (b + [sep] + c);
  }

  lemma AssignThree(es: seq<(string, int)>)
    requires |es| == 3 && es[0].0 == "red" && es[1].0 == "green" && es[2].0 == "blue"
    ensures Counted(es) == Sample(es[0].1, es[1].1, es[2].1)
  {
    AssignStep([], es[0]);
    AssignStep([es[0]], es[1]);
    AssignStep([es[0], es[1]], es[2]);
    assert [] + [es[0]] == [es[0]];
    assert [es[0]] + [es[1]] == [es[0], es[1]];
    assert [es[0], es[1]] + [es[2]] == es;
  }

  lemma ColourEntry(piece: string, n: int, colour: string)
    requires piece == Text.IntText(n) + " " + colour && colour != "" && ' ' !in colour
    ensures Entry(piece) == Success((colour, n))
  {
    SplitRunsOfTwo(Text.IntText(n), colour);
    Text.IntTextRoundTrip(n);
  }

  // ---- Sample ----

  /** `possibleWith`: each colour count at most the supply's. */
  predicate PossibleWith(s: Sample, supply: Sample) {
    s.red <= supply.red && s.green <= supply.green && s.blue <= supply.blue
  }

  /** `Sample.max`: the componentwise maximum. */
  function Max(a: Sample, b: Sample): Sample {
    Sample(if a.red >= b.red then a.red else b.red,
           if a.green >= b.green then a.green else b.green,
           if a.blue >= b.blue then a.blue else b.blue)
  }

  lemma MaxCommutative(a: Sample, b: Sample)
    ensures Max(a, b) == Max(b, a)
  {
  }

  lemma MaxAssociative(a: Sample, b: Sample, c: Sample)
    ensures Max(Max(a, b), c) == Max(a, Max(b, c))
  {
  }

  lemma MaxIdempotent(a: Sample)
    ensures Max(a, a) == a
  {
  }

  /** The maximum is the least supply both samples are possible with. */
  lemma MaxLeastUpperBound(a: Sample, b: Sample, supply: Sample)
    ensures PossibleWith(a, Max(a, b)) && PossibleWith(b, Max(a, b))
    ensures PossibleWith(Max(a, b), supply) <==> PossibleWith(a, supply) && PossibleWith(b, supply)
  {
  }

  /** `power`. */
  function Power(s: Sample): int {
    s.red * s.green * s.blue
  }

  /** A larger supply of non-negative counts has at least the power. */
  lemma PowerMonotone(a: Sample, b: Sample)
    requires a.red >= 0 && a.green >= 0 && a.blue >= 0 && PossibleWith(a, b)
    ensures Power(a) <= Power(b)
  {
    MulLe(a.red, b.red, a.green);
    MulLe(a.green, b.green, b.red);
    MulLe(a.red * a.green, b.red * b.green, a.blue);
    MulLe(a.blue, b.blue, b.red * b.green);
  }

  lemma MulLe(x: int, y: int, z: int)
    requires 0 <= x <= y && 0 <= z
    ensures x * z <= y * z && z * x <= z * y
  {
    assert y * z - x * z == (y - x) * z;
  }

  // ---- Game ----

  /**
   * A game as `Game.parse` builds it: its number and the lazy `map(Sample.parse, ...)` over
   * the sample texts. A sample is parsed only when a traversal of the map reaches it.
   */
  datatype Game = Game(num: int, texts: seq<string>)

  /** `int(re.search("\d+", s).group())`: the first run of digits, or None when there is none. */
  function FirstNumber(s: string): (r: Option<nat>)
    ensures r.None? <==> forall i :: 0 <= i < |s| ==> !Text.IsDigit(s[i])
    decreases |s|
  {
    if s == [] then None
    else if Text.IsDigit(s[0]) then Some(Text.NatOf(s[..Text.DigitRun(s)]))
    else FirstNumber(s[1..])
  }

  /** The number read from `Game <n>` is `n`. */
  lemma GameNumber(n: nat)
    ensures FirstNumber("Game " + Text.Digits(n)) == Some(n)
  {
    var d := Text.Digits(n);
    SkipNonDigits("Game ", d);
    DigitRunAll(d);
    assert d[..|d|] == d;
    Text.NatOfDigits(n);
  }

  /** Characters that are not digits are passed over. */
  lemma {:induction false} SkipNonDigits(p: string, s: string)
    requires forall i :: 0 <= i < |p| ==> !Text.IsDigit(p[i])
    ensures FirstNumber(p + s) == FirstNumber(s)
    decreases |p|
  {
    if p == [] {
      assert p + s == s;
    } else {
      assert (p + s)[0] == p[0] && (p + s)[1..] == p[1..] + s;
      SkipNonDigits(p[1..], s);
    }
  }

  lemma {:induction false} DigitRunAll(d: string)
    requires Text.AllDigits(d)
    ensures Text.DigitRun(d) == |d|
    decreases |d|
  {
    if d != [] {
      DigitRunAll(d[1..]);
    }
  }

  /**
   * `Game.parse`: the number is the first digit run before the colon, the samples are
   * the `;`-separated pieces after it, not yet parsed.
   */
  function ParseGame(line: string): (r: Result<Game>)
    ensures var pieces := SplitAround(line, ':');
      r.Success? <==> FirstNumber(pieces[0]).Some? && |pieces| >= 2
    ensures r.Success? ==> |r.value.texts| >= 1
  {
    var pieces := SplitAround(line, ':');
    match FirstNumber(pieces[0])
    case None => Failure("AttributeError: 'NoneType' object has no attribute 'group'")
    case Some(num) =>
      if |pieces| < 2 then Failure("IndexError: list index out of range")
      else Success(Game(num, SplitAround(pieces[1], ';')))
  }

  /** A whole traversal of the lazy map: every sample parsed in turn, the first error raised. */
  function Samples(g: Game): (r: Result<seq<Sample>>)
    ensures r.Success? ==> |r.value| == |g.texts|
  {
    Results.MapAll(SampleOf, g.texts)
  }

  /**
   * `Game.possibleWith` over the samples still to come, each parsed by `parse` when the loop
   * reaches it: the first that does not fit ends the loop before the rest are parsed. The
   * game's own parser is `SampleOf`; the lemmas below hold for any parser.
   */
  function PossibleFrom(parse: string -> Result<Sample>, texts: seq<string>, supply: Sample): Result<bool>
    decreases |texts|
  {
    if texts == [] then Success(true)
    else
      var s :- parse(texts[0]);
      if !PossibleWith(s, supply) then Success(false) else PossibleFrom(parse, texts[1..], supply)
  }

  /** `Game.possibleWith`: the loop over the lazy map, parsing each sample as it comes. */
  method GamePossibleWith(g: Game, supply: Sample) returns (r: Result<bool>)
    ensures r == PossibleFrom(SampleOf, g.texts, supply)
  {
    for i := 0 to |g.texts|
      invariant PossibleFrom(SampleOf, g.texts, supply) == PossibleFrom(SampleOf, g.texts[i..], supply)
    {
      assert g.texts[i..][0] == g.texts[i] && g.texts[i..][1..] == g.texts[i + 1..];
      var sample := ParseSample(g.texts[i]);
      if sample.Failure? {
        return Failure(sample.error);
      }
      if !PossibleWith(sample.value, supply) {
        return Success(false);
      }
    }
    return Success(true);
  }

  /**
   * When every sample parses, the loop answers whether every sample is possible with the
   * supply.
   */
  lemma {:induction false} PossibleWhenParsed(parse: string -> Result<Sample>, texts: seq<string>, supply: Sample)
    requires Results.MapAll(parse, texts).Success?
    ensures var samples := Results.MapAll(parse, texts).value;
      PossibleFrom(parse, texts, supply) == Success(forall i :: 0 <= i < |texts| ==> PossibleWith(samples[i], supply))
    decreases |texts|
  {
    var samples := Results.MapAll(parse, texts).value;
    Results.MapAllSuccess(parse, texts);
    if texts != [] {
      var rest := texts[1..];
      assert forall i :: 0 <= i < |rest| ==> rest[i] == texts[i + 1];
      Results.MapAllSuccess(parse, rest);
      var later := Results.MapAll(parse, rest).value;
      assert forall i :: 0 <= i < |rest| ==> later[i] == samples[i + 1];
      PossibleWhenParsed(parse, rest, supply);
      if PossibleWith(samples[0], supply) {
        forall i | 0 <= i < |texts| && (forall k :: 0 <= k < |rest| ==> PossibleWith(later[k], supply))
          ensures PossibleWith(samples[i], supply)
        {
          if i > 0 {
            assert later[i - 1] == samples[i];
          }
        }
      }
    }
  }

  /**
   * The loop stops at the first sample that does not fit: when every sample before `k`
   * parses and fits and sample `k` parses and does not, the game is impossible, whatever
   * the samples after `k` hold.
   */
  lemma {:induction false} StopsAtImpossible(parse: string -> Result<Sample>, texts: seq<string>, supply: Sample, k: nat)
    requires k < |texts|
    requires forall j :: 0 <= j < k ==> parse(texts[j]).Success? && PossibleWith(parse(texts[j]).value, supply)
    requires parse(texts[k]).Success? && !PossibleWith(parse(texts[k]).value, supply)
    ensures PossibleFrom(parse, texts, supply) == Success(false)
    decreases k
  {
    if k > 0 {
      StopsAtImpossible(parse, texts[1..], supply, k - 1);
    }
  }

  /**
   * The error the loop raises is that of the first sample that does not parse, provided
   * every sample before it fits.
   */
  lemma {:induction false} RaisesAtUnparsed(parse: string -> Result<Sample>, texts: seq<string>, supply: Sample, k: nat)
    requires k < |texts|
    requires forall j :: 0 <= j < k ==> parse(texts[j]).Success? && PossibleWith(parse(texts[j]).value, supply)
    requires parse(texts[k]).Failure?
    ensures PossibleFrom(parse, texts, supply) == Failure(parse(texts[k]).error)
    decreases k
  {
    if k > 0 {
      RaisesAtUnparsed(parse, texts[1..], supply, k - 1);
    }
  }

  /**
   * `Game 1: 20 red; x red` with the part-1 supply: the first sample is impossible, so the
   * loop returns False without parsing `x red`, although a whole traversal raises on it.
   */
  lemma LazyParse()
    ensures var g := Game(1, ["20 red", "x red"]);
      PossibleFrom(SampleOf, g.texts, Sample(12, 13, 14)) == Success(false) && Samples(g).Failure?
  {
    var g := Game(1, ["20 red", "x red"]);
    TwentyRed();
    NotACount();
    StopsAtImpossible(SampleOf, g.texts, Sample(12, 13, 14), 0);
    Results.MapAllSuccess(SampleOf, g.texts);
  }

  /** `20 red` is the sample of twenty red cubes. */
  lemma TwentyRed()
    ensures SampleOf("20 red") == Success(Sample(20, 0, 0))
  {
    TwentyRedEntry();
    TwentyRedPieces();
    Results.MapAllOf(Entry, ["20 red"], [("red", 20)]);
    AssignStep([], ("red", 20));
    assert [] + [("red", 20)] == [("red", 20)];
  }

  lemma TwentyRedEntry()
    ensures Entry("20 red") == Success(("red", 20))
  {
    assert Text.IntText(20) == "20" by {
      assert Text.Digits(2) == "2";
      assert Text.Digits(20) == Text.Digits(2) + ['0'];
    }
    assert "20 red" == Text.IntText(20) + " " + "red";
    ColourEntry("20 red", 20, "red");
  }

  lemma TwentyRedPieces()
    ensures SplitAround("20 red", ',') == ["20 red"]
  {
    Text.SplitAlone("20 red", ',');
  }

  /** `x red` does not start with a count: `int("x")` is a ValueError. */
  lemma NotACount()
    ensures SampleOf("x red").Failure?
  {
    Text.SplitAlone("x red", ',');
    assert SplitAround("x red", ',') == ["x red"];
    SplitRunsOfTwo("x", "red");
    assert "x" + " " + "red" == "x red";
    assert Text.ParseInt("x").None?;
    assert Entry("x red").Failure?;
  }

  /** `functools.reduce(Sample.max, samples)` on a non-empty list: a left fold. */
  function Fold(samples: seq<Sample>): Sample
    requires |samples| >= 1
    decreases |samples|
  {
    if |samples| == 1 then samples[0] else Max(Fold(samples[..|samples| - 1]), samples[|samples| - 1])
  }

  /**
   * `minSupply`: the `reduce` traverses the whole map, raising the first parse error; on no
   * samples at all it is a TypeError.
   */
  function MinSupply(g: Game): (r: Result<Sample>)
    ensures r.Success? ==> Samples(g).Success? && |g.texts| >= 1
  {
    var samples :- Samples(g);
    if samples == [] then Failure("TypeError: reduce() of empty iterable with no initial value")
    else Success(Fold(samples))
  }

  /**
   * The fold is the least supply every sample fits: a supply fits all the samples exactly
   * when it is at least the fold.
   */
  lemma {:induction false} FoldLeast(samples: seq<Sample>, supply: Sample)
    requires |samples| >= 1
    ensures PossibleWith(Fold(samples), supply) <==> forall i :: 0 <= i < |samples| ==> PossibleWith(samples[i], supply)
    decreases |samples|
  {
    var n := |samples|;
    if n > 1 {
      var init := samples[..n - 1];
      FoldLeast(init, supply);
      MaxLeastUpperBound(Fold(init), samples[n - 1], supply);
      assert forall i :: 0 <= i < n - 1 ==> init[i] == samples[i];
    }
  }

  /** Every sample is possible with the minimum supply. */
  lemma MinSupplyFits(g: Game)
    requires MinSupply(g).Success?
    ensures forall i :: 0 <= i < |g.texts| ==> PossibleWith(Samples(g).value[i], MinSupply(g).value)
  {
    var samples := Samples(g).value;
    FoldLeast(samples, Fold(samples));
  }

  /**
   * A game whose samples all parse is possible with a supply exactly when its minimum
   * supply is: the loop of `possibleWith` then answers as `minSupply` fits.
   */
  lemma PossibleIffMinSupply(g: Game, supply: Sample)
    requires MinSupply(g).Success?
    ensures PossibleFrom(SampleOf, g.texts, supply) == Success(PossibleWith(MinSupply(g).value, supply))
  {
    var samples := Samples(g).value;
    FoldLeast(samples, supply);
    PossibleWhenParsed(SampleOf, g.texts, supply);
  }
}
