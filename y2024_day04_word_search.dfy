/**
 * The word search of 2024/day04/run.py. A grid of letters is searched for XMAS read in any
 * of the eight directions (part 1), and for two MAS crossing on an `A` along both
 * diagonals (part 2).
 */
module WordSearch {
  import opened Wrappers
  import Text

  const IndexError := "IndexError: list index out of range"
  const ValueError := "ValueError"

  /** `Coordinate`: equal when their texts are, that is when row and column are. */
  datatype Coordinate = Coordinate(row: int, col: int)

  /** `Direction`, in the order `Direction.values()` lists them. */
  datatype Direction = North | NorthEast | East | SouthEast | South | SouthWest | West | NorthWest

  const Directions: seq<Direction> := [North, NorthEast, East, SouthEast, South, SouthWest, West, NorthWest]

  /** The row step of a direction. */
  function RowStep(d: Direction): int {
    match d
    case North | NorthEast | NorthWest => -1
    case East | West => 0
    case SouthEast | South | SouthWest => 1
  }

  /** The column step of a direction. */
  function ColStep(d: Direction): int {
    match d
    case NorthEast | East | SouthEast => 1
    case North | South => 0
    case SouthWest | West | NorthWest => -1
  }

  /** `Direction.next`: one step to a neighbouring cell, never staying put. */
  function Next(d: Direction, c: Coordinate): (r: Coordinate)
    ensures -1 <= r.row - c.row <= 1 && -1 <= r.col - c.col <= 1 && r != c
  {
    Coordinate(c.row + RowStep(d), c.col + ColStep(d))
  }

  /** The direction pointing the other way. */
  function Opposite(d: Direction): Direction {
    match d
    case North => South
    case NorthEast => SouthWest
    case East => West
    case SouthEast => NorthWest
    case South => North
    case SouthWest => NorthEast
    case West => East
    case NorthWest => SouthEast
  }

  /** A step back the other way returns to the start. */
  lemma NextOpposite(d: Direction, c: Coordinate)
    ensures Next(Opposite(d), Next(d, c)) == c
  {
  }

  /** Different directions lead to different neighbours. */
  lemma StepsDistinct(d: Direction, e: Direction, c: Coordinate)
    requires d != e
    ensures Next(d, c) != Next(e, c)
  {
  }

  /** `Direction.values()` lists every direction. */
  lemma DirectionsComplete(d: Direction)
    ensures d in Directions
  {
  }

  /** `k` steps in direction `d` from `c`. */
  function Walk(d: Direction, c: Coordinate, k: nat): Coordinate {
    if k == 0 then c else Next(d, Walk(d, c, k - 1))
  }

  /** `k` steps go `k` times the unit step. */
  lemma {:induction false} WalkOffset(d: Direction, c: Coordinate, k: nat)
    ensures Walk(d, c, k) == Coordinate(c.row + k * RowStep(d), c.col + k * ColStep(d))
  {
    if k > 0 {
      WalkOffset(d, c, k - 1);
    }
  }

  /** Taking the first step before walking on is walking one step further. */
  lemma {:induction false} WalkShift(d: Direction, c: Coordinate, k: nat)
    ensures Walk(d, Next(d, c), k) == Walk(d, c, k + 1)
  {
    if k > 0 {
      WalkShift(d, c, k - 1);
    }
  }

  // ---- the grid ----

  /** `Grid`: its size and its rows of letters. */
  datatype Grid = Grid(rows: nat, cols: nat, content: seq<seq<char>>)

  /** What the constructor establishes: `rows` rows, each `cols` long. */
  predicate Valid(g: Grid) {
    |g.content| == g.rows && forall r :: 0 <= r < g.rows ==> |g.content[r]| == g.cols
  }

  /** The constructor: the first row fixes the width; an empty grid has no first row. */
  function NewGrid(content: seq<seq<char>>): (r: Result<Grid>)
    ensures r.Success? <==> |content| >= 1 && forall i :: 0 <= i < |content| ==> |content[i]| == |content[0]|
    ensures r.Success? ==> Valid(r.value) && r.value.content == content
    ensures |content| == 0 ==> r == Failure(IndexError)
  {
    if |content| == 0 then Failure(IndexError)
    else if forall i :: 0 <= i < |content| ==> |content[i]| == |content[0]| then
      Success(Grid(|content|, |content[0]|, content))
    else Failure(ValueError)
  }

  /** The lines of the input up to the first empty one. */
  function UntilBlank(lines: seq<string>): (r: seq<string>)
    ensures |r| <= |lines| && r == lines[..|r|]
    ensures forall i :: 0 <= i < |r| ==> r[i] != ""
    ensures |r| < |lines| ==> lines[|r|] == ""
  {
    if lines == [] || lines[0] == "" then [] else [lines[0]] + UntilBlank(lines[1..])
  }

  /** `line.strip()` on every line read. */
  function StripLines(lines: seq<string>): (r: seq<string>)
    ensures |r| == |lines| && forall i :: 0 <= i < |r| ==> r[i] == Text.Strip(lines[i])
  {
    seq(|lines|, i requires 0 <= i < |lines| => Text.Strip(lines[i]))
  }

  /**
   * `parsefrom`: each line is stripped, and the lines before the first one left empty are
   * the rows of the grid.
   */
  function ParseGrid(lines: seq<string>): (r: Result<Grid>)
    ensures r.Success? ==> Valid(r.value) && r.value.rows <= |lines|
    ensures r.Success? ==> forall i :: 0 <= i < r.value.rows ==> r.value.content[i] == Text.Strip(lines[i]) != ""
    ensures r.Success? && r.value.rows < |lines| ==> Text.Strip(lines[r.value.rows]) == ""
    ensures r.Failure? <==> var rows := UntilBlank(StripLines(lines));
      rows == [] || exists i :: 0 <= i < |rows| && |rows[i]| != |rows[0]|
  {
    NewGrid(UntilBlank(StripLines(lines)))
  }

  /** The cell is on the grid. */
  predicate InBounds(g: Grid, c: Coordinate) {
    0 <= c.row < g.rows && 0 <= c.col < g.cols
  }

  /** `get`: the letter at `c`, or nothing off the grid. */
  function Get(g: Grid, c: Coordinate): (r: Option<char>)
    requires Valid(g)
    ensures r.Some? <==> InBounds(g, c)
  {
    if c.row < 0 || c.row >= g.rows then None
    else if c.col < 0 || c.col >= g.cols then None
    else Some(g.content[c.row][c.col])
  }

  /** `contains_at`: `values` reads from `c` on in direction `d`. */
  function ContainsAt(g: Grid, values: seq<char>, c: Coordinate, d: Direction): bool
    requires Valid(g)
    decreases |values|
  {
    if |values| == 0 then true
    else if Get(g, c) == Some(values[0]) then ContainsAt(g, values[1..], Next(d, c), d)
    else false
  }

  /** The `k`-th letter of `values` sits `k` steps from `c`, for every `k`. */
  predicate ReadsAlong(g: Grid, values: seq<char>, c: Coordinate, d: Direction)
    requires Valid(g)
  {
    forall k :: 0 <= k < |values| ==> Get(g, Walk(d, c, k)) == Some(values[k])
  }

  /** `contains_at` holds exactly when every letter of `values` is on the grid at its step along `d`. */
  lemma {:induction false} ContainsAtIff(g: Grid, values: seq<char>, c: Coordinate, d: Direction)
    requires Valid(g)
    ensures ContainsAt(g, values, c, d) <==> ReadsAlong(g, values, c, d)
    decreases |values|
  {
    if |values| > 0 {
      var rest := values[1..];
      ContainsAtIff(g, rest, Next(d, c), d);
      forall k | 0 <= k < |rest|
        ensures Walk(d, Next(d, c), k) == Walk(d, c, k + 1) && rest[k] == values[k + 1]
      {
        WalkShift(d, c, k);
      }
      if ReadsAlong(g, values, c, d) {
        assert Get(g, Walk(d, c, 0)) == Some(values[0]);
        forall k | 0 <= k < |rest|
          ensures Get(g, Walk(d, Next(d, c), k)) == Some(rest[k])
        {
          assert Get(g, Walk(d, c, k + 1)) == Some(values[k + 1]);
        }
      }
      if ContainsAt(g, values, c, d) {
        forall k | 0 <= k < |values|
          ensures Get(g, Walk(d, c, k)) == Some(values[k])
        {
          if k > 0 {
            assert Walk(d, Next(d, c), k - 1) == Walk(d, c, k);
          }
        }
      }
    }
  }

  /** The letters (nothing off the grid) of the first `n` steps from `c` along `d`. */
  function Line(g: Grid, c: Coordinate, d: Direction, n: nat): (r: seq<Option<char>>)
    requires Valid(g)
    ensures |r| == n
  {
    if n == 0 then [] else Line(g, c, d, n - 1) + [Get(g, Walk(d, c, n - 1))]
  }

  /** Entry `k` of the line is what lies `k` steps along. */
  lemma {:induction false} LineAt(g: Grid, c: Coordinate, d: Direction, n: nat, k: nat)
    requires Valid(g) && k < n
    ensures Line(g, c, d, n)[k] == Get(g, Walk(d, c, k))
    decreases n
  {
    if k < n - 1 {
      LineAt(g, c, d, n - 1, k);
    }
  }

  /** `values_from`: `count` letters (nothing off the grid), one per step from `coord` along `d`. */
  method ValuesFrom(g: Grid, coord: Coordinate, d: Direction, count: int) returns (values: seq<Option<char>>)
    requires Valid(g)
    ensures values == Line(g, coord, d, if count > 0 then count else 0)
  {
    values := [];
    var c := coord;
    var n := count;
    ghost var i: nat := 0;
    while n > 0
      invariant n == count - i && (count > 0 ==> 0 <= n) && (count <= 0 ==> i == 0)
      invariant c == Walk(d, coord, i) && values == Line(g, coord, d, i)
    {
      values := values + [Get(g, c)];
      c := Next(d, c);
      n := n - 1;
      i := i + 1;
    }
  }

  // ---- find_all and find_only ----

  /** Cells before `c` in row-major order. */
  predicate Before(a: Coordinate, b: Coordinate) {
    a.row < b.row || (a.row == b.row && a.col < b.col)
  }

  /** Strictly increasing in row-major order, so also without repeats. */
  predicate RowMajor(s: seq<Coordinate>) {
    forall i, j :: 0 <= i < j < |s| ==> Before(s[i], s[j])
  }

  lemma RowMajorAppend(a: seq<Coordinate>, b: seq<Coordinate>)
    requires RowMajor(a) && RowMajor(b)
    requires forall x, y :: x in a && y in b ==> Before(x, y)
    ensures RowMajor(a + b)
  {
    var s := a + b;
    forall i, j | 0 <= i < j < |s|
      ensures Before(s[i], s[j])
    {
      if i < |a| && j >= |a| {
        assert s[i] in a && s[j] in b;
      } else if i >= |a| {
        assert s[i] == b[i - |a|] && s[j] == b[j - |a|];
      }
    }
  }

  /** The cells of row `row` holding `value` among its first `m` columns, left to right. */
  function RowMatches(g: Grid, value: char, row: nat, m: nat): seq<Coordinate>
    requires Valid(g) && row < g.rows && m <= g.cols
  {
    if m == 0 then []
    else
      RowMatches(g, value, row, m - 1)
        + (if g.content[row][m - 1] == value then [Coordinate(row, m - 1)] else [])
  }

  lemma {:induction false} RowMatchesContents(g: Grid, value: char, row: nat, m: nat)
    requires Valid(g) && row < g.rows && m <= g.cols
    ensures forall c :: c in RowMatches(g, value, row, m) <==> c.row == row && 0 <= c.col < m && Get(g, c) == Some(value)
    ensures RowMajor(RowMatches(g, value, row, m))
    decreases m
  {
    if m > 0 {
      RowMatchesContents(g, value, row, m - 1);
      var tail := if g.content[row][m - 1] == value then [Coordinate(row, m - 1)] else [];
      RowMajorAppend(RowMatches(g, value, row, m - 1), tail);
    }
  }

  /** The cells of the first `n` rows holding `value`, row by row. */
  function MatchesUpTo(g: Grid, value: char, n: nat): seq<Coordinate>
    requires Valid(g) && n <= g.rows
  {
    if n == 0 then [] else MatchesUpTo(g, value, n - 1) + RowMatches(g, value, n - 1, g.cols)
  }

  lemma {:induction false} MatchesUpToContents(g: Grid, value: char, n: nat)
    requires Valid(g) && n <= g.rows
    ensures forall c :: c in MatchesUpTo(g, value, n) <==> c.row < n && Get(g, c) == Some(value)
    ensures RowMajor(MatchesUpTo(g, value, n))
    decreases n
  {
    if n > 0 {
      MatchesUpToContents(g, value, n - 1);
      RowMatchesContents(g, value, n - 1, g.cols);
      RowMajorAppend(MatchesUpTo(g, value, n - 1), RowMatches(g, value, n - 1, g.cols));
    }
  }

  /** `find_all` with a value: the cells holding it, in row-major order. */
  function FindAll(g: Grid, value: char): seq<Coordinate>
    requires Valid(g)
  {
    MatchesUpTo(g, value, g.rows)
  }

  /** `find_all` lists exactly the cells holding `value`, each once, in row-major order. */
  lemma FindAllContents(g: Grid, value: char)
    requires Valid(g)
    ensures forall c :: c in FindAll(g, value) <==> Get(g, c) == Some(value)
    ensures RowMajor(FindAll(g, value))
  {
    MatchesUpToContents(g, value, g.rows);
  }

  /** `find_only`: the one cell holding `value`, or a ValueError. */
  function FindOnly(g: Grid, value: char): Result<Coordinate>
    requires Valid(g)
  {
    var result := FindAll(g, value);
    if |result| != 1 then Failure(ValueError) else Success(result[0])
  }

  /** Two different cells both hold `value`. */
  ghost predicate Twice(g: Grid, value: char)
    requires Valid(g)
  {
    exists a, b :: a != b && Get(g, a) == Some(value) && Get(g, b) == Some(value)
  }

  /**
   * `find_only` succeeds exactly when one cell holds `value`, and then returns it; it
   * fails when no cell or two cells hold it.
   */
  lemma FindOnlyIff(g: Grid, value: char)
    requires Valid(g)
    ensures FindOnly(g, value).Success? ==>
      (Get(g, FindOnly(g, value).value) == Some(value) && forall c :: Get(g, c) == Some(value) ==> c == FindOnly(g, value).value)
    ensures FindOnly(g, value).Failure? ==> (forall c :: Get(g, c) != Some(value)) || Twice(g, value)
  {
    var r := FindAll(g, value);
    FindAllContents(g, value);
    if |r| == 1 {
      forall c | Get(g, c) == Some(value)
        ensures c == r[0]
      {
        assert c in r;
      }
    } else if |r| >= 2 {
      assert r[0] in r && r[1] in r && Before(r[0], r[1]);
    } else {
      forall c
        ensures Get(g, c) != Some(value)
      {
        assert c !in r;
      }
    }
  }

  // ---- part 1 ----

  const Xmas := "XMAS"

  /** The directions among the first `n` in which XMAS reads from `c`. */
  function DirsFrom(g: Grid, c: Coordinate, n: nat): (r: nat)
    requires Valid(g) && n <= |Directions|
    ensures r <= n
  {
    if n == 0 then 0
    else DirsFrom(g, c, n - 1) + (if ContainsAt(g, Xmas, c, Directions[n - 1]) then 1 else 0)
  }

  /** Part 1 over the first `n` cells of `cs`: the (cell, direction) pairs reading XMAS. */
  function XmasCount(g: Grid, cs: seq<Coordinate>, n: nat): nat
    requires Valid(g) && n <= |cs|
  {
    if n == 0 then 0 else XmasCount(g, cs, n - 1) + DirsFrom(g, cs[n - 1], |Directions|)
  }

  /** At most eight words start at each `X`. */
  lemma {:induction false} XmasCountBound(g: Grid, cs: seq<Coordinate>, n: nat)
    requires Valid(g) && n <= |cs|
    ensures XmasCount(g, cs, n) <= 8 * n
    decreases n
  {
    if n > 0 {
      XmasCountBound(g, cs, n - 1);
    }
  }

  /** A direction counted for `c` spells XMAS letter by letter from `c`, which therefore holds the `X`. */
  lemma XmasSpelled(g: Grid, c: Coordinate, d: Direction)
    requires Valid(g) && ContainsAt(g, Xmas, c, d)
    ensures Get(g, c) == Some('X') && Get(g, Walk(d, c, 1)) == Some('M')
    ensures Get(g, Walk(d, c, 2)) == Some('A') && Get(g, Walk(d, c, 3)) == Some('S')
  {
    ContainsAtIff(g, Xmas, c, d);
    assert Walk(d, c, 0) == c;
  }

  /** The part-1 loops: each `X`, each direction, counting those where XMAS reads. */
  method Part1(g: Grid) returns (count: nat)
    requires Valid(g)
    ensures count == XmasCount(g, FindAll(g, 'X'), |FindAll(g, 'X')|)
  {
    var xs := FindAll(g, 'X');
    count := 0;
    for i := 0 to |xs|
      invariant count == XmasCount(g, xs, i)
    {
      var here := WordsAt(g, xs[i]);
      count := count + here;
    }
  }

  /** The inner loop of part 1: the directions from `c` along which XMAS reads. */
  method WordsAt(g: Grid, c: Coordinate) returns (here: nat)
    requires Valid(g)
    ensures here == DirsFrom(g, c, |Directions|)
  {
    here := 0;
    for j := 0 to |Directions|
      invariant here == DirsFrom(g, c, j)
    {
      if ContainsAt(g, Xmas, c, Directions[j]) {
        here := here + 1;
      }
    }
  }

  // ---- part 2 ----

  const Mas: seq<Option<char>> := [Some('M'), Some('A'), Some('S')]
  const Sam: seq<Option<char>> := [Some('S'), Some('A'), Some('M')]

  /** Three letters reading MAS one way or the other. */
  predicate MasEitherWay(vs: seq<Option<char>>) {
    vs == Mas || vs == Sam
  }

  /** The three letters `values_from` reads from `c` along `d`. */
  function Three(g: Grid, c: Coordinate, d: Direction): (vs: seq<Option<char>>)
    requires Valid(g)
    ensures |vs| == 3
  {
    [Get(g, c), Get(g, Next(d, c)), Get(g, Next(d, Next(d, c)))]
  }

  /** Both diagonals through `c` read MAS or SAM. */
  predicate CrossAt(g: Grid, c: Coordinate)
    requires Valid(g)
  {
    MasEitherWay(Three(g, Next(NorthWest, c), SouthEast)) && MasEitherWay(Three(g, Next(SouthWest, c), NorthEast))
  }

  /** `M` and `S` at the two ends, either way round. */
  predicate MAndS(a: Option<char>, b: Option<char>) {
    (a == Some('M') && b == Some('S')) || (a == Some('S') && b == Some('M'))
  }

  /** An X-MAS is an `A` with an `M` and an `S` at opposite ends of each diagonal. */
  lemma CrossAtIff(g: Grid, c: Coordinate)
    requires Valid(g)
    ensures CrossAt(g, c) <==>
      (Get(g, c) == Some('A')
       && MAndS(Get(g, Next(NorthWest, c)), Get(g, Next(SouthEast, c)))
       && MAndS(Get(g, Next(SouthWest, c)), Get(g, Next(NorthEast, c))))
  {
    assert Next(SouthEast, Next(NorthWest, c)) == c;
    assert Next(NorthEast, Next(SouthWest, c)) == c;
  }

  /** Part 2 over the first `n` cells of `cs`: those at the centre of an X-MAS. */
  function CrossCount(g: Grid, cs: seq<Coordinate>, n: nat): (r: nat)
    requires Valid(g) && n <= |cs|
    ensures r <= n
  {
    if n == 0 then 0 else CrossCount(g, cs, n - 1) + (if CrossAt(g, cs[n - 1]) then 1 else 0)
  }

  /** `values_from` reads `Three`. */
  method ReadThree(g: Grid, c: Coordinate, d: Direction) returns (vs: seq<Option<char>>)
    requires Valid(g)
    ensures vs == Three(g, c, d)
  {
    vs := ValuesFrom(g, c, d, 3);
    LineAt(g, c, d, 3, 0);
    LineAt(g, c, d, 3, 1);
    LineAt(g, c, d, 3, 2);
    assert Walk(d, c, 1) == Next(d, c);
    assert Walk(d, c, 2) == Next(d, Next(d, c));
  }

  /** One centre of the part-2 loop: both diagonals are read and compared, the second only when the first reads MAS. */
  method IsCross(g: Grid, coord: Coordinate) returns (cross: bool)
    requires Valid(g)
    ensures cross == CrossAt(g, coord)
  {
    var a := ReadThree(g, Next(NorthWest, coord), SouthEast);
    if a != Mas && a != Sam {
      return false;
    }
    var b := ReadThree(g, Next(SouthWest, coord), NorthEast);
    cross := b == Mas || b == Sam;
  }

  /** The part-2 loop: each `A` whose two diagonals both read MAS or SAM. */
  method Part2(g: Grid) returns (count: nat)
    requires Valid(g)
    ensures count == CrossCount(g, FindAll(g, 'A'), |FindAll(g, 'A')|)
  {
    var centres := FindAll(g, 'A');
    count := 0;
    for i := 0 to |centres|
      invariant count == CrossCount(g, centres, i)
    {
      var cross := IsCross(g, centres[i]);
      if cross {
        count := count + 1;
      }
    }
  }
}
