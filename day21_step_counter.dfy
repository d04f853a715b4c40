/**
 * The garden-plot step counter: a grid of rocks (`#`), garden plots (`.`), the start (`S`) and
 * the plots reached so far (`O`). Each `advance` moves every reached position one step north,
 * east, south and west onto the cells that are not rock.
 */
module StepCounter {
  import opened Wrappers

  const IndexError := "IndexError: list index out of range"
  const ValueError := "ValueError"

  /** The cell contents, with the characters they are written as. */
  datatype Content = Empty | Wall | Start | Plot

  function Symbol(c: Content): char {
    match c
    case Empty => '.'
    case Wall => '#'
    case Start => 'S'
    case Plot => 'O'
  }

  /** The `Content(c)` conversion used while parsing: a ValueError for any other character. */
  function ContentOf(ch: char): (r: Result<Content>)
    ensures r.Success? ==> Symbol(r.value) == ch
    ensures r.Failure? <==> ch != '.' && ch != '#' && ch != 'S' && ch != 'O'
  {
    if ch == '.' then Success(Empty)
    else if ch == '#' then Success(Wall)
    else if ch == 'S' then Success(Start)
    else if ch == 'O' then Success(Plot)
    else Failure(ValueError)
  }

  /** Converting a content's own character gives the content back. */
  lemma ContentRoundTrip(c: Content)
    ensures ContentOf(Symbol(c)) == Success(c)
  {
  }

  datatype Coordinate = Coordinate(row: int, col: int)

  datatype Direction = North | East | South | West

  /** `for direction in Direction` visits the members in declaration order. */
  const Directions: seq<Direction> := [North, East, South, West]

  /** `Direction.next`: one step along the direction, with no bounds check. */
  function Next(d: Direction, c: Coordinate): (r: Coordinate)
    ensures (r.row == c.row) != (r.col == c.col)
    ensures -1 <= r.row - c.row <= 1 && -1 <= r.col - c.col <= 1
  {
    match d
    case North => Coordinate(c.row - 1, c.col)
    case East => Coordinate(c.row, c.col + 1)
    case South => Coordinate(c.row + 1, c.col)
    case West => Coordinate(c.row, c.col - 1)
  }

  /** The four directions lead to four different cells. */
  lemma DirectionsDistinct(c: Coordinate, i: nat, j: nat)
    requires i < j < |Directions|
    ensures Next(Directions[i], c) != Next(Directions[j], c)
  {
  }

  // ---- the grid ----

  datatype Grid = Grid(rows: nat, cols: nat, content: seq<seq<Content>>)

  /** `rows` rows of `cols` cells each. */
  predicate Shaped(content: seq<seq<Content>>, rows: nat, cols: nat) {
    |content| == rows && forall r :: 0 <= r < rows ==> |content[r]| == cols
  }

  /** What the constructor establishes: at least one row, all of the same length. */
  predicate Valid(g: Grid) {
    g.rows >= 1 && Shaped(g.content, g.rows, g.cols)
  }

  /**
   * `Grid(content)`: the first row's length is the width (an IndexError without rows), and a
   * row of another length is a ValueError.
   */
  function NewGrid(content: seq<seq<Content>>): (r: Result<Grid>)
    ensures r.Success? ==> Valid(r.value) && r.value.content == content
    ensures r == Failure(IndexError) <==> content == []
    ensures r == Failure(ValueError) <==> content != [] && !Shaped(content, |content|, |content[0]|)
  {
    if content == [] then Failure(IndexError)
    else if Shaped(content, |content|, |content[0]|) then Success(Grid(|content|, |content[0]|, content))
    else Failure(ValueError)
  }

  predicate InGrid(g: Grid, x: Coordinate) {
    0 <= x.row < g.rows && 0 <= x.col < g.cols
  }

  function At(content: seq<seq<Content>>, x: Coordinate): Content
    requires 0 <= x.row < |content| && 0 <= x.col < |content[x.row]|
  {
    content[x.row][x.col]
  }

  /** `content[row][col] = v`: that one cell changes and every other cell keeps its value. */
  function Set(content: seq<seq<Content>>, rows: nat, cols: nat, x: Coordinate, v: Content): (r: seq<seq<Content>>)
    requires Shaped(content, rows, cols) && 0 <= x.row < rows && 0 <= x.col < cols
    ensures Shaped(r, rows, cols)
    ensures forall y: Coordinate :: 0 <= y.row < rows && 0 <= y.col < cols ==> At(r, y) == if y == x then v else At(content, y)
  {
    content[x.row := content[x.row][x.col := v]]
  }

  /** A reached position: the start, or a plot marked by an earlier step. */
  predicate Active(g: Grid, x: Coordinate)
    requires Valid(g) && InGrid(g, x)
  {
    At(g.content, x) == Start || At(g.content, x) == Plot
  }

  // ---- advance, step by step ----

  /**
   * Python's list index: `0 <= i < n` as is, `-n <= i < 0` counted from the end, and an
   * IndexError otherwise.
   */
  function PyIndex(i: int, n: nat): (r: Option<nat>)
    ensures r.Some? <==> -(n as int) <= i < n
    ensures r.Some? ==> r.value < n && (r.value == i || r.value == i + n)
  {
    if 0 <= i < n then Some(i) else if -(n as int) <= i < 0 then Some(i + n) else None
  }

  /** The cell Python's two index operations land on for `p`, or None when one raises. */
  function Landing(g: Grid, p: Coordinate): (r: Option<Coordinate>)
    ensures r.Some? ==> InGrid(g, r.value)
  {
    match (PyIndex(p.row, g.rows), PyIndex(p.col, g.cols))
    case (Some(row), Some(col)) => Some(Coordinate(row, col))
    case _ => None
  }

  /**
   * Marking one neighbour `p`: the cell the indexing lands on becomes a plot unless the
   * original grid has rock there; an index past the end raises.
   */
  function Mark(g: Grid, content: seq<seq<Content>>, p: Coordinate): (r: Result<seq<seq<Content>>>)
    requires Valid(g) && Shaped(content, g.rows, g.cols)
    ensures r.Success? ==> Shaped(r.value, g.rows, g.cols)
  {
    match Landing(g, p)
    case None => Failure(IndexError)
    case Some(x) => if At(g.content, x) != Wall then Success(Set(content, g.rows, g.cols, x, Plot)) else Success(content)
  }

  /** The first `k` directions of the inner loop, marking the neighbours of `x` in order. */
  function Marks(g: Grid, content: seq<seq<Content>>, x: Coordinate, k: nat): (r: Result<seq<seq<Content>>>)
    requires Valid(g) && Shaped(content, g.rows, g.cols) && k <= |Directions|
    ensures r.Success? ==> Shaped(r.value, g.rows, g.cols)
  {
    if k == 0 then Success(content)
    else
      match Marks(g, content, x, k - 1)
      case Failure(e) => Failure(e)
      case Success(c) => Mark(g, c, Next(Directions[k - 1], x))
  }

  /** The loop body for cell `x`: a reached cell is cleared and its neighbours marked. */
  function Visit(g: Grid, content: seq<seq<Content>>, x: Coordinate): (r: Result<seq<seq<Content>>>)
    requires Valid(g) && Shaped(content, g.rows, g.cols) && InGrid(g, x)
    ensures r.Success? ==> Shaped(r.value, g.rows, g.cols)
  {
    if Active(g, x) then Marks(g, Set(content, g.rows, g.cols, x, Empty), x, |Directions|) else Success(content)
  }

  /** The inner loop over the first `col` cells of row `row`, starting from `content`. */
  function SweepRow(g: Grid, content: seq<seq<Content>>, row: nat, col: nat): (r: Result<seq<seq<Content>>>)
    requires Valid(g) && Shaped(content, g.rows, g.cols) && row < g.rows && col <= g.cols
    ensures r.Success? ==> Shaped(r.value, g.rows, g.cols)
  {
    if col == 0 then Success(content)
    else
      match SweepRow(g, content, row, col - 1)
      case Failure(e) => Failure(e)
      case Success(c) => Visit(g, c, Coordinate(row, col - 1))
  }

  /** The outer loop over the first `row` rows, starting from a copy of the grid. */
  function Sweep(g: Grid, row: nat): (r: Result<seq<seq<Content>>>)
    requires Valid(g) && row <= g.rows
    ensures r.Success? ==> Shaped(r.value, g.rows, g.cols)
  {
    if row == 0 then Success(g.content)
    else
      match Sweep(g, row - 1)
      case Failure(e) => Failure(e)
      case Success(c) => SweepRow(g, c, row - 1, g.cols)
  }

  /** `advance`: a new grid of the same size built from the swept copy; `g` is left as it was. */
  function Advanced(g: Grid): (r: Result<Grid>)
    requires Valid(g)
    ensures r.Success? ==> Valid(r.value) && r.value.rows == g.rows && r.value.cols == g.cols
  {
    match Sweep(g, g.rows)
    case Failure(e) => Failure(e)
    case Success(c) => Success(Grid(g.rows, g.cols, c))
  }

  // ---- the imperative advance ----

  /** The direction loop for one reached cell. */
  method VisitCell(g: Grid, content: seq<seq<Content>>, x: Coordinate) returns (r: Result<seq<seq<Content>>>)
    requires Valid(g) && Shaped(content, g.rows, g.cols) && InGrid(g, x)
    ensures r == Visit(g, content, x)
  {
    if !(At(g.content, x) == Start || At(g.content, x) == Plot) {
      return Success(content);
    }
    var c := Set(content, g.rows, g.cols, x, Empty);
    ghost var cleared := c;
    for k := 0 to |Directions|
      invariant Shaped(c, g.rows, g.cols)
      invariant Marks(g, cleared, x, k) == Success(c)
    {
      var next := Next(Directions[k], x);
      var row := PyIndex(next.row, g.rows);
      var col := PyIndex(next.col, g.cols);
      if row.None? || col.None? {
        MarksSticks(g, cleared, x, k + 1, |Directions|);
        return Failure(IndexError);
      }
      if At(g.content, Coordinate(row.value, col.value)) != Wall {
        c := Set(c, g.rows, g.cols, Coordinate(row.value, col.value), Plot);
      }
    }
    return Success(c);
  }

  /** Once a mark raises, the remaining directions keep that failure. */
  lemma {:induction false} MarksSticks(g: Grid, content: seq<seq<Content>>, x: Coordinate, k: nat, more: nat)
    requires Valid(g) && Shaped(content, g.rows, g.cols) && k <= more <= |Directions|
    requires Marks(g, content, x, k).Failure?
    ensures Marks(g, content, x, more) == Marks(g, content, x, k)
    decreases more
  {
    if k < more {
      MarksSticks(g, content, x, k, more - 1);
    }
  }

  /** Once a step of the sweep raises, the rest of the row keeps that failure. */
  lemma {:induction false} RowSticks(g: Grid, content: seq<seq<Content>>, row: nat, col: nat, more: nat)
    requires Valid(g) && Shaped(content, g.rows, g.cols) && row < g.rows && col <= more <= g.cols
    requires SweepRow(g, content, row, col).Failure?
    ensures SweepRow(g, content, row, more) == SweepRow(g, content, row, col)
    decreases more
  {
    if col < more {
      RowSticks(g, content, row, col, more - 1);
    }
  }

  /** Once a row raises, every later row keeps that failure. */
  lemma {:induction false} SweepSticks(g: Grid, row: nat, more: nat)
    requires Valid(g) && row <= more <= g.rows
    requires Sweep(g, row).Failure?
    ensures Sweep(g, more) == Sweep(g, row)
    decreases more
  {
    if row < more {
      SweepSticks(g, row, more - 1);
    }
  }

  /** The inner `for col` loop of `advance`. */
  method AdvanceRow(g: Grid, content: seq<seq<Content>>, row: nat) returns (r: Result<seq<seq<Content>>>)
    requires Valid(g) && Shaped(content, g.rows, g.cols) && row < g.rows
    ensures r == SweepRow(g, content, row, g.cols)
  {
    var c := content;
    for col := 0 to g.cols
      invariant Shaped(c, g.rows, g.cols)
      invariant SweepRow(g, content, row, col) == Success(c)
    {
      var visited := VisitCell(g, c, Coordinate(row, col));
      if visited.Failure? {
        RowSticks(g, content, row, col + 1, g.cols);
        return visited;
      }
      c := visited.value;
    }
    return Success(c);
  }

  /** `advance`: copy the content, sweep it row by row, and build a new grid from the copy. */
  method Advance(g: Grid) returns (r: Result<Grid>)
    requires Valid(g)
    ensures r == Advanced(g)
  {
    var content := g.content;
    for row := 0 to g.rows
      invariant Shaped(content, g.rows, g.cols)
      invariant Sweep(g, row) == Success(content)
    {
      var swept := AdvanceRow(g, content, row);
      if swept.Failure? {
        SweepSticks(g, row + 1, g.rows);
        return Failure(swept.error);
      }
      content := swept.value;
    }
    return Success(Grid(g.rows, g.cols, content));
  }

  // ---- what advance keeps ----

  /** Cell `x` comes before position (`row`, `col`) of the row-major sweep. */
  predicate Processed(x: Coordinate, row: int, col: int) {
    x.row < row || (x.row == row && x.col < col)
  }

  /**
   * Rock stays rock and nothing else becomes rock; a start is left only on a cell of the
   * original start that the sweep has not reached yet.
   */
  ghost predicate Kept(g: Grid, content: seq<seq<Content>>, row: int, col: int)
    requires Valid(g) && Shaped(content, g.rows, g.cols)
  {
    forall x: Coordinate :: InGrid(g, x) ==>
      (At(content, x) == Wall <==> At(g.content, x) == Wall)
      && (At(content, x) == Start ==> At(g.content, x) == Start && !Processed(x, row, col))
  }

  lemma {:induction false} MarksKeep(g: Grid, content: seq<seq<Content>>, x: Coordinate, k: nat, row: int, col: int)
    requires Valid(g) && Shaped(content, g.rows, g.cols) && k <= |Directions|
    requires Kept(g, content, row, col)
    requires Marks(g, content, x, k).Success?
    ensures Kept(g, Marks(g, content, x, k).value, row, col)
    decreases k
  {
    if k > 0 {
      MarksKeep(g, content, x, k - 1, row, col);
    }
  }

  lemma VisitKeeps(g: Grid, content: seq<seq<Content>>, x: Coordinate)
    requires Valid(g) && Shaped(content, g.rows, g.cols) && InGrid(g, x)
    requires Kept(g, content, x.row, x.col)
    requires Visit(g, content, x).Success?
    ensures Kept(g, Visit(g, content, x).value, x.row, x.col + 1)
  {
    if Active(g, x) {
      var cleared := Set(content, g.rows, g.cols, x, Empty);
      assert Kept(g, cleared, x.row, x.col + 1);
      MarksKeep(g, cleared, x, |Directions|, x.row, x.col + 1);
    }
  }

  lemma {:induction false} RowKeeps(g: Grid, content: seq<seq<Content>>, row: nat, col: nat)
    requires Valid(g) && Shaped(content, g.rows, g.cols) && row < g.rows && col <= g.cols
    requires Kept(g, content, row, 0)
    requires SweepRow(g, content, row, col).Success?
    ensures Kept(g, SweepRow(g, content, row, col).value, row, col)
    decreases col
  {
    if col > 0 {
      RowKeeps(g, content, row, col - 1);
      VisitKeeps(g, SweepRow(g, content, row, col - 1).value, Coordinate(row, col - 1));
    }
  }

  lemma {:induction false} SweepKeeps(g: Grid, row: nat)
    requires Valid(g) && row <= g.rows
    requires Sweep(g, row).Success?
    ensures Kept(g, Sweep(g, row).value, row, 0)
    decreases row
  {
    if row > 0 {
      SweepKeeps(g, row - 1);
      var c := Sweep(g, row - 1).value;
      RowKeeps(g, c, row - 1, g.cols);
    }
  }

  /** After `advance` rock is exactly where it was, and no start is left anywhere. */
  lemma AdvanceKeepsRock(g: Grid)
    requires Valid(g) && Advanced(g).Success?
    ensures forall x :: InGrid(g, x) ==> (At(Advanced(g).value.content, x) == Wall <==> At(g.content, x) == Wall)
    ensures forall x :: InGrid(g, x) ==> At(Advanced(g).value.content, x) != Start
  {
    SweepKeeps(g, g.rows);
  }

  // ---- when advance raises ----

  /** A cell on the last row or column: stepping south or east from it indexes past the end. */
  predicate OnEdge(g: Grid, x: Coordinate) {
    x.row + 1 == g.rows || x.col + 1 == g.cols
  }

  /** One of the first `k` directions from `x` leads to an index past the end. */
  predicate EscapesBy(g: Grid, x: Coordinate, k: nat)
    requires k <= |Directions|
  {
    k > 0 && (Landing(g, Next(Directions[k - 1], x)).None? || EscapesBy(g, x, k - 1))
  }

  lemma {:induction false} MarksFail(g: Grid, content: seq<seq<Content>>, x: Coordinate, k: nat)
    requires Valid(g) && Shaped(content, g.rows, g.cols) && k <= |Directions|
    ensures Marks(g, content, x, k).Failure? <==> EscapesBy(g, x, k)
    ensures Marks(g, content, x, k).Failure? ==> Marks(g, content, x, k).error == IndexError
    decreases k
  {
    if k > 0 {
      MarksFail(g, content, x, k - 1);
    }
  }

  /** Only a reached cell on the last row or column makes its step raise. */
  lemma VisitFails(g: Grid, content: seq<seq<Content>>, x: Coordinate)
    requires Valid(g) && Shaped(content, g.rows, g.cols) && InGrid(g, x)
    ensures Visit(g, content, x).Failure? <==> Active(g, x) && OnEdge(g, x)
    ensures Visit(g, content, x).Failure? ==> Visit(g, content, x).error == IndexError
  {
    if Active(g, x) {
      MarksFail(g, Set(content, g.rows, g.cols, x, Empty), x, |Directions|);
      EscapesIff(g, x);
    }
  }

  /** North and west wrap around or stay inside; east and south raise from the far edges. */
  lemma EscapesIff(g: Grid, x: Coordinate)
    requires Valid(g) && InGrid(g, x)
    ensures EscapesBy(g, x, |Directions|) <==> OnEdge(g, x)
  {
    assert !EscapesBy(g, x, 1) by {
      assert Landing(g, Next(North, x)).Some?;
    }
    assert EscapesBy(g, x, 2) <==> x.col + 1 == g.cols;
    assert EscapesBy(g, x, 3) <==> x.col + 1 == g.cols || x.row + 1 == g.rows;
    assert Landing(g, Next(West, x)).Some?;
  }

  lemma {:induction false} RowFails(g: Grid, content: seq<seq<Content>>, row: nat, col: nat)
    requires Valid(g) && Shaped(content, g.rows, g.cols) && row < g.rows && col <= g.cols
    ensures SweepRow(g, content, row, col).Failure? <==>
              exists j :: 0 <= j < col && Active(g, Coordinate(row, j)) && OnEdge(g, Coordinate(row, j))
    ensures SweepRow(g, content, row, col).Failure? ==> SweepRow(g, content, row, col).error == IndexError
    decreases col
  {
    if col > 0 {
      RowFails(g, content, row, col - 1);
      if SweepRow(g, content, row, col - 1).Success? {
        VisitFails(g, SweepRow(g, content, row, col - 1).value, Coordinate(row, col - 1));
      }
    }
  }

  lemma {:induction false} SweepFails(g: Grid, row: nat)
    requires Valid(g) && row <= g.rows
    ensures Sweep(g, row).Failure? <==> exists x :: InGrid(g, x) && x.row < row && Active(g, x) && OnEdge(g, x)
    ensures Sweep(g, row).Failure? ==> Sweep(g, row).error == IndexError
    decreases row
  {
    if row > 0 {
      SweepFails(g, row - 1);
      if Sweep(g, row - 1).Success? {
        RowFails(g, Sweep(g, row - 1).value, row - 1, g.cols);
        if exists x :: InGrid(g, x) && x.row < row && Active(g, x) && OnEdge(g, x) {
          var x :| InGrid(g, x) && x.row < row && Active(g, x) && OnEdge(g, x);
          if x.row == row - 1 {
            assert Coordinate(row - 1, x.col) == x;
          }
        }
      }
    }
  }

  /**
   * `advance` raises an IndexError exactly when some reached cell sits on the last row or the
   * last column; cells on the first row or column wrap around to the far side instead.
   */
  lemma AdvanceFails(g: Grid)
    requires Valid(g)
    ensures Advanced(g).Failure? <==> exists x :: InGrid(g, x) && Active(g, x) && OnEdge(g, x)
    ensures Advanced(g).Failure? ==> Advanced(g).error == IndexError
  {
    SweepFails(g, g.rows);
  }

  // ---- advance on isolated reached cells ----

  /** `y` is where one of the first `k` directions from `p` lands. */
  predicate HitBy(g: Grid, p: Coordinate, y: Coordinate, k: nat)
    requires k <= |Directions|
  {
    k > 0 && (Landing(g, Next(Directions[k - 1], p)) == Some(y) || HitBy(g, p, y, k - 1))
  }

  /** No reached cell is a neighbour of a reached cell (itself included). */
  ghost predicate Isolated(g: Grid)
    requires Valid(g)
  {
    forall p, q :: InGrid(g, p) && InGrid(g, q) && Active(g, p) && Active(g, q) ==> !HitBy(g, p, q, |Directions|)
  }

  /** No reached cell on the last row or column, so `advance` does not raise. */
  ghost predicate OffEdge(g: Grid)
    requires Valid(g)
  {
    forall p :: InGrid(g, p) && Active(g, p) ==> !OnEdge(g, p)
  }

  /** `y` is a neighbour of a reached cell the sweep has already visited. */
  ghost predicate Reached(g: Grid, y: Coordinate, row: int, col: int)
    requires Valid(g)
  {
    exists p :: InGrid(g, p) && Processed(p, row, col) && Active(g, p) && HitBy(g, p, y, |Directions|)
  }

  /** What cell `y` holds once the sweep is at (`row`, `col`), for isolated reached cells. */
  ghost function Expected(g: Grid, y: Coordinate, row: int, col: int): Content
    requires Valid(g) && InGrid(g, y)
  {
    if At(g.content, y) == Wall then Wall
    else if Reached(g, y, row, col) then Plot
    else if Active(g, y) && Processed(y, row, col) then Empty
    else At(g.content, y)
  }

  ghost predicate Matches(g: Grid, content: seq<seq<Content>>, row: int, col: int)
    requires Valid(g) && Shaped(content, g.rows, g.cols)
  {
    forall y :: InGrid(g, y) ==> At(content, y) == Expected(g, y, row, col)
  }

  /** The first `k` marks from `p` turn exactly its non-rock neighbours into plots. */
  lemma {:induction false} MarksPlots(g: Grid, content: seq<seq<Content>>, p: Coordinate, k: nat)
    requires Valid(g) && Shaped(content, g.rows, g.cols) && k <= |Directions|
    requires !EscapesBy(g, p, k)
    ensures Marks(g, content, p, k).Success?
    ensures forall y :: InGrid(g, y) ==>
              At(Marks(g, content, p, k).value, y) == (if At(g.content, y) != Wall && HitBy(g, p, y, k) then Plot else At(content, y))
    decreases k
  {
    if k > 0 {
      MarksPlots(g, content, p, k - 1);
    }
  }

  /** A cell that is not reached changes nothing, and the sweep moves past it. */
  lemma IdlePlots(g: Grid, content: seq<seq<Content>>, x: Coordinate)
    requires Valid(g) && Shaped(content, g.rows, g.cols) && InGrid(g, x) && !Active(g, x)
    requires Matches(g, content, x.row, x.col)
    ensures Matches(g, content, x.row, x.col + 1)
  {
    forall y | InGrid(g, y)
      ensures Reached(g, y, x.row, x.col + 1) == Reached(g, y, x.row, x.col)
    {
      if Reached(g, y, x.row, x.col + 1) {
        var p :| InGrid(g, p) && Processed(p, x.row, x.col + 1) && Active(g, p) && HitBy(g, p, y, |Directions|);
        assert p != x;
      }
    }
    forall y | InGrid(g, y) && y != x
      ensures Processed(y, x.row, x.col + 1) == Processed(y, x.row, x.col)
    {
    }
  }

  /** A reached cell is emptied and its non-rock neighbours become plots. */
  lemma ActivePlots(g: Grid, content: seq<seq<Content>>, x: Coordinate)
    requires Valid(g) && Shaped(content, g.rows, g.cols) && InGrid(g, x) && Active(g, x)
    requires Isolated(g) && !OnEdge(g, x)
    requires Matches(g, content, x.row, x.col)
    ensures Visit(g, content, x).Success?
    ensures Matches(g, Visit(g, content, x).value, x.row, x.col + 1)
  {
    EscapesIff(g, x);
    var cleared := Set(content, g.rows, g.cols, x, Empty);
    MarksPlots(g, cleared, x, |Directions|);
    var next := Marks(g, cleared, x, |Directions|).value;
    forall y | InGrid(g, y)
      ensures At(next, y) == Expected(g, y, x.row, x.col + 1)
    {
      if At(g.content, y) == Wall {
      } else if HitBy(g, x, y, |Directions|) {
        assert Reached(g, y, x.row, x.col + 1);
      } else {
        if Reached(g, y, x.row, x.col + 1) {
          var p :| InGrid(g, p) && Processed(p, x.row, x.col + 1) && Active(g, p) && HitBy(g, p, y, |Directions|);
          assert p != x;
          assert Reached(g, y, x.row, x.col);
        }
        if y == x {
          assert !Reached(g, y, x.row, x.col + 1);
        }
      }
    }
  }

  lemma VisitPlots(g: Grid, content: seq<seq<Content>>, x: Coordinate)
    requires Valid(g) && Shaped(content, g.rows, g.cols) && InGrid(g, x)
    requires Isolated(g) && OffEdge(g)
    requires Matches(g, content, x.row, x.col)
    ensures Visit(g, content, x).Success?
    ensures Matches(g, Visit(g, content, x).value, x.row, x.col + 1)
  {
    if Active(g, x) {
      ActivePlots(g, content, x);
    } else {
      IdlePlots(g, content, x);
    }
  }

  lemma {:induction false} RowPlots(g: Grid, content: seq<seq<Content>>, row: nat, col: nat)
    requires Valid(g) && Shaped(content, g.rows, g.cols) && row < g.rows && col <= g.cols
    requires Isolated(g) && OffEdge(g)
    requires Matches(g, content, row, 0)
    ensures SweepRow(g, content, row, col).Success?
    ensures Matches(g, SweepRow(g, content, row, col).value, row, col)
    decreases col
  {
    if col > 0 {
      RowPlots(g, content, row, col - 1);
      VisitPlots(g, SweepRow(g, content, row, col - 1).value, Coordinate(row, col - 1));
    }
  }

  /** The end of a row and the start of the next are the same point of the sweep. */
  lemma RowTurn(g: Grid, content: seq<seq<Content>>, row: nat)
    requires Valid(g) && Shaped(content, g.rows, g.cols)
    requires Matches(g, content, row, g.cols)
    ensures Matches(g, content, row + 1, 0)
  {
    forall y | InGrid(g, y)
      ensures Expected(g, y, row, g.cols) == Expected(g, y, row + 1, 0)
    {
      if Reached(g, y, row + 1, 0) {
        var p :| InGrid(g, p) && Processed(p, row + 1, 0) && Active(g, p) && HitBy(g, p, y, |Directions|);
        assert Reached(g, y, row, g.cols);
      }
    }
  }

  lemma {:induction false} SweepPlots(g: Grid, row: nat)
    requires Valid(g) && row <= g.rows
    requires Isolated(g) && OffEdge(g)
    ensures Sweep(g, row).Success?
    ensures Matches(g, Sweep(g, row).value, row, 0)
    decreases row
  {
    if row > 0 {
      SweepPlots(g, row - 1);
      var c := Sweep(g, row - 1).value;
      RowPlots(g, c, row - 1, g.cols);
      RowTurn(g, SweepRow(g, c, row - 1, g.cols).value, row - 1);
    }
  }

  /** `y` is a neighbour of some reached cell. */
  ghost predicate Neighbour(g: Grid, y: Coordinate)
    requires Valid(g)
  {
    exists p :: InGrid(g, p) && Active(g, p) && HitBy(g, p, y, |Directions|)
  }

  /**
   * When no reached cell is on the far edges or next to another, one `advance` leaves rock in
   * place, makes every non-rock neighbour of a reached cell a plot, and empties the rest.
   */
  lemma AdvanceIsolated(g: Grid)
    requires Valid(g) && Isolated(g) && OffEdge(g)
    ensures Advanced(g).Success?
    ensures forall y :: InGrid(g, y) ==>
              At(Advanced(g).value.content, y) == (if At(g.content, y) == Wall then Wall else if Neighbour(g, y) then Plot else Empty)
  {
    SweepPlots(g, g.rows);
    forall y | InGrid(g, y)
      ensures Expected(g, y, g.rows, 0) == if At(g.content, y) == Wall then Wall else if Neighbour(g, y) then Plot else Empty
    {
      if Neighbour(g, y) {
        var p :| InGrid(g, p) && Active(g, p) && HitBy(g, p, y, |Directions|);
        assert Reached(g, y, g.rows, 0);
      }
    }
  }

  // ---- find_all and find_only ----

  /** `a` comes strictly before `b` in row-major order. */
  predicate Before(a: Coordinate, b: Coordinate) {
    a.row < b.row || (a.row == b.row && a.col < b.col)
  }

  predicate RowMajor(s: seq<Coordinate>) {
    forall i, j :: 0 <= i < j < |s| ==> Before(s[i], s[j])
  }

  lemma RowMajorJoin(a: seq<Coordinate>, b: seq<Coordinate>)
    requires RowMajor(a) && RowMajor(b)
    requires forall x, y :: x in a && y in b ==> Before(x, y)
    ensures RowMajor(a + b)
  {
    var s := a + b;
    forall i, j | 0 <= i < j < |s|
      ensures Before(s[i], s[j])
    {
      if i < |a| && j >= |a| {
        assert s[i] in a && s[j] in b;
      } else if i >= |a| {
        assert s[i] == b[i - |a|] && s[j] == b[j - |a|];
      }
    }
  }

  /** The matching cells among the first `m` of row `row`. */
  function RowFinds(g: Grid, value: Content, row: nat, m: nat): seq<Coordinate>
    requires Valid(g) && row < g.rows && m <= g.cols
  {
    if m == 0 then []
    else
      RowFinds(g, value, row, m - 1)
        + (if g.content[row][m - 1] == value then [Coordinate(row, m - 1)] else [])
  }

  lemma {:induction false} RowFindsContents(g: Grid, value: Content, row: nat, m: nat)
    requires Valid(g) && row < g.rows && m <= g.cols
    ensures forall x :: x in RowFinds(g, value, row, m) <==> x.row == row && 0 <= x.col < m && At(g.content, x) == value
    ensures RowMajor(RowFinds(g, value, row, m))
    decreases m
  {
    if m > 0 {
      RowFindsContents(g, value, row, m - 1);
      var tail := if g.content[row][m - 1] == value then [Coordinate(row, m - 1)] else [];
      RowMajorJoin(RowFinds(g, value, row, m - 1), tail);
    }
  }

  /** The matching cells of the first `n` rows. */
  function FindsUpTo(g: Grid, value: Content, n: nat): seq<Coordinate>
    requires Valid(g) && n <= g.rows
  {
    if n == 0 then [] else FindsUpTo(g, value, n - 1) + RowFinds(g, value, n - 1, g.cols)
  }

  lemma {:induction false} FindsUpToContents(g: Grid, value: Content, n: nat)
    requires Valid(g) && n <= g.rows
    ensures forall x :: x in FindsUpTo(g, value, n) <==> InGrid(g, x) && x.row < n && At(g.content, x) == value
    ensures RowMajor(FindsUpTo(g, value, n))
    decreases n
  {
    if n > 0 {
      FindsUpToContents(g, value, n - 1);
      RowFindsContents(g, value, n - 1, g.cols);
      RowMajorJoin(FindsUpTo(g, value, n - 1), RowFinds(g, value, n - 1, g.cols));
    }
  }

  /** `find_all(value)`: the comprehension over rows, then columns. */
  function FindAll(g: Grid, value: Content): seq<Coordinate>
    requires Valid(g)
  {
    FindsUpTo(g, value, g.rows)
  }

  /** `find_all` lists exactly the cells holding `value`, each once, in row-major order. */
  lemma FindAllContents(g: Grid, value: Content)
    requires Valid(g)
    ensures forall x :: x in FindAll(g, value) <==> InGrid(g, x) && At(g.content, x) == value
    ensures RowMajor(FindAll(g, value))
  {
    FindsUpToContents(g, value, g.rows);
  }

  /** `find_only`: the one cell holding `value`, or a ValueError. */
  function FindOnly(g: Grid, value: Content): Result<Coordinate>
    requires Valid(g)
  {
    var found := FindAll(g, value);
    if |found| != 1 then Failure(ValueError) else Success(found[0])
  }

  /** Two different cells both hold `value`. */
  ghost predicate Twice(g: Grid, value: Content)
    requires Valid(g)
  {
    exists a, b :: a != b && InGrid(g, a) && InGrid(g, b) && At(g.content, a) == value && At(g.content, b) == value
  }

  lemma FoundOne(g: Grid, value: Content)
    requires Valid(g) && |FindAll(g, value)| == 1
    ensures forall x :: InGrid(g, x) && At(g.content, x) == value ==> x == FindAll(g, value)[0]
  {
    FindAllContents(g, value);
    forall x | InGrid(g, x) && At(g.content, x) == value
      ensures x == FindAll(g, value)[0]
    {
      assert x in FindAll(g, value);
    }
  }

  lemma FoundTwo(g: Grid, value: Content)
    requires Valid(g) && |FindAll(g, value)| >= 2
    ensures Twice(g, value)
  {
    var found := FindAll(g, value);
    FindAllContents(g, value);
    assert found[0] in found && found[1] in found && Before(found[0], found[1]);
  }

  lemma FoundNone(g: Grid, value: Content)
    requires Valid(g) && FindAll(g, value) == []
    ensures forall x :: InGrid(g, x) ==> At(g.content, x) != value
  {
    FindAllContents(g, value);
  }

  /** `find_only` returns the cell when exactly one holds `value`, and raises when none or two do. */
  lemma FindOnlyIff(g: Grid, value: Content)
    requires Valid(g)
    ensures FindOnly(g, value).Success? ==>
              (InGrid(g, FindOnly(g, value).value) && At(g.content, FindOnly(g, value).value) == value
               && forall x :: InGrid(g, x) && At(g.content, x) == value ==> x == FindOnly(g, value).value)
    ensures FindOnly(g, value).Failure? ==>
              (forall x :: InGrid(g, x) ==> At(g.content, x) != value) || Twice(g, value)
  {
    var found := FindAll(g, value);
    if |found| == 1 {
      FindAllContents(g, value);
      assert found[0] in found;
      FoundOne(g, value);
    } else if |found| >= 2 {
      FoundTwo(g, value);
    } else {
      FoundNone(g, value);
    }
  }

  // ---- the step loop and the count ----

  /** `range(steps)` runs no passes for a negative count. */
  function Passes(steps: int): nat {
    if steps > 0 then steps else 0
  }

  /** The grid after `n` calls of `advance`, or the first IndexError. */
  function Walk(g: Grid, n: nat): (r: Result<Grid>)
    requires Valid(g)
    ensures r.Success? ==> Valid(r.value) && r.value.rows == g.rows && r.value.cols == g.cols
  {
    if n == 0 then Success(g)
    else
      match Walk(g, n - 1)
      case Failure(e) => Failure(e)
      case Success(h) => Advanced(h)
  }

  /** Rock never moves, however many steps are taken. */
  lemma {:induction false} WalkKeepsRock(g: Grid, n: nat)
    requires Valid(g) && Walk(g, n).Success?
    ensures forall x :: InGrid(g, x) ==> (At(Walk(g, n).value.content, x) == Wall <==> At(g.content, x) == Wall)
    decreases n
  {
    if n > 0 {
      WalkKeepsRock(g, n - 1);
      AdvanceKeepsRock(Walk(g, n - 1).value);
    }
  }

  /** Part 1: advance `steps` times, then count the plots. */
  method CountPlots(g: Grid, steps: int) returns (r: Result<nat>)
    requires Valid(g)
    ensures Walk(g, Passes(steps)).Failure? ==> r == Failure(Walk(g, Passes(steps)).error)
    ensures Walk(g, Passes(steps)).Success? ==> r == Success(|FindAll(Walk(g, Passes(steps)).value, Plot)|)
  {
    var garden := g;
    for i := 0 to Passes(steps)
      invariant Walk(g, i) == Success(garden)
    {
      var next := Advance(garden);
      if next.Failure? {
        WalkSticks(g, i + 1, Passes(steps));
        return Failure(next.error);
      }
      garden := next.value;
    }
    r := Success(|FindAll(garden, Plot)|);
  }

  /** Once a step raises, later steps keep that failure. */
  lemma {:induction false} WalkSticks(g: Grid, n: nat, more: nat)
    requires Valid(g) && n <= more && Walk(g, n).Failure?
    ensures Walk(g, more) == Walk(g, n)
    decreases more
  {
    if n < more {
      WalkSticks(g, n, more - 1);
    }
  }
}
