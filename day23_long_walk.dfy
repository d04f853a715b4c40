/**
 * The longest hike: a depth-first search over a maze of paths (`.`), forest (`#`) and slopes
 * (`^ > v <`) from the gap in the top row to the gap in the bottom row. The search keeps its
 * current position and a stack of the directions taken, marks the cells of the current path,
 * and backtracks by popping the stack.
 */
module LongWalk {
  import opened Wrappers

  const IndexError := "IndexError: list index out of range"
  const ValueError := "ValueError"
  const AttributeError := "AttributeError: 'NoneType' object has no attribute 'row'"
  /** The outcome of a search still going when its passes run out; the source would go on. */
  const Unfinished := "no result within the fuel"

  // ---- directions ----

  datatype Direction = North | East | South | West

  datatype Coordinate = Coordinate(row: int, col: int)

  /** `list(Direction)`: the members in declaration order. */
  const All: seq<Direction> := [North, East, South, West]

  /** The enum value of a direction. */
  function Index(d: Direction): (r: nat)
    ensures r < |All| && All[r] == d
  {
    match d
    case North => 0
    case East => 1
    case South => 2
    case West => 3
  }

  /** `Direction.next`: one step along the direction. */
  function Next(d: Direction, c: Coordinate): Coordinate {
    match d
    case North => Coordinate(c.row - 1, c.col)
    case East => Coordinate(c.row, c.col + 1)
    case South => Coordinate(c.row + 1, c.col)
    case West => Coordinate(c.row, c.col - 1)
  }

  /** `Direction.values(starting_with)`: every direction, or those from `starting_with` on. */
  function Values(startingWith: Option<Direction>): (r: seq<Direction>)
    ensures startingWith.None? ==> r == All
    ensures startingWith.Some? ==> |r| == |All| - Index(startingWith.value)
    ensures startingWith.Some? ==> forall i :: 0 <= i < |r| ==> r[i] == All[Index(startingWith.value) + i]
  {
    match startingWith
    case None => All
    case Some(d) => All[Index(d)..]
  }

  /** `reverse`: the opposite direction. */
  function Reverse(d: Direction): (r: Direction)
    ensures r != d
  {
    match d
    case North => South
    case East => West
    case South => North
    case West => East
  }

  /** Reversing twice gives the direction back, and stepping back undoes a step. */
  lemma ReverseUndoes(d: Direction, c: Coordinate)
    ensures Reverse(Reverse(d)) == d
    ensures Next(Reverse(d), Next(d, c)) == c
  {
  }

  /** `succ`: the next direction in declaration order, and None after West. */
  function Succ(d: Direction): (r: Option<Direction>)
    ensures r.None? <==> d == West
    ensures r.Some? ==> Index(r.value) == Index(d) + 1
  {
    match d
    case North => Some(East)
    case East => Some(South)
    case South => Some(West)
    case West => None
  }

  // ---- cells ----

  datatype Content = Empty | Wall | Start | Path | SlopeNorth | SlopeWest | SlopeSouth | SlopeEast

  predicate IsSlope(c: Content) {
    c == SlopeNorth || c == SlopeWest || c == SlopeSouth || c == SlopeEast
  }

  /** The direction a slope points downhill. */
  function Downhill(c: Content): Direction
    requires IsSlope(c)
  {
    match c
    case SlopeNorth => North
    case SlopeWest => West
    case SlopeSouth => South
    case SlopeEast => East
  }

  /**
   * `can_enter`: an open path always; a slope only downhill, or from any side in part 2;
   * forest, the start and the cells already on the path never.
   */
  function CanEnter(c: Content, d: Direction, part2: bool): (r: bool)
    ensures r <==> c == Empty || (IsSlope(c) && (part2 || Downhill(c) == d))
  {
    if c == Empty then true
    else if part2 && IsSlope(c) then true
    else if c == SlopeNorth && d == North then true
    else if c == SlopeWest && d == West then true
    else if c == SlopeSouth && d == South then true
    else if c == SlopeEast && d == East then true
    else false
  }

  // ---- the grid ----

  datatype Grid = Grid(rows: nat, cols: nat, content: seq<seq<Content>>)

  predicate Shaped(content: seq<seq<Content>>, rows: nat, cols: nat) {
    |content| == rows && forall r :: 0 <= r < rows ==> |content[r]| == cols
  }

  predicate Valid(g: Grid) {
    g.rows >= 1 && Shaped(g.content, g.rows, g.cols)
  }

  /** The constructor's shape checks: an IndexError without rows, a ValueError for ragged rows. */
  function NewGrid(content: seq<seq<Content>>): (r: Result<Grid>)
    ensures r.Success? ==> Valid(r.value) && r.value.content == content
    ensures r == Failure(IndexError) <==> content == []
    ensures r == Failure(ValueError) <==> content != [] && !Shaped(content, |content|, |content[0]|)
  {
    if content == [] then Failure(IndexError)
    else if Shaped(content, |content|, |content[0]|) then Success(Grid(|content|, |content[0]|, content))
    else Failure(ValueError)
  }

  /** `inbounds`. */
  predicate InBounds(rows: nat, cols: nat, x: Coordinate) {
    0 <= x.row < rows && 0 <= x.col < cols
  }

  /** The cell at `x`, for a coordinate on the grid. */
  predicate Holds(content: seq<seq<Content>>, x: Coordinate) {
    0 <= x.row < |content| && 0 <= x.col < |content[x.row]|
  }

  /** `grid[row][col]`; off the grid, which the search never reads, a forest cell. */
  function At(content: seq<seq<Content>>, x: Coordinate): Content {
    if Holds(content, x) then content[x.row][x.col] else Wall
  }

  /** `grid[row][col] = v`: that one cell changes (nothing changes off the grid). */
  function Set(content: seq<seq<Content>>, x: Coordinate, v: Content): seq<seq<Content>> {
    if Holds(content, x) then content[x.row := content[x.row][x.col := v]] else content
  }

  /** Setting a cell on the grid changes that cell and no other. */
  lemma SetChangesOneCell(content: seq<seq<Content>>, x: Coordinate, v: Content, y: Coordinate)
    requires Holds(content, x)
    ensures At(Set(content, x, v), y) == if y == x then v else At(content, y)
  {
  }

  /** Writing back a cell's old value restores the grid. */
  lemma SetBack(content: seq<seq<Content>>, x: Coordinate, v: Content)
    ensures Set(Set(content, x, v), x, At(content, x)) == content
  {
    if Holds(content, x) {
      var r := Set(Set(content, x, v), x, At(content, x));
      assert r[x.row] == content[x.row];
    }
  }

  /** The first of the first `n` columns of `row` holding an open path. */
  function FirstEmpty(g: Grid, row: nat, n: nat): (r: Option<nat>)
    requires Valid(g) && row < g.rows && n <= g.cols
    ensures r.Some? ==> r.value < n && g.content[row][r.value] == Empty
                        && forall c :: 0 <= c < r.value ==> g.content[row][c] != Empty
    ensures r.None? ==> forall c :: 0 <= c < n ==> g.content[row][c] != Empty
  {
    if n == 0 then None
    else
      match FirstEmpty(g, row, n - 1)
      case Some(c) => Some(c)
      case None => if g.content[row][n - 1] == Empty then Some(n - 1) else None
  }

  /** `_empty_in_row`: the leftmost open cell of the row, if any. */
  function EmptyInRow(g: Grid, row: nat): Option<Coordinate>
    requires Valid(g) && row < g.rows
  {
    match FirstEmpty(g, row, g.cols)
    case None => None
    case Some(c) => Some(Coordinate(row, c))
  }

  /**
   * The start is the first open cell of the top row and the end that of the bottom row: the
   * cell found is open and no cell left of it is; None when the row has no open cell.
   */
  lemma EmptyInRowIsFirst(g: Grid, row: nat)
    requires Valid(g) && row < g.rows
    ensures EmptyInRow(g, row).Some? ==>
              EmptyInRow(g, row).value.row == row && InBounds(g.rows, g.cols, EmptyInRow(g, row).value)
              && At(g.content, EmptyInRow(g, row).value) == Empty
              && forall c :: 0 <= c < EmptyInRow(g, row).value.col ==> g.content[row][c] != Empty
    ensures EmptyInRow(g, row).None? <==> forall c :: 0 <= c < g.cols ==> g.content[row][c] != Empty
  {
  }

  // ---- the search, as values ----

  /** What the search works in: the grid's size, the start and end cells, and the part. */
  datatype Maze = Maze(rows: nat, cols: nat, start: Coordinate, end: Option<Coordinate>, part2: bool)

  /** The search state: the marked grid, the position, and the stack of directions taken. */
  datatype Search = Search(cells: seq<seq<Content>>, pos: Coordinate, dirs: seq<Direction>)

  /** Where the directions lead from `start`. */
  function Follow(start: Coordinate, dirs: seq<Direction>): Coordinate {
    if dirs == [] then start else Next(dirs[|dirs| - 1], Follow(start, dirs[..|dirs| - 1]))
  }

  /** Every point of the walk the directions spell from the start lies on the grid. */
  predicate OnGrid(m: Maze, dirs: seq<Direction>)
    decreases |dirs|
  {
    InBounds(m.rows, m.cols, Follow(m.start, dirs)) && (dirs != [] ==> OnGrid(m, dirs[..|dirs| - 1]))
  }

  /**
   * The stack spells a walk from the start that stays on the grid and ends at `pos`: the
   * stack's length is the length of that walk.
   */
  predicate Consistent(m: Maze, s: Search) {
    OnGrid(m, s.dirs) && s.pos == Follow(m.start, s.dirs)
  }

  /** Moving along `d` stays on the grid and the cell there can be entered that way. */
  predicate Open(m: Maze, s: Search, d: Direction) {
    var n := Next(d, s.pos);
    InBounds(m.rows, m.cols, n) && CanEnter(At(s.cells, n), d, m.part2)
  }

  /** The first open direction among `All[from..]`. */
  function FirstOpen(m: Maze, s: Search, from: nat): (r: Option<nat>)
    ensures r.Some? ==> from <= r.value < |All|
    decreases |All| - from
  {
    if from >= |All| then None
    else if Open(m, s, All[from]) then Some(from)
    else FirstOpen(m, s, from + 1)
  }

  /** The direction found is open and none before it from `from` on is; None means none is open. */
  lemma {:induction false} FirstOpenIsFirst(m: Maze, s: Search, from: nat)
    ensures FirstOpen(m, s, from).Some? ==>
              var k := FirstOpen(m, s, from).value;
              from <= k < |All| && Open(m, s, All[k]) && forall j :: from <= j < k ==> !Open(m, s, All[j])
    ensures FirstOpen(m, s, from).None? ==> forall j :: from <= j < |All| ==> !Open(m, s, All[j])
    decreases |All| - from
  {
    if from < |All| && !Open(m, s, All[from]) {
      FirstOpenIsFirst(m, s, from + 1);
    }
  }

  /** One step forward along `d`: an open cell is marked as path, a slope is not. */
  function Push(s: Search, d: Direction): Search {
    var n := Next(d, s.pos);
    Search(if At(s.cells, n) == Empty then Set(s.cells, n, Path) else s.cells, n, s.dirs + [d])
  }

  /** `retreat` on a non-empty stack: pop the last direction, unmark a path cell, step back. */
  function Pop(s: Search): (Search, Direction)
    requires s.dirs != []
  {
    var last := s.dirs[|s.dirs| - 1];
    var cells := if At(s.cells, s.pos) == Path then Set(s.cells, s.pos, Empty) else s.cells;
    (Search(cells, Next(Reverse(last), s.pos), s.dirs[..|s.dirs| - 1]), last)
  }

  /** Entering marks the entered cell as path if it was open, and changes no other cell. */
  lemma PushMarks(s: Search, d: Direction, y: Coordinate)
    requires Holds(s.cells, Next(d, s.pos))
    ensures At(Push(s, d).cells, y) == if y == Next(d, s.pos) && At(s.cells, y) == Empty then Path else At(s.cells, y)
  {
    if At(s.cells, Next(d, s.pos)) == Empty {
      SetChangesOneCell(s.cells, Next(d, s.pos), Path, y);
    }
  }

  /** Retreating unmarks the cell left behind if it was marked as path, and changes no other cell. */
  lemma PopUnmarks(s: Search, y: Coordinate)
    requires s.dirs != [] && Holds(s.cells, s.pos)
    ensures At(Pop(s).0.cells, y) == if y == s.pos && At(s.cells, y) == Path then Empty else At(s.cells, y)
  {
    if At(s.cells, s.pos) == Path {
      SetChangesOneCell(s.cells, s.pos, Empty, y);
    }
  }

  /** A step along an open direction keeps the walk on the grid and ends it one step further. */
  lemma PushKeeps(m: Maze, s: Search, d: Direction)
    requires Consistent(m, s) && Open(m, s, d)
    ensures Consistent(m, Push(s, d))
    ensures Push(s, d).dirs == s.dirs + [d] && Push(s, d).pos == Next(d, s.pos)
  {
    assert (s.dirs + [d])[..|s.dirs|] == s.dirs;
  }

  /** Popping keeps the walk on the grid and goes back to where the shorter walk ends. */
  lemma PopKeeps(m: Maze, s: Search)
    requires Consistent(m, s) && s.dirs != []
    ensures Consistent(m, Pop(s).0)
    ensures Pop(s).0.pos == Follow(m.start, s.dirs[..|s.dirs| - 1])
    ensures Pop(s).0.dirs == s.dirs[..|s.dirs| - 1] && Pop(s).1 == s.dirs[|s.dirs| - 1]
  {
    ReverseUndoes(s.dirs[|s.dirs| - 1], Follow(m.start, s.dirs[..|s.dirs| - 1]));
  }

  /** `retreat` undoes `advance`: popping a step just pushed restores the state exactly. */
  lemma PopUndoesPush(m: Maze, s: Search, d: Direction)
    requires Open(m, s, d)
    ensures Pop(Push(s, d)) == (s, d)
  {
    var n := Next(d, s.pos);
    ReverseUndoes(d, s.pos);
    SetBack(s.cells, n, Path);
    assert (s.dirs + [d])[..|s.dirs|] == s.dirs;
  }

  /**
   * `advance(hint)` with the hint as an index into `All`: take the first open direction from
   * the hint on; with none, pop until a popped direction has a successor and try again from
   * there, giving up once everything is popped.
   */
  function Advanced(m: Maze, s: Search, from: nat): (bool, Search)
    decreases |s.dirs|
  {
    match FirstOpen(m, s, from)
    case Some(k) => (true, Push(s, All[k]))
    case None =>
      if s.dirs == [] then (false, s)
      else
        var (t, last) := Pop(s);
        Advanced(m, t, Index(last) + 1)
  }

  /**
   * Advancing keeps the walk on the grid; a successful advance pushes an open direction, and
   * an unsuccessful one leaves an empty stack back at the start.
   */
  lemma {:induction false} AdvancedKeeps(m: Maze, s: Search, from: nat)
    requires Consistent(m, s)
    ensures Consistent(m, Advanced(m, s, from).1)
    ensures Advanced(m, s, from).0 ==> Advanced(m, s, from).1.dirs != []
    ensures !Advanced(m, s, from).0 ==> Advanced(m, s, from).1.dirs == [] && Advanced(m, s, from).1.pos == m.start
    decreases |s.dirs|
  {
    match FirstOpen(m, s, from)
    case Some(k) =>
      FirstOpenIsFirst(m, s, from);
      PushKeeps(m, s, All[k]);
    case None =>
      if s.dirs != [] {
        PopKeeps(m, s);
        AdvancedKeeps(m, Pop(s).0, Index(Pop(s).1) + 1);
      }
  }

  /** One call of `advance` with no hint, as a step of the exploration loop. */
  function Advancing(m: Maze): Search -> (bool, Search) {
    t => Advanced(m, t, 0)
  }

  /** The state after `n` more successful steps, or None once the search has given up. */
  function Reach(step: Search -> (bool, Search), s: Search, n: nat): Option<Search>
    decreases n
  {
    if n == 0 then Some(s)
    else
      var (moved, t) := step(s);
      if !moved then None else Reach(step, t, n - 1)
  }

  /** An invariant every step keeps holds of every state reached. */
  lemma {:induction false} ReachKeepsInvariant(step: Search -> (bool, Search), inv: Search -> bool, s: Search, n: nat)
    requires inv(s) && forall t :: inv(t) ==> inv(step(t).1)
    requires Reach(step, s, n).Some?
    ensures inv(Reach(step, s, n).value)
    decreases n
  {
    if n > 0 {
      ReachKeepsInvariant(step, inv, step(s).1, n - 1);
    }
  }

  /** Every state the search of the maze reaches keeps the walk on the grid. */
  lemma ReachKeeps(m: Maze, s: Search, n: nat)
    requires Consistent(m, s) && Reach(Advancing(m), s, n).Some?
    ensures Consistent(m, Reach(Advancing(m), s, n).value)
  {
    forall t | Consistent(m, t)
      ensures Consistent(m, Advancing(m)(t).1)
    {
      AdvancedKeeps(m, t, 0);
    }
    ReachKeepsInvariant(Advancing(m), t => Consistent(m, t), s, n);
  }

  /** The search stands at the end cell. */
  predicate AtEnd(end: Option<Coordinate>, s: Search) {
    end == Some(s.pos)
  }

  /**
   * The loop of `find_longest_path` from state `s` with the best length so far: step until
   * the search gives up, and record the stack length whenever the end is reached.
   */
  function Explore(step: Search -> (bool, Search), end: Option<Coordinate>, s: Search, best: nat, fuel: nat): Result<nat>
    decreases fuel
  {
    if fuel == 0 then Failure(Unfinished)
    else
      var (moved, t) := step(s);
      if !moved then Success(best)
      else Explore(step, end, t, if AtEnd(end, t) then Max(best, |t.dirs|) else best, fuel - 1)
  }

  function Max(a: nat, b: nat): nat {
    if a >= b then a else b
  }

  /** One pass of the exploration loop. */
  lemma ExploreStep(step: Search -> (bool, Search), end: Option<Coordinate>, s: Search, best: nat, fuel: nat)
    requires fuel > 0
    ensures !step(s).0 ==> Explore(step, end, s, best, fuel) == Success(best)
    ensures step(s).0 ==>
              var t := step(s).1;
              Explore(step, end, s, best, fuel) == Explore(step, end, t, if AtEnd(end, t) then Max(best, |t.dirs|) else best, fuel - 1)
  {
  }

  /** After a successful step to `t`, the states reached are those reached from `t`. */
  lemma ReachAfter(step: Search -> (bool, Search), s: Search, n: nat)
    requires n >= 1 && step(s).0
    ensures Reach(step, s, n) == Reach(step, step(s).1, n - 1)
  {
  }

  /** Once the search has given up, no further state is reached. */
  lemma ReachAfterGivingUp(step: Search -> (bool, Search), s: Search, n: nat)
    requires n >= 1 && !step(s).0
    ensures Reach(step, s, n).None?
  {
  }

  /** A finished exploration never answers less than the best length it started with. */
  lemma {:induction false} ExploreAtLeast(step: Search -> (bool, Search), end: Option<Coordinate>, s: Search, best: nat, fuel: nat)
    requires Explore(step, end, s, best, fuel).Success?
    ensures best <= Explore(step, end, s, best, fuel).value
    decreases fuel
  {
    var (moved, t) := step(s);
    if moved {
      ExploreAtLeast(step, end, t, if AtEnd(end, t) then Max(best, |t.dirs|) else best, fuel - 1);
    }
  }

  /** No state the search reaches at the end has a longer stack than the answer. */
  lemma {:induction false} ExploreIsUpperBound(step: Search -> (bool, Search), end: Option<Coordinate>, s: Search, best: nat, fuel: nat, n: nat)
    requires Explore(step, end, s, best, fuel).Success?
    requires 1 <= n && Reach(step, s, n).Some? && AtEnd(end, Reach(step, s, n).value)
    ensures |Reach(step, s, n).value.dirs| <= Explore(step, end, s, best, fuel).value
    decreases fuel
  {
    var (moved, t) := step(s);
    if !moved {
      ReachAfterGivingUp(step, s, n);
    } else {
      var best' := if AtEnd(end, t) then Max(best, |t.dirs|) else best;
      ReachAfter(step, s, n);
      if n == 1 {
        ExploreAtLeast(step, end, t, best', fuel - 1);
      } else {
        ExploreIsUpperBound(step, end, t, best', fuel - 1, n - 1);
      }
    }
  }

  /** Unless the answer is `best` itself, some state the search reaches at the end has exactly that many steps. */
  lemma {:induction false} ExploreIsAttained(step: Search -> (bool, Search), end: Option<Coordinate>, s: Search, best: nat, fuel: nat)
    requires Explore(step, end, s, best, fuel).Success?
    ensures Explore(step, end, s, best, fuel).value == best
            || exists n :: 1 <= n && Reach(step, s, n).Some? && AtEnd(end, Reach(step, s, n).value)
                           && |Reach(step, s, n).value.dirs| == Explore(step, end, s, best, fuel).value
    decreases fuel
  {
    var (moved, t) := step(s);
    if moved {
      var best' := if AtEnd(end, t) then Max(best, |t.dirs|) else best;
      var v := Explore(step, end, t, best', fuel - 1).value;
      ExploreIsAttained(step, end, t, best', fuel - 1);
      if v != best {
        if v == best' {
          ReachAfter(step, s, 1);
          assert Reach(step, s, 1) == Some(t);
        } else {
          var n :| 1 <= n && Reach(step, t, n).Some? && AtEnd(end, Reach(step, t, n).value)
                   && |Reach(step, t, n).value.dirs| == v;
          ReachAfter(step, s, n + 1);
        }
      }
    }
  }

  /** A state the search reaches at the end is a walk from the start to the end of that many steps. */
  lemma ReachedEndIsWalk(m: Maze, s: Search, n: nat)
    requires Consistent(m, s) && Reach(Advancing(m), s, n).Some? && AtEnd(m.end, Reach(Advancing(m), s, n).value)
    ensures Some(Follow(m.start, Reach(Advancing(m), s, n).value.dirs)) == m.end
  {
    ReachKeeps(m, s, n);
  }

  // ---- the path finder object ----

  /** `PathFinder`: the grid it marks, its position and its stack of directions. */
  class PathFinder {
    const rows: nat
    const cols: nat
    const start: Option<Coordinate>
    const end: Option<Coordinate>
    const part2: bool
    var cells: seq<seq<Content>>
    var pos: Option<Coordinate>
    var dirs: seq<Direction>

    /** The search state, once the start is known. */
    function State(): Search
      reads this
      requires pos.Some?
    {
      Search(cells, pos.value, dirs)
    }

    function Setting(): Maze
      reads this
      requires start.Some?
    {
      Maze(rows, cols, start.value, end, part2)
    }

    /** The search is set up: a start exists and the state is consistent with it. */
    predicate Ready()
      reads this
    {
      start.Some? && pos.Some? && Consistent(Setting(), State())
    }

    /** The grid has its size, and the start and end cells, when present, lie on it. */
    predicate Built()
      reads this
    {
      Shaped(cells, rows, cols)
      && (start.Some? ==> InBounds(rows, cols, start.value))
      && (end.Some? ==> InBounds(rows, cols, end.value))
    }

    /** `PathFinder(grid)`: at the grid's start with an empty stack. */
    constructor (g: Grid, part2: bool)
      requires Valid(g)
      ensures Built()
      ensures rows == g.rows && cols == g.cols && cells == g.content && this.part2 == part2
      ensures start == EmptyInRow(g, 0) && end == EmptyInRow(g, g.rows - 1)
      ensures pos == start && dirs == []
    {
      rows := g.rows;
      cols := g.cols;
      start := EmptyInRow(g, 0);
      end := EmptyInRow(g, g.rows - 1);
      EmptyInRowIsFirst(g, 0);
      EmptyInRowIsFirst(g, g.rows - 1);
      this.part2 := part2;
      cells := g.content;
      pos := EmptyInRow(g, 0);
      dirs := [];
    }

    /** `length`: the number of steps on the stack, which is the length of the walk to `pos`. */
    function Length(): (n: nat)
      reads this
      requires Ready()
      ensures Follow(start.value, dirs) == pos.value && n == |dirs|
    {
      |dirs|
    }

    /** `retreat`: None on an empty stack, otherwise the popped direction after stepping back. */
    method Retreat() returns (last: Option<Direction>)
      requires Ready()
      modifies this
      ensures Ready()
      ensures old(dirs) == [] ==> last.None? && unchanged(this)
      ensures old(dirs) != [] ==> State() == Pop(old(State())).0 && last == Some(Pop(old(State())).1)
    {
      if |dirs| == 0 {
        return None;
      }
      PopKeeps(Setting(), State());
      var d := dirs[|dirs| - 1];
      var here := pos.value;
      dirs := dirs[..|dirs| - 1];
      if At(cells, here) == Path {
        cells := Set(cells, here, Empty);
      }
      pos := Some(Next(Reverse(d), here));
      return Some(d);
    }

    /** The `for dir in Direction.values(dir_hint)` loop: the first open direction from `from`. */
    method FindOpen(from: nat) returns (k: Option<nat>)
      requires Ready() && from <= |All|
      ensures k == FirstOpen(Setting(), State(), from)
    {
      var i := from;
      while i < |All|
        invariant from <= i <= |All|
        invariant FirstOpen(Setting(), State(), from) == FirstOpen(Setting(), State(), i)
        decreases |All| - i
      {
        var next := Next(All[i], pos.value);
        if InBounds(rows, cols, next) && CanEnter(At(cells, next), All[i], part2) {
          return Some(i);
        }
        i := i + 1;
      }
      return None;
    }

    /** The move inside `advance`: mark an open cell as path, step along `d` and push it. */
    method Enter(d: Direction)
      requires Ready() && Open(Setting(), State(), d)
      modifies this
      ensures Ready() && State() == Push(old(State()), d)
    {
      PushKeeps(Setting(), State(), d);
      var next := Next(d, pos.value);
      if At(cells, next) == Empty {
        cells := Set(cells, next, Path);
      }
      pos := Some(next);
      dirs := dirs + [d];
    }

    /**
     * `advance(dir_hint)`: step along the first open direction from the hint on, marking an
     * open cell as path; with none open, retreat until a popped direction has a successor and
     * try from there; false once the stack is empty.
     */
    method Advance(hint: Option<Direction>) returns (moved: bool)
      requires Ready()
      modifies this
      ensures Ready()
      ensures (moved, State()) == Advanced(Setting(), old(State()), if hint.None? then 0 else Index(hint.value))
    {
      var from: nat := if hint.None? then 0 else Index(hint.value);
      ghost var goal := Advanced(Setting(), State(), from);
      while true
        invariant Ready() && from <= |All|
        invariant Advanced(Setting(), State(), from) == goal
        decreases |dirs|
      {
        var k := FindOpen(from);
        if k.Some? {
          FirstOpenIsFirst(Setting(), State(), from);
          Enter(All[k.value]);
          return true;
        }
        ghost var popped := |dirs|;
        while true
          invariant Ready() && |dirs| <= popped
          invariant FirstOpen(Setting(), State(), from).None?
          invariant Advanced(Setting(), State(), from) == goal
          decreases |dirs|
        {
          var last := Retreat();
          if last.None? {
            return false;
          }
          var hint := Succ(last.value);
          from := if hint.None? then |All| else Index(hint.value);
          if hint.Some? {
            break;
          }
          assert FirstOpen(Setting(), State(), from).None?;
        }
      }
    }

    /**
     * `find_longest_path`: mark the start, then advance until the search gives up, keeping the
     * longest stack seen at the end (0 if the end is never reached). Without a start the source
     * fails on `None.row`; `fuel` bounds the number of advances.
     */
    method FindLongestPath(fuel: nat) returns (r: Result<nat>)
      requires Built() && dirs == []
      modifies this
      ensures start.None? ==> r == Failure(AttributeError)
      ensures start.Some? ==>
                r == Explore(Advancing(Setting()), end, Search(Set(old(cells), start.value, Start), start.value, []), 0, fuel)
    {
      if start.None? {
        return Failure(AttributeError);
      }
      pos := start;
      cells := Set(cells, start.value, Start);
      ghost var m := Setting();
      forall t
        ensures Advancing(m)(t) == Advanced(m, t, 0)
      {
      }
      r := ExploreLoop(m, Advancing(m), fuel);
    }

    /** One hint-less `advance`, seen as the step `step` of the exploration loop. */
    method Step(ghost m: Maze, ghost step: Search -> (bool, Search)) returns (moved: bool)
      requires Ready() && Setting() == m
      requires forall t {:trigger Advanced(m, t, 0)} :: step(t) == Advanced(m, t, 0)
      modifies this
      ensures Ready() && Setting() == m
      ensures step(old(State())) == (moved, State())
    {
      moved := Advance(None);
    }

    /** The `while self.advance()` loop, with `step` standing for one hint-less advance. */
    method ExploreLoop(ghost m: Maze, ghost step: Search -> (bool, Search), fuel: nat) returns (r: Result<nat>)
      requires Ready() && Setting() == m
      requires forall t {:trigger Advanced(m, t, 0)} :: step(t) == Advanced(m, t, 0)
      modifies this
      ensures r == Explore(step, end, old(State()), 0, fuel)
    {
      var maxLength: nat := 0;
      var n := fuel;
      while n > 0
        invariant Ready() && Setting() == m
        invariant Explore(step, end, State(), maxLength, n) == Explore(step, end, old(State()), 0, fuel)
        decreases n
      {
        ghost var before := State();
        ExploreStep(step, end, before, maxLength, n);
        var moved := Step(m, step);
        if !moved {
          return Success(maxLength);
        }
        if pos == end {
          maxLength := Max(maxLength, Length());
        }
        n := n - 1;
      }
      return Failure(Unfinished);
    }
  }
}
