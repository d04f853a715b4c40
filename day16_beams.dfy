/**
 * Light beams in the mirror contraption of 2023/day16/grid.py.
 *
 * A beam is a cell and a heading. Each fixture turns, splits or passes the beam on,
 * always one cell further. `Grid.Energize` propagates a set of beams round by round,
 * never revisiting a beam it has seen, and marks every cell a beam passes through.
 * Its result is characterised as the least set of beams that contains the starting
 * beams and is closed under propagation.
 */
module Beams {
  import opened Wrappers

  datatype Direction = North | East | South | West

  datatype Coordinate = Coordinate(row: int, col: int)

  /** `Direction.next`: the neighbouring cell in direction `d`. */
  function Next(d: Direction, c: Coordinate): (r: Coordinate)
    ensures (r.col == c.col) <==> (d == North || d == South)
    ensures (r.row == c.row) <==> (d == East || d == West)
    ensures r.row == c.row - 1 <==> d == North
    ensures r.row == c.row + 1 <==> d == South
    ensures r.col == c.col + 1 <==> d == East
    ensures r.col == c.col - 1 <==> d == West
  {
    match d
    case North => Coordinate(c.row - 1, c.col)
    case East => Coordinate(c.row, c.col + 1)
    case South => Coordinate(c.row + 1, c.col)
    case West => Coordinate(c.row, c.col - 1)
  }

  /** The reverse heading. */
  function Opposite(d: Direction): Direction {
    match d
    case North => South
    case East => West
    case South => North
    case West => East
  }

  /** Stepping one way and then back returns to the start. */
  lemma NextThenBack(d: Direction, c: Coordinate)
    ensures Next(Opposite(d), Next(d, c)) == c
  {
  }

  datatype Beam = Beam(coord: Coordinate, dir: Direction)

  /** `Beam.next`: one step ahead, same heading. */
  function BeamNext(b: Beam): (r: Beam)
    ensures r.dir == b.dir && r.coord == Next(b.dir, b.coord)
  {
    Beam(Next(b.dir, b.coord), b.dir)
  }

  /** `Beam.turn`: one step in the new heading `d`, from the beam's own cell. */
  function Turn(b: Beam, d: Direction): (r: Beam)
    ensures r.dir == d && r.coord == Next(d, b.coord)
  {
    Beam(Next(d, b.coord), d)
  }

  /** Turning into the current heading is moving on. */
  lemma TurnStraightIsNext(b: Beam)
    ensures Turn(b, b.dir) == BeamNext(b)
  {
  }

  datatype Fixture = NsSplitter | EwSplitter | NeSwMirror | NwSeMirror | EmptySpace

  predicate Horizontal(d: Direction) { d == East || d == West }

  predicate IsMirror(f: Fixture) { f == NeSwMirror || f == NwSeMirror }

  /**
   * `Fixture.alter`: the beams leaving a cell that beam `b` entered. A splitter hit
   * broadside splits the beam in two; hit end-on it is passed through like an empty
   * cell. A mirror turns the beam through a right angle.
   */
  function Alter(f: Fixture, b: Beam): (r: seq<Beam>)
    ensures 1 <= |r| <= 2
    ensures forall i :: 0 <= i < |r| ==> r[i] == Turn(b, r[i].dir)
    ensures |r| == 2 <==> (f == NsSplitter && Horizontal(b.dir)) || (f == EwSplitter && !Horizontal(b.dir))
    ensures f == NsSplitter && Horizontal(b.dir) ==> r == [Turn(b, North), Turn(b, South)]
    ensures f == EwSplitter && !Horizontal(b.dir) ==> r == [Turn(b, West), Turn(b, East)]
    ensures !IsMirror(f) && |r| == 1 ==> r == [BeamNext(b)]
    ensures IsMirror(f) ==> Horizontal(r[0].dir) != Horizontal(b.dir)
  {
    match f
    case NsSplitter =>
      if b.dir == West || b.dir == East then [Turn(b, North), Turn(b, South)] else [BeamNext(b)]
    case EwSplitter =>
      if b.dir == North || b.dir == South then [Turn(b, West), Turn(b, East)] else [BeamNext(b)]
    case NeSwMirror =>
      if b.dir == North then [Turn(b, East)]
      else if b.dir == East then [Turn(b, North)]
      else if b.dir == South then [Turn(b, West)]
      else [Turn(b, South)]
    case NwSeMirror =>
      if b.dir == North then [Turn(b, West)]
      else if b.dir == East then [Turn(b, South)]
      else if b.dir == South then [Turn(b, East)]
      else [Turn(b, North)]
    case EmptySpace => [BeamNext(b)]
  }

  /**
   * The two mirrors turn every beam opposite ways, `/` sends a north-bound beam east,
   * and a mirror can be traversed backwards: a beam sent back along the way it left
   * comes out along the way the first one came in.
   */
  lemma MirrorsReflect(c: Coordinate, d: Direction)
    ensures Alter(NeSwMirror, Beam(c, North))[0].dir == East
    ensures Alter(NeSwMirror, Beam(c, d))[0].dir == Opposite(Alter(NwSeMirror, Beam(c, d))[0].dir)
    ensures forall f :: IsMirror(f) ==>
      Alter(f, Beam(c, Opposite(Alter(f, Beam(c, d))[0].dir)))[0].dir == Opposite(d)
  {
  }

  predicate Rectangular<T>(content: seq<seq<T>>) {
    |content| > 0 && forall i :: 0 <= i < |content| ==> |content[i]| == |content[0]|
  }

  /** The `Grid` constructor's checks: `content[0]` fails on no rows, and rows must be of one length. */
  function CheckGrid(content: seq<seq<Fixture>>): (r: Result<()>)
    ensures r.Success? <==> Rectangular(content)
  {
    if |content| == 0 then Failure("list index out of range")
    else if exists i :: 0 <= i < |content| && |content[i]| != |content[0]| then Failure("Grid must be rectangular")
    else Success(())
  }

  const AllDirections: set<Direction> := {North, East, South, West}

  class Grid {
    const content: seq<seq<Fixture>>
    const rows: nat
    const cols: nat
    var energized: array2<bool>

    /** The grid's fixed shape; it depends on constant fields only. */
    ghost predicate Shaped() {
      Rectangular(content) && rows == |content| && cols == |content[0]|
    }

    ghost predicate Valid()
      reads this
    {
      Shaped() && energized.Length0 == rows && energized.Length1 == cols
    }

    /** A grid over checked content with no cell energized. */
    constructor(content: seq<seq<Fixture>>)
      requires Rectangular(content)
      ensures Valid() && this.content == content
      ensures forall i, j :: 0 <= i < rows && 0 <= j < cols ==> !energized[i, j]
    {
      this.content := content;
      rows := |content|;
      cols := |content[0]|;
      energized := new bool[|content|, |content[0]|]((i, j) => false);
    }

    /** `inbounds`. */
    predicate Inbounds(c: Coordinate)
      ensures Inbounds(c) <==> 0 <= c.row < rows && 0 <= c.col < cols
    {
      0 <= c.row < rows && 0 <= c.col < cols
    }

    /** The fixture at an in-bounds cell. */
    function At(c: Coordinate): Fixture
      requires Shaped() && Inbounds(c)
    {
      content[c.row][c.col]
    }

    /** The beams that propagating `b` yields: none off the grid, else the fixture's `alter`. */
    function Successors(b: Beam): (r: set<Beam>)
      requires Shaped()
      ensures !Inbounds(b.coord) ==> r == {}
      ensures Inbounds(b.coord) ==> r == set x | x in Alter(At(b.coord), b)
    {
      if Inbounds(b.coord) then set x | x in Alter(At(b.coord), b) else {}
    }

    /** The beams propagated from the set `s`. */
    ghost function Step(s: set<Beam>): set<Beam>
      requires Shaped()
    {
      set b, x | b in s && x in Successors(b) :: x
    }

    /** A set of beams that propagation never leaves. */
    ghost predicate Closed(s: set<Beam>)
      requires Shaped()
    {
      Step(s) <= s
    }

    /** The in-bounds cells of a set of beams. */
    ghost function Cells(s: set<Beam>): set<Coordinate>
      requires Shaped()
    {
      set b | b in s && Inbounds(b.coord) :: b.coord
    }

    /** Every beam one step from a cell of the grid. */
    ghost function Near(): set<Beam>
      requires Shaped()
    {
      set r: int, c: int, d | -1 <= r <= rows && -1 <= c <= cols && d in AllDirections :: Beam(Coordinate(r, c), d)
    }

    lemma StepUnion(s: set<Beam>, t: set<Beam>)
      requires Shaped()
      ensures Step(s + t) == Step(s) + Step(t)
    {
    }

    lemma StepAddOne(s: set<Beam>, b: Beam)
      requires Shaped()
      ensures Step(s + {b}) == Step(s) + Successors(b)
    {
      assert Step({b}) == Successors(b);
      StepUnion(s, {b});
    }

    /** Propagation never leads more than one step off the grid. */
    lemma StepNear(s: set<Beam>)
      requires Shaped()
      ensures Step(s) <= Near()
    {
      forall x | x in Step(s) ensures x in Near() {
        var b :| b in s && x in Successors(b);
        assert x.coord == Next(x.dir, b.coord);
        assert x.dir in AllDirections;
      }
    }

    /** Propagation keeps to the inside of a closed set. */
    lemma StepWithin(s: set<Beam>, c: set<Beam>)
      requires Shaped() && s <= c && Closed(c)
      ensures Step(s) <= c
    {
      assert Step(c) == Step(s) + Step(c - s) by {
        assert c == s + (c - s);
        StepUnion(s, c - s);
      }
    }

    lemma CellsUnion(s: set<Beam>, t: set<Beam>)
      requires Shaped()
      ensures Cells(s + t) == Cells(s) + Cells(t)
    {
    }

    lemma CellsAddOne(s: set<Beam>, b: Beam)
      requires Shaped()
      ensures Cells(s + {b}) == Cells(s) + (if Inbounds(b.coord) then {b.coord} else {})
    {
    }

    /** `s` holds `init`, is closed, and lies inside every closed set holding `init`. */
    ghost predicate LeastClosed(init: set<Beam>, s: set<Beam>)
      requires Shaped()
    {
      init <= s && Closed(s) && forall c :: init <= c && Closed(c) ==> s <= c
    }

    /**
     * The beams seen so far: they hold `init`, lie inside every closed set holding `init`,
     * and every one already propagated (all but the frontier `beams`) has its successors seen.
     */
    ghost predicate Explored(init: set<Beam>, beams: set<Beam>, visited: set<Beam>)
      requires Shaped()
    {
      init <= visited && beams <= visited && visited <= init + Near() &&
      Step(visited - beams) <= visited &&
      forall c :: init <= c && Closed(c) ==> visited <= c
    }

    /** A round keeps the exploration invariant, and leaves fewer beams unseen or none to propagate. */
    lemma ExploreRound(init: set<Beam>, beams: set<Beam>, visited: set<Beam>)
      requires Shaped() && Explored(init, beams, visited)
      ensures Explored(init, Step(beams) - visited, visited + (Step(beams) - visited))
      ensures visited + (Step(beams) - visited) - (Step(beams) - visited) == visited
      ensures Step(beams) - visited == {} || |init + Near() - (visited + (Step(beams) - visited))| < |init + Near() - visited|
    {
      assert visited + (Step(beams) - visited) - (Step(beams) - visited) == visited;
      ExploreKeeps(init, beams, visited);
      ExploreShrinks(init, beams, visited);
    }

    lemma ExploreKeeps(init: set<Beam>, beams: set<Beam>, visited: set<Beam>)
      requires Shaped() && Explored(init, beams, visited)
      ensures Explored(init, Step(beams) - visited, visited + (Step(beams) - visited))
    {
      var fresh' := Step(beams) - visited;
      var visited' := visited + fresh';
      assert visited' - fresh' == visited;
      StepNear(beams);
      assert visited == (visited - beams) + beams;
      StepUnion(visited - beams, beams);
      forall c | init <= c && Closed(c) ensures visited' <= c {
        StepWithin(beams, c);
      }
    }

    lemma ExploreShrinks(init: set<Beam>, beams: set<Beam>, visited: set<Beam>)
      requires Shaped() && Explored(init, beams, visited)
      ensures Step(beams) - visited == {} || |init + Near() - (visited + (Step(beams) - visited))| < |init + Near() - visited|
    {
      var fresh' := Step(beams) - visited;
      if fresh' != {} {
        StepNear(beams);
        var x :| x in fresh';
        assert x in init + Near() - visited;
        assert init + Near() - (visited + fresh') < init + Near() - visited;
      }
    }

    /** When a round finds no new beam, the beams seen are the least closed set. */
    lemma ExploreDone(init: set<Beam>, visited: set<Beam>)
      requires Shaped() && Explored(init, {}, visited)
      ensures LeastClosed(init, visited)
    {
      assert visited - {} == visited;
    }

    /** The number of energized cells in rows `0 .. i - 1`. */
    function CountRows(i: nat): (n: nat)
      requires Valid() && i <= rows
      reads this, energized
      ensures n <= i * cols
    {
      if i == 0 then 0 else CountRows(i - 1) + CountInRow(i - 1, cols)
    }

    /** The number of energized cells in row `i`, columns `0 .. j - 1`. */
    function CountInRow(i: nat, j: nat): (n: nat)
      requires Valid() && i < rows && j <= cols
      reads this, energized
      ensures n <= j
    {
      if j == 0 then 0 else CountInRow(i, j - 1) + (if energized[i, j - 1] then 1 else 0)
    }

    lemma {:induction false} CountRowsNone(i: nat)
      requires Valid() && i <= rows
      requires forall r, c :: 0 <= r < rows && 0 <= c < cols ==> !energized[r, c]
      ensures CountRows(i) == 0
    {
      if i > 0 {
        CountRowsNone(i - 1);
        CountInRowNone(i - 1, cols);
      }
    }

    lemma {:induction false} CountInRowNone(i: nat, j: nat)
      requires Valid() && i < rows && j <= cols
      requires forall c :: 0 <= c < cols ==> !energized[i, c]
      ensures CountInRow(i, j) == 0
    {
      if j > 0 {
        CountInRowNone(i, j - 1);
      }
    }

    /** The sum over rows of the sum over columns of the energized flags. */
    method CountEnergized() returns (n: nat)
      requires Valid()
      ensures n == CountRows(rows)
    {
      n := 0;
      var i := 0;
      while i < rows
        invariant 0 <= i <= rows && n == CountRows(i)
      {
        var j := 0;
        var inRow := 0;
        while j < cols
          invariant 0 <= j <= cols && inRow == CountInRow(i, j)
        {
          if energized[i, j] {
            inRow := inRow + 1;
          }
          j := j + 1;
        }
        n := n + inRow;
        i := i + 1;
      }
    }

    /** `propagate`: marks the beam's cell energized when it is on the grid, and returns the beams it yields. */
    method Propagate(b: Beam) returns (next: seq<Beam>)
      requires Valid()
      modifies energized
      ensures (set x | x in next) == Successors(b)
      ensures forall i, j :: 0 <= i < rows && 0 <= j < cols ==>
        energized[i, j] == (old(energized[i, j]) || (Inbounds(b.coord) && b.coord == Coordinate(i, j)))
    {
      if !Inbounds(b.coord) {
        return [];
      }
      energized[b.coord.row, b.coord.col] := true;
      next := Alter(content[b.coord.row][b.coord.col], b);
    }

    /** One round of `energize`: propagate every beam of the frontier and gather what they yield. */
    method Round(beams: set<Beam>, ghost marked: set<Coordinate>) returns (nextbeams: set<Beam>)
      requires Valid()
      requires forall i, j :: 0 <= i < rows && 0 <= j < cols ==> (energized[i, j] <==> Coordinate(i, j) in marked)
      modifies energized
      ensures nextbeams == Step(beams)
      ensures forall i, j :: 0 <= i < rows && 0 <= j < cols ==>
        (energized[i, j] <==> Coordinate(i, j) in marked + Cells(beams))
    {
      nextbeams := {};
      var todo := beams;
      while todo != {}
        invariant todo <= beams
        invariant nextbeams == Step(beams - todo)
        invariant forall i, j :: 0 <= i < rows && 0 <= j < cols ==>
          (energized[i, j] <==> Coordinate(i, j) in marked + Cells(beams - todo))
        decreases |todo|
      {
        var b :| b in todo;
        ghost var done := beams - todo;
        var next := Propagate(b);
        assert beams - (todo - {b}) == done + {b};
        StepAddOne(done, b);
        CellsAddOne(done, b);
        nextbeams := nextbeams + set x | x in next;
        todo := todo - {b};
      }
      assert beams - todo == beams;
    }

    /** The state of `energize` between rounds. */
    ghost predicate EnergizeState(init: set<Beam>, beams: set<Beam>, visited: set<Beam>, count: nat)
      reads this, energized
    {
      Valid() && Explored(init, beams, visited) &&
      (forall i, j :: 0 <= i < rows && 0 <= j < cols ==> (energized[i, j] <==> Coordinate(i, j) in Cells(visited - beams))) &&
      count == CountRows(rows)
    }

    /** One pass of `energize`'s loop: a round, the recount, and the beams not seen before. */
    method EnergizeRound(beams: set<Beam>, visited: set<Beam>, ghost init: set<Beam>, count: nat)
      returns (beams': set<Beam>, visited': set<Beam>, count': nat)
      requires EnergizeState(init, beams, visited, count)
      modifies energized
      ensures EnergizeState(init, beams', visited', count')
      ensures beams' == {} ==> visited' == visited
      ensures beams' == {} || |init + Near() - visited'| < |init + Near() - visited|
    {
      ExploreRound(init, beams, visited);
      assert visited == (visited - beams) + beams;
      CellsUnion(visited - beams, beams);
      var nextbeams := Round(beams, Cells(visited - beams));
      count' := CountEnergized();
      beams' := nextbeams - visited;
      visited' := visited + beams';
    }

    /**
     * `energize`: resets the energized cells, then propagates round by round, each round
     * only the beams not seen before. The beams seen are the least closed set holding
     * the starting beams, the energized cells are exactly their in-bounds cells, and the
     * result counts them.
     */
    method Energize(start: seq<Beam>) returns (count: nat, ghost seen: set<Beam>)
      requires Valid()
      modifies this
      ensures Valid() && fresh(energized)
      ensures LeastClosed((set b | b in start), seen)
      ensures forall i, j :: 0 <= i < rows && 0 <= j < cols ==> (energized[i, j] <==> Coordinate(i, j) in Cells(seen))
      ensures count == CountRows(rows) && count <= rows * cols
    {
      energized := new bool[rows, cols]((i, j) => false);
      CountRowsNone(rows);
      count, seen := Rounds(set b | b in start);
    }

    /** The loop of `energize`, from a cleared grid: rounds until one finds no new beam. */
    method Rounds(init: set<Beam>) returns (count: nat, ghost seen: set<Beam>)
      requires Valid() && CountRows(rows) == 0
      requires forall i, j :: 0 <= i < rows && 0 <= j < cols ==> !energized[i, j]
      modifies energized
      ensures Valid() && LeastClosed(init, seen)
      ensures forall i, j :: 0 <= i < rows && 0 <= j < cols ==> (energized[i, j] <==> Coordinate(i, j) in Cells(seen))
      ensures count == CountRows(rows)
    {
      count := 0;
      var beams := init;
      var visited := init;
      assert visited - beams == {};
      while beams != {}
        invariant EnergizeState(init, beams, visited, count)
        decreases |init + Near() - visited|, |beams|
      {
        beams, visited, count := EnergizeRound(beams, visited, init, count);
      }
      seen := visited;
      ExploreDone(init, visited);
      assert visited - beams == visited;
    }
  }
}
