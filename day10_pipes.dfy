/**
 * The pipe maze of 2023/day10/grid.py.
 *
 * A grid of pipe tiles, with one start tile whose shape is worked out from its
 * neighbours. Pipes are linked to the neighbours they connect with; the loop through
 * the start is found by a work-list search; pipes off the loop are cleared; and a
 * row-by-row scan labels every empty tile inside or outside the loop.
 */
module Pipes {
  import opened Wrappers

  datatype Direction = North | West | East | South

  /** Every direction, in the order the source iterates them. */
  const Directions: seq<Direction> := [North, West, East, South]

  /** `Direction.opposite`. */
  function Opposite(d: Direction): (r: Direction)
    ensures r != d
  {
    match d
    case North => South
    case West => East
    case East => West
    case South => North
  }

  /** `opposite` is an involution. */
  lemma OppositeInvolution(d: Direction)
    ensures Opposite(Opposite(d)) == d
  {
  }

  datatype PipeType = NS | EW | NE | NW | SW | SE | Empty | Start | Outside | Inside

  /** `PipeType.directions`: the two ends of a pipe; every other tile has none. */
  function DirectionsOf(t: PipeType): set<Direction> {
    match t
    case NS => {North, South}
    case EW => {East, West}
    case NE => {North, East}
    case NW => {North, West}
    case SW => {South, West}
    case SE => {South, East}
    case _ => {}
  }

  /** `PipeType.connects`, through `connectsNorth`, `connectsWest`, `connectsEast` and `connectsSouth`. */
  function Connects(t: PipeType, d: Direction): bool {
    match d
    case North => t in {NS, NW, NE}
    case West => t in {EW, NW, SW}
    case East => t in {EW, NE, SE}
    case South => t in {NS, SW, SE}
  }

  /** The four `connects*` tables agree with `directions`; the non-pipe tiles connect nowhere. */
  lemma ConnectsIffDirection(t: PipeType, d: Direction)
    ensures Connects(t, d) <==> d in DirectionsOf(t)
    ensures t in {Empty, Start, Outside, Inside} ==> !Connects(t, d)
  {
  }

  const AllTypes: seq<PipeType> := [NS, EW, NE, NW, SW, SE, Empty, Start, Outside, Inside]

  /** The tile types from position `from` of the declaration order on whose direction set is `dirs`. */
  function Matching(dirs: set<Direction>, from: nat): (r: seq<PipeType>)
    requires from <= |AllTypes|
    ensures forall t :: t in r <==> t in AllTypes[from..] && DirectionsOf(t) == dirs
    decreases |AllTypes| - from
  {
    if from == |AllTypes| then []
    else (if DirectionsOf(AllTypes[from]) == dirs then [AllTypes[from]] else []) + Matching(dirs, from + 1)
  }

  /** `PipeType.select`: the one tile type with exactly these ends, or the source's ValueError. */
  function Select(dirs: set<Direction>): (r: Result<PipeType>)
    ensures r.Success? ==> DirectionsOf(r.value) == dirs
  {
    var m := Matching(dirs, 0);
    if |m| != 1 then Failure("failed to match single PipeType") else Success(m[0])
  }

  function Bit(b: bool): nat { if b then 1 else 0 }

  /** Whether tile type `t` has exactly the ends `dirs`, as a count. */
  function Hit(dirs: set<Direction>, t: PipeType): nat { Bit(DirectionsOf(t) == dirs) }

  /** How many tile types from position `from` on have exactly the ends `dirs`. */
  function Hits(dirs: set<Direction>, from: nat): nat
    requires from <= |AllTypes|
    decreases |AllTypes| - from
  {
    if from == |AllTypes| then 0 else Hit(dirs, AllTypes[from]) + Hits(dirs, from + 1)
  }

  lemma {:induction false} MatchingLength(dirs: set<Direction>, from: nat)
    requires from <= |AllTypes|
    ensures |Matching(dirs, from)| == Hits(dirs, from)
    decreases |AllTypes| - from
  {
    if from < |AllTypes| {
      MatchingLength(dirs, from + 1);
    }
  }

  lemma HitsUnrolled(dirs: set<Direction>)
    ensures Hits(dirs, 0) == Hit(dirs, NS) + Hit(dirs, EW) + Hit(dirs, NE) + Hit(dirs, NW) + Hit(dirs, SW) + Hit(dirs, SE) +
      Hit(dirs, Empty) + Hit(dirs, Start) + Hit(dirs, Outside) + Hit(dirs, Inside)
  {
    assert Hits(dirs, 9) == Hit(dirs, Inside);
    assert Hits(dirs, 8) == Hit(dirs, Outside) + Hits(dirs, 9);
    assert Hits(dirs, 7) == Hit(dirs, Start) + Hits(dirs, 8);
    assert Hits(dirs, 6) == Hit(dirs, Empty) + Hits(dirs, 7);
    assert Hits(dirs, 5) == Hit(dirs, SE) + Hits(dirs, 6);
    assert Hits(dirs, 4) == Hit(dirs, SW) + Hits(dirs, 5);
    assert Hits(dirs, 3) == Hit(dirs, NW) + Hits(dirs, 4);
    assert Hits(dirs, 2) == Hit(dirs, NE) + Hits(dirs, 3);
    assert Hits(dirs, 1) == Hit(dirs, EW) + Hits(dirs, 2);
  }

  /** Two sets of directions are equal when they agree on each of the four directions. */
  lemma SameDirections(a: set<Direction>, b: set<Direction>)
    ensures a == b <==> ((North in a <==> North in b) && (West in a <==> West in b) &&
      (East in a <==> East in b) && (South in a <==> South in b))
  {
    if (North in a <==> North in b) && (West in a <==> West in b) && (East in a <==> East in b) && (South in a <==> South in b) {
      forall d ensures d in a <==> d in b {
        match d
        case North =>
        case West =>
        case East =>
        case South =>
      }
    }
  }

  lemma DirectionCount(dirs: set<Direction>)
    ensures |dirs| == Bit(North in dirs) + Bit(West in dirs) + Bit(East in dirs) + Bit(South in dirs)
  {
    var d1 := dirs - {North};
    var d2 := d1 - {West};
    var d3 := d2 - {East};
    var d4 := d3 - {South};
    RemoveOne(dirs, North);
    RemoveOne(d1, West);
    RemoveOne(d2, East);
    RemoveOne(d3, South);
    SameDirections(d4, {});
  }

  lemma RemoveOne(dirs: set<Direction>, d: Direction)
    ensures |dirs| == |dirs - {d}| + Bit(d in dirs)
  {
    if d in dirs {
      assert dirs == (dirs - {d}) + {d};
    } else {
      assert dirs - {d} == dirs;
    }
  }

  /** `select` succeeds exactly on the sets of two directions: each names one pipe shape. */
  lemma SelectTwoEnds(dirs: set<Direction>)
    ensures Select(dirs).Success? <==> |dirs| == 2
  {
    MatchingLength(dirs, 0);
    OneHitIffTwoEnds(dirs);
  }

  /** Exactly one tile type has the ends `dirs` iff there are two of them. */
  lemma OneHitIffTwoEnds(dirs: set<Direction>)
    ensures Hits(dirs, 0) == 1 <==> |dirs| == 2
  {
    HitsUnrolled(dirs);
    DirectionCount(dirs);
    forall t ensures Hit(dirs, t) == 1 <==> ((North in dirs <==> North in DirectionsOf(t)) &&
      (West in dirs <==> West in DirectionsOf(t)) && (East in dirs <==> East in DirectionsOf(t)) &&
      (South in dirs <==> South in DirectionsOf(t)))
    {
      SameDirections(dirs, DirectionsOf(t));
    }
  }

  datatype Coordinate = Coordinate(x: int, y: int)

  /** `Bounds.isWithin`. */
  predicate IsWithin(height: nat, width: nat, x: int, y: int) {
    0 <= x < width && 0 <= y < height
  }

  /** The coordinate one step away in direction `d` (y grows southward). */
  function Step(c: Coordinate, d: Direction): Coordinate {
    match d
    case North => Coordinate(c.x, c.y - 1)
    case West => Coordinate(c.x - 1, c.y)
    case East => Coordinate(c.x + 1, c.y)
    case South => Coordinate(c.x, c.y + 1)
  }

  /** `Grid.direction` with `_bound`: the neighbouring coordinate, or none off the grid. */
  function Neighbour(height: nat, width: nat, c: Coordinate, d: Direction): (r: Option<Coordinate>)
    ensures r.Some? <==> IsWithin(height, width, Step(c, d).x, Step(c, d).y)
    ensures r.Some? ==> r.value == Step(c, d)
  {
    var n := Step(c, d);
    if IsWithin(height, width, n.x, n.y) then Some(n) else None
  }

  /** Stepping to a neighbour and back leads home. */
  lemma NeighbourBack(height: nat, width: nat, c: Coordinate, d: Direction)
    requires IsWithin(height, width, c.x, c.y) && Neighbour(height, width, c, d).Some?
    ensures Neighbour(height, width, Neighbour(height, width, c, d).value, Opposite(d)) == Some(c)
  {
  }

  /** A non-empty grid whose rows all have the width of the first. */
  predicate Shaped(cells: seq<seq<PipeType>>) {
    |cells| > 0 && |cells[0]| > 0 && forall i :: 0 <= i < |cells| ==> |cells[i]| == |cells[0]|
  }

  /** The `Grid` constructor's shape checks. */
  function CheckShape(cells: seq<seq<PipeType>>): (r: Result<()>)
    ensures r.Success? <==> Shaped(cells)
  {
    if |cells| == 0 || |cells[0]| == 0 then Failure("grid is empty")
    else if exists i :: 0 <= i < |cells| && |cells[i]| != |cells[0]| then Failure("grid is uneven")
    else Success(())
  }

  predicate InGrid(cells: seq<seq<PipeType>>, c: Coordinate)
    requires Shaped(cells)
  {
    IsWithin(|cells|, |cells[0]|, c.x, c.y)
  }

  function At(cells: seq<seq<PipeType>>, c: Coordinate): PipeType
    requires Shaped(cells) && InGrid(cells, c)
  {
    cells[c.y][c.x]
  }

  /** The tile at `c` is the first tile of type `t` in row-major order. */
  ghost predicate FirstOfType(cells: seq<seq<PipeType>>, t: PipeType, c: Coordinate)
    requires Shaped(cells)
  {
    InGrid(cells, c) && At(cells, c) == t &&
    forall y, x :: 0 <= y < |cells| && 0 <= x < |cells[0]| && (y < c.y || (y == c.y && x < c.x)) ==> cells[y][x] != t
  }

  /** Only one tile is the first of its type. */
  lemma FirstOfTypeUnique(cells: seq<seq<PipeType>>, t: PipeType, c: Coordinate)
    requires Shaped(cells) && FirstOfType(cells, t, c)
    ensures forall c' :: FirstOfType(cells, t, c') ==> c' == c
  {
  }

  /** The directions in which the neighbour's tile connects back toward the start. */
  function StartDirections(cells: seq<seq<PipeType>>, s: Coordinate): (r: set<Direction>)
    requires Shaped(cells) && InGrid(cells, s)
    ensures forall d :: d in r <==>
      Neighbour(|cells|, |cells[0]|, s, d).Some? && Connects(At(cells, Neighbour(|cells|, |cells[0]|, s, d).value), Opposite(d))
  {
    set d | d in {North, West, East, South} &&
      Neighbour(|cells|, |cells[0]|, s, d).Some? && Connects(At(cells, Neighbour(|cells|, |cells[0]|, s, d).value), Opposite(d))
  }

  /** The directions `_connect` links at `c`: the tile connects that way and the neighbour connects back. */
  function Links(cells: seq<seq<PipeType>>, c: Coordinate): (r: set<Direction>)
    requires Shaped(cells) && InGrid(cells, c)
    ensures r <= DirectionsOf(At(cells, c))
    ensures forall d :: d in r <==> (Connects(At(cells, c), d) && Neighbour(|cells|, |cells[0]|, c, d).Some? &&
      Connects(At(cells, Neighbour(|cells|, |cells[0]|, c, d).value), Opposite(d)))
  {
    set d | d in {North, West, East, South} && Connects(At(cells, c), d) &&
      Neighbour(|cells|, |cells[0]|, c, d).Some? && Connects(At(cells, Neighbour(|cells|, |cells[0]|, c, d).value), Opposite(d))
  }

  /** Links are symmetric: when `c` links toward `d`, its neighbour links back toward `c`. */
  lemma LinksSymmetric(cells: seq<seq<PipeType>>, c: Coordinate, d: Direction)
    requires Shaped(cells) && InGrid(cells, c) && d in Links(cells, c)
    ensures var n := Neighbour(|cells|, |cells[0]|, c, d).value; Opposite(d) in Links(cells, n)
  {
    var h, w := |cells|, |cells[0]|;
    var n := Neighbour(h, w, c, d).value;
    NeighbourBack(h, w, c, d);
    OppositeInvolution(d);
  }

  /** The in-bounds coordinates whose tile is not empty: the keys of `Grid.pipes`. */
  function NonEmpty(cells: seq<seq<PipeType>>): set<Coordinate>
    requires Shaped(cells)
  {
    set y, x | 0 <= y < |cells| && 0 <= x < |cells[0]| && cells[y][x] != Empty :: Coordinate(x, y)
  }

  /** The non-empty tiles before `(x, y)` in row-major order. */
  function Scanned(cells: seq<seq<PipeType>>, y: nat, x: nat): set<Coordinate>
    requires Shaped(cells)
  {
    set y', x' | 0 <= y' < |cells| && 0 <= x' < |cells[0]| && (y' < y || (y' == y && x' < x)) &&
      cells[y'][x'] != Empty :: Coordinate(x', y')
  }

  lemma ScannedNone(cells: seq<seq<PipeType>>)
    requires Shaped(cells)
    ensures Scanned(cells, 0, 0) == {}
  {
  }

  lemma ScannedOneMore(cells: seq<seq<PipeType>>, y: nat, x: nat)
    requires Shaped(cells) && y < |cells| && x < |cells[0]|
    ensures Scanned(cells, y, x + 1) ==
      Scanned(cells, y, x) + (if cells[y][x] != Empty then {Coordinate(x, y)} else {})
  {
  }

  lemma ScannedRow(cells: seq<seq<PipeType>>, y: nat)
    requires Shaped(cells) && y < |cells|
    ensures Scanned(cells, y, |cells[0]|) == Scanned(cells, y + 1, 0)
  {
  }

  lemma ScannedAll(cells: seq<seq<PipeType>>)
    requires Shaped(cells)
    ensures Scanned(cells, |cells|, 0) == NonEmpty(cells)
  {
  }

  /** The links of every pipe in `ps`. */
  function LinksOf(cells: seq<seq<PipeType>>, ps: set<Coordinate>): map<Coordinate, set<Direction>>
    requires Shaped(cells) && forall c :: c in ps ==> InGrid(cells, c)
  {
    map c | c in ps :: Links(cells, c)
  }

  lemma LinksOfOneMore(cells: seq<seq<PipeType>>, ps: set<Coordinate>, c: Coordinate)
    requires Shaped(cells) && InGrid(cells, c) && forall c :: c in ps ==> InGrid(cells, c)
    ensures LinksOf(cells, ps + {c}) == LinksOf(cells, ps)[c := Links(cells, c)]
  {
  }

  /** Every in-bounds coordinate. */
  function AllCoordinates(height: nat, width: nat): set<Coordinate> {
    set y, x | 0 <= y < height && 0 <= x < width :: Coordinate(x, y)
  }

  /** How many entries of a work-list stack were already processed. */
  function ProcessedOnStack(stack: seq<Coordinate>, processed: set<Coordinate>): nat {
    if stack == [] then 0
    else ProcessedOnStack(stack[..|stack| - 1], processed) + (if stack[|stack| - 1] in processed then 1 else 0)
  }

  /** Pushing entries that are not processed leaves the count of processed entries alone. */
  lemma {:induction false} ProcessedOnStackPush(stack: seq<Coordinate>, pushed: seq<Coordinate>, processed: set<Coordinate>)
    requires forall x :: x in pushed ==> x !in processed
    ensures ProcessedOnStack(stack + pushed, processed) == ProcessedOnStack(stack, processed)
    decreases |pushed|
  {
    if pushed != [] {
      var shorter := pushed[..|pushed| - 1];
      assert (stack + pushed)[..|stack + pushed| - 1] == stack + shorter;
      assert (stack + pushed)[|stack + pushed| - 1] == pushed[|pushed| - 1] && pushed[|pushed| - 1] in pushed;
      ProcessedOnStackPush(stack, shorter, processed);
    } else {
      assert stack + pushed == stack;
    }
  }

  /** The elements of a set, in some order (the order `list.extend` takes them from a set). */
  method ToSequence<T>(s: set<T>) returns (r: seq<T>)
    ensures forall x :: x in r <==> x in s
  {
    r := [];
    var more := s;
    while more != {}
      invariant forall x :: x in s <==> x in r || x in more
      invariant forall x :: x in r ==> x !in more
      decreases |more|
    {
      var next :| next in more;
      r := r + [next];
      more := more - {next};
    }
  }

  /** A found loop: its start and the coordinates of its pipes (the keys of `Loop.pipes`). */
  datatype Loop = Loop(start: Coordinate, pipes: set<Coordinate>)

  class Grid {
    const height: nat
    const width: nat
    var cells: seq<seq<PipeType>>
    var start: Coordinate
    /** The keys of the source's `pipes` dict, fixed when the grid is built. */
    var pipes: set<Coordinate>
    /** Each pipe's `connections`, as the directions it is linked in. */
    var connections: map<Coordinate, set<Direction>>

    ghost predicate Valid()
      reads this
    {
      Shaped(cells) && height == |cells| && width == |cells[0]| && InGrid(cells, start) &&
      pipes <= AllCoordinates(height, width) && connections.Keys == pipes &&
      forall c, d :: c in connections && d in connections[c] ==> Neighbour(height, width, c, d).Some?
    }

    constructor Of(cells: seq<seq<PipeType>>)
      requires Shaped(cells)
      ensures this.cells == cells && height == |cells| && width == |cells[0]|
      ensures start == Coordinate(0, 0) && pipes == {} && connections == map[]
    {
      this.cells := cells;
      height := |cells|;
      width := |cells[0]|;
      start := Coordinate(0, 0);
      pipes := {};
      connections := map[];
    }

    /** `_find`: the first tile of type `t`, row by row, or `None` (the source's ValueError). */
    method Find(t: PipeType) returns (r: Option<Coordinate>)
      requires Shaped(cells) && height == |cells| && width == |cells[0]|
      ensures r.Some? ==> FirstOfType(cells, t, r.value)
      ensures r.None? ==> forall y, x :: 0 <= y < height && 0 <= x < width ==> cells[y][x] != t
    {
      var y := 0;
      while y < height
        invariant 0 <= y <= height
        invariant forall y', x :: 0 <= y' < y && 0 <= x < width ==> cells[y'][x] != t
      {
        var x := 0;
        while x < width
          invariant 0 <= x <= width
          invariant forall x' :: 0 <= x' < x ==> cells[y][x'] != t
        {
          if cells[y][x] == t {
            return Some(Coordinate(x, y));
          }
          x := x + 1;
        }
        y := y + 1;
      }
      return None;
    }

    /** `_replaceStart`'s loop: the directions whose neighbour connects back toward the start. */
    method StartDirs() returns (dirs: set<Direction>)
      requires Shaped(cells) && height == |cells| && width == |cells[0]| && InGrid(cells, start)
      ensures dirs == StartDirections(cells, start)
    {
      dirs := {};
      var i := 0;
      while i < |Directions|
        invariant 0 <= i <= |Directions|
        invariant dirs == StartDirections(cells, start) * set j | 0 <= j < i :: Directions[j]
      {
        var d := Directions[i];
        var other := Neighbour(height, width, start, d);
        if other.Some? && Connects(cells[other.value.y][other.value.x], Opposite(d)) {
          dirs := dirs + {d};
        }
        i := i + 1;
      }
      assert (set j | 0 <= j < 4 :: Directions[j]) == {North, West, East, South} by {
        assert Directions[0] == North && Directions[1] == West && Directions[2] == East && Directions[3] == South;
      }
    }

    /** `_connect` for one coordinate: record a non-empty tile as a pipe with its links. */
    method Connect(c: Coordinate)
      requires Shaped(cells) && height == |cells| && width == |cells[0]| && InGrid(cells, c)
      modifies this
      ensures cells == old(cells) && start == old(start)
      ensures At(cells, c) == Empty ==> pipes == old(pipes) && connections == old(connections)
      ensures At(cells, c) != Empty ==> pipes == old(pipes) + {c} && connections == old(connections)[c := Links(cells, c)]
    {
      if cells[c.y][c.x] == Empty {
        return;
      }
      pipes := pipes + {c};
      var linked: set<Direction> := {};
      var i := 0;
      while i < |Directions|
        invariant 0 <= i <= |Directions|
        invariant linked == Links(cells, c) * set j | 0 <= j < i :: Directions[j]
      {
        var d := Directions[i];
        if Connects(cells[c.y][c.x], d) {
          var other := Neighbour(height, width, c, d);
          if other.Some? && Connects(cells[other.value.y][other.value.x], Opposite(d)) {
            linked := linked + {d};
          }
        }
        i := i + 1;
      }
      assert (set j | 0 <= j < 4 :: Directions[j]) == {North, West, East, South} by {
        assert Directions[0] == North && Directions[1] == West && Directions[2] == East && Directions[3] == South;
      }
      assert linked == Links(cells, c);
      connections := connections[c := linked];
    }

    /** `_connectAll`: every non-empty tile becomes a pipe linked to its connecting neighbours. */
    method ConnectAll()
      requires Shaped(cells) && height == |cells| && width == |cells[0]| && InGrid(cells, start)
      requires pipes == {} && connections == map[]
      modifies this
      ensures cells == old(cells) && start == old(start)
      ensures pipes == NonEmpty(cells)
      ensures connections == LinksOf(cells, pipes)
    {
      var y := 0;
      ScannedNone(cells);
      while y < height
        invariant 0 <= y <= height && cells == old(cells) && start == old(start)
        invariant pipes == Scanned(cells, y, 0) && connections == LinksOf(cells, pipes)
      {
        ConnectRow(y);
        y := y + 1;
      }
      ScannedAll(cells);
    }

    /** One row of `_connectAll`. */
    method ConnectRow(y: nat)
      requires Shaped(cells) && height == |cells| && width == |cells[0]| && InGrid(cells, start) && y < height
      requires pipes == Scanned(cells, y, 0) && connections == LinksOf(cells, pipes)
      modifies this
      ensures cells == old(cells) && start == old(start)
      ensures pipes == Scanned(cells, y + 1, 0) && connections == LinksOf(cells, pipes)
    {
      var x := 0;
      while x < width
        invariant 0 <= x <= width && cells == old(cells) && start == old(start)
        invariant pipes == Scanned(cells, y, x) && connections == LinksOf(cells, pipes)
      {
        ScannedOneMore(cells, y, x);
        LinksOfOneMore(cells, pipes, Coordinate(x, y));
        Connect(Coordinate(x, y));
        x := x + 1;
      }
      ScannedRow(cells, y);
    }

    /** `_replaceStart`: the start tile becomes the one pipe shape its neighbours connect back to. */
    method ReplaceStart() returns (r: Result<()>)
      requires Shaped(cells) && height == |cells| && width == |cells[0]| && InGrid(cells, start)
      modifies this
      ensures start == old(start) && pipes == old(pipes) && connections == old(connections)
      ensures r.Success? <==> |StartDirections(old(cells), start)| == 2
      ensures r.Success? ==> (Select(StartDirections(old(cells), start)).Success? &&
        cells == old(cells)[start.y := old(cells)[start.y][start.x := Select(StartDirections(old(cells), start)).value]])
      ensures r.Failure? ==> cells == old(cells)
    {
      var dirs := StartDirs();
      SelectTwoEnds(dirs);
      var t := Select(dirs);
      if t.Failure? {
        return Failure(t.error);
      }
      cells := cells[start.y := cells[start.y][start.x := t.value]];
      return Success(());
    }

    /** A grid whose pipes and links were filled in by `_connectAll` is well formed. */
    lemma ConnectedIsValid()
      requires Shaped(cells) && height == |cells| && width == |cells[0]| && InGrid(cells, start)
      requires pipes == NonEmpty(cells) && connections == LinksOf(cells, pipes)
      ensures Valid()
    {
      forall c | c in pipes ensures c in AllCoordinates(height, width) {
        var y, x :| 0 <= y < |cells| && 0 <= x < |cells[0]| && cells[y][x] != Empty && c == Coordinate(x, y);
      }
    }

    /**
     * The `Grid` constructor: check the shape, find the start, replace it by the one pipe
     * shape that fits its neighbours, then link every pipe. It fails exactly when the
     * grid is empty or uneven, has no start, or the start's neighbours do not connect
     * back to it from exactly two sides.
     */
    static method Build(content: seq<seq<PipeType>>) returns (r: Result<Grid>)
      ensures r.Success? <==> (Shaped(content) &&
        exists s :: FirstOfType(content, Start, s) && |StartDirections(content, s)| == 2)
      ensures r.Success? ==> fresh(r.value) && r.value.Valid()
      ensures r.Success? ==> FirstOfType(content, Start, r.value.start)
      ensures r.Success? ==> (Select(StartDirections(content, r.value.start)).Success? &&
        r.value.cells == content[r.value.start.y := content[r.value.start.y][r.value.start.x :=
          Select(StartDirections(content, r.value.start)).value]])
      ensures r.Success? ==> r.value.pipes == NonEmpty(r.value.cells)
      ensures r.Success? ==> r.value.connections == map c | c in r.value.pipes :: Links(r.value.cells, c)
    {
      if CheckShape(content).Failure? {
        return Failure("grid is empty or uneven");
      }
      var g := new Grid.Of(content);
      var s := g.Find(Start);
      if s.None? {
        assert forall s' :: !FirstOfType(content, Start, s');
        return Failure("cannot find start");
      }
      g.start := s.value;
      var replaced := g.ReplaceStart();
      if replaced.Failure? {
        FirstOfTypeUnique(content, Start, s.value);
        return Failure(replaced.error);
      }
      g.ConnectAll();
      g.ConnectedIsValid();
      return Success(g);
    }

    /** `clear`: the tile at `c` becomes empty; the pipe table is not touched. */
    method Clear(c: Coordinate)
      requires Valid() && InGrid(cells, c)
      modifies this
      ensures Valid() && start == old(start) && pipes == old(pipes) && connections == old(connections)
      ensures cells == old(cells)[c.y := old(cells)[c.y][c.x := Empty]]
    {
      cells := cells[c.y := cells[c.y][c.x := Empty]];
    }

    /** `__setitem__`: the tile at `c` gets type `t`; the pipe table is not touched. */
    method Relabel(c: Coordinate, t: PipeType)
      requires Valid() && InGrid(cells, c)
      modifies this
      ensures Valid() && start == old(start) && pipes == old(pipes) && connections == old(connections)
      ensures cells == old(cells)[c.y := old(cells)[c.y][c.x := t]]
    {
      cells := cells[c.y := cells[c.y][c.x := t]];
    }

    /** The pipes a pipe is linked to. */
    function Linked(c: Coordinate): (r: set<Coordinate>)
      requires Valid()
      reads this
      ensures r <= AllCoordinates(height, width)
    {
      if c in connections then set d | d in connections[c] :: Neighbour(height, width, c, d).value else {}
    }

    /** A set of coordinates that following links never leaves. */
    ghost predicate LinkClosed(s: set<Coordinate>)
      requires Valid()
      reads this
    {
      forall c :: c in s ==> Linked(c) <= s
    }

    /** Every coordinate processed or waiting lies in each link-closed set holding the start. */
    ghost predicate Reached(processed: set<Coordinate>, stack: seq<Coordinate>)
      requires Valid()
      reads this
    {
      forall s :: start in s && LinkClosed(s) ==> processed <= s && forall x :: x in stack ==> x in s
    }

    /** Every link out of a processed pipe leads to a processed or waiting pipe. */
    ghost predicate Covered(processed: set<Coordinate>, stack: seq<Coordinate>)
      requires Valid()
      reads this
    {
      forall c :: c in processed ==> Linked(c) <= processed + (set x | x in stack)
    }

    /** What `findIn`'s loop keeps: everything met is in bounds and reached, the start has been met. */
    ghost predicate Searching(processed: set<Coordinate>, stack: seq<Coordinate>)
      requires Valid()
      reads this
    {
      processed <= AllCoordinates(height, width) && (forall x :: x in stack ==> x in AllCoordinates(height, width)) &&
      (start in processed || start in stack) && Reached(processed, stack) && Covered(processed, stack)
    }

    /** The search starts from the start alone. */
    lemma SearchStarts()
      requires Valid()
      ensures Searching({}, [start])
    {
      assert start in [start];
    }

    /** With nothing left to visit, the processed pipes are the start's component. */
    lemma SearchEnds(processed: set<Coordinate>)
      requires Valid() && Searching(processed, [])
      ensures start in processed && LinkClosed(processed)
      ensures forall s :: start in s && LinkClosed(s) ==> processed <= s
    {
      assert (set x: Coordinate | x in []) == {};
    }

    /** A round of `findIn` keeps `Searching`. */
    lemma VisitKeeps(rest: seq<Coordinate>, pipe: Coordinate, processed: set<Coordinate>, pushed: seq<Coordinate>)
      requires var ok := Valid() && Searching(processed, rest + [pipe]) &&
        forall x :: x in pushed <==> x in Linked(pipe) && x !in processed + {pipe}; ok
      ensures Searching(processed + {pipe}, rest + pushed)
    {
      assert pipe in rest + [pipe];
      forall x | x in rest + pushed ensures x in AllCoordinates(height, width) {
        if x in rest {
          assert x in rest + [pipe];
        }
      }
      if start !in processed + {pipe} {
        assert start in rest + [pipe];
        assert start in rest;
      }
      forall s | start in s && LinkClosed(s) ensures processed + {pipe} <= s && forall x :: x in rest + pushed ==> x in s {
        assert pipe in rest + [pipe];
        assert Linked(pipe) <= s;
        forall x | x in rest + pushed ensures x in s {
          if x in rest {
            assert x in rest + [pipe];
          }
        }
      }
      forall c | c in processed + {pipe} ensures Linked(c) <= processed + {pipe} + (set x | x in rest + pushed) {
        forall y | y in Linked(c) ensures y in processed + {pipe} + (set x | x in rest + pushed) {
          if c != pipe && y !in processed + {pipe} {
            assert y in set x | x in rest + [pipe];
            assert y in rest;
            assert y in rest + pushed;
          }
        }
      }
    }

    /** A round of `findIn` shrinks the measure its loop decreases. */
    lemma VisitDecreases(rest: seq<Coordinate>, pipe: Coordinate, processed: set<Coordinate>, pushed: seq<Coordinate>)
      requires var ok := Valid() && pipe in AllCoordinates(height, width) &&
        forall x :: x in pushed ==> x !in processed + {pipe}; ok
      ensures |AllCoordinates(height, width) - (processed + {pipe})| < |AllCoordinates(height, width) - processed| ||
        (processed + {pipe} == processed &&
         ProcessedOnStack(rest + pushed, processed + {pipe}) < ProcessedOnStack(rest + [pipe], processed))
    {
      if pipe in processed {
        assert processed + {pipe} == processed;
        ProcessedOnStackPush(rest, pushed, processed);
        assert (rest + [pipe])[..|rest + [pipe]| - 1] == rest;
        assert ProcessedOnStack(rest + [pipe], processed) == ProcessedOnStack(rest, processed) + 1;
      } else {
        var all := AllCoordinates(height, width);
        assert all - processed == (all - (processed + {pipe})) + {pipe};
      }
    }

    /** One round of `findIn`: pop a pipe, mark it processed, push its links not yet processed. */
    method Visit(connected: seq<Coordinate>, processed: set<Coordinate>) returns (connected': seq<Coordinate>, processed': set<Coordinate>)
      requires Valid() && |connected| > 0 && Searching(processed, connected)
      ensures processed' == processed + {connected[|connected| - 1]} && Searching(processed', connected')
      ensures |AllCoordinates(height, width) - processed'| < |AllCoordinates(height, width) - processed| ||
        (|AllCoordinates(height, width) - processed'| == |AllCoordinates(height, width) - processed| &&
         ProcessedOnStack(connected', processed') < ProcessedOnStack(connected, processed))
    {
      var pipe := connected[|connected| - 1];
      var pushed := ToSequence(Linked(pipe) - (processed + {pipe}));
      VisitStep(connected, processed, pushed);
      connected' := connected[..|connected| - 1] + pushed;
      processed' := processed + {pipe};
    }

    /** What one round of `findIn` keeps and what it shrinks, for the stack it pops and the links it pushes. */
    lemma VisitStep(connected: seq<Coordinate>, processed: set<Coordinate>, pushed: seq<Coordinate>)
      requires var ok := Valid() && |connected| > 0 && Searching(processed, connected) &&
        forall x :: x in pushed <==>
          (x in Linked(connected[|connected| - 1]) && x !in processed + {connected[|connected| - 1]}); ok
      ensures var pipe, rest, all := connected[|connected| - 1], connected[..|connected| - 1], AllCoordinates(height, width);
        var ok := Searching(processed + {pipe}, rest + pushed) &&
          (|all - (processed + {pipe})| < |all - processed| ||
           (|all - (processed + {pipe})| == |all - processed| &&
            ProcessedOnStack(rest + pushed, processed + {pipe}) < ProcessedOnStack(connected, processed))); ok
    {
      var pipe, rest := connected[|connected| - 1], connected[..|connected| - 1];
      assert connected == rest + [pipe] && pipe in connected;
      VisitKeeps(rest, pipe, processed, pushed);
      VisitDecreases(rest, pipe, processed, pushed);
    }

    /**
     * `Loop.findIn`: a work-list search from the start over the links. The pipes found
     * are the least link-closed set holding the start: the start's connected component.
     */
    method FindLoop() returns (loop: Loop)
      requires Valid()
      ensures loop.start == start && start in loop.pipes && LinkClosed(loop.pipes)
      ensures forall s :: start in s && LinkClosed(s) ==> loop.pipes <= s
    {
      var found: set<Coordinate> := {};
      var connected := [start];
      var processed: set<Coordinate> := {};
      SearchStarts();
      while |connected| > 0
        invariant found == processed && Searching(processed, connected)
        decreases |AllCoordinates(height, width) - processed|, ProcessedOnStack(connected, processed)
      {
        var pipe := connected[|connected| - 1];
        connected, processed := Visit(connected, processed);
        found := found + {pipe};
      }
      SearchEnds(processed);
      loop := Loop(start, found);
    }
  }

  /** `Loop.contains`. */
  predicate Contains(loop: Loop, c: Coordinate) { c in loop.pipes }

  /** `cells` with every coordinate of `s` cleared to empty. */
  function Cleared(cells: seq<seq<PipeType>>, s: set<Coordinate>): (r: seq<seq<PipeType>>)
    ensures |r| == |cells| && forall y :: 0 <= y < |r| ==> |r[y]| == |cells[y]|
  {
    seq(|cells|, y requires 0 <= y < |cells| =>
      seq(|cells[y]|, x requires 0 <= x < |cells[y]| => if Coordinate(x, y) in s then Empty else cells[y][x]))
  }

  /** Clearing one more coordinate. */
  lemma ClearedOneMore(cells: seq<seq<PipeType>>, s: set<Coordinate>, c: Coordinate)
    requires Shaped(cells) && InGrid(cells, c)
    ensures Cleared(cells, s)[c.y := Cleared(cells, s)[c.y][c.x := Empty]] == Cleared(cells, s + {c})
  {
    var a, b := Cleared(cells, s)[c.y := Cleared(cells, s)[c.y][c.x := Empty]], Cleared(cells, s + {c});
    forall y | 0 <= y < |a| ensures a[y] == b[y] {
      assert |a[y]| == |b[y]|;
    }
  }

  /**
   * After clearing the pipes off a loop, the non-empty tiles are exactly the loop's
   * tiles, each with its type as before.
   */
  lemma ClearedLeavesLoop(cells: seq<seq<PipeType>>, loop: Loop)
    requires Shaped(cells) && loop.pipes <= NonEmpty(cells)
    ensures Shaped(Cleared(cells, NonEmpty(cells) - loop.pipes))
    ensures NonEmpty(Cleared(cells, NonEmpty(cells) - loop.pipes)) == loop.pipes
    ensures forall c :: c in loop.pipes ==> At(Cleared(cells, NonEmpty(cells) - loop.pipes), c) == At(cells, c)
  {
    var r := Cleared(cells, NonEmpty(cells) - loop.pipes);
    forall c | c in loop.pipes ensures InGrid(cells, c) && At(r, c) == At(cells, c) && c in NonEmpty(r) {
      var y, x :| 0 <= y < |cells| && 0 <= x < |cells[0]| && cells[y][x] != Empty && c == Coordinate(x, y);
    }
  }

  /**
   * `Loop.clearRemainderOf`: every pipe of the grid off the loop is cleared to empty;
   * loop tiles and tiles that were never pipes keep their type.
   */
  method ClearRemainderOf(loop: Loop, grid: Grid)
    requires grid.Valid()
    modifies grid
    ensures grid.Valid() && grid.start == old(grid.start) && grid.pipes == old(grid.pipes)
    ensures grid.connections == old(grid.connections)
    ensures grid.cells == Cleared(old(grid.cells), grid.pipes - loop.pipes)
  {
    var coordsToClear := grid.pipes - loop.pipes;
    ghost var cleared: set<Coordinate> := {};
    assert grid.cells == Cleared(grid.cells, {}) by {
      forall y | 0 <= y < |grid.cells| ensures grid.cells[y] == Cleared(grid.cells, {})[y] { }
    }
    while coordsToClear != {}
      invariant grid.Valid() && grid.start == old(grid.start) && grid.pipes == old(grid.pipes)
      invariant grid.connections == old(grid.connections)
      invariant coordsToClear + cleared == grid.pipes - loop.pipes && coordsToClear !! cleared
      invariant grid.cells == Cleared(old(grid.cells), cleared)
      decreases |coordsToClear|
    {
      var coord :| coord in coordsToClear;
      assert coord in AllCoordinates(grid.height, grid.width);
      ClearedOneMore(old(grid.cells), cleared, coord);
      grid.Clear(coord);
      coordsToClear := coordsToClear - {coord};
      cleared := cleared + {coord};
    }
  }

  /** `Loop.distanceToFarthestPointFromStart`: half the loop's length, rounded up. */
  function DistanceToFarthestPointFromStart(loop: Loop): (r: nat)
    ensures |loop.pipes| <= 2 * r <= |loop.pipes| + 1
  {
    (|loop.pipes| + 1) / 2
  }

  /**
   * The scan state of `fillInsideAndOutside` along one row: whether the scan is inside
   * the loop, and whether an unmatched pipe end toward the north or south is pending.
   */
  datatype ScanState = ScanState(inside: bool, north: bool, south: bool)

  /** The scan's step over one tile: empty tiles leave it alone; pipe ends toggle the pending flags. */
  function ScanStep(st: ScanState, t: PipeType): ScanState {
    if t == Empty then st
    else
      var north := if North in DirectionsOf(t) then !st.north else st.north;
      var south := if South in DirectionsOf(t) then !st.south else st.south;
      if north && south then ScanState(!st.inside, false, false) else ScanState(st.inside, north, south)
  }

  /** The scan state before column `x` of `row`. */
  function StateAt(row: seq<PipeType>, x: nat): (r: ScanState)
    requires x <= |row|
  {
    if x == 0 then ScanState(false, false, false) else ScanStep(StateAt(row, x - 1), row[x - 1])
  }

  /** The label the scan gives tile `x`: empty tiles become inside or outside, the rest stay. */
  function Label(row: seq<PipeType>, x: nat): PipeType
    requires x < |row|
  {
    if row[x] != Empty then row[x] else if StateAt(row, x).inside then Inside else Outside
  }

  /** A row after the scan. */
  function FillRow(row: seq<PipeType>): (r: seq<PipeType>)
    ensures |r| == |row|
  {
    seq(|row|, x requires 0 <= x < |row| => Label(row, x))
  }

  /** The scan never leaves both a north and a south end pending: a pair completes a crossing. */
  lemma {:induction false} NeverBothPending(row: seq<PipeType>, x: nat)
    requires x <= |row|
    ensures !(StateAt(row, x).north && StateAt(row, x).south)
  {
    if x > 0 {
      NeverBothPending(row, x - 1);
    }
  }

  /** The scan relabels every empty tile as inside or outside and leaves every other tile as it was. */
  lemma FillRowRelabels(row: seq<PipeType>)
    ensures forall x :: 0 <= x < |row| && row[x] == Empty ==> FillRow(row)[x] in {Inside, Outside}
    ensures forall x :: 0 <= x < |row| && row[x] != Empty ==> FillRow(row)[x] == row[x]
  {
  }

  /** How many empty tiles among the first `x` of `row` the scan labels `t`. */
  function LabelCount(row: seq<PipeType>, x: nat, t: PipeType): nat
    requires x <= |row|
  {
    if x == 0 then 0 else LabelCount(row, x - 1, t) + Bit(row[x - 1] == Empty && Label(row, x - 1) == t)
  }

  /** How many of the first `x` tiles of `row` are empty. */
  function EmptyCount(row: seq<PipeType>, x: nat): nat
    requires x <= |row|
  {
    if x == 0 then 0 else EmptyCount(row, x - 1) + Bit(row[x - 1] == Empty)
  }

  /** Per row: the inside and outside labels account for every empty tile. */
  lemma {:induction false} LabelCountsCoverEmpties(row: seq<PipeType>, x: nat)
    requires x <= |row|
    ensures LabelCount(row, x, Inside) + LabelCount(row, x, Outside) == EmptyCount(row, x)
  {
    if x > 0 {
      LabelCountsCoverEmpties(row, x - 1);
    }
  }

  /** `LabelCount` summed over the first `y` rows. */
  function GridLabelCount(cells: seq<seq<PipeType>>, y: nat, t: PipeType): nat
    requires y <= |cells|
  {
    if y == 0 then 0 else GridLabelCount(cells, y - 1, t) + LabelCount(cells[y - 1], |cells[y - 1]|, t)
  }

  /** `EmptyCount` summed over the first `y` rows. */
  function GridEmptyCount(cells: seq<seq<PipeType>>, y: nat): nat
    requires y <= |cells|
  {
    if y == 0 then 0 else GridEmptyCount(cells, y - 1) + EmptyCount(cells[y - 1], |cells[y - 1]|)
  }

  /** The two counts `fillInsideAndOutside` returns add up to the empty tiles it scanned. */
  lemma {:induction false} CountsCoverEmpties(cells: seq<seq<PipeType>>, y: nat)
    requires y <= |cells|
    ensures GridLabelCount(cells, y, Inside) + GridLabelCount(cells, y, Outside) == GridEmptyCount(cells, y)
  {
    if y > 0 {
      CountsCoverEmpties(cells, y - 1);
      LabelCountsCoverEmpties(cells[y - 1], |cells[y - 1]|);
    }
  }

  /** Where the scan of row `y` stands after `x` tiles, with `before` the grid it started from. */
  ghost predicate ScanningRow(grid: Grid, before: seq<seq<PipeType>>, y: nat, x: nat, st: ScanState, inside: nat, outside: nat)
    reads grid
  {
    grid.Valid() && y < |before| == grid.height && |before[y]| == grid.width && x <= grid.width &&
    grid.cells == before[y := FillRow(before[y])[..x] + before[y][x..]] &&
    st == StateAt(before[y], x) &&
    inside == LabelCount(before[y], x, Inside) && outside == LabelCount(before[y], x, Outside)
  }

  /** One tile of the row scan: relabel it if it is empty, then step the scan state. */
  method ScanTile(grid: Grid, ghost before: seq<seq<PipeType>>, y: nat, x: nat, st: ScanState, inside: nat, outside: nat)
    returns (st': ScanState, inside': nat, outside': nat)
    requires ScanningRow(grid, before, y, x, st, inside, outside) && x < grid.width
    modifies grid
    ensures ScanningRow(grid, before, y, x + 1, st', inside', outside')
    ensures grid.start == old(grid.start) && grid.pipes == old(grid.pipes) && grid.connections == old(grid.connections)
  {
    ghost var row := before[y];
    var t := grid.cells[y][x];
    ghost var cur := FillRow(row)[..x] + row[x..];
    assert t == row[x] && cur[x] == row[x];
    inside', outside' := inside, outside;
    if t == Empty {
      var tag := if st.inside then Inside else Outside;
      grid.Relabel(Coordinate(x, y), tag);
      assert grid.cells == before[y := cur[x := tag]];
      if tag == Inside {
        inside' := inside + 1;
      } else {
        outside' := outside + 1;
      }
    } else {
      assert cur[x := Label(row, x)] == cur;
    }
    assert grid.cells == before[y := cur[x := Label(row, x)]];
    assert FillRow(row)[..x + 1] + row[x + 1..] == cur[x := Label(row, x)];
    st' := ScanStep(st, t);
  }

  /** One row of `fillInsideAndOutside`: relabel its empty tiles, counting each label. */
  method ScanRow(grid: Grid, y: nat) returns (inside: nat, outside: nat)
    requires grid.Valid() && y < grid.height
    modifies grid
    ensures grid.Valid() && grid.start == old(grid.start) && grid.pipes == old(grid.pipes)
    ensures grid.connections == old(grid.connections)
    ensures grid.cells == old(grid.cells)[y := FillRow(old(grid.cells)[y])]
    ensures inside == LabelCount(old(grid.cells)[y], grid.width, Inside)
    ensures outside == LabelCount(old(grid.cells)[y], grid.width, Outside)
  {
    ghost var before := grid.cells;
    inside, outside := 0, 0;
    var st := ScanState(false, false, false);
    var x := 0;
    ScanRowStarts(grid, y);
    while x < grid.width
      invariant var ok := ScanningRow(grid, before, y, x, st, inside, outside); ok
      invariant grid.start == old(grid.start) && grid.pipes == old(grid.pipes) && grid.connections == old(grid.connections)
    {
      st, inside, outside := ScanTile(grid, before, y, x, st, inside, outside);
      x := x + 1;
    }
    ScanRowDone(grid, before, y, x, st, inside, outside);
  }

  lemma ScanRowStarts(grid: Grid, y: nat)
    requires grid.Valid() && y < grid.height
    ensures ScanningRow(grid, grid.cells, y, 0, ScanState(false, false, false), 0, 0)
  {
    assert FillRow(grid.cells[y])[..0] + grid.cells[y][0..] == grid.cells[y];
    assert grid.cells[y := grid.cells[y]] == grid.cells;
  }

  lemma ScanRowDone(grid: Grid, before: seq<seq<PipeType>>, y: nat, x: nat, st: ScanState, inside: nat, outside: nat)
    requires var ok := ScanningRow(grid, before, y, x, st, inside, outside) && x >= grid.width; ok
    ensures grid.Valid() && grid.cells == before[y := FillRow(before[y])]
    ensures inside == LabelCount(before[y], grid.width, Inside) && outside == LabelCount(before[y], grid.width, Outside)
  {
    assert FillRow(before[y])[..x] + before[y][x..] == FillRow(before[y]);
  }

  /** Every row after the scan. */
  function FillRows(cells: seq<seq<PipeType>>): (r: seq<seq<PipeType>>)
    ensures |r| == |cells|
  {
    seq(|cells|, y requires 0 <= y < |cells| => FillRow(cells[y]))
  }

  lemma FillRowsStep(cells: seq<seq<PipeType>>, y: nat)
    requires y < |cells|
    ensures (FillRows(cells)[..y] + cells[y..])[y := FillRow(cells[y])] == FillRows(cells)[..y + 1] + cells[y + 1..]
  {
  }

  /** Where `fillInsideAndOutside` stands after `y` rows, with `before` the grid it started from. */
  ghost predicate Filling(grid: Grid, before: seq<seq<PipeType>>, y: nat, inside: nat, outside: nat)
    reads grid
  {
    grid.Valid() && |before| == grid.height && y <= grid.height &&
    grid.cells == FillRows(before)[..y] + before[y..] &&
    inside == GridLabelCount(before, y, Inside) && outside == GridLabelCount(before, y, Outside)
  }

  lemma FillingStarts(grid: Grid)
    requires grid.Valid()
    ensures Filling(grid, grid.cells, 0, 0, 0)
  {
    assert FillRows(grid.cells)[..0] + grid.cells[0..] == grid.cells;
  }

  lemma FillingEnds(grid: Grid, before: seq<seq<PipeType>>, inside: nat, outside: nat)
    requires Filling(grid, before, grid.height, inside, outside)
    ensures grid.cells == FillRows(before)
  {
    assert FillRows(before)[..grid.height] + before[grid.height..] == FillRows(before);
  }

  /** One row of `fillInsideAndOutside`, with the counts carried along. */
  method FillNextRow(grid: Grid, ghost before: seq<seq<PipeType>>, y: nat, inside: nat, outside: nat)
    returns (inside': nat, outside': nat)
    requires Filling(grid, before, y, inside, outside) && y < grid.height
    modifies grid
    ensures Filling(grid, before, y + 1, inside', outside')
    ensures grid.start == old(grid.start) && grid.pipes == old(grid.pipes) && grid.connections == old(grid.connections)
  {
    assert grid.cells[y] == before[y] && |before[y]| == grid.width;
    var rowInside, rowOutside := ScanRow(grid, y);
    FillRowsStep(before, y);
    inside', outside' := inside + rowInside, outside + rowOutside;
  }

  /**
   * `Loop.fillInsideAndOutside`: scan each row left to right, relabelling empty tiles by
   * the scan state and counting the two labels.
   */
  method FillInsideAndOutside(grid: Grid) returns (inside: nat, outside: nat)
    requires grid.Valid()
    modifies grid
    ensures grid.Valid() && grid.start == old(grid.start) && grid.pipes == old(grid.pipes)
    ensures grid.connections == old(grid.connections)
    ensures grid.cells == FillRows(old(grid.cells))
    ensures inside == GridLabelCount(old(grid.cells), grid.height, Inside)
    ensures outside == GridLabelCount(old(grid.cells), grid.height, Outside)
  {
    ghost var before := grid.cells;
    inside, outside := 0, 0;
    var y := 0;
    FillingStarts(grid);
    while y < grid.height
      invariant Filling(grid, before, y, inside, outside)
      invariant grid.start == old(grid.start) && grid.pipes == old(grid.pipes) && grid.connections == old(grid.connections)
      decreases grid.height - y
    {
      inside, outside := FillNextRow(grid, before, y, inside, outside);
      y := y + 1;
    }
    FillingEnds(grid, before, inside, outside);
  }
}
