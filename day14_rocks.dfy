/**
 * Rock tilting and cycle skipping of 2023/day14/run.py.
 *
 * A grid is a rectangular sequence of rows. Each tip copies the grid into a 2-D array
 * and, line by line, moves every round rock toward the tipped edge with a cursor at
 * the first empty cell of the current run (`first_empty`). One method covers the four
 * directions: a direction fixes which cells form line `l` and in what order (`Cell`).
 */
module Rocks {
  import opened Wrappers

  datatype Content = Empty | Square | Round

  predicate Rectangular(content: seq<seq<Content>>) {
    |content| > 0 && forall i :: 0 <= i < |content| ==> |content[i]| == |content[0]|
  }

  type Grid = g: seq<seq<Content>> | Rectangular(g) witness [[]]

  function Rows(g: Grid): nat { |g| }
  function Cols(g: Grid): nat { |g[0]| }

  /**
   * The `Grid` constructor: `content[0]` fails on an empty grid, and rows of unequal
   * length are the source's ValueError.
   */
  function MakeGrid(content: seq<seq<Content>>): (r: Result<Grid>)
    ensures r.Success? <==> Rectangular(content)
    ensures r.Success? ==> r.value == content
  {
    if |content| == 0 then Failure("list index out of range")
    else if exists i :: 0 <= i < |content| && |content[i]| != |content[0]| then
      Failure("grid is not rectangular")
    else Success(content)
  }

  // ---- one line ----

  /** Where the run of empty cells at the end of `t` starts (`|t|` when `t` ends otherwise). */
  function TrailingStart(t: seq<Content>): (f: nat)
    ensures f <= |t|
    ensures forall i :: f <= i < |t| ==> t[i] == Empty
    ensures f == 0 || t[f - 1] != Empty
  {
    if t == [] || t[|t| - 1] != Empty then |t| else TrailingStart(t[..|t| - 1])
  }

  /** The two properties of `TrailingStart` determine it. */
  lemma TrailingStartUnique(t: seq<Content>, f: nat)
    requires f <= |t| && (forall i :: f <= i < |t| ==> t[i] == Empty) && (f == 0 || t[f - 1] != Empty)
    ensures TrailingStart(t) == f
  {
  }

  /**
   * A line after tipping toward index 0: its cells are added one at a time, and a round
   * rock moves to the start of the empty run before it, leaving an empty cell behind.
   */
  function Tilt(s: seq<Content>): (t: seq<Content>)
    ensures |t| == |s|
    ensures forall i :: 0 <= i < |s| ==> (s[i] == Square <==> t[i] == Square)
  {
    if s == [] then []
    else
      var prefix := Tilt(s[..|s| - 1]);
      var c := s[|s| - 1];
      var f := TrailingStart(prefix);
      if c == Round && f < |prefix| then prefix[f := Round] + [Empty] else prefix + [c]
  }

  /** Tipping never creates or destroys a rock: the line's contents are a permutation. */
  lemma {:induction false} TiltPermutes(s: seq<Content>)
    ensures multiset(Tilt(s)) == multiset(s)
  {
    if s != [] {
      var init, c := s[..|s| - 1], s[|s| - 1];
      var prefix := Tilt(init);
      TiltPermutes(init);
      assert s == init + [c];
      var f := TrailingStart(prefix);
      if c == Round && f < |prefix| {
        DropPermutes(prefix, f);
      }
      assert multiset(Tilt(s)) == multiset(prefix + [c]);
    }
  }

  /** Moving a round rock into an empty cell and leaving an empty one behind keeps the contents. */
  lemma DropPermutes(t: seq<Content>, f: nat)
    requires f < |t| && t[f] == Empty
    ensures multiset(t[f := Round] + [Empty]) == multiset(t + [Round])
  {
    assert t == t[..f] + [Empty] + t[f + 1..];
    assert t[f := Round] + [Empty] == t[..f] + [Round] + t[f + 1..] + [Empty];
  }

  /** No round rock sits directly after an empty cell. */
  ghost predicate Settled(t: seq<Content>) {
    forall i :: 0 < i < |t| && t[i] == Round ==> t[i - 1] != Empty
  }

  /** In a settled line every empty cell before a round rock is separated from it by a square rock. */
  lemma SettledMeansBlocked(t: seq<Content>, i: nat, j: nat)
    requires Settled(t) && i < j < |t| && t[i] == Empty && t[j] == Round
    ensures exists k :: i < k < j && t[k] == Square
    decreases j - i
  {
    if t[j - 1] == Round {
      SettledMeansBlocked(t, i, j - 1);
    } else {
      assert t[j - 1] == Square;
    }
  }

  /** After tipping, every round rock rests against the edge, a square rock or another round rock. */
  lemma {:induction false} TiltSettles(s: seq<Content>)
    ensures Settled(Tilt(s))
  {
    if s != [] {
      var prefix := Tilt(s[..|s| - 1]);
      TiltSettles(s[..|s| - 1]);
    }
  }

  // ---- directions on a grid ----

  datatype Dir = North | West | South | East

  /** North and south tip columns; west and east tip rows. */
  function NumLines(d: Dir, rows: nat, cols: nat): nat {
    if d == North || d == South then cols else rows
  }

  function LineLen(d: Dir, rows: nat, cols: nat): nat {
    if d == North || d == South then rows else cols
  }

  /** The row of the `p`-th cell of line `l`, counting from the edge the rocks move toward. */
  function CellRow(d: Dir, rows: nat, cols: nat, l: nat, p: nat): (r: nat)
    requires l < NumLines(d, rows, cols) && p < LineLen(d, rows, cols)
    ensures r < rows
  {
    match d
    case North => p
    case South => rows - 1 - p
    case West => l
    case East => l
  }

  function CellCol(d: Dir, rows: nat, cols: nat, l: nat, p: nat): (c: nat)
    requires l < NumLines(d, rows, cols) && p < LineLen(d, rows, cols)
    ensures c < cols
  {
    match d
    case North => l
    case South => l
    case West => p
    case East => cols - 1 - p
  }

  /** The line a cell belongs to. */
  function LineOf(d: Dir, rows: nat, cols: nat, r: nat, c: nat): (l: nat)
    requires r < rows && c < cols
    ensures l < NumLines(d, rows, cols)
  {
    if d == North || d == South then c else r
  }

  /** The cell's place along its line. */
  function PosOf(d: Dir, rows: nat, cols: nat, r: nat, c: nat): (p: nat)
    requires r < rows && c < cols
    ensures p < LineLen(d, rows, cols)
    ensures CellRow(d, rows, cols, LineOf(d, rows, cols, r, c), p) == r
    ensures CellCol(d, rows, cols, LineOf(d, rows, cols, r, c), p) == c
  {
    match d
    case North => r
    case South => rows - 1 - r
    case West => c
    case East => cols - 1 - c
  }

  lemma CellRoundTrip(d: Dir, rows: nat, cols: nat, l: nat, p: nat)
    requires l < NumLines(d, rows, cols) && p < LineLen(d, rows, cols)
    ensures LineOf(d, rows, cols, CellRow(d, rows, cols, l, p), CellCol(d, rows, cols, l, p)) == l
    ensures PosOf(d, rows, cols, CellRow(d, rows, cols, l, p), CellCol(d, rows, cols, l, p)) == p
  {
  }

  /** Line `l` of the grid, in tipping order. */
  function Line(g: Grid, d: Dir, l: nat): (s: seq<Content>)
    requires l < NumLines(d, Rows(g), Cols(g))
    ensures |s| == LineLen(d, Rows(g), Cols(g))
  {
    seq(LineLen(d, Rows(g), Cols(g)), p requires 0 <= p < LineLen(d, Rows(g), Cols(g)) =>
      g[CellRow(d, Rows(g), Cols(g), l, p)][CellCol(d, Rows(g), Cols(g), l, p)])
  }

  /** The grid after tipping it toward `d`: every line tipped independently. */
  function Tilted(g: Grid, d: Dir): (r: Grid)
    ensures Rows(r) == Rows(g) && Cols(r) == Cols(g)
  {
    var rows, cols := Rows(g), Cols(g);
    seq(rows, i requires 0 <= i < rows =>
      seq(cols, j requires 0 <= j < cols =>
        Tilt(Line(g, d, LineOf(d, rows, cols, i, j)))[PosOf(d, rows, cols, i, j)]))
  }

  /** Each line of the tipped grid is that line tipped. */
  lemma TiltedLine(g: Grid, d: Dir, l: nat)
    requires l < NumLines(d, Rows(g), Cols(g))
    ensures Line(Tilted(g, d), d, l) == Tilt(Line(g, d, l))
  {
    var rows, cols := Rows(g), Cols(g);
    forall p | 0 <= p < LineLen(d, rows, cols)
      ensures Line(Tilted(g, d), d, l)[p] == Tilt(Line(g, d, l))[p]
    {
      var i, j := CellRow(d, rows, cols, l, p), CellCol(d, rows, cols, l, p);
      CellRoundTrip(d, rows, cols, l, p);
      TiltedCell(g, d, i, j);
    }
  }

  /**
   * Tipping keeps every square rock in place, keeps each line's contents, and leaves
   * every line settled toward `d`.
   */
  lemma TiltedKeepsRocks(g: Grid, d: Dir)
    ensures forall i, j :: 0 <= i < Rows(g) && 0 <= j < Cols(g) ==>
      (g[i][j] == Square <==> Tilted(g, d)[i][j] == Square)
    ensures forall l :: 0 <= l < NumLines(d, Rows(g), Cols(g)) ==>
      multiset(Line(Tilted(g, d), d, l)) == multiset(Line(g, d, l)) && Settled(Line(Tilted(g, d), d, l))
  {
    forall l | 0 <= l < NumLines(d, Rows(g), Cols(g))
      ensures multiset(Line(Tilted(g, d), d, l)) == multiset(Line(g, d, l)) && Settled(Line(Tilted(g, d), d, l))
    {
      TiltedLine(g, d, l);
      TiltPermutes(Line(g, d, l));
      TiltSettles(Line(g, d, l));
    }
  }

  /** `TrailingStart` as the source's `first_empty`: `None` when the tipped prefix does not end in an empty run. */
  function FirstEmpty(t: seq<Content>): (r: Option<nat>)
    ensures r.Some? ==> r.value < |t| && t[r.value] == Empty
  {
    var f := TrailingStart(t);
    if f < |t| then Some(f) else None
  }

  /** Tipping a prefix one cell longer: a round rock drops into the empty run, anything else stays. */
  lemma TiltExtend(s: seq<Content>, p: nat)
    requires p < |s|
    ensures |Tilt(s[..p])| == p
    ensures Tilt(s[..p + 1]) ==
      if s[p] == Round && FirstEmpty(Tilt(s[..p])).Some? then Tilt(s[..p])[FirstEmpty(Tilt(s[..p])).value := Round] + [Empty]
      else Tilt(s[..p]) + [s[p]]
  {
    assert s[..p + 1][..p] == s[..p];
  }

  /** The line as the inner loop leaves it after `p` cells: tipped up to `p`, untouched after. */
  lemma LineAfterDrop(s: seq<Content>, p: nat, f: nat)
    requires p < |s| && s[p] == Round && FirstEmpty(Tilt(s[..p])) == Some(f)
    ensures (Tilt(s[..p]) + s[p..])[f := Round][p := Empty] == Tilt(s[..p + 1]) + s[p + 1..]
  {
    TiltExtend(s, p);
    assert s[p..][1..] == s[p + 1..];
    Splice(Tilt(s[..p]), s[p..], f);
  }

  /** Dropping into place `f` of `t` and emptying the first cell of `u` after it, as one sequence. */
  lemma Splice(t: seq<Content>, u: seq<Content>, f: nat)
    requires f < |t| && |u| > 0
    ensures (t + u)[f := Round][|t| := Empty] == t[f := Round] + [Empty] + u[1..]
  {
    var lhs := (t + u)[f := Round][|t| := Empty];
    var rhs := t[f := Round] + [Empty] + u[1..];
    forall k | 0 <= k < |lhs| ensures lhs[k] == rhs[k] {
    }
  }

  lemma LineAfterKeep(s: seq<Content>, p: nat)
    requires p < |s| && !(s[p] == Round && FirstEmpty(Tilt(s[..p])).Some?)
    ensures Tilt(s[..p]) + s[p..] == Tilt(s[..p + 1]) + s[p + 1..]
  {
    TiltExtend(s, p);
    assert s[p..] == [s[p]] + s[p + 1..];
  }

  /** How the cursor follows the tipped prefix, case by case as the inner loop updates it. */
  lemma FirstEmptyAfterSquare(t: seq<Content>)
    ensures FirstEmpty(t + [Square]) == None
  {
    TrailingStartUnique(t + [Square], |t| + 1);
  }

  lemma FirstEmptyAfterEmpty(t: seq<Content>)
    ensures FirstEmpty(t + [Empty]) == Some(if FirstEmpty(t).Some? then FirstEmpty(t).value else |t|)
  {
    TrailingStartUnique(t + [Empty], if TrailingStart(t) < |t| then TrailingStart(t) else |t|);
  }

  lemma FirstEmptyAfterBlockedRound(t: seq<Content>)
    requires FirstEmpty(t) == None
    ensures FirstEmpty(t + [Round]) == None
  {
    TrailingStartUnique(t + [Round], |t| + 1);
  }

  lemma FirstEmptyAfterDroppedRound(t: seq<Content>, f: nat)
    requires FirstEmpty(t) == Some(f)
    ensures FirstEmpty(t[f := Round] + [Empty]) == Some(f + 1)
  {
    TrailingStartUnique(t[f := Round] + [Empty], f + 1);
  }

  /**
   * `tip_north`, `tip_west`, `tip_south` and `tip_east`: copy the grid, then in each line
   * swap every round rock with the first empty cell of the run before it. The argument
   * is left as it was; the result is a new grid.
   */
  method Tip(g: Grid, d: Dir) returns (r: Grid)
    ensures r == Tilted(g, d)
  {
    var rows, cols := Rows(g), Cols(g);
    var a := new Content[rows, cols]((i, j) requires 0 <= i < rows && 0 <= j < cols => g[i][j]);
    var n := NumLines(d, rows, cols);
    var l := 0;
    while l < n
      invariant 0 <= l <= n
      invariant forall i, j :: 0 <= i < rows && 0 <= j < cols ==>
        a[i, j] == if LineOf(d, rows, cols, i, j) < l then Tilted(g, d)[i][j] else g[i][j]
    {
      TipLine(a, g, d, l);
      l := l + 1;
    }
    r := seq(rows, i requires 0 <= i < rows reads a => seq(cols, j requires 0 <= j < cols reads a => a[i, j]));
    forall i | 0 <= i < rows ensures r[i] == Tilted(g, d)[i] {
      assert forall j :: 0 <= j < cols ==> r[i][j] == Tilted(g, d)[i][j];
    }
  }

  /**
   * The swap in the inner loop: the round rock at place `p` of line `l` trades cells with
   * the empty cell at place `f`, given the line as it stands in `a` (`cur`) and the rest of
   * the grid as it stood before the line was begun (`a0`).
   */
  method DropRock(a: array2<Content>, g: Grid, d: Dir, l: nat, p: nat, f: nat,
                  ghost cur: seq<Content>, ghost a0: seq<seq<Content>>)
    requires a.Length0 == Rows(g) && a.Length1 == Cols(g) && l < NumLines(d, Rows(g), Cols(g))
    requires |a0| == Rows(g) && forall i :: 0 <= i < Rows(g) ==> |a0[i]| == Cols(g)
    requires f < p < LineLen(d, Rows(g), Cols(g)) == |cur|
    requires forall i, j :: 0 <= i < Rows(g) && 0 <= j < Cols(g) ==>
      a[i, j] == if LineOf(d, Rows(g), Cols(g), i, j) == l then cur[PosOf(d, Rows(g), Cols(g), i, j)] else a0[i][j]
    modifies a
    ensures forall i, j :: 0 <= i < Rows(g) && 0 <= j < Cols(g) ==>
      a[i, j] == if LineOf(d, Rows(g), Cols(g), i, j) == l then cur[f := cur[p]][p := cur[f]][PosOf(d, Rows(g), Cols(g), i, j)]
        else a0[i][j]
  {
    var rows, cols := Rows(g), Cols(g);
    CellRoundTrip(d, rows, cols, l, p);
    CellRoundTrip(d, rows, cols, l, f);
    var row, col := CellRow(d, rows, cols, l, p), CellCol(d, rows, cols, l, p);
    var er, ec := CellRow(d, rows, cols, l, f), CellCol(d, rows, cols, l, f);
    a[er, ec], a[row, col] := a[row, col], a[er, ec];
  }

  /** The state of the inner loop after `p` cells of line `l`. */
  ghost predicate TipLineState(a: array2<Content>, g: Grid, d: Dir, l: nat, p: nat, firstEmpty: Option<nat>,
                               cur: seq<Content>, a0: seq<seq<Content>>)
    reads a
  {
    a.Length0 == Rows(g) && a.Length1 == Cols(g) && l < NumLines(d, Rows(g), Cols(g)) &&
    |a0| == Rows(g) && (forall i :: 0 <= i < Rows(g) ==> |a0[i]| == Cols(g)) &&
    var s := Line(g, d, l);
    p <= |s| && cur == Tilt(s[..p]) + s[p..] && firstEmpty == FirstEmpty(Tilt(s[..p])) &&
    forall i, j :: 0 <= i < Rows(g) && 0 <= j < Cols(g) ==>
      a[i, j] == if LineOf(d, Rows(g), Cols(g), i, j) == l then cur[PosOf(d, Rows(g), Cols(g), i, j)] else a0[i][j]
  }

  /** One pass of the inner loop: the cell at place `p` of line `l`. */
  method TipCell(a: array2<Content>, g: Grid, d: Dir, l: nat, p: nat, firstEmpty: Option<nat>,
                 ghost cur: seq<Content>, ghost a0: seq<seq<Content>>)
    returns (firstEmpty': Option<nat>, ghost cur': seq<Content>)
    requires var ok := TipLineState(a, g, d, l, p, firstEmpty, cur, a0) && p < LineLen(d, Rows(g), Cols(g)); ok
    modifies a
    ensures TipLineState(a, g, d, l, p + 1, firstEmpty', cur', a0)
  {
    var rows, cols := Rows(g), Cols(g);
    ghost var s := Line(g, d, l);
    ghost var t := Tilt(s[..p]);
    TiltExtend(s, p);
    CellRoundTrip(d, rows, cols, l, p);
    var c := a[CellRow(d, rows, cols, l, p), CellCol(d, rows, cols, l, p)];
    assert c == s[p];
    firstEmpty', cur' := firstEmpty, cur;
    if c == Square {
      firstEmpty' := None;
    }
    if c == Empty {
      FirstEmptyAfterEmpty(t);
      LineAfterKeep(s, p);
      assert Tilt(s[..p + 1]) == t + [Empty];
      if firstEmpty' == None {
        firstEmpty' := Some(p);
      }
    } else if c == Round {
      if firstEmpty'.Some? {
        var f := firstEmpty'.value;
        FirstEmptyAfterDroppedRound(t, f);
        LineAfterDrop(s, p, f);
        assert Tilt(s[..p + 1]) == t[f := Round] + [Empty];
        DropRock(a, g, d, l, p, f, cur, a0);
        cur' := cur[f := Round][p := Empty];
        firstEmpty' := Some(f + 1);
      } else {
        FirstEmptyAfterBlockedRound(t);
        LineAfterKeep(s, p);
        assert Tilt(s[..p + 1]) == t + [Round];
      }
    } else {
      FirstEmptyAfterSquare(t);
      LineAfterKeep(s, p);
      assert Tilt(s[..p + 1]) == t + [Square];
    }
  }

  /** The inner loop of a tip: line `l` of `a` is tipped in place, every other line is left alone. */
  method TipLine(a: array2<Content>, g: Grid, d: Dir, l: nat)
    requires a.Length0 == Rows(g) && a.Length1 == Cols(g) && l < NumLines(d, Rows(g), Cols(g))
    requires forall i, j :: 0 <= i < Rows(g) && 0 <= j < Cols(g) && LineOf(d, Rows(g), Cols(g), i, j) == l ==>
      a[i, j] == g[i][j]
    modifies a
    ensures forall i, j :: 0 <= i < Rows(g) && 0 <= j < Cols(g) ==>
      a[i, j] == if LineOf(d, Rows(g), Cols(g), i, j) == l then Tilted(g, d)[i][j] else old(a[i, j])
  {
    var rows, cols := Rows(g), Cols(g);
    var len := LineLen(d, rows, cols);
    ghost var s := Line(g, d, l);
    ghost var a0 := Snapshot(a);
    TipLineStart(a, g, d, l, a0);
    // the line as it stands in `a`: tipped up to `p`, untouched after
    ghost var cur := s;
    var firstEmpty: Option<nat> := None;
    var p := 0;
    while p < len
      invariant 0 <= p <= len
      invariant var ok := TipLineState(a, g, d, l, p, firstEmpty, cur, a0); ok
    {
      firstEmpty, cur := TipCell(a, g, d, l, p, firstEmpty, cur, a0);
      p := p + 1;
    }
    TipLineDone(a, g, d, l, firstEmpty, cur, a0);
  }

  /** The contents of `a`, row by row. */
  lemma Snapshot(a: array2<Content>) returns (a0: seq<seq<Content>>)
    ensures |a0| == a.Length0 && forall i :: 0 <= i < a.Length0 ==> |a0[i]| == a.Length1
    ensures forall i, j :: 0 <= i < a.Length0 && 0 <= j < a.Length1 ==> a0[i][j] == a[i, j]
  {
    a0 := seq(a.Length0, i requires 0 <= i < a.Length0 reads a =>
      seq(a.Length1, j requires 0 <= j < a.Length1 reads a => a[i, j]));
  }

  /** Before the inner loop: nothing of line `l` is tipped yet, and `a0` is the grid as it stands. */
  lemma TipLineStart(a: array2<Content>, g: Grid, d: Dir, l: nat, a0: seq<seq<Content>>)
    requires a.Length0 == Rows(g) && a.Length1 == Cols(g) && l < NumLines(d, Rows(g), Cols(g))
    requires |a0| == Rows(g) && forall i :: 0 <= i < Rows(g) ==> |a0[i]| == Cols(g)
    requires forall i, j :: 0 <= i < Rows(g) && 0 <= j < Cols(g) ==> a0[i][j] == a[i, j]
    requires forall i, j :: 0 <= i < Rows(g) && 0 <= j < Cols(g) && LineOf(d, Rows(g), Cols(g), i, j) == l ==>
      a[i, j] == g[i][j]
    ensures TipLineState(a, g, d, l, 0, None, Line(g, d, l), a0)
  {
    var s := Line(g, d, l);
    assert s[..0] == [] && s[0..] == s;
  }

  /** When the inner loop ends, line `l` is the tipped line and every other cell is as it was. */
  lemma TipLineDone(a: array2<Content>, g: Grid, d: Dir, l: nat, firstEmpty: Option<nat>,
                    cur: seq<Content>, a0: seq<seq<Content>>)
    requires var ok := TipLineState(a, g, d, l, LineLen(d, Rows(g), Cols(g)), firstEmpty, cur, a0); ok
    ensures forall i, j :: 0 <= i < Rows(g) && 0 <= j < Cols(g) ==>
      a[i, j] == if LineOf(d, Rows(g), Cols(g), i, j) == l then Tilted(g, d)[i][j] else a0[i][j]
  {
    var s := Line(g, d, l);
    assert s[..|s|] == s && s[|s|..] == [];
    forall i, j | 0 <= i < Rows(g) && 0 <= j < Cols(g) && LineOf(d, Rows(g), Cols(g), i, j) == l
      ensures a[i, j] == Tilted(g, d)[i][j]
    {
      TiltedCell(g, d, i, j);
    }
  }

  /** A cell of the tipped grid is its place in its own tipped line. */
  lemma TiltedCell(g: Grid, d: Dir, i: nat, j: nat)
    requires i < Rows(g) && j < Cols(g)
    ensures PosOf(d, Rows(g), Cols(g), i, j) < |Tilt(Line(g, d, LineOf(d, Rows(g), Cols(g), i, j)))|
    ensures Tilted(g, d)[i][j] == Tilt(Line(g, d, LineOf(d, Rows(g), Cols(g), i, j)))[PosOf(d, Rows(g), Cols(g), i, j)]
  {
  }

  // ---- cycles ----

  /** `cycle`: north, then west, then south, then east. */
  function Cycled(g: Grid): Grid {
    Tilted(Tilted(Tilted(Tilted(g, North), West), South), East)
  }

  /** `f` applied `n` times. */
  function Iterate<T>(f: T -> T, x: T, n: nat): T
    decreases n
  {
    if n == 0 then x else f(Iterate(f, x, n - 1))
  }

  lemma {:induction false} IterateAdd<T>(f: T -> T, x: T, m: nat, n: nat)
    ensures Iterate(f, Iterate(f, x, m), n) == Iterate(f, x, m + n)
    decreases n
  {
    if n > 0 {
      IterateAdd(f, x, m, n - 1);
    }
  }

  /** `cycle` on the grid, through the four tip methods. */
  method Cycle(g: Grid) returns (r: Grid)
    ensures r == Cycled(g)
    ensures Rows(r) == Rows(g) && Cols(r) == Cols(g)
  {
    r := Tip(g, North);
    r := Tip(r, West);
    r := Tip(r, South);
    r := Tip(r, East);
  }

  /** `multicycle(n)`: `cycle` applied exactly `n` times. */
  method MultiCycle(g: Grid, n: nat) returns (r: Grid)
    ensures r == Iterate(Cycled, g, n)
  {
    r := g;
    var i := 0;
    while i < n
      invariant 0 <= i <= n
      invariant r == Iterate(Cycled, g, i)
    {
      r := Cycle(r);
      i := i + 1;
    }
  }

  /** Number of round rocks in `col` among rows `0 .. row - 1`, each weighted by its distance from the south edge. */
  function ColumnLoad(g: Grid, col: nat, row: nat): nat
    requires col < Cols(g) && row <= Rows(g)
  {
    if row == 0 then 0
    else ColumnLoad(g, col, row - 1) + (if g[row - 1][col] == Round then Rows(g) - (row - 1) else 0)
  }

  function LoadOfColumns(g: Grid, cols: nat): nat
    requires cols <= Cols(g)
  {
    if cols == 0 then 0 else LoadOfColumns(g, cols - 1) + ColumnLoad(g, cols - 1, Rows(g))
  }

  /** The load: the sum, over round rocks, of `rows - row`. */
  function TotalLoad(g: Grid): nat {
    LoadOfColumns(g, Cols(g))
  }

  /** Round rocks in `col` among rows `0 .. row - 1`. */
  function RoundsInColumn(g: Grid, col: nat, row: nat): nat
    requires col < Cols(g) && row <= Rows(g)
  {
    if row == 0 then 0 else RoundsInColumn(g, col, row - 1) + (if g[row - 1][col] == Round then 1 else 0)
  }

  /** A column's load lies between one per rock and `rows` per rock; a rock-free column weighs nothing. */
  lemma {:induction false} ColumnLoadBounds(g: Grid, col: nat, row: nat)
    requires col < Cols(g) && row <= Rows(g)
    ensures RoundsInColumn(g, col, row) <= ColumnLoad(g, col, row) <= Rows(g) * RoundsInColumn(g, col, row)
  {
    if row > 0 {
      ColumnLoadBounds(g, col, row - 1);
    }
  }

  /** `load`: the column-by-column, row-by-row accumulation of `rows - row` over round rocks. */
  method Load(g: Grid) returns (total: nat)
    ensures total == TotalLoad(g)
  {
    total := 0;
    var col := 0;
    while col < Cols(g)
      invariant 0 <= col <= Cols(g)
      invariant total == LoadOfColumns(g, col)
    {
      var row := 0;
      while row < Rows(g)
        invariant 0 <= row <= Rows(g)
        invariant total == LoadOfColumns(g, col) + ColumnLoad(g, col, row)
      {
        if g[row][col] == Round {
          total := total + (Rows(g) - row);
        }
        row := row + 1;
      }
      col := col + 1;
    }
  }

  /** `__eq__`: same dimensions and the same content in every cell. */
  method GridEquals(g: Grid, h: Grid) returns (eq: bool)
    ensures eq <==> g == h
  {
    if Rows(g) != Rows(h) || Cols(g) != Cols(h) {
      return false;
    }
    var row := 0;
    while row < Rows(g)
      invariant 0 <= row <= Rows(g)
      invariant forall i :: 0 <= i < row ==> g[i] == h[i]
    {
      var col := 0;
      while col < Cols(g)
        invariant 0 <= col <= Cols(g)
        invariant forall j :: 0 <= j < col ==> g[row][j] == h[row][j]
      {
        if g[row][col] != h[row][col] {
          return false;
        }
        col := col + 1;
      }
      assert g[row] == h[row];
      row := row + 1;
    }
    assert g == h;
    return true;
  }

  // ---- Floyd's cycle detection ----

  /** Once the sequence repeats after `l` steps from index `m`, it repeats every multiple of `l` from any later index. */
  lemma {:induction false} Periodic<T>(f: T -> T, x: T, m: nat, l: nat, i: nat, k: nat)
    requires Iterate(f, x, m) == Iterate(f, x, m + l) && m <= i
    ensures Iterate(f, x, i) == Iterate(f, x, i + k * l)
    decreases k
  {
    if k > 0 {
      Periodic(f, x, m, l, i, k - 1);
      var j := i + (k - 1) * l;
      assert j + l == i + k * l;
      IterateAdd(f, x, m, j - m);
      IterateAdd(f, x, m + l, j - m);
    }
  }

  /** Some positive index `b` has `x_b == x_2b`, so the tortoise and hare of phase 1 meet. */
  lemma MeetingPoint<T>(f: T -> T, x0: T, m0: nat, l0: nat) returns (b: nat)
    requires l0 >= 1 && Iterate(f, x0, m0) == Iterate(f, x0, m0 + l0)
    ensures b >= 1 && Iterate(f, x0, b) == Iterate(f, x0, 2 * b)
  {
    b := l0 * (m0 + 1);
    assert b >= m0 + 1 by {
      assert l0 * (m0 + 1) >= 1 * (m0 + 1);
    }
    Periodic(f, x0, m0, l0, b, m0 + 1);
    assert b + (m0 + 1) * l0 == 2 * b;
  }

  /** No index below `mu` meets its value again `d` steps later. */
  ghost predicate NoRepeatBefore<T>(f: T -> T, x0: T, mu: nat, d: nat) {
    forall k :: 0 <= k < mu ==> Iterate(f, x0, k) != Iterate(f, x0, k + d)
  }

  lemma NoRepeatOneMore<T>(f: T -> T, x0: T, mu: nat, d: nat)
    requires NoRepeatBefore(f, x0, mu, d) && Iterate(f, x0, mu) != Iterate(f, x0, mu + d)
    ensures NoRepeatBefore(f, x0, mu + 1, d)
  {
  }

  /** Phase 1 of `floyd`: the tortoise at `x_i` and the hare at `x_2i` meet at some `nu >= 1`. */
  method Meet<T(==)>(f: T -> T, x0: T, ghost m0: nat, ghost l0: nat) returns (hare: T, ghost nu: nat)
    requires l0 >= 1 && Iterate(f, x0, m0) == Iterate(f, x0, m0 + l0)
    ensures nu >= 1 && hare == Iterate(f, x0, nu) && hare == Iterate(f, x0, 2 * nu)
  {
    ghost var bound := MeetingPoint(f, x0, m0, l0);
    var tortoise := f(x0);
    hare := f(f(x0));
    nu := 1;
    while tortoise != hare
      invariant 1 <= nu <= bound
      invariant tortoise == Iterate(f, x0, nu) && hare == Iterate(f, x0, 2 * nu)
      decreases bound - nu
    {
      tortoise := f(tortoise);
      hare := f(f(hare));
      nu := nu + 1;
    }
  }

  /** Phase 3 of `floyd`: the hare walks round the cycle from `x_mu` until it is back. */
  method CycleLength<T(==)>(f: T -> T, ghost x0: T, tortoise: T, ghost mu: nat, ghost nu: nat) returns (lam: nat)
    requires nu >= 1 && tortoise == Iterate(f, x0, mu) && tortoise == Iterate(f, x0, mu + nu)
    ensures 1 <= lam <= nu && Iterate(f, x0, mu) == Iterate(f, x0, mu + lam)
    ensures forall k :: mu < k < mu + lam ==> Iterate(f, x0, k) != Iterate(f, x0, mu)
  {
    lam := 1;
    var hare := f(tortoise);
    while tortoise != hare
      invariant 1 <= lam <= nu
      invariant hare == Iterate(f, x0, mu + lam)
      invariant forall k :: mu < k < mu + lam ==> Iterate(f, x0, k) != Iterate(f, x0, mu)
      decreases nu - lam
    {
      hare := f(hare);
      lam := lam + 1;
    }
  }

  /**
   * `floyd`: the tortoise and hare meet at some `nu` with `x_nu == x_2nu`; `mu` is the
   * first index with `x_mu == x_(mu + nu)`, and `lam` the first positive distance at
   * which `x_mu` recurs. The sequence must be eventually periodic (`x_m0 == x_(m0 + l0)`),
   * which it is for grids of a fixed size; otherwise the source does not return.
   */
  method Floyd<T(==)>(f: T -> T, x0: T, ghost m0: nat, ghost l0: nat) returns (lam: nat, mu: nat)
    requires l0 >= 1 && Iterate(f, x0, m0) == Iterate(f, x0, m0 + l0)
    ensures lam >= 1 && Iterate(f, x0, mu) == Iterate(f, x0, mu + lam)
    ensures forall k :: mu < k < mu + lam ==> Iterate(f, x0, k) != Iterate(f, x0, mu)
    ensures NoRepeatBefore(f, x0, mu, lam)
  {
    var hare, nu := Meet(f, x0, m0, l0);
    var tortoise;
    // phase 2: tortoise from x_0, hare from x_nu, same speed
    mu := 0;
    tortoise := x0;
    while tortoise != hare
      invariant mu <= nu
      invariant tortoise == Iterate(f, x0, mu) && hare == Iterate(f, x0, mu + nu)
      invariant NoRepeatBefore(f, x0, mu, nu)
      decreases nu - mu
    {
      NoRepeatOneMore(f, x0, mu, nu);
      tortoise := f(tortoise);
      hare := f(hare);
      mu := mu + 1;
    }
    lam := CycleLength(f, x0, tortoise, mu, nu);
    NoEarlierRepeat(f, x0, mu, lam, nu);
  }

  /** No index before `mu` repeats after `lam` steps, given that none repeats after `nu`. */
  lemma NoEarlierRepeat<T>(f: T -> T, x0: T, mu: nat, lam: nat, nu: nat)
    requires lam >= 1 && nu >= 1
    requires Iterate(f, x0, mu) == Iterate(f, x0, mu + lam) && Iterate(f, x0, mu) == Iterate(f, x0, mu + nu)
    requires forall j :: mu < j < mu + lam ==> Iterate(f, x0, j) != Iterate(f, x0, mu)
    requires NoRepeatBefore(f, x0, mu, nu)
    ensures NoRepeatBefore(f, x0, mu, lam)
  {
    forall k | 0 <= k < mu ensures Iterate(f, x0, k) != Iterate(f, x0, k + lam) {
      if Iterate(f, x0, k) == Iterate(f, x0, k + lam) {
        FirstRepeat(f, x0, mu, lam, nu, k);
      }
    }
  }

  /**
   * Why `mu` is the first index that repeats: a period `nu` from `mu` is a multiple of the
   * least period `lam`, so a repeat after `lam` steps from an earlier `k` would also be
   * one after `nu` steps.
   */
  lemma FirstRepeat<T>(f: T -> T, x0: T, mu: nat, lam: nat, nu: nat, k: nat)
    requires lam >= 1 && nu >= 1 && k < mu
    requires Iterate(f, x0, mu) == Iterate(f, x0, mu + lam) && Iterate(f, x0, mu) == Iterate(f, x0, mu + nu)
    requires forall j :: mu < j < mu + lam ==> Iterate(f, x0, j) != Iterate(f, x0, mu)
    requires Iterate(f, x0, k) == Iterate(f, x0, k + lam)
    ensures Iterate(f, x0, k) == Iterate(f, x0, k + nu)
  {
    var q, r := nu / lam, nu % lam;
    assert nu == mu + r + q * lam - mu;
    Periodic(f, x0, mu, lam, mu + r, q);
    assert Iterate(f, x0, mu + r) == Iterate(f, x0, mu);
    assert r == 0;
    Periodic(f, x0, k, lam, k, q);
  }

  /** From index `mu` on, the sequence depends only on the distance past `mu` modulo `lam`. */
  lemma SkipCycles<T>(f: T -> T, x: T, mu: nat, lam: nat, n: nat)
    requires lam >= 1 && Iterate(f, x, mu) == Iterate(f, x, mu + lam) && n >= mu
    ensures Iterate(f, x, n) == Iterate(f, x, mu + (n - mu) % lam)
    ensures Iterate(f, x, n) == Iterate(f, Iterate(f, x, mu), (n - mu) % lam)
  {
    IterateAdd(f, x, mu, (n - mu) % lam);
    var i := mu + (n - mu) % lam;
    Periodic(f, x, mu, lam, i, (n - mu) / lam);
    assert i + ((n - mu) / lam) * lam == n;
  }

  // ---- why the cycles repeat ----

  /** Every line of `n` cells. */
  ghost function AllLines(n: nat): set<seq<Content>> {
    if n == 0 then {[]}
    else set t, c | t in AllLines(n - 1) && c in {Empty, Square, Round} :: t + [c]
  }

  lemma {:induction false} InAllLines(t: seq<Content>)
    ensures t in AllLines(|t|)
  {
    if t != [] {
      var u, c := t[..|t| - 1], t[|t| - 1];
      InAllLines(u);
      assert c in {Empty, Square, Round} by {
        match c
        case Empty =>
        case Square =>
        case Round =>
      }
      assert t == u + [c];
    }
  }

  /** Every sequence of `rows` lines of `cols` cells. */
  ghost function AllSheets(rows: nat, cols: nat): set<seq<seq<Content>>> {
    if rows == 0 then {[]}
    else set g, t | g in AllSheets(rows - 1, cols) && t in AllLines(cols) :: g + [t]
  }

  lemma {:induction false} InAllSheets(g: seq<seq<Content>>, cols: nat)
    requires forall i :: 0 <= i < |g| ==> |g[i]| == cols
    ensures g in AllSheets(|g|, cols)
  {
    if g != [] {
      var h, t := g[..|g| - 1], g[|g| - 1];
      InAllSheets(h, cols);
      InAllLines(t);
      assert g == h + [t];
    }
  }

  /** The grids of one size: a finite set. */
  ghost function Shaped(rows: nat, cols: nat): set<Grid> {
    set h: Grid | h in AllSheets(rows, cols) && Rows(h) == rows && Cols(h) == cols
  }

  /** A subset is no larger than its superset. */
  lemma {:induction false} SubsetSize<T>(a: set<T>, b: set<T>)
    requires a <= b
    ensures |a| <= |b|
    decreases a
  {
    if a != {} {
      var x :| x in a;
      SubsetSize(a - {x}, b - {x});
    }
  }

  /** The values `x_0 … x_(k-1)`. */
  ghost function Visited<T>(f: T -> T, x: T, k: nat): set<T> {
    if k == 0 then {} else Visited(f, x, k - 1) + {Iterate(f, x, k - 1)}
  }

  lemma {:induction false} VisitedMembers<T>(f: T -> T, x: T, k: nat, v: T) returns (i: nat)
    requires v in Visited(f, x, k)
    ensures i < k && Iterate(f, x, i) == v
  {
    if v == Iterate(f, x, k - 1) {
      i := k - 1;
    } else {
      i := VisitedMembers(f, x, k - 1, v);
    }
  }

  /** From `x` in a set that `f` maps into itself, `f` never leaves it. */
  lemma {:induction false} StaysIn<T>(f: T -> T, x: T, s: set<T>, k: nat)
    requires x in s && forall y :: y in s ==> f(y) in s
    ensures Iterate(f, x, k) in s
  {
    if k > 0 {
      StaysIn(f, x, s, k - 1);
    }
  }

  /** Either two of `x_0 … x_(k-1)` coincide, or they are `k` distinct members of `s`. */
  lemma {:induction false} Collect<T>(f: T -> T, x: T, s: set<T>, k: nat) returns (found: bool, i: nat, j: nat)
    requires x in s && forall y :: y in s ==> f(y) in s
    ensures found ==> i < j < k && Iterate(f, x, i) == Iterate(f, x, j)
    ensures !found ==> Visited(f, x, k) <= s && |Visited(f, x, k)| == k
  {
    if k == 0 {
      return false, 0, 0;
    }
    found, i, j := Collect(f, x, s, k - 1);
    if found {
      return;
    }
    var v := Iterate(f, x, k - 1);
    if v in Visited(f, x, k - 1) {
      i := VisitedMembers(f, x, k - 1, v);
      return true, i, k - 1;
    }
    StaysIn(f, x, s, k - 1);
  }

  /** A sequence that never leaves a finite set repeats: the pigeonhole principle. */
  lemma EventuallyRepeats<T>(f: T -> T, x: T, s: set<T>) returns (m0: nat, l0: nat)
    requires x in s && forall y :: y in s ==> f(y) in s
    ensures l0 >= 1 && Iterate(f, x, m0) == Iterate(f, x, m0 + l0)
  {
    var found, i, j := Collect(f, x, s, |s| + 1);
    if !found {
      SubsetSize(Visited(f, x, |s| + 1), s);
      assert false;
    }
    m0, l0 := i, j - i;
  }

  /** Cycling keeps a grid's size, so the grids it passes through repeat. */
  lemma GridsRepeat(g: Grid) returns (m0: nat, l0: nat)
    ensures l0 >= 1 && Iterate(Cycled, g, m0) == Iterate(Cycled, g, m0 + l0)
  {
    var s := Shaped(Rows(g), Cols(g));
    InAllSheets(g, Cols(g));
    forall h | h in s ensures Cycled(h) in s {
      InAllSheets(Cycled(h), Cols(g));
    }
    m0, l0 := EventuallyRepeats(Cycled, g, s);
  }

  /**
   * Part 2: the grid after `cycles` cycles. Below `lam + mu` cycles are run one by one;
   * otherwise `mu` cycles and then `(cycles - mu) % lam` more.
   */
  method CyclesWithSkipping(g: Grid, cycles: nat) returns (r: Grid)
    ensures r == Iterate(Cycled, g, cycles)
  {
    ghost var m0, l0 := GridsRepeat(g);
    var lam, mu := Floyd(Cycled, g, m0, l0);
    if cycles < lam + mu {
      r := MultiCycle(g, cycles);
    } else {
      r := MultiCycle(g, mu);
      r := MultiCycle(r, (cycles - mu) % lam);
      SkipCycles(Cycled, g, mu, lam, cycles);
    }
  }

  // ---- part 1 ----

  /** The load line `t` carries when its place `p` weighs `n - p`. */
  function LineLoad(t: seq<Content>, n: int): int {
    if t == [] then 0 else LineLoad(t[..|t| - 1], n) + (if t[|t| - 1] == Round then n - (|t| - 1) else 0)
  }

  /** Putting a round rock in an empty place `f` adds that place's weight. */
  lemma {:induction false} LineLoadDrop(t: seq<Content>, f: nat, n: int)
    requires f < |t| && t[f] == Empty
    ensures LineLoad(t[f := Round], n) == LineLoad(t, n) + n - f
  {
    var u := t[f := Round];
    if f == |t| - 1 {
      assert u[..|t| - 1] == t[..|t| - 1];
    } else {
      assert u[..|t| - 1] == t[..|t| - 1][f := Round];
      LineLoadDrop(t[..|t| - 1], f, n);
    }
  }

  /** Tipping a line toward place 0 never lowers its load: every move is toward a heavier place. */
  lemma {:induction false} TiltRaisesLoad(s: seq<Content>, n: int)
    ensures LineLoad(Tilt(s), n) >= LineLoad(s, n)
  {
    if s != [] {
      var prefix := Tilt(s[..|s| - 1]);
      TiltRaisesLoad(s[..|s| - 1], n);
      var f := TrailingStart(prefix);
      if s[|s| - 1] == Round && f < |prefix| {
        assert (prefix[f := Round] + [Empty])[..|prefix|] == prefix[f := Round];
        LineLoadDrop(prefix, f, n);
      } else {
        assert (prefix + [s[|s| - 1]])[..|prefix|] == prefix;
      }
    }
  }

  /** A column's load is the load of the column read as a northward line. */
  lemma {:induction false} ColumnLoadIsLineLoad(g: Grid, col: nat, row: nat)
    requires col < Cols(g) && row <= Rows(g)
    ensures ColumnLoad(g, col, row) == LineLoad(Line(g, North, col)[..row], Rows(g))
  {
    if row > 0 {
      ColumnLoadIsLineLoad(g, col, row - 1);
      assert Line(g, North, col)[..row][..row - 1] == Line(g, North, col)[..row - 1];
    }
  }

  lemma {:induction false} LoadOfColumnsRaised(g: Grid, cols: nat)
    requires cols <= Cols(g)
    ensures LoadOfColumns(Tilted(g, North), cols) >= LoadOfColumns(g, cols)
  {
    if cols > 0 {
      LoadOfColumnsRaised(g, cols - 1);
      ColumnRaised(g, cols - 1);
    }
  }

  lemma ColumnRaised(g: Grid, col: nat)
    requires col < Cols(g)
    ensures ColumnLoad(Tilted(g, North), col, Rows(g)) >= ColumnLoad(g, col, Rows(g))
  {
    var t := Tilted(g, North);
    var s := Line(g, North, col);
    ColumnLoadIsLineLoad(g, col, Rows(g));
    ColumnLoadIsLineLoad(t, col, Rows(t));
    TiltedLine(g, North, col);
    assert s[..Rows(g)] == s;
    assert Line(t, North, col)[..Rows(t)] == Line(t, North, col);
    TiltRaisesLoad(s, Rows(g));
  }

  /** Tipping north never lowers the load on the north support beams. */
  lemma TipNorthRaisesLoad(g: Grid)
    ensures TotalLoad(Tilted(g, North)) >= TotalLoad(g)
  {
    LoadOfColumnsRaised(g, Cols(g));
  }

  /** Part 1 as the script runs it: `tip_north`'s result is dropped, so the load is the untipped grid's. */
  method Part1AsWritten(g: Grid) returns (total: nat)
    ensures total == TotalLoad(g)
  {
    var tipped := Tip(g, North);
    total := Load(g);
  }

  /** On a one-column grid with a rock in the south row, the dropped tip changes the answer. */
  lemma Part1AsWrittenMissesTip()
    ensures var g: Grid := [[Empty], [Round]]; TotalLoad(g) == 1 && TotalLoad(Tilted(g, North)) == 2
  {
    var g: Grid := [[Empty], [Round]];
    assert Line(g, North, 0) == [Empty, Round];
    assert [Empty, Round][..1] == [Empty];
    assert Tilt([Empty]) == [Empty];
    assert Tilt([Empty, Round]) == [Round, Empty];
    var t := Tilted(g, North);
    assert t[0][0] == Round && t[1][0] == Empty;
  }

  /** Part 1 as intended: the load of the grid tipped north. */
  method Part1(g: Grid) returns (total: nat)
    ensures total == TotalLoad(Tilted(g, North))
    ensures total >= TotalLoad(g)
  {
    var tipped := Tip(g, North);
    total := Load(tipped);
    TipNorthRaisesLoad(g);
  }
}
