/**
 * The least-heat-loss search of 2023/day17/grid.py.
 *
 * Every tile of a grid of heat-loss digits becomes a node linked to its in-bounds
 * neighbours. A Dijkstra-style search keeps, per node, a weight (absent until first
 * reached) and a predecessor with the direction back to it; it repeatedly sorts the
 * unvisited nodes by weight, visits the first, and relaxes its unvisited neighbours,
 * refusing any move that would make a fourth step in the same direction.
 */
module Crucible {
  import opened Wrappers
  import Sorting

  datatype Direction = North | East | South | West

  /** The directions in the order the source's enum lists them. */
  const Directions: seq<Direction> := [North, East, South, West]

  datatype Coordinate = Coordinate(row: int, col: int)

  /** `Direction.next`: the coordinate one step away. */
  function Next(d: Direction, c: Coordinate): (r: Coordinate)
    ensures d in {North, South} ==> r.col == c.col && (r.row == c.row - 1 <==> d == North)
    ensures d in {East, West} ==> r.row == c.row && (r.col == c.col + 1 <==> d == East)
  {
    match d
    case North => Coordinate(c.row - 1, c.col)
    case East => Coordinate(c.row, c.col + 1)
    case South => Coordinate(c.row + 1, c.col)
    case West => Coordinate(c.row, c.col - 1)
  }

  /** `Direction.reverse`. */
  function Reverse(d: Direction): (r: Direction)
    ensures r != d
  {
    match d
    case North => South
    case East => West
    case South => North
    case West => East
  }

  /** `reverse` is an involution, and a step followed by a step in reverse returns home. */
  lemma ReverseUndoes(d: Direction, c: Coordinate)
    ensures Reverse(Reverse(d)) == d
    ensures Next(Reverse(d), Next(d, c)) == c
  {
  }

  /** A predecessor link: the direction from a node back to the node it was reached from. */
  datatype Link = Link(dir: Direction, node: Coordinate)

  /** A grid of heat losses whose rows all have the width of the first. */
  predicate Rectangular(loss: seq<seq<int>>) {
    |loss| > 0 && forall i :: 0 <= i < |loss| ==> |loss[i]| == |loss[0]|
  }

  function InBounds(rows: nat, cols: nat, c: Coordinate): bool {
    0 <= c.row < rows && 0 <= c.col < cols
  }

  function AllCoordinates(rows: nat, cols: nat): set<Coordinate> {
    set r, c | 0 <= r < rows && 0 <= c < cols :: Coordinate(r, c)
  }

  lemma AllCoordinatesInBounds(rows: nat, cols: nat, c: Coordinate)
    ensures c in AllCoordinates(rows, cols) <==> InBounds(rows, cols, c)
  {
    if InBounds(rows, cols, c) {
      assert c == Coordinate(c.row, c.col);
    }
  }

  /** The directions, in enum order, whose neighbour is in bounds: a node's `adjacent` keys. */
  function AdjacentDirections(rows: nat, cols: nat, c: Coordinate, ds: seq<Direction>): (r: seq<Direction>)
    ensures forall d :: d in r <==> d in ds && InBounds(rows, cols, Next(d, c))
    ensures |r| <= |ds|
  {
    if ds == [] then []
    else
      var last := ds[|ds| - 1];
      AdjacentDirections(rows, cols, c, ds[..|ds| - 1]) + (if InBounds(rows, cols, Next(last, c)) then [last] else [])
  }

  /** Every in-bounds orthogonal neighbour of a node is linked, and only those. */
  lemma AdjacentAreNeighbours(rows: nat, cols: nat, c: Coordinate, d: Direction)
    ensures d in AdjacentDirections(rows, cols, c, Directions) <==> InBounds(rows, cols, Next(d, c))
  {
    assert d in Directions by {
      match d
      case North =>
      case East =>
      case South =>
      case West =>
    }
  }

  /** The sort key `(weight is None, weight)`: weighted nodes first, by weight. */
  predicate KeyLess(weight: map<Coordinate, int>, a: Coordinate, b: Coordinate) {
    a in weight && (b !in weight || weight[a] < weight[b])
  }

  /** The comparison the re-sort uses, for the weights of the moment. */
  function ByKey(weight: map<Coordinate, int>): (Coordinate, Coordinate) -> bool {
    (a, b) => KeyLess(weight, a, b)
  }

  lemma KeyLessIsStrict(weight: map<Coordinate, int>)
    ensures Sorting.StrictOrder(ByKey(weight))
  {
  }

  /** No element repeats. */
  ghost predicate Distinct(s: seq<Coordinate>) {
    forall x :: multiset(s)[x] <= 1
  }

  /** A visit rank, with every node not yet visited ranked after all visited ones. */
  function RankOf(rank: map<Coordinate, nat>, n: nat, c: Coordinate): nat {
    if c in rank then rank[c] else n
  }

  /** Predecessors always point at nodes visited earlier: following them terminates. */
  ghost predicate Ranked(rank: map<Coordinate, nat>, n: nat, prev: map<Coordinate, Link>) {
    (forall c :: c in rank ==> rank[c] < n) &&
    forall c {:trigger prev[c]} :: c in prev ==> prev[c].node in rank && RankOf(rank, n, prev[c].node) < RankOf(rank, n, c)
  }

  /**
   * `Node.sequential`: how many of the latest steps into `c` went in direction `d`
   * (counting back along the predecessors, with `d` the direction back toward them).
   */
  function Sequential(ghost rank: map<Coordinate, nat>, ghost n: nat, prev: map<Coordinate, Link>, c: Coordinate, d: Direction): nat
    requires Ranked(rank, n, prev)
    decreases RankOf(rank, n, c)
  {
    if c in prev && prev[c].dir == d then 1 + Sequential(rank, n, prev, prev[c].node, d) else 0
  }

  /** `sequential` does not depend on the ranking that shows it terminates. */
  lemma {:induction false} SequentialRerank(rank: map<Coordinate, nat>, rank': map<Coordinate, nat>, n: nat, n': nat,
                                           prev: map<Coordinate, Link>, c: Coordinate, d: Direction)
    requires Ranked(rank, n, prev) && Ranked(rank', n', prev)
    ensures Sequential(rank, n, prev, c, d) == Sequential(rank', n', prev, c, d)
    decreases RankOf(rank, n, c)
  {
    if c in prev && prev[c].dir == d {
      SequentialRerank(rank, rank', n, n', prev, prev[c].node, d);
    }
  }

  /** Re-linking a node nobody points at leaves every other node's `sequential` alone. */
  lemma {:induction false} SequentialFrame(rank: map<Coordinate, nat>, n: nat, prev: map<Coordinate, Link>,
                                          v: Coordinate, l: Link, c: Coordinate, d: Direction)
    requires Ranked(rank, n, prev) && Ranked(rank, n, prev[v := l]) && v !in rank && c != v
    ensures Sequential(rank, n, prev[v := l], c, d) == Sequential(rank, n, prev, c, d)
    decreases RankOf(rank, n, c)
  {
    if c in prev && prev[c].dir == d {
      SequentialFrame(rank, n, prev, v, l, prev[c].node, d);
    }
  }

  /** The chain of predecessors ending at `c`, oldest first. */
  ghost function Trail(rank: map<Coordinate, nat>, n: nat, prev: map<Coordinate, Link>, c: Coordinate): (r: seq<Coordinate>)
    requires Ranked(rank, n, prev)
    ensures |r| > 0 && r[|r| - 1] == c && r[0] !in prev
    decreases RankOf(rank, n, c)
  {
    if c in prev then Trail(rank, n, prev, prev[c].node) + [c] else [c]
  }

  lemma {:induction false} TrailRerank(rank: map<Coordinate, nat>, rank': map<Coordinate, nat>, n: nat, n': nat,
                                      prev: map<Coordinate, Link>, c: Coordinate)
    requires Ranked(rank, n, prev) && Ranked(rank', n', prev)
    ensures Trail(rank, n, prev, c) == Trail(rank', n', prev, c)
    decreases RankOf(rank, n, c)
  {
    if c in prev {
      TrailRerank(rank, rank', n, n', prev, prev[c].node);
    }
  }

  lemma {:induction false} TrailFrame(rank: map<Coordinate, nat>, n: nat, prev: map<Coordinate, Link>,
                                     v: Coordinate, l: Link, c: Coordinate)
    requires Ranked(rank, n, prev) && Ranked(rank, n, prev[v := l]) && v !in rank && c != v
    ensures Trail(rank, n, prev[v := l], c) == Trail(rank, n, prev, c)
    decreases RankOf(rank, n, c)
  {
    if c in prev {
      TrailFrame(rank, n, prev, v, l, prev[c].node);
    }
  }

  /** `b` is one step from `a`. */
  predicate Adjacent(a: Coordinate, b: Coordinate) {
    b in {Next(North, a), Next(East, a), Next(South, a), Next(West, a)}
  }

  /** Consecutive coordinates of `p` are orthogonal neighbours. */
  ghost predicate Connected(p: seq<Coordinate>) {
    forall i :: 0 < i < |p| ==> Adjacent(p[i - 1], p[i])
  }

  /** The heat lost along `p`, counting every tile of it, the first included. */
  function Cost(loss: seq<seq<int>>, p: seq<Coordinate>): int
    requires forall i :: 0 <= i < |p| ==> 0 <= p[i].row < |loss| && 0 <= p[i].col < |loss[p[i].row]|
  {
    if p == [] then 0 else Cost(loss, p[..|p| - 1]) + loss[p[|p| - 1].row][p[|p| - 1].col]
  }

  /** Every coordinate of `p` lies in the grid. */
  ghost predicate Within(rows: nat, cols: nat, p: seq<Coordinate>) {
    forall i :: 0 <= i < |p| ==> InBounds(rows, cols, p[i])
  }

  /** `p` is a walk from `src` to `dst` over the grid whose heat loss is `w`. */
  ghost predicate PathOf(loss: seq<seq<int>>, src: Coordinate, dst: Coordinate, p: seq<Coordinate>, w: int)
    requires Rectangular(loss)
  {
    |p| > 0 && p[0] == src && p[|p| - 1] == dst && Connected(p) && Within(|loss|, |loss[0]|, p) &&
    Cost(loss, p) == w
  }

  /** The number of steps in direction `d` with which `p` ends. */
  function RunLength(p: seq<Coordinate>, d: Direction): nat {
    if |p| >= 2 && p[|p| - 1] == Next(d, p[|p| - 2]) then 1 + RunLength(p[..|p| - 1], d) else 0
  }

  /** No prefix of `p` ends in more than three steps in one direction: the crucible's limit. */
  ghost predicate Steady(p: seq<Coordinate>) {
    forall k, d :: 0 <= k <= |p| ==> RunLength(p[..k], d) <= 3
  }

  /**
   * The fixed inputs of one `minloss` call: the grid's losses and size, and the source. The
   * nodes' `weight` and `prev` fields are modelled as maps from coordinates, held by the search.
   */
  datatype Search = Search(loss: seq<seq<int>>, rows: nat, cols: nat, src: Coordinate)
  {
    ghost predicate Shaped() {
      Rectangular(loss) && rows == |loss| && cols == |loss[0]| && InBounds(rows, cols, src)
    }

    /** A node's `loss`: the grid's digit at `c`, for any `c` the grid has. */
    function Loss(c: Coordinate): (r: int)
      ensures Shaped() && InBounds(rows, cols, c) ==> r == loss[c.row][c.col]
    {
      if 0 <= c.row < |loss| && 0 <= c.col < |loss[c.row]| then loss[c.row][c.col] else 0
    }

    /** The ranking bound: every node is ranked below the number of nodes. */
    function N(): nat { rows * cols }

    /** Each node is visited or waiting, never both; visit ranks are below the visit count. */
    ghost predicate Bookkept(weight: map<Coordinate, int>, prev: map<Coordinate, Link>, unvisited: seq<Coordinate>,
                             rank: map<Coordinate, nat>, visited: nat)
    {
      Shaped() &&
      Distinct(unvisited) && (forall c :: c in multiset(unvisited) ==> InBounds(rows, cols, c)) &&
      (forall c :: c in rank ==> c !in multiset(unvisited) && InBounds(rows, cols, c) && rank[c] < visited) &&
      (forall c :: InBounds(rows, cols, c) ==> c in rank || c in multiset(unvisited)) &&
      visited + |unvisited| == N() &&
      (src in multiset(unvisited) ==> weight == map[src := Loss(src)] && prev == map[] && rank == map[])
    }

    /** Links point one step back, to a node visited earlier. */
    ghost predicate Linked(rank: map<Coordinate, nat>, prev: map<Coordinate, Link>) {
      Ranked(rank, N(), prev) &&
      forall v {:trigger prev[v]} :: v in prev ==> InBounds(rows, cols, v) && prev[v].node == Next(prev[v].dir, v)
    }

    /** Weights are path costs: the start costs its own loss, any other node its predecessor's plus its own. */
    ghost predicate Weighted(weight: map<Coordinate, int>, prev: map<Coordinate, Link>) {
      weight.Keys == prev.Keys + {src} && src !in prev && weight[src] == Loss(src) &&
      forall v {:trigger prev[v]} :: v in prev ==> prev[v].node in weight && weight[v] == weight[prev[v].node] + Loss(v)
    }

    /** No node was reached by a fourth step in one direction. */
    ghost predicate Limited(rank: map<Coordinate, nat>, prev: map<Coordinate, Link>)
      requires Ranked(rank, N(), prev)
    {
      forall v {:trigger Sequential(rank, N(), prev, v, prev[v].dir)} :: v in prev ==> Sequential(rank, N(), prev, v, prev[v].dir) <= 3
    }

    /** The invariant of the search over its weights, links, waiting list and visit ranks. */
    ghost predicate Inv(weight: map<Coordinate, int>, prev: map<Coordinate, Link>, unvisited: seq<Coordinate>,
                        rank: map<Coordinate, nat>, visited: nat)
    {
      Bookkept(weight, prev, unvisited, rank, visited) && Linked(rank, prev) && Weighted(weight, prev) &&
      Limited(rank, prev)
    }

    /** Each node's `adjacent` keys are the in-bounds directions, in enum order. */
    ghost predicate Adjacency(adjacent: map<Coordinate, seq<Direction>>) {
      forall c :: InBounds(rows, cols, c) ==> c in adjacent && adjacent[c] == AdjacentDirections(rows, cols, c, Directions)
    }

    /** Every weighted node's chain of predecessors is a walk from the source whose heat loss is its weight. */
    lemma {:induction false} TrailIsPath(rank: map<Coordinate, nat>, weight: map<Coordinate, int>,
                                         prev: map<Coordinate, Link>, c: Coordinate)
      requires var ok := Shaped() && Linked(rank, prev) && Weighted(weight, prev) && c in weight; ok
      ensures PathOf(loss, src, c, Trail(rank, N(), prev, c), weight[c])
      decreases RankOf(rank, N(), c)
    {
      if c in prev {
        assert prev[c].node in weight;
        var l := prev[c];
        TrailIsPath(rank, weight, prev, l.node);
        PathExtends(Trail(rank, N(), prev, l.node), l, c, weight[l.node]);
      } else {
        var p := Trail(rank, N(), prev, c);
        assert p == [src];
        assert p[..0] == [];
      }
    }

    /** The run in direction `e` that ends a node's trail is the node's `sequential` count back along `e`'s reverse. */
    lemma {:induction false} TrailRun(rank: map<Coordinate, nat>, prev: map<Coordinate, Link>, c: Coordinate, e: Direction)
      requires Shaped() && Linked(rank, prev)
      ensures RunLength(Trail(rank, N(), prev, c), e) == Sequential(rank, N(), prev, c, Reverse(e))
      decreases RankOf(rank, N(), c)
    {
      var t := Trail(rank, N(), prev, c);
      if c in prev {
        var l := prev[c];
        var q := Trail(rank, N(), prev, l.node);
        TrailRun(rank, prev, l.node, e);
        assert t[..|t| - 1] == q;
        ReverseUndoes(l.dir, c);
        ReverseUndoes(Reverse(e), c);
        ReverseUndoes(e, c);
        assert t[|t| - 1] == Next(e, t[|t| - 2]) <==> l.dir == Reverse(e) by {
          assert t[|t| - 2] == l.node;
          match e
          case North =>
          case East =>
          case South =>
          case West =>
        }
      }
    }

    /** Where the run limit holds, every node's trail is steady. */
    lemma {:induction false} TrailSteady(rank: map<Coordinate, nat>, prev: map<Coordinate, Link>, c: Coordinate)
      requires Shaped() && Linked(rank, prev) && Limited(rank, prev)
      ensures Steady(Trail(rank, N(), prev, c))
      decreases RankOf(rank, N(), c)
    {
      var t := Trail(rank, N(), prev, c);
      if c in prev {
        var q := Trail(rank, N(), prev, prev[c].node);
        TrailSteady(rank, prev, prev[c].node);
        forall k, d | 0 <= k <= |t| ensures RunLength(t[..k], d) <= 3 {
          if k == |t| {
            assert t[..k] == t;
            TrailRun(rank, prev, c, d);
            if prev[c].dir == Reverse(d) {
              assert Sequential(rank, N(), prev, c, prev[c].dir) <= 3;
            }
          } else {
            assert t[..k] == q[..k];
          }
        }
      } else {
        forall k, d | 0 <= k <= |t| ensures RunLength(t[..k], d) <= 3 {
        }
      }
    }

    /** A walk to the node `l` points at, followed by one step back along `l`, is a walk to `c`. */
    lemma PathExtends(q: seq<Coordinate>, l: Link, c: Coordinate, w: int)
      requires var ok := Shaped() && InBounds(rows, cols, c) && l.node == Next(l.dir, c) &&
        PathOf(loss, src, l.node, q, w); ok
      ensures PathOf(loss, src, c, q + [c], w + Loss(c))
    {
      var p := q + [c];
      ReverseUndoes(l.dir, c);
      assert Adjacent(q[|q| - 1], c) by {
        assert c == Next(Reverse(l.dir), l.node);
        match Reverse(l.dir)
        case North =>
        case East =>
        case South =>
        case West =>
      }
      assert p[..|p| - 1] == q;
    }

    /** Popping the first waiting node and ranking it next keeps the bookkeeping, the links and the run limit. */
    lemma PopKeeps(weight: map<Coordinate, int>, prev: map<Coordinate, Link>, unvisited: seq<Coordinate>,
                   rank: map<Coordinate, nat>, visited: nat)
      requires var ok := Bookkept(weight, prev, unvisited, rank, visited) && Linked(rank, prev) && Limited(rank, prev) &&
        |unvisited| > 0 && Sorting.SortedBy(unvisited, ByKey(weight)); ok
      ensures Bookkept(weight, prev, unvisited[1..], rank[unvisited[0] := visited], visited + 1)
      ensures Linked(rank[unvisited[0] := visited], prev) && Limited(rank[unvisited[0] := visited], prev)
      ensures forall v, d :: Sequential(rank[unvisited[0] := visited], N(), prev, v, d) == Sequential(rank, N(), prev, v, d)
      ensures forall x :: x in unvisited ==> !KeyLess(weight, x, unvisited[0])
    {
      var u := unvisited[0];
      forall x | x in unvisited ensures !KeyLess(weight, x, u) {
        var k :| 0 <= k < |unvisited| && unvisited[k] == x;
        if k > 0 {
          assert !ByKey(weight)(unvisited[k], unvisited[0]);
        }
      }
      PopBookkept(weight, prev, unvisited, rank, visited);
      PopRanked(prev, rank, visited, u);
    }

    /** Moving the first waiting node to the visited ones, with the next rank, keeps the bookkeeping. */
    lemma PopBookkept(weight: map<Coordinate, int>, prev: map<Coordinate, Link>, unvisited: seq<Coordinate>,
                      rank: map<Coordinate, nat>, visited: nat)
      requires Bookkept(weight, prev, unvisited, rank, visited) && |unvisited| > 0
      requires forall x :: x in unvisited ==> !KeyLess(weight, x, unvisited[0])
      ensures Bookkept(weight, prev, unvisited[1..], rank[unvisited[0] := visited], visited + 1)
      ensures unvisited[0] !in rank && visited < N()
    {
      var u := unvisited[0];
      assert unvisited == [u] + unvisited[1..];
      assert multiset(unvisited) == multiset{u} + multiset(unvisited[1..]);
      assert multiset(unvisited)[u] <= 1;
      assert u !in multiset(unvisited[1..]);
      assert src in multiset(unvisited[1..]) ==> src in unvisited && KeyLess(weight, src, u);
      assert Distinct(unvisited[1..]) by {
        forall x ensures multiset(unvisited[1..])[x] <= 1 {
          assert multiset(unvisited)[x] <= 1;
        }
      }
    }

    /** Ranking a node that nobody links to yet, after all others, keeps the links and their runs. */
    lemma PopRanked(prev: map<Coordinate, Link>, rank: map<Coordinate, nat>, visited: nat, u: Coordinate)
      requires Linked(rank, prev) && Limited(rank, prev) && u !in rank && visited < N()
      requires forall c :: c in rank ==> rank[c] < visited
      ensures Linked(rank[u := visited], prev) && Limited(rank[u := visited], prev)
      ensures forall v, d :: Sequential(rank[u := visited], N(), prev, v, d) == Sequential(rank, N(), prev, v, d)
    {
      var rank' := rank[u := visited];
      assert Ranked(rank', N(), prev);
      forall v, d ensures Sequential(rank', N(), prev, v, d) == Sequential(rank, N(), prev, v, d) {
        SequentialRerank(rank', rank, N(), N(), prev, v, d);
      }
    }

    /** Re-linking an unvisited neighbour `v` of a visited `u` with `alt` keeps weights, links and the run limit. */
    lemma RelinkKeeps(weight: map<Coordinate, int>, prev: map<Coordinate, Link>, rank: map<Coordinate, nat>,
                      u: Coordinate, d: Direction, alt: int)
      requires var ok := Linked(rank, prev) && Weighted(weight, prev) && Limited(rank, prev) &&
        u in rank && u in weight && InBounds(rows, cols, Next(d, u)) && Next(d, u) !in rank && Next(d, u) != src &&
        Sequential(rank, N(), prev, u, Reverse(d)) < 3 && alt == weight[u] + Loss(Next(d, u)); ok
      ensures var prev' := prev[Next(d, u) := Link(Reverse(d), u)];
        Linked(rank, prev') && Weighted(weight[Next(d, u) := alt], prev') && Limited(rank, prev') &&
        forall e :: Sequential(rank, N(), prev', u, e) == Sequential(rank, N(), prev, u, e)
    {
      RelinkLinked(prev, rank, u, d);
      RelinkLimited(prev, rank, u, d);
    }

    /** The new link points one step back to the visited `u`. */
    lemma RelinkLinked(prev: map<Coordinate, Link>, rank: map<Coordinate, nat>, u: Coordinate, d: Direction)
      requires Linked(rank, prev) && u in rank && InBounds(rows, cols, Next(d, u)) && Next(d, u) !in rank
      ensures Linked(rank, prev[Next(d, u) := Link(Reverse(d), u)])
    {
      ReverseUndoes(d, u);
    }

    /** Only the re-linked node's runs change, and its run in direction `d` is one longer than `u`'s. */
    lemma RelinkLimited(prev: map<Coordinate, Link>, rank: map<Coordinate, nat>, u: Coordinate, d: Direction)
      requires Linked(rank, prev) && Limited(rank, prev) && u in rank && Next(d, u) !in rank
      requires Linked(rank, prev[Next(d, u) := Link(Reverse(d), u)])
      requires Sequential(rank, N(), prev, u, Reverse(d)) < 3
      ensures var prev' := prev[Next(d, u) := Link(Reverse(d), u)];
        Limited(rank, prev') && forall e :: Sequential(rank, N(), prev', u, e) == Sequential(rank, N(), prev, u, e)
    {
      var v := Next(d, u);
      var l := Link(Reverse(d), u);
      var prev' := prev[v := l];
      forall c, e | c != v ensures Sequential(rank, N(), prev', c, e) == Sequential(rank, N(), prev, c, e) {
        SequentialFrame(rank, N(), prev, v, l, c, e);
      }
      assert Sequential(rank, N(), prev', v, Reverse(d)) == 1 + Sequential(rank, N(), prev', u, Reverse(d));
    }

    lemma BookkeptRelink(weight: map<Coordinate, int>, prev: map<Coordinate, Link>, unvisited: seq<Coordinate>,
                         rank: map<Coordinate, nat>, visited: nat, v: Coordinate, alt: int, l: Link)
      requires var ok := Bookkept(weight, prev, unvisited, rank, visited) && rank != map[]; ok
      ensures Bookkept(weight[v := alt], prev[v := l], unvisited, rank, visited)
    {
    }

    /**
     * From `weight`/`prev` to `weight'`/`prev'` weights only dropped, a link changed only with a
     * drop in weight, and every node whose weight changed is waiting and now linked to `u`.
     */
    ghost predicate Lowered(weight: map<Coordinate, int>, prev: map<Coordinate, Link>,
                            weight': map<Coordinate, int>, prev': map<Coordinate, Link>, waiting: multiset<Coordinate>, u: Coordinate)
    {
      (forall c :: c in weight ==> c in weight' && weight'[c] <= weight[c]) &&
      (forall c :: c in prev ==> c in prev') &&
      (forall c :: c in prev' && (c !in prev || prev'[c] != prev[c]) ==> c in weight' && (c !in weight || weight'[c] < weight[c])) &&
      (forall c :: c in weight' && (c !in weight || weight'[c] != weight[c]) ==> c in waiting && c in prev' && prev'[c].node == u)
    }

    /** Re-linking a waiting node with a lower weight changes nothing else. */
    lemma RelinkChanges(weight: map<Coordinate, int>, prev: map<Coordinate, Link>, waiting: multiset<Coordinate>,
                        v: Coordinate, alt: int, l: Link)
      requires v in waiting && (v !in weight || alt < weight[v])
      ensures Lowered(weight, prev, weight[v := alt], prev[v := l], waiting, l.node)
    {
    }

    /** Two rounds of lowering through `u` are one. */
    lemma LoweredTwice(weight0: map<Coordinate, int>, prev0: map<Coordinate, Link>,
                       weight1: map<Coordinate, int>, prev1: map<Coordinate, Link>,
                       weight2: map<Coordinate, int>, prev2: map<Coordinate, Link>, waiting: multiset<Coordinate>, u: Coordinate)
      requires var ok := Lowered(weight0, prev0, weight1, prev1, waiting, u) && Lowered(weight1, prev1, weight2, prev2, waiting, u); ok
      ensures Lowered(weight0, prev0, weight2, prev2, waiting, u)
    {
    }

    /** Re-sorting the waiting nodes keeps the bookkeeping and puts them in key order. */
    lemma ResortKeeps(weight: map<Coordinate, int>, prev: map<Coordinate, Link>, unvisited: seq<Coordinate>,
                      rank: map<Coordinate, nat>, visited: nat, unvisited': seq<Coordinate>)
      requires var ok := Bookkept(weight, prev, unvisited, rank, visited); ok
      requires unvisited' == Sorting.Sort(unvisited, ByKey(weight))
      ensures Bookkept(weight, prev, unvisited', rank, visited)
      ensures Sorting.SortedBy(unvisited', ByKey(weight))
      ensures forall c :: c in unvisited' <==> c in unvisited
    {
      KeyLessIsStrict(weight);
      Sorting.SortSorted(unvisited, ByKey(weight));
      forall c ensures c in unvisited' <==> c in unvisited {
        assert c in unvisited' <==> c in multiset(unvisited');
        assert c in unvisited <==> c in multiset(unvisited);
      }
    }

    /**
     * The neighbour of `u` in direction `d` has been relaxed: if it is waiting and one more step
     * that way is allowed, it weighs no more than a path through `u` would make it.
     */
    ghost predicate Relaxed(weight: map<Coordinate, int>, prev: map<Coordinate, Link>, rank: map<Coordinate, nat>,
                            waiting: multiset<Coordinate>, u: Coordinate, d: Direction)
      requires Ranked(rank, N(), prev)
    {
      var v := Next(d, u);
      InBounds(rows, cols, v) && v in waiting && Sequential(rank, N(), prev, u, Reverse(d)) < 3 ==>
        u in weight && v in weight && weight[v] <= weight[u] + Loss(v)
    }

    /** Lowering other weights, leaving `u`'s weight and run alone, keeps a neighbour relaxed. */
    lemma StillRelaxed(weight: map<Coordinate, int>, prev: map<Coordinate, Link>,
                       weight': map<Coordinate, int>, prev': map<Coordinate, Link>,
                       rank: map<Coordinate, nat>, waiting: multiset<Coordinate>, u: Coordinate, d: Direction)
      requires Linked(rank, prev) && Linked(rank, prev') && Relaxed(weight, prev, rank, waiting, u, d)
      requires forall c :: c in weight ==> c in weight' && weight'[c] <= weight[c]
      requires u in weight ==> weight'[u] == weight[u]
      requires u !in weight ==> u !in weight'
      requires Sequential(rank, N(), prev', u, Reverse(d)) == Sequential(rank, N(), prev, u, Reverse(d))
      ensures Relaxed(weight', prev', rank, waiting, u, d)
    {
    }

    /**
     * Part way through relaxing `u`'s directions `ds` from `weight0`/`prev0` to `weight`/`prev`:
     * the invariant holds, the first `i` neighbours are relaxed, weights have only dropped, only
     * waiting nodes were re-linked (all to `u`), and `u`'s runs are as they were.
     */
    ghost predicate Relaxing(weight0: map<Coordinate, int>, prev0: map<Coordinate, Link>,
                             weight: map<Coordinate, int>, prev: map<Coordinate, Link>, unvisited: seq<Coordinate>,
                             rank: map<Coordinate, nat>, visited: nat, u: Coordinate, ds: seq<Direction>, i: nat)
    {
      Inv(weight, prev, unvisited, rank, visited) && Tracked(weight0, prev0, weight, prev, unvisited, rank, u, ds, i)
    }

    /** The part of `Relaxing` that relates the current weights and links to those before the round. */
    ghost predicate Tracked(weight0: map<Coordinate, int>, prev0: map<Coordinate, Link>,
                            weight: map<Coordinate, int>, prev: map<Coordinate, Link>, unvisited: seq<Coordinate>,
                            rank: map<Coordinate, nat>, u: Coordinate, ds: seq<Direction>, i: nat)
    {
      Ranked(rank, N(), prev) && Ranked(rank, N(), prev0) && i <= |ds| &&
      Lowered(weight0, prev0, weight, prev, multiset(unvisited), u) &&
      (forall e :: Sequential(rank, N(), prev, u, e) == Sequential(rank, N(), prev0, u, e)) &&
      forall j :: 0 <= j < i ==> Relaxed(weight, prev, rank, multiset(unvisited), u, ds[j])
    }

    /** Re-weighting the neighbour in direction `ds[i]` through `u` extends a partial relaxation. */
    lemma RelinkStep(weight0: map<Coordinate, int>, prev0: map<Coordinate, Link>,
                     weight: map<Coordinate, int>, prev: map<Coordinate, Link>, unvisited: seq<Coordinate>,
                     rank: map<Coordinate, nat>, visited: nat, u: Coordinate, ds: seq<Direction>, i: nat, alt: int)
      requires var ok := Relaxing(weight0, prev0, weight, prev, unvisited, rank, visited, u, ds, i); ok
      requires i < |ds|
      requires u in rank && u in weight && InBounds(rows, cols, Next(ds[i], u)) && Next(ds[i], u) in unvisited
      requires Sequential(rank, N(), prev, u, Reverse(ds[i])) < 3
      requires var v := Next(ds[i], u); alt == weight[u] + Loss(v) && (v !in weight || alt < weight[v])
      ensures var v := Next(ds[i], u);
        var ok := Relaxing(weight0, prev0, weight[v := alt], prev[v := Link(Reverse(ds[i]), u)],
                           unvisited, rank, visited, u, ds, i + 1); ok
    {
      var d := ds[i];
      var v := Next(d, u);
      assert src !in unvisited && v != src && v !in rank;
      RelinkKeeps(weight, prev, rank, u, d, alt);
      BookkeptRelink(weight, prev, unvisited, rank, visited, v, alt, Link(Reverse(d), u));
      RelinkTracks(weight0, prev0, weight, prev, unvisited, rank, u, ds, i, alt);
    }

    /** The re-weighting keeps the record of what the relaxation so far has changed. */
    lemma RelinkTracks(weight0: map<Coordinate, int>, prev0: map<Coordinate, Link>,
                       weight: map<Coordinate, int>, prev: map<Coordinate, Link>, unvisited: seq<Coordinate>,
                       rank: map<Coordinate, nat>, u: Coordinate, ds: seq<Direction>, i: nat, alt: int)
      requires i < |ds|
      requires var v, l := Next(ds[i], u), Link(Reverse(ds[i]), u);
        var ok := Tracked(weight0, prev0, weight, prev, unvisited, rank, u, ds, i) &&
          Linked(rank, prev) && Linked(rank, prev[v := l]) &&
          (forall e :: Sequential(rank, N(), prev[v := l], u, e) == Sequential(rank, N(), prev, u, e)) &&
          u in rank && u in weight && v in unvisited && v !in rank && Sequential(rank, N(), prev, u, Reverse(ds[i])) < 3 &&
          alt == weight[u] + Loss(v) && (v !in weight || alt < weight[v]); ok
      ensures var v := Next(ds[i], u);
        var ok := Tracked(weight0, prev0, weight[v := alt], prev[v := Link(Reverse(ds[i]), u)], unvisited, rank, u, ds, i + 1); ok
    {
      var weight', prev' := weight[Next(ds[i], u) := alt], prev[Next(ds[i], u) := Link(Reverse(ds[i]), u)];
      RelinkChanges(weight, prev, multiset(unvisited), Next(ds[i], u), alt, Link(Reverse(ds[i]), u));
      assert Relaxed(weight', prev', rank, multiset(unvisited), u, ds[i]);
      LoweredTwice(weight0, prev0, weight, prev, weight', prev', multiset(unvisited), u);
      AllStillRelaxed(weight, prev, weight', prev', rank, multiset(unvisited), u, ds, i);
      assert Ranked(rank, N(), prev');
      assert Ranked(rank, N(), prev0);
      assert Lowered(weight0, prev0, weight', prev', multiset(unvisited), u);
      assert forall e :: Sequential(rank, N(), prev', u, e) == Sequential(rank, N(), prev0, u, e);
      assert forall j :: 0 <= j < i + 1 ==> Relaxed(weight', prev', rank, multiset(unvisited), u, ds[j]);
    }

    /** `StillRelaxed` for each of the first `i` directions, with the `i`-th relaxed afresh. */
    lemma AllStillRelaxed(weight: map<Coordinate, int>, prev: map<Coordinate, Link>,
                          weight': map<Coordinate, int>, prev': map<Coordinate, Link>,
                          rank: map<Coordinate, nat>, waiting: multiset<Coordinate>, u: Coordinate, ds: seq<Direction>, i: nat)
      requires var ok := Linked(rank, prev) && Linked(rank, prev') && i < |ds| &&
        (forall j :: 0 <= j < i ==> Relaxed(weight, prev, rank, waiting, u, ds[j])) &&
        Relaxed(weight', prev', rank, waiting, u, ds[i]) &&
        (forall c :: c in weight ==> c in weight' && weight'[c] <= weight[c]) &&
        (u in weight ==> weight'[u] == weight[u]) && (u !in weight ==> u !in weight') &&
        forall e :: Sequential(rank, N(), prev', u, e) == Sequential(rank, N(), prev, u, e); ok
      ensures forall j :: 0 <= j < i + 1 ==> Relaxed(weight', prev', rank, waiting, u, ds[j])
    {
      forall j | 0 <= j < i + 1 ensures Relaxed(weight', prev', rank, waiting, u, ds[j]) {
        if j < i {
          StillRelaxed(weight, prev, weight', prev', rank, waiting, u, ds[j]);
        }
      }
    }

    /** Leaving the neighbour in direction `ds[i]` alone extends a partial relaxation when it is already relaxed. */
    lemma KeepStep(weight0: map<Coordinate, int>, prev0: map<Coordinate, Link>,
                   weight: map<Coordinate, int>, prev: map<Coordinate, Link>, unvisited: seq<Coordinate>,
                   rank: map<Coordinate, nat>, visited: nat, u: Coordinate, ds: seq<Direction>, i: nat)
      requires var ok := Relaxing(weight0, prev0, weight, prev, unvisited, rank, visited, u, ds, i); ok
      requires i < |ds|
      requires Relaxed(weight, prev, rank, multiset(unvisited), u, ds[i])
      ensures var ok := Relaxing(weight0, prev0, weight, prev, unvisited, rank, visited, u, ds, i + 1); ok
    {
    }

    /**
     * One pass of the `for dir in u.adjacent` loop, for the direction `ds[i]`: the neighbour `v` is
     * re-weighted through `u` when it is unvisited, `u.sequential(dir.reverse()) < 3`, and `v` has
     * no weight or a larger one. `ok` is false where the source adds to `u`'s missing weight.
     */
    method RelaxOne(ghost weight0: map<Coordinate, int>, ghost prev0: map<Coordinate, Link>,
                    weight: map<Coordinate, int>, prev: map<Coordinate, Link>, unvisited: seq<Coordinate>,
                    ghost rank: map<Coordinate, nat>, ghost visited: nat, u: Coordinate, ds: seq<Direction>, i: nat)
      returns (weight': map<Coordinate, int>, prev': map<Coordinate, Link>, ok: bool)
      requires var ok := Relaxing(weight0, prev0, weight, prev, unvisited, rank, visited, u, ds, i); ok
      requires Ranked(rank, N(), prev)
      requires i < |ds| && u in rank && InBounds(rows, cols, Next(ds[i], u))
      ensures ok ==> var ok := Relaxing(weight0, prev0, weight', prev', unvisited, rank, visited, u, ds, i + 1); ok
      ensures !ok <==> Next(ds[i], u) in unvisited && Sequential(rank, N(), prev, u, Reverse(ds[i])) < 3 && u !in weight
    {
      var d := ds[i];
      var v := Next(d, u);
      if v in unvisited && Sequential(rank, N(), prev, u, Reverse(d)) < 3 {
        if u !in weight {
          return weight, prev, false;
        }
        var alt := weight[u] + Loss(v);
        if v !in weight || alt < weight[v] {
          RelinkStep(weight0, prev0, weight, prev, unvisited, rank, visited, u, ds, i, alt);
          return weight[v := alt], prev[v := Link(Reverse(d), u)], true;
        }
      }
      KeepStep(weight0, prev0, weight, prev, unvisited, rank, visited, u, ds, i);
      return weight, prev, true;
    }

    /**
     * The `for dir in u.adjacent` loop: relax each neighbour of the visited node `u` in turn. On
     * failure the neighbours already relaxed keep their new weights, as in the source.
     */
    method RelaxEach(weight0: map<Coordinate, int>, prev0: map<Coordinate, Link>, unvisited: seq<Coordinate>,
                     ghost rank: map<Coordinate, nat>, ghost visited: nat, u: Coordinate, ds: seq<Direction>)
      returns (weight: map<Coordinate, int>, prev: map<Coordinate, Link>, ok: bool)
      requires Inv(weight0, prev0, unvisited, rank, visited) && u in rank
      requires forall d :: d in ds ==> InBounds(rows, cols, Next(d, u))
      ensures Inv(weight, prev, unvisited, rank, visited)
      ensures Lowered(weight0, prev0, weight, prev, multiset(unvisited), u)
      ensures forall e :: Sequential(rank, N(), prev, u, e) == Sequential(rank, N(), prev0, u, e)
      ensures ok ==> forall d :: d in ds ==> Relaxed(weight, prev, rank, multiset(unvisited), u, d)
      ensures !ok ==> u !in weight && exists d :: d in ds && Next(d, u) in unvisited && Sequential(rank, N(), prev, u, Reverse(d)) < 3
    {
      weight, prev := weight0, prev0;
      var i := 0;
      while i < |ds|
        invariant var ok := Relaxing(weight0, prev0, weight, prev, unvisited, rank, visited, u, ds, i); ok
        invariant Ranked(rank, N(), prev)
      {
        var weight', prev', ok' := RelaxOne(weight0, prev0, weight, prev, unvisited, rank, visited, u, ds, i);
        if !ok' {
          return weight, prev, false;
        }
        weight, prev := weight', prev';
        i := i + 1;
      }
      forall d | d in ds ensures Relaxed(weight, prev, rank, multiset(unvisited), u, d) {
        var j :| 0 <= j < |ds| && ds[j] == d;
      }
      ok := true;
    }

    /**
     * One round of the `while` loop: pop the first unvisited node `u`, relax each of its
     * neighbours in turn, then re-sort. `ok` is false where the source raises its TypeError.
     */
    method Visit(adjacent: map<Coordinate, seq<Direction>>, weight0: map<Coordinate, int>, prev0: map<Coordinate, Link>,
                 unvisited0: seq<Coordinate>, ghost rank0: map<Coordinate, nat>, ghost visited: nat)
      returns (u: Coordinate, weight: map<Coordinate, int>, prev: map<Coordinate, Link>, unvisited: seq<Coordinate>,
               ghost rank: map<Coordinate, nat>, ok: bool)
      requires var ok := Inv(weight0, prev0, unvisited0, rank0, visited) && Adjacency(adjacent) &&
        |unvisited0| > 0 && Sorting.SortedBy(unvisited0, ByKey(weight0)); ok
      ensures Inv(weight, prev, unvisited, rank, visited + 1) && u in adjacent
      ensures u == unvisited0[0] && forall x :: x in unvisited0 ==> !KeyLess(weight0, x, u)
      ensures rank == rank0[u := visited] && multiset(unvisited) == multiset(unvisited0[1..])
      ensures |unvisited| == |unvisited0| - 1
      ensures ok ==> Sorting.SortedBy(unvisited, ByKey(weight))
      ensures Lowered(weight0, prev0, weight, prev, multiset(unvisited), u)
      ensures ok ==> forall d :: d in adjacent[u] ==> Relaxed(weight, prev, rank, multiset(unvisited), u, d)
      ensures !ok ==> u !in weight && exists d :: d in adjacent[u] && Next(d, u) in unvisited &&
                                                 Sequential(rank, N(), prev, u, Reverse(d)) < 3
    {
      u := unvisited0[0];
      PopKeeps(weight0, prev0, unvisited0, rank0, visited);
      unvisited := unvisited0[1..];
      rank := rank0[u := visited];
      weight, prev, ok := RelaxEach(weight0, prev0, unvisited, rank, visited + 1, u, adjacent[u]);
      if ok {
        var sorted := Sorting.Sort(unvisited, ByKey(weight));
        ResortKeeps(weight, prev, unvisited, rank, visited + 1, sorted);
        unvisited := sorted;
      }
    }

    /** Before the first visit: only the source is weighted, nothing is linked or visited. */
    lemma StartKeeps(unvisited: seq<Coordinate>)
      requires var ok := Shaped() && Distinct(unvisited) && |unvisited| == N() &&
        forall c :: c in unvisited <==> InBounds(rows, cols, c); ok
      ensures Inv(map[src := Loss(src)], map[], unvisited, map[], 0)
    {
    }

    /**
     * Lines 142-166 of `minloss`: weight the source, sort, and visit nodes in order of weight
     * until none is waiting. `ok` is false where a visit fails; otherwise every node was visited.
     */
    method Explore(adjacent: map<Coordinate, seq<Direction>>, unvisited0: seq<Coordinate>)
      returns (weight: map<Coordinate, int>, prev: map<Coordinate, Link>, ghost rank: map<Coordinate, nat>, ok: bool)
      requires var ok := Shaped() && Adjacency(adjacent) && Distinct(unvisited0) && |unvisited0| == N() &&
        forall c :: c in unvisited0 <==> InBounds(rows, cols, c); ok
      ensures src in weight && weight[src] == Loss(src)
      ensures Shaped() && Linked(rank, prev) && Weighted(weight, prev) && Limited(rank, prev)
      ensures ok ==> forall c :: InBounds(rows, cols, c) <==> c in rank
    {
      weight := map[src := Loss(src)];
      prev := map[];
      rank := map[];
      ghost var visited := 0;
      StartKeeps(unvisited0);
      var unvisited := Sorting.Sort(unvisited0, ByKey(weight));
      ResortKeeps(weight, prev, unvisited0, rank, visited, unvisited);
      while |unvisited| > 0
        invariant var ok := Inv(weight, prev, unvisited, rank, visited) && Adjacency(adjacent) &&
          Sorting.SortedBy(unvisited, ByKey(weight)); ok
        decreases |unvisited|
      {
        var u, ok;
        u, weight, prev, unvisited, rank, ok := Visit(adjacent, weight, prev, unvisited, rank, visited);
        visited := visited + 1;
        if !ok {
          return weight, prev, rank, false;
        }
      }
      ok := true;
    }
  }

  /** One row of the `unvisited` comprehension, left to right. */
  function Row(row: int, cols: nat): (r: seq<Coordinate>)
    ensures |r| == cols && Distinct(r)
    ensures forall c :: c in r <==> c.row == row && 0 <= c.col < cols
  {
    if cols == 0 then []
    else
      DistinctAppend(Row(row, cols - 1), [Coordinate(row, cols - 1)]);
      Row(row, cols - 1) + [Coordinate(row, cols - 1)]
  }

  /** The `unvisited` comprehension: every coordinate, row by row. */
  function RowMajor(rows: nat, cols: nat): (r: seq<Coordinate>)
    ensures |r| == rows * cols && Distinct(r)
    ensures forall c :: c in r <==> InBounds(rows, cols, c)
  {
    if rows == 0 then []
    else
      DistinctAppend(RowMajor(rows - 1, cols), Row(rows - 1, cols));
      assert (rows - 1) * cols + cols == rows * cols;
      RowMajor(rows - 1, cols) + Row(rows - 1, cols)
  }

  /** Two repetition-free sequences with no element in common concatenate to one. */
  lemma DistinctAppend(a: seq<Coordinate>, b: seq<Coordinate>)
    requires Distinct(a) && Distinct(b) && forall x :: x in b ==> x !in a
    ensures Distinct(a + b)
  {
    assert multiset(a + b) == multiset(a) + multiset(b);
    forall x ensures multiset(a + b)[x] <= 1 {
      if x in b {
        assert multiset(a)[x] == 0;
      }
    }
  }

  /** The adjacency loops: each node gets the in-bounds directions, in enum order. */
  method LinkAll(rows: nat, cols: nat) returns (adjacent: map<Coordinate, seq<Direction>>)
    ensures forall c :: InBounds(rows, cols, c) ==> c in adjacent && adjacent[c] == AdjacentDirections(rows, cols, c, Directions)
  {
    adjacent := map[];
    for row := 0 to rows
      invariant forall c :: InBounds(rows, cols, c) && c.row < row ==>
        c in adjacent && adjacent[c] == AdjacentDirections(rows, cols, c, Directions)
    {
      for col := 0 to cols
        invariant forall c :: InBounds(rows, cols, c) && (c.row < row || (c.row == row && c.col < col)) ==>
          c in adjacent && adjacent[c] == AdjacentDirections(rows, cols, c, Directions)
      {
        var coord := Coordinate(row, col);
        var ds := LinkOne(rows, cols, coord);
        adjacent := adjacent[coord := ds];
      }
    }
  }

  /** The `for dir in Direction` loop for one node: its in-bounds directions, in enum order. */
  method LinkOne(rows: nat, cols: nat, coord: Coordinate) returns (ds: seq<Direction>)
    ensures ds == AdjacentDirections(rows, cols, coord, Directions)
  {
    ds := [];
    for k := 0 to |Directions|
      invariant ds == AdjacentDirections(rows, cols, coord, Directions[..k])
    {
      assert Directions[..k + 1][..k] == Directions[..k];
      if InBounds(rows, cols, Next(Directions[k], coord)) {
        ds := ds + [Directions[k]];
      }
    }
    assert Directions[..|Directions|] == Directions;
  }

  const SourcePastEdge := "IndexError: list index out of range"
  const SourceOutside := "KeyError: source outside the grid"
  const Unweighted := "TypeError: a neighbour was relaxed from an unweighted node"
  const DestinationOutside := "KeyError: destination outside the grid"
  const Unreached := "AttributeError: destination never reached"

  /**
   * The error of `nodes[src].weight = self.loss[src.row][src.col]` for a source off the grid.
   * The right-hand side is evaluated first: a row or column past Python's index range
   * (`-n <= i < n`) is an IndexError there, and only a source that indexes `loss` from the
   * end reaches the KeyError of `nodes[src]`.
   */
  function SourceError(rows: nat, cols: nat, src: Coordinate): string {
    if -(rows as int) <= src.row < rows && -(cols as int) <= src.col < cols then SourceOutside
    else SourcePastEdge
  }

  /** A heat-loss grid as `Grid.__init__` accepts it. */
  datatype Grid = Grid(loss: seq<seq<int>>, rows: nat, cols: nat)
  {
    ghost predicate Valid() {
      Rectangular(loss) && rows == |loss| && cols == |loss[0]|
    }

    /**
     * `Grid.minloss` without the printing: the weight the search gives `dst`. It fails where the
     * source raises: a source off the grid (`SourceError`), a destination off it (KeyError), a
     * neighbour relaxed from a
     * node that was never weighted (TypeError), or a destination never reached (the walk back
     * along `prev` meets a node without one).
     */
    method MinLoss(src: Coordinate, dst: Coordinate) returns (r: Result<int>)
      requires Valid()
      ensures !InBounds(rows, cols, src) <==> r == Failure(SourceError(rows, cols, src))
      ensures InBounds(rows, cols, src) && !InBounds(rows, cols, dst) ==> r.Failure?
      ensures r.Failure? ==> r.error in {SourcePastEdge, SourceOutside, Unweighted, DestinationOutside, Unreached}
      ensures r.Success? ==> exists p :: PathOf(loss, src, dst, p, r.value) && Steady(p)
    {
      var unvisited := RowMajor(rows, cols);
      var adjacent := LinkAll(rows, cols);
      if !InBounds(rows, cols, src) {
        return Failure(SourceError(rows, cols, src));
      }
      var s := Search(loss, rows, cols, src);
      var weight, prev, rank, ok := s.Explore(adjacent, unvisited);
      if !ok {
        return Failure(Unweighted);
      }
      if !InBounds(rows, cols, dst) {
        return Failure(DestinationOutside);
      }
      if dst !in weight {
        return Failure(Unreached);
      }
      s.TrailIsPath(rank, weight, prev, dst);
      s.TrailSteady(rank, prev, dst);
      r := Success(weight[dst]);
    }
  }

  /** `Grid.__init__`: an empty list has no first row; rows of unequal width are refused. */
  function NewGrid(loss: seq<seq<int>>): (r: Result<Grid>)
    ensures r.Success? <==> Rectangular(loss)
    ensures r.Success? ==> r.value.Valid() && r.value.loss == loss
  {
    if |loss| == 0 then Failure("IndexError: list index out of range")
    else if exists i :: 0 <= i < |loss| && |loss[i]| != |loss[0]| then Failure("ValueError: Grid must be rectangular")
    else Success(Grid(loss, |loss|, |loss[0]|))
  }
}
