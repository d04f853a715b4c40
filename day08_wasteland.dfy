/**
 * The left/right walks of 2023/day8/map.py (one walker from `AAA` to `ZZZ`) and
 * 2023/day08/map-part2.py (every node ending in `A` at once, until all end in `Z`).
 * The network maps each node's name to its `(left, right)` pair; the direction string
 * is replayed from the start whenever it runs out.
 */
module Wasteland {
  import opened Wrappers

  type Network = map<string, (string, string)>

  /** One move of map.py: `L` to `left`, `R` to `right`, any other letter stays put; `nodes[...]` fails on an unknown name. */
  function Move(net: Network, name: string, dir: char): (r: Result<string>)
    requires name in net
    ensures r.Success? ==> r.value in net
    ensures r.Failure? ==> dir in {'L', 'R'}
  {
    var target := if dir == 'L' then net[name].0 else if dir == 'R' then net[name].1 else name;
    if target in net then Success(target) else Failure("KeyError")
  }

  /** The direction of move `k`: the string replayed from its start whenever it runs out. */
  function Dir(dirs: string, k: nat): char
    requires |dirs| > 0
    decreases k
  {
    if k < |dirs| then dirs[k] else Dir(dirs, k - |dirs|)
  }

  /** `count` is where a pass over the directions starts: a whole number of passes in. */
  ghost predicate PassStart(dirs: string, count: nat)
    requires |dirs| > 0
    decreases count
  {
    count == 0 || (count >= |dirs| && PassStart(dirs, count - |dirs|))
  }

  lemma PassNext(dirs: string, count: nat)
    requires |dirs| > 0 && PassStart(dirs, count)
    ensures PassStart(dirs, count + |dirs|)
  {
  }

  /** Move `i` of a pass follows `dirs[i]`. */
  lemma {:induction false} DirInPass(dirs: string, count: nat, i: nat)
    requires |dirs| > 0 && PassStart(dirs, count) && i < |dirs|
    ensures Dir(dirs, count + i) == dirs[i]
    decreases count
  {
    if count > 0 {
      DirInPass(dirs, count - |dirs|, i);
    }
  }

  /** Where a walker from `start` is after `k` moves, move `i` following `Dir(dirs, i)`. */
  function NodeAfter(net: Network, dirs: string, start: string, k: nat): (r: Result<string>)
    requires start in net
    ensures r.Success? ==> r.value in net
    decreases k
  {
    if k == 0 then Success(start)
    else if |dirs| == 0 then Failure("no directions")
    else
      var here :- NodeAfter(net, dirs, start, k - 1);
      Move(net, here, Dir(dirs, k - 1))
  }

  /** None of the first `n` positions is `end`. */
  ghost predicate NotYet(net: Network, dirs: string, start: string, end: string, n: nat)
    requires start in net
    decreases n
  {
    n == 0 || (NotYet(net, dirs, start, end, n - 1) && NodeAfter(net, dirs, start, n - 1) != Success(end))
  }

  lemma {:induction false} NotYetMeans(net: Network, dirs: string, start: string, end: string, n: nat)
    requires start in net && NotYet(net, dirs, start, end, n)
    ensures forall k :: 0 <= k < n ==> NodeAfter(net, dirs, start, k) != Success(end)
    decreases n
  {
    if n > 0 {
      NotYetMeans(net, dirs, start, end, n - 1);
    }
  }

  /** `count` moves reach `end` and no fewer do: the walk stops at its first arrival. */
  ghost predicate FirstArrival(net: Network, dirs: string, start: string, end: string, count: nat)
    requires start in net
  {
    NodeAfter(net, dirs, start, count) == Success(end) &&
    forall k :: 0 <= k < count ==> NodeAfter(net, dirs, start, k) != Success(end)
  }

  /**
   * The walk loop of map.py from `start` (the script's `AAA`) to `end` (`ZZZ`), allowed
   * `fuel` passes over the direction string.
   */
  method Walk(net: Network, dirs: string, start: string, end: string, fuel: nat) returns (r: Result<nat>)
    ensures r.Success? ==> start in net && FirstArrival(net, dirs, start, end, r.value)
    ensures start !in net ==> r.Failure?
    ensures forall k: nat :: start in net && FirstArrival(net, dirs, start, end, k) && k <= fuel * |dirs| ==> r == Success(k)
  {
    if start !in net {
      return Failure("KeyError");
    }
    var node := start;
    var count := 0;
    var rounds := 0;
    while node != end
      invariant NodeAfter(net, dirs, start, count) == Success(node)
      invariant NotYet(net, dirs, start, end, count)
      invariant rounds <= fuel
      invariant node != end && |dirs| > 0 ==> PassStart(dirs, count)
      invariant node != end ==> count == rounds * |dirs|
      decreases fuel - rounds
    {
      if rounds == fuel {
        NotWithin(net, dirs, start, end, count);
        return Failure("out of fuel");
      }
      assert (rounds + 1) * |dirs| == rounds * |dirs| + |dirs|;
      rounds := rounds + 1;
      ghost var passStart := count;
      for i := 0 to |dirs|
        invariant count == passStart + i
        invariant |dirs| > 0 ==> PassStart(dirs, passStart)
        invariant NodeAfter(net, dirs, start, count) == Success(node)
        invariant NotYet(net, dirs, start, end, count)
      {
        if node == end {
          break;
        }
        var next := node;
        if dirs[i] == 'L' {
          next := net[node].0;
        } else if dirs[i] == 'R' {
          next := net[node].1;
        }
        if next !in net {
          DirInPass(dirs, passStart, i);
          NeverArrives(net, dirs, start, end, count);
          return Failure("KeyError");
        }
        WalkStep(net, dirs, start, end, passStart, i, node, next);
        node := next;
        count := count + 1;
      }
    }
    Arrived(net, dirs, start, end, count);
    return Success(count);
  }

  /** Not at the end before move `count` and at the end after it: the first arrival is at `count`. */
  lemma Arrived(net: Network, dirs: string, start: string, end: string, count: nat)
    requires start in net && NotYet(net, dirs, start, end, count) && NodeAfter(net, dirs, start, count) == Success(end)
    ensures FirstArrival(net, dirs, start, end, count)
    ensures forall k: nat :: FirstArrival(net, dirs, start, end, k) ==> k == count
  {
    NotYetMeans(net, dirs, start, end, count);
    forall k: nat | FirstArrival(net, dirs, start, end, k)
      ensures k == count
    {
      FirstArrivalUnique(net, dirs, start, end, k, count);
    }
  }

  /** A walk that has failed stays failed. */
  lemma {:induction false} NodeFailureSticks(net: Network, dirs: string, start: string, j: nat, k: nat)
    requires start in net && j <= k && NodeAfter(net, dirs, start, j).Failure?
    ensures NodeAfter(net, dirs, start, k).Failure?
    decreases k
  {
    if k > j {
      NodeFailureSticks(net, dirs, start, j, k - 1);
    }
  }

  /** The first arrival is unique. */
  lemma FirstArrivalUnique(net: Network, dirs: string, start: string, end: string, a: nat, b: nat)
    requires start in net && FirstArrival(net, dirs, start, end, a) && FirstArrival(net, dirs, start, end, b)
    ensures a == b
  {
  }

  /** Not at the end within the first `count` moves nor after them: no first arrival up to `count`. */
  lemma NotWithin(net: Network, dirs: string, start: string, end: string, count: nat)
    requires start in net && NotYet(net, dirs, start, end, count) && NodeAfter(net, dirs, start, count) != Success(end)
    ensures forall k: nat :: k <= count ==> !FirstArrival(net, dirs, start, end, k)
  {
    NotYetMeans(net, dirs, start, end, count);
  }

  /** A walk that fails on its next move, not having arrived yet, never arrives. */
  lemma NeverArrives(net: Network, dirs: string, start: string, end: string, count: nat)
    requires start in net && NotYet(net, dirs, start, end, count) && NodeAfter(net, dirs, start, count) != Success(end)
    requires NodeAfter(net, dirs, start, count + 1).Failure?
    ensures forall k: nat :: !FirstArrival(net, dirs, start, end, k)
  {
    NotWithin(net, dirs, start, end, count);
    forall k | k > count
      ensures NodeAfter(net, dirs, start, k).Failure?
    {
      NodeFailureSticks(net, dirs, start, count + 1, k);
    }
  }

  /** One move of the walk: the position after it, and that the end was not reached before it. */
  lemma WalkStep(net: Network, dirs: string, start: string, end: string, passStart: nat, i: nat, node: string, next: string)
    requires var ok := start in net && i < |dirs| && PassStart(dirs, passStart) && node != end
      && NodeAfter(net, dirs, start, passStart + i) == Success(node) && NotYet(net, dirs, start, end, passStart + i)
      && next == (if dirs[i] == 'L' then net[node].0 else if dirs[i] == 'R' then net[node].1 else node)
      && next in net;
      ok
    ensures NodeAfter(net, dirs, start, passStart + i + 1) == Success(next)
    ensures NotYet(net, dirs, start, end, passStart + i + 1)
  {
    DirInPass(dirs, passStart, i);
  }

  /** A start that is already the end takes no moves. */
  lemma StartAtEnd(net: Network, dirs: string, start: string)
    requires start in net
    ensures FirstArrival(net, dirs, start, start, 0)
  {
  }

  /** After one whole pass over the directions the walk goes on as if it started afresh there. */
  lemma {:induction false} Cyclic(net: Network, dirs: string, start: string, b: nat, mid: string)
    requires start in net && |dirs| > 0
    requires NodeAfter(net, dirs, start, |dirs|) == Success(mid)
    ensures NodeAfter(net, dirs, start, |dirs| + b) == NodeAfter(net, dirs, mid, b)
    decreases b
  {
    if b > 0 {
      Cyclic(net, dirs, start, b - 1, mid);
      assert Dir(dirs, |dirs| + b - 1) == Dir(dirs, b - 1);
    }
  }

  // ---- map-part2.py ----

  predicate EndsWith(name: string, c: char) {
    |name| > 0 && name[|name| - 1] == c
  }

  /** `curNodes`: the nodes whose name ends in `A`, in the order the lines gave them. */
  function Starts(names: seq<string>): (r: seq<string>)
    ensures forall i :: 0 <= i < |r| ==> EndsWith(r[i], 'A') && r[i] in names
    ensures forall i :: 0 <= i < |names| && EndsWith(names[i], 'A') ==> names[i] in r
    decreases |names|
  {
    if names == [] then []
    else Starts(names[..|names| - 1]) + if EndsWith(names[|names| - 1], 'A') then [names[|names| - 1]] else []
  }

  /** `atEnd`: every current name ends in `Z` (true for no nodes at all). */
  predicate AtEnd(current: seq<string>) {
    forall i :: 0 <= i < |current| ==> EndsWith(current[i], 'Z')
  }

  /** `navigate`: `L` or `R`; any other letter gives `None`, on which the next `atEnd` fails. */
  function Navigate(net: Network, name: string, dir: char): (r: Result<string>)
    requires name in net
    ensures r.Success? ==> r.value in net
    ensures dir in {'L', 'R'} ==> r == Move(net, name, dir)
  {
    if dir == 'L' || dir == 'R' then Move(net, name, dir) else Failure("'NoneType' object has no attribute 'name'")
  }

  predicate AllIn(net: Network, current: seq<string>) {
    forall i :: 0 <= i < |current| ==> current[i] in net
  }

  /** `[navigate(node, dir) for node in curNodes]`: every walker moves at once. */
  function NavigateAll(net: Network, current: seq<string>, dir: char): (r: Result<seq<string>>)
    requires AllIn(net, current)
    ensures r.Success? ==> |r.value| == |current| && AllIn(net, r.value)
    ensures r.Success? <==> forall i :: 0 <= i < |current| ==> Navigate(net, current[i], dir).Success?
    ensures r.Success? ==> forall i :: 0 <= i < |current| ==> Navigate(net, current[i], dir) == Success(r.value[i])
    decreases |current|
  {
    if current == [] then Success([])
    else
      var init := current[..|current| - 1];
      var last := current[|current| - 1];
      match (NavigateAll(net, init, dir), Navigate(net, last, dir))
      case (Success(moved), Success(next)) => Success(moved + [next])
      case (Failure(e), _) => Failure(e)
      case (_, Failure(e)) => Failure(e)
  }

  /** The current nodes after `k` simultaneous moves. */
  function StatesAfter(net: Network, dirs: string, starts: seq<string>, k: nat): (r: Result<seq<string>>)
    requires AllIn(net, starts)
    ensures r.Success? ==> |r.value| == |starts| && AllIn(net, r.value)
    decreases k
  {
    if k == 0 then Success(starts)
    else if |dirs| == 0 then Failure("no directions")
    else
      var current :- StatesAfter(net, dirs, starts, k - 1);
      NavigateAll(net, current, Dir(dirs, k - 1))
  }

  /**
   * Moving all walkers together is moving each on its own: with directions of only `L`
   * and `R`, walker `i` after `k` simultaneous moves is where it would be walking alone.
   */
  lemma {:induction false} Pointwise(net: Network, dirs: string, starts: seq<string>, k: nat, i: nat)
    requires AllIn(net, starts) && i < |starts|
    requires forall j :: 0 <= j < |dirs| ==> dirs[j] in {'L', 'R'}
    requires StatesAfter(net, dirs, starts, k).Success?
    ensures NodeAfter(net, dirs, starts[i], k) == Success(StatesAfter(net, dirs, starts, k).value[i])
    decreases k
  {
    if k > 0 {
      Pointwise(net, dirs, starts, k - 1, i);
    }
  }

  /** None of the first `n` simultaneous positions has every walker at an end. */
  ghost predicate Unfinished(net: Network, dirs: string, starts: seq<string>, n: nat)
    requires AllIn(net, starts)
    decreases n
  {
    n == 0 || (Unfinished(net, dirs, starts, n - 1) && StatesAfter(net, dirs, starts, n - 1).Success?
      && !AtEnd(StatesAfter(net, dirs, starts, n - 1).value))
  }

  lemma {:induction false} UnfinishedMeans(net: Network, dirs: string, starts: seq<string>, n: nat)
    requires AllIn(net, starts) && Unfinished(net, dirs, starts, n)
    ensures forall k :: 0 <= k < n ==>
      StatesAfter(net, dirs, starts, k).Success? && !AtEnd(StatesAfter(net, dirs, starts, k).value)
    decreases n
  {
    if n > 0 {
      UnfinishedMeans(net, dirs, starts, n - 1);
    }
  }

  /** After `k` simultaneous moves every walker is at an end, and after no fewer. */
  ghost predicate AllArrive(net: Network, dirs: string, starts: seq<string>, k: nat)
    requires AllIn(net, starts)
  {
    StatesAfter(net, dirs, starts, k).Success? && AtEnd(StatesAfter(net, dirs, starts, k).value)
    && forall j :: 0 <= j < k ==> StatesAfter(net, dirs, starts, j).Success? && !AtEnd(StatesAfter(net, dirs, starts, j).value)
  }

  /** The moment every walker is at an end is unique. */
  lemma AllArriveUnique(net: Network, dirs: string, starts: seq<string>, a: nat, b: nat)
    requires AllIn(net, starts) && AllArrive(net, dirs, starts, a) && AllArrive(net, dirs, starts, b)
    ensures a == b
  {
  }

  /** Simultaneous walks that have failed stay failed. */
  lemma {:induction false} StatesFailureSticks(net: Network, dirs: string, starts: seq<string>, j: nat, k: nat)
    requires AllIn(net, starts) && j <= k && StatesAfter(net, dirs, starts, j).Failure?
    ensures StatesAfter(net, dirs, starts, k).Failure?
    decreases k
  {
    if k > j {
      StatesFailureSticks(net, dirs, starts, j, k - 1);
    }
  }

  /** Not all at an end within the first `count` moves nor after them: no arrival up to `count`. */
  lemma NotAllWithin(net: Network, dirs: string, starts: seq<string>, count: nat, current: seq<string>)
    requires AllIn(net, starts) && Unfinished(net, dirs, starts, count)
    requires StatesAfter(net, dirs, starts, count) == Success(current) && !AtEnd(current)
    ensures forall k: nat :: k <= count ==> !AllArrive(net, dirs, starts, k)
  {
    UnfinishedMeans(net, dirs, starts, count);
  }

  /** Walkers that fail on their next move, not all at an end yet, never all arrive. */
  lemma NeverAllArrive(net: Network, dirs: string, starts: seq<string>, count: nat, current: seq<string>)
    requires AllIn(net, starts) && Unfinished(net, dirs, starts, count)
    requires StatesAfter(net, dirs, starts, count) == Success(current) && !AtEnd(current)
    requires StatesAfter(net, dirs, starts, count + 1).Failure?
    ensures forall k: nat :: !AllArrive(net, dirs, starts, k)
  {
    NotAllWithin(net, dirs, starts, count, current);
    forall k | k > count
      ensures StatesAfter(net, dirs, starts, k).Failure?
    {
      StatesFailureSticks(net, dirs, starts, count + 1, k);
    }
  }

  /** The loop of map-part2.py, allowed `fuel` passes over the direction string. */
  method WalkAll(net: Network, dirs: string, starts: seq<string>, fuel: nat) returns (r: Result<nat>)
    requires AllIn(net, starts)
    ensures r.Success? ==> AllArrive(net, dirs, starts, r.value)
    ensures forall k: nat :: AllArrive(net, dirs, starts, k) && k <= fuel * |dirs| ==> r == Success(k)
  {
    var current := starts;
    var count := 0;
    var rounds := 0;
    while !AtEnd(current)
      invariant StatesAfter(net, dirs, starts, count) == Success(current)
      invariant Unfinished(net, dirs, starts, count)
      invariant rounds <= fuel
      invariant !AtEnd(current) && |dirs| > 0 ==> PassStart(dirs, count)
      invariant !AtEnd(current) ==> count == rounds * |dirs|
      decreases fuel - rounds
    {
      if rounds == fuel {
        NotAllWithin(net, dirs, starts, count, current);
        return Failure("out of fuel");
      }
      var passed := OnePass(net, dirs, starts, count, current);
      if passed.Failure? {
        return Failure(passed.error);
      }
      if |dirs| > 0 {
        PassNext(dirs, count);
      }
      assert (rounds + 1) * |dirs| == rounds * |dirs| + |dirs|;
      rounds := rounds + 1;
      current, count := passed.value.0, passed.value.1;
    }
    AllArrived(net, dirs, starts, count, current);
    return Success(count);
  }

  /** Not all at an end before move `count` and all at an end after it: the arrival is at `count`. */
  lemma AllArrived(net: Network, dirs: string, starts: seq<string>, count: nat, current: seq<string>)
    requires AllIn(net, starts) && Unfinished(net, dirs, starts, count)
    requires StatesAfter(net, dirs, starts, count) == Success(current) && AtEnd(current)
    ensures AllArrive(net, dirs, starts, count)
    ensures forall k: nat :: AllArrive(net, dirs, starts, k) ==> k == count
  {
    UnfinishedMeans(net, dirs, starts, count);
    forall k: nat | AllArrive(net, dirs, starts, k)
      ensures k == count
    {
      AllArriveUnique(net, dirs, starts, k, count);
    }
  }

  /**
   * The inner `for dir in directions` loop of map-part2.py, from move `passStart`: it stops
   * early once every walker is at an end, and otherwise makes one move per direction.
   */
  method OnePass(net: Network, dirs: string, starts: seq<string>, passStart: nat, start: seq<string>)
    returns (r: Result<(seq<string>, nat)>)
    requires var ok := AllIn(net, starts) && (|dirs| > 0 ==> PassStart(dirs, passStart))
      && StatesAfter(net, dirs, starts, passStart) == Success(start) && Unfinished(net, dirs, starts, passStart);
      ok
    ensures r.Success? ==> var (current, count) := r.value;
      var ok := StatesAfter(net, dirs, starts, count) == Success(current) && Unfinished(net, dirs, starts, count)
        && (AtEnd(current) || count == passStart + |dirs|);
      ok
    ensures r.Failure? ==> forall k :: !AllArrive(net, dirs, starts, k)
  {
    var current := start;
    var count := passStart;
    for i := 0 to |dirs|
      invariant count == passStart + i
      invariant StatesAfter(net, dirs, starts, count) == Success(current)
      invariant Unfinished(net, dirs, starts, count)
    {
      var done := AllAtEnd(current);
      if done {
        return Success((current, count));
      }
      var moved := NavigateAll(net, current, dirs[i]);
      if moved.Failure? {
        DirInPass(dirs, passStart, i);
        NeverAllArrive(net, dirs, starts, count, current);
        return Failure(moved.error);
      }
      StatesStep(net, dirs, starts, passStart, i, current, moved.value);
      current := moved.value;
      count := count + 1;
    }
    return Success((current, count));
  }

  /** One simultaneous move: the positions after it, and that not all walkers were at an end before it. */
  lemma StatesStep(net: Network, dirs: string, starts: seq<string>, passStart: nat, i: nat, current: seq<string>, moved: seq<string>)
    requires var ok := AllIn(net, starts) && i < |dirs| && PassStart(dirs, passStart) && !AtEnd(current)
      && StatesAfter(net, dirs, starts, passStart + i) == Success(current)
      && Unfinished(net, dirs, starts, passStart + i)
      && NavigateAll(net, current, dirs[i]) == Success(moved);
      ok
    ensures StatesAfter(net, dirs, starts, passStart + i + 1) == Success(moved)
    ensures Unfinished(net, dirs, starts, passStart + i + 1)
  {
    DirInPass(dirs, passStart, i);
  }

  /** `atEnd` as the loop it is: the first name not ending in `Z` makes it false. */
  method AllAtEnd(current: seq<string>) returns (done: bool)
    ensures done == AtEnd(current)
  {
    for i := 0 to |current|
      invariant forall j :: 0 <= j < i ==> EndsWith(current[j], 'Z')
    {
      var name := current[i];
      if |name| == 0 || name[|name| - 1] != 'Z' {
        return false;
      }
    }
    return true;
  }
}
