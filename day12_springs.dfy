/**
 * The spring-arrangement counter of 2023/day12/run.py. A row of springs is operational,
 * damaged or unknown; `count` tries each known condition for every unknown spring in
 * place, walking left to right while it uses up the damaged-group sizes, and restores
 * the row and the groups as it backs out.
 */
module Springs {
  datatype Condition = Operational | Damaged | Unknown

  /** `known`: an unknown spring may be damaged or operational; a known one is itself. */
  function Known(c: Condition): (r: seq<Condition>)
    ensures 1 <= |r| <= 2 && forall k :: 0 <= k < |r| ==> r[k] != Unknown
    ensures (|r| == 1 && r[0] == c) || (c == Unknown && r == [Damaged, Operational])
  {
    if c == Unknown then [Damaged, Operational] else [c]
  }

  predicate AllZero(groups: seq<int>) {
    forall k :: 0 <= k < |groups| ==> groups[k] == 0
  }

  predicate AnyNegative(groups: seq<int>) {
    exists k :: 0 <= k < |groups| && groups[k] < 0
  }

  /**
   * What `count(conditions, i, groups, j)` returns, with the row and the groups as they
   * stand: the springs before `i` already chosen, `groups[j]` the group being used up.
   */
  function Arrangements(cs: seq<Condition>, i: nat, gs: seq<int>, j: nat): nat
    decreases |cs| - i, 2
  {
    if i >= |cs| then (if AllZero(gs) then 1 else 0)
    else if AnyNegative(gs) then 0
    else if j > |gs| then 0
    else Branches(cs, i, gs, j, Known(cs[i]))
  }

  /** The counts summed over the conditions `options` tried for spring `i`. */
  function Branches(cs: seq<Condition>, i: nat, gs: seq<int>, j: nat, options: seq<Condition>): nat
    requires i < |cs|
    decreases |cs| - i, 1, |options|
  {
    if options == [] then 0
    else Branches(cs, i, gs, j, options[..|options| - 1]) + Choice(cs, i, gs, j, options[|options| - 1])
  }

  /**
   * One choice `c` for spring `i`: a damaged spring after a damaged one extends the group,
   * an operational spring after a damaged one moves on to the next group, and a damaged
   * spring with no group left is skipped.
   */
  function Choice(cs: seq<Condition>, i: nat, gs: seq<int>, j: nat, c: Condition): nat
    requires i < |cs|
    decreases |cs| - i, 0
  {
    var cs' := cs[i := c];
    var transition := i > 0 && cs'[i - 1] == Damaged && c == Operational;
    var nextj := if transition then j + 1 else j;
    if j < |gs| then Arrangements(cs', i + 1, gs[j := if c == Damaged then gs[j] - 1 else gs[j]], nextj)
    else if c == Damaged then 0
    else Arrangements(cs', i + 1, gs, nextj)
  }

  /**
   * `count`: tries each known condition for spring `i`, recursing with the row and the
   * group updated in place and putting both back afterwards.
   */
  method Count(conditions: array<Condition>, i: nat, groups: array<int>, j: nat) returns (total: nat)
    modifies conditions, groups
    ensures conditions[..] == old(conditions[..]) && groups[..] == old(groups[..])
    ensures total == Arrangements(conditions[..], i, groups[..], j)
    decreases conditions.Length - i
  {
    if i >= conditions.Length {
      return if AllZero(groups[..]) then 1 else 0;
    }
    if AnyNegative(groups[..]) {
      return 0;
    }
    if j > groups.Length {
      return 0;
    }
    ghost var cs, gs := conditions[..], groups[..];
    total := 0;
    var saveCondition := conditions[i];
    var saveGroup := if j < groups.Length then groups[j] else 0;
    var options := Known(conditions[i]);
    for k := 0 to |options|
      invariant conditions[..] == cs[i := conditions[i]] && groups[..] == gs
      invariant conditions[i] == saveCondition || (k > 0 && options[k - 1] == Damaged && conditions[i] == Damaged)
      invariant total == Branches(cs, i, gs, j, options[..k])
    {
      var condition := options[k];
      conditions[i] := condition;
      assert conditions[..] == cs[i := condition];
      var prevDamaged := if i > 0 then conditions[i - 1] == Damaged else false;
      var hereOperational := conditions[i] == Operational;
      var transition := prevDamaged && hereOperational;
      var nextj := if transition then j + 1 else j;
      assert options[..k + 1][..k] == options[..k];
      if j < groups.Length {
        groups[j] := if conditions[i] == Damaged then saveGroup - 1 else saveGroup;
      } else if conditions[i] == Damaged {
        continue;
      }
      var sub := Count(conditions, i + 1, groups, nextj);
      total := total + sub;
      conditions[i] := saveCondition;
      if j < groups.Length {
        groups[j] := saveGroup;
      }
      assert groups[..] == gs;
    }
    assert options[..|options|] == options;
    assert conditions[..] == cs;
  }

  /** An unknown spring counts the arrangements with it damaged plus those with it operational. */
  lemma UnknownSplits(cs: seq<Condition>, i: nat, gs: seq<int>, j: nat)
    requires i < |cs| && cs[i] == Unknown
    ensures Arrangements(cs, i, gs, j) ==
      Arrangements(cs[i := Damaged], i, gs, j) + Arrangements(cs[i := Operational], i, gs, j)
  {
    if i < |cs| && !AnyNegative(gs) && j <= |gs| {
      var options := [Damaged, Operational];
      assert Known(cs[i]) == options;
      assert Branches(cs, i, gs, j, options[..1]) == Choice(cs, i, gs, j, Damaged) by {
        assert options[..1] == [Damaged] && options[..1][..0] == [];
      }
      assert Arrangements(cs, i, gs, j) == Branches(cs, i, gs, j, options[..1]) + Choice(cs, i, gs, j, Operational);
      OneChoice(cs[i := Damaged], i, gs, j);
      OneChoice(cs[i := Operational], i, gs, j);
      ChoiceIgnoresSpring(cs, i, gs, j, Damaged, Damaged);
      ChoiceIgnoresSpring(cs, i, gs, j, Operational, Operational);
    }
  }

  /** A known spring has one choice, itself. */
  lemma OneChoice(cs: seq<Condition>, i: nat, gs: seq<int>, j: nat)
    requires i < |cs| && cs[i] != Unknown && !AnyNegative(gs) && j <= |gs|
    ensures Arrangements(cs, i, gs, j) == Choice(cs, i, gs, j, cs[i])
  {
    assert Known(cs[i]) == [cs[i]];
    assert [cs[i]][..0] == [];
    assert Arrangements(cs, i, gs, j) == Branches(cs, i, gs, j, [cs[i]]);
    assert Branches(cs, i, gs, j, [cs[i]]) == Branches(cs, i, gs, j, []) + Choice(cs, i, gs, j, cs[i]);
  }

  /** A choice for spring `i` does not depend on what spring `i` held before. */
  lemma ChoiceIgnoresSpring(cs: seq<Condition>, i: nat, gs: seq<int>, j: nat, c: Condition, x: Condition)
    requires i < |cs|
    ensures Choice(cs[i := x], i, gs, j, c) == Choice(cs, i, gs, j, c)
  {
    assert cs[i := x][i := c] == cs[i := c];
  }

  /** The number of unknown springs from `i` on. */
  function Unknowns(cs: seq<Condition>, i: nat): nat
    decreases |cs| - i
  {
    if i >= |cs| then 0 else (if cs[i] == Unknown then 1 else 0) + Unknowns(cs, i + 1)
  }

  function Pow2(n: nat): (r: nat)
    ensures r >= 1
  {
    if n == 0 then 1 else 2 * Pow2(n - 1)
  }

  /** Choosing spring `i` leaves the unknowns after it as they were. */
  lemma {:induction false} UnknownsAfter(cs: seq<Condition>, i: nat, c: Condition, k: nat)
    requires i < |cs| && i < k
    ensures Unknowns(cs[i := c], k) == Unknowns(cs, k)
    decreases |cs| - k
  {
    if k < |cs| {
      UnknownsAfter(cs, i, c, k + 1);
    }
  }

  /**
   * Each unknown spring at most doubles the count, so a row with no unknown spring left
   * has at most one arrangement.
   */
  lemma {:induction false} AtMostPow2(cs: seq<Condition>, i: nat, gs: seq<int>, j: nat)
    ensures Arrangements(cs, i, gs, j) <= Pow2(Unknowns(cs, i))
    decreases |cs| - i, 1
  {
    if i < |cs| && !AnyNegative(gs) && j <= |gs| {
      if cs[i] == Unknown {
        UnknownSplits(cs, i, gs, j);
        KnownChoice(cs[i := Damaged], i, gs, j);
        KnownChoice(cs[i := Operational], i, gs, j);
        UnknownsAfter(cs, i, Damaged, i + 1);
        UnknownsAfter(cs, i, Operational, i + 1);
      } else {
        KnownChoice(cs, i, gs, j);
      }
    }
  }

  /** A known spring `i`: the count is that of its one choice, bounded by the unknowns after it. */
  lemma {:induction false} KnownChoice(cs: seq<Condition>, i: nat, gs: seq<int>, j: nat)
    requires i < |cs| && cs[i] != Unknown && !AnyNegative(gs) && j <= |gs|
    ensures Arrangements(cs, i, gs, j) <= Pow2(Unknowns(cs, i + 1))
    decreases |cs| - i, 0
  {
    OneChoice(cs, i, gs, j);
    var c := cs[i];
    var cs' := cs[i := c];
    assert cs' == cs;
    var transition := i > 0 && cs'[i - 1] == Damaged && c == Operational;
    var nextj := if transition then j + 1 else j;
    if j < |gs| {
      AtMostPow2(cs', i + 1, gs[j := if c == Damaged then gs[j] - 1 else gs[j]], nextj);
    } else if c != Damaged {
      AtMostPow2(cs', i + 1, gs, nextj);
    }
  }

  /** A row with no unknown spring left has at most one arrangement. */
  lemma NoUnknownAtMostOne(cs: seq<Condition>, i: nat, gs: seq<int>, j: nat)
    requires Unknowns(cs, i) == 0
    ensures Arrangements(cs, i, gs, j) <= 1
  {
    AtMostPow2(cs, i, gs, j);
  }

  // The arrangements `count` counts, defined without the search: the ways to fill in the
  // unknown springs, and the lengths of the damaged runs a filled-in row shows.

  /** `f` fills in `cs`: same length, no unknown spring, and every known spring kept. */
  predicate Filling(cs: seq<Condition>, f: seq<Condition>) {
    |f| == |cs| &&
    forall k :: 0 <= k < |f| ==> f[k] != Unknown && (cs[k] != Unknown ==> f[k] == cs[k])
  }

  /** `t` keeps the springs of `cs` before `i` and fills in those from `i` on. */
  predicate FillsFrom(cs: seq<Condition>, i: nat, t: seq<Condition>) {
    |t| == |cs| && i <= |cs| &&
    (forall k :: 0 <= k < i ==> t[k] == cs[k]) &&
    forall k :: i <= k < |t| ==> t[k] != Unknown && (cs[k] != Unknown ==> t[k] == cs[k])
  }

  /** The lengths of the maximal runs of damaged springs, left to right. */
  function Runs(s: seq<Condition>): (r: seq<int>)
    ensures |s| > 0 && s[0] == Damaged ==> |r| > 0 && r[0] >= 1
  {
    if s == [] then []
    else
      var rest := Runs(s[1..]);
      if s[0] != Damaged then rest
      else if |s| > 1 && s[1] == Damaged then [rest[0] + 1] + rest[1..]
      else [1] + rest
  }

  /** Every run holds at least one damaged spring. */
  lemma {:induction false} RunsPositive(s: seq<Condition>)
    ensures forall k :: 0 <= k < |Runs(s)| ==> Runs(s)[k] >= 1
  {
    if s != [] {
      RunsPositive(s[1..]);
    }
  }

  /** `#.##` has a run of one damaged spring, then a run of two. */
  lemma RunsExample()
    ensures Runs([Damaged, Operational, Damaged, Damaged]) == [1, 2]
  {
    var s := [Damaged, Operational, Damaged, Damaged];
    assert s[1..] == [Operational, Damaged, Damaged];
    assert s[1..][1..] == [Damaged, Damaged];
    assert s[1..][1..][1..] == [Damaged];
    assert s[1..][1..][1..][1..] == [];
  }

  /**
   * The groups are the runs' lengths in order, followed by nothing but groups of size 0
   * (which `count` accepts because it only checks that every group was used up).
   */
  predicate Matches(runs: seq<int>, gs: seq<int>) {
    |runs| <= |gs| && gs[..|runs|] == runs && forall k :: |runs| <= k < |gs| ==> gs[k] == 0
  }

  /** For positive groups, as the puzzle's are, matching is equality with the runs. */
  lemma PositiveGroups(runs: seq<int>, gs: seq<int>)
    requires forall k :: 0 <= k < |gs| ==> gs[k] > 0
    ensures Matches(runs, gs) <==> runs == gs
  {
    if |runs| < |gs| {
      assert gs[|runs|] > 0;
    } else {
      assert gs[..|gs|] == gs;
    }
  }

  lemma MatchesCons(a: int, x: seq<int>, y: int, z: seq<int>)
    ensures Matches([a] + x, [y] + z) <==> a == y && Matches(x, z)
  {
    var s, t := [a] + x, [y] + z;
    if |x| <= |z| {
      assert t[..|s|] == [y] + z[..|x|];
      if t[..|s|] == s {
        assert s[1..] == x && t[..|s|][1..] == z[..|x|];
      }
    }
    if Matches(s, t) {
      forall k | |x| <= k < |z|
        ensures z[k] == 0
      {
        assert t[k + 1] == z[k];
      }
    }
    if a == y && Matches(x, z) {
      forall k | |s| <= k < |t|
        ensures t[k] == 0
      {
        assert t[k] == z[k - 1];
      }
    }
  }

  /** Each way to fill in the springs from `i` on, trying `Known` in order as `count` does. */
  function Completions(cs: seq<Condition>, i: nat): seq<seq<Condition>>
    decreases |cs| - i, 1
  {
    if i >= |cs| then [cs] else CompletionsOf(cs, i, Known(cs[i]))
  }

  function CompletionsOf(cs: seq<Condition>, i: nat, options: seq<Condition>): seq<seq<Condition>>
    requires i < |cs|
    decreases |cs| - i, 0, |options|
  {
    if options == [] then []
    else
      var c := options[|options| - 1];
      CompletionsOf(cs, i, options[..|options| - 1]) + Completions(cs[i := c], i + 1)
  }

  /** The consistent arrangements: the rows of `ts` whose runs match the groups. */
  function Matching(ts: seq<seq<Condition>>, gs: seq<int>): seq<seq<Condition>> {
    if ts == [] then []
    else
      var t := ts[|ts| - 1];
      Matching(ts[..|ts| - 1], gs) + (if Matches(Runs(t), gs) then [t] else [])
  }

  predicate Distinct(s: seq<seq<Condition>>) {
    forall a, b :: 0 <= a < b < |s| ==> s[a] != s[b]
  }

  lemma KnownMembers(x: Condition, c: Condition)
    ensures c in Known(x) <==> c != Unknown && (x != Unknown ==> c == x)
  {
  }

  /** Every row listed keeps the springs before `i` and fills in the rest. */
  lemma {:induction false} CompletionsFill(cs: seq<Condition>, i: nat, t: seq<Condition>)
    requires i <= |cs| && t in Completions(cs, i)
    ensures FillsFrom(cs, i, t)
    decreases |cs| - i, 1
  {
    if i < |cs| {
      CompletionsOfFill(cs, i, Known(cs[i]), t);
    }
  }

  lemma {:induction false} CompletionsOfFill(cs: seq<Condition>, i: nat, options: seq<Condition>, t: seq<Condition>)
    requires i < |cs| && t in CompletionsOf(cs, i, options)
    requires forall k :: 0 <= k < |options| ==> options[k] in Known(cs[i])
    ensures FillsFrom(cs, i, t) && t[i] in options
    decreases |cs| - i, 0, |options|
  {
    var init, c := options[..|options| - 1], options[|options| - 1];
    if t in CompletionsOf(cs, i, init) {
      CompletionsOfFill(cs, i, init, t);
    } else {
      CompletionsFill(cs[i := c], i + 1, t);
      KnownMembers(cs[i], c);
    }
  }

  /** Every filling of the springs from `i` on is listed. */
  lemma {:induction false} CompletionsComplete(cs: seq<Condition>, i: nat, f: seq<Condition>)
    requires FillsFrom(cs, i, f)
    ensures f in Completions(cs, i)
    decreases |cs| - i
  {
    if i == |cs| {
      assert f == cs;
    } else {
      var c := f[i];
      KnownMembers(cs[i], c);
      CompletionsComplete(cs[i := c], i + 1, f);
      InCompletionsOf(cs, i, Known(cs[i]), c, f);
    }
  }

  lemma {:induction false} InCompletionsOf(cs: seq<Condition>, i: nat, options: seq<Condition>, c: Condition, f: seq<Condition>)
    requires i < |cs| && c in options && f in Completions(cs[i := c], i + 1)
    ensures f in CompletionsOf(cs, i, options)
    decreases |options|
  {
    if options[|options| - 1] != c {
      InCompletionsOf(cs, i, options[..|options| - 1], c, f);
    }
  }

  lemma {:induction false} DistinctAppend(a: seq<seq<Condition>>, b: seq<seq<Condition>>)
    requires Distinct(a) && Distinct(b) && forall x :: x in a ==> x !in b
    ensures Distinct(a + b)
  {
    forall p, q | 0 <= p < q < |a + b|
      ensures (a + b)[p] != (a + b)[q]
    {
      if p < |a| && q >= |a| {
        assert (a + b)[p] in a && (a + b)[q] in b;
      }
    }
  }

  /** No row is listed twice. */
  lemma {:induction false} CompletionsDistinct(cs: seq<Condition>, i: nat)
    requires i <= |cs|
    ensures Distinct(Completions(cs, i))
    decreases |cs| - i, 1
  {
    if i < |cs| {
      CompletionsOfDistinct(cs, i, Known(cs[i]));
    }
  }

  lemma {:induction false} CompletionsOfDistinct(cs: seq<Condition>, i: nat, options: seq<Condition>)
    requires i < |cs| && (forall a, b :: 0 <= a < b < |options| ==> options[a] != options[b])
    requires forall k :: 0 <= k < |options| ==> options[k] in Known(cs[i])
    ensures Distinct(CompletionsOf(cs, i, options))
    decreases |cs| - i, 0, |options|
  {
    if options != [] {
      var init, c := options[..|options| - 1], options[|options| - 1];
      var a, b := CompletionsOf(cs, i, init), Completions(cs[i := c], i + 1);
      CompletionsOfDistinct(cs, i, init);
      CompletionsDistinct(cs[i := c], i + 1);
      forall x | x in a
        ensures x !in b
      {
        CompletionsOfFill(cs, i, init, x);
        if x in b {
          CompletionsFill(cs[i := c], i + 1, x);
        }
      }
      DistinctAppend(a, b);
    }
  }

  /** Exactly the fillings of the row are listed, each once. */
  lemma CompletionsExact(cs: seq<Condition>)
    ensures Distinct(Completions(cs, 0))
    ensures forall f :: f in Completions(cs, 0) <==> Filling(cs, f)
  {
    CompletionsDistinct(cs, 0);
    forall f
      ensures f in Completions(cs, 0) <==> Filling(cs, f)
    {
      if f in Completions(cs, 0) {
        CompletionsFill(cs, 0, f);
      }
      if Filling(cs, f) {
        CompletionsComplete(cs, 0, f);
      }
    }
  }

  lemma {:induction false} MatchingMembers(ts: seq<seq<Condition>>, gs: seq<int>)
    ensures forall t :: t in Matching(ts, gs) <==> t in ts && Matches(Runs(t), gs)
  {
    if ts != [] {
      var init := ts[..|ts| - 1];
      MatchingMembers(init, gs);
      assert ts == init + [ts[|ts| - 1]];
    }
  }

  lemma {:induction false} MatchingDistinct(ts: seq<seq<Condition>>, gs: seq<int>)
    requires Distinct(ts)
    ensures Distinct(Matching(ts, gs))
  {
    if ts != [] {
      var init, t := ts[..|ts| - 1], ts[|ts| - 1];
      MatchingDistinct(init, gs);
      MatchingMembers(init, gs);
      assert t !in init;
      DistinctAppend(Matching(init, gs), if Matches(Runs(t), gs) then [t] else []);
    }
  }

  /** The counts of the rows `ts` from the state `(i, gs, j)`, added up. */
  function SumOver(ts: seq<seq<Condition>>, i: nat, gs: seq<int>, j: nat): nat {
    if ts == [] then 0 else SumOver(ts[..|ts| - 1], i, gs, j) + Arrangements(ts[|ts| - 1], i, gs, j)
  }

  lemma {:induction false} SumAppend(a: seq<seq<Condition>>, b: seq<seq<Condition>>, i: nat, gs: seq<int>, j: nat)
    ensures SumOver(a + b, i, gs, j) == SumOver(a, i, gs, j) + SumOver(b, i, gs, j)
    decreases |b|
  {
    if b == [] {
      assert a + b == a;
    } else {
      SumAppend(a, b[..|b| - 1], i, gs, j);
      assert (a + b)[..|a + b| - 1] == a + b[..|b| - 1];
    }
  }

  lemma {:induction false} SumZero(ts: seq<seq<Condition>>, i: nat, gs: seq<int>, j: nat)
    requires forall k :: 0 <= k < |ts| ==> Arrangements(ts[k], i, gs, j) == 0
    ensures SumOver(ts, i, gs, j) == 0
  {
    if ts != [] {
      SumZero(ts[..|ts| - 1], i, gs, j);
    }
  }

  lemma {:induction false} SumShift(ts: seq<seq<Condition>>, i: nat, gs: seq<int>, j: nat, i': nat, gs': seq<int>, j': nat)
    requires forall k :: 0 <= k < |ts| ==> Arrangements(ts[k], i, gs, j) == Arrangements(ts[k], i', gs', j')
    ensures SumOver(ts, i, gs, j) == SumOver(ts, i', gs', j')
  {
    if ts != [] {
      SumShift(ts[..|ts| - 1], i, gs, j, i', gs', j');
    }
  }

  /** The search from `(i, gs, j)` counts, over every filling of the springs from `i` on, the count that filling alone gives. */
  lemma {:induction false} ArrangementsSum(cs: seq<Condition>, i: nat, gs: seq<int>, j: nat)
    requires i <= |cs|
    ensures Arrangements(cs, i, gs, j) == SumOver(Completions(cs, i), i, gs, j)
    decreases |cs| - i, 1
  {
    var ts := Completions(cs, i);
    if i == |cs| {
      assert ts[..0] == [];
    } else if AnyNegative(gs) || j > |gs| {
      forall k | 0 <= k < |ts|
        ensures Arrangements(ts[k], i, gs, j) == 0
      {
        CompletionsFill(cs, i, ts[k]);
      }
      SumZero(ts, i, gs, j);
    } else {
      BranchesSum(cs, i, gs, j, Known(cs[i]));
    }
  }

  lemma {:induction false} BranchesSum(cs: seq<Condition>, i: nat, gs: seq<int>, j: nat, options: seq<Condition>)
    requires i < |cs| && !AnyNegative(gs) && j <= |gs|
    requires forall k :: 0 <= k < |options| ==> options[k] in Known(cs[i])
    ensures Branches(cs, i, gs, j, options) == SumOver(CompletionsOf(cs, i, options), i, gs, j)
    decreases |cs| - i, 0, |options|
  {
    if options != [] {
      var init, c := options[..|options| - 1], options[|options| - 1];
      BranchesSum(cs, i, gs, j, init);
      ChoiceSum(cs, i, gs, j, c);
      SumAppend(CompletionsOf(cs, i, init), Completions(cs[i := c], i + 1), i, gs, j);
    }
  }

  lemma {:induction false} ChoiceSum(cs: seq<Condition>, i: nat, gs: seq<int>, j: nat, c: Condition)
    requires i < |cs| && !AnyNegative(gs) && j <= |gs| && c in Known(cs[i])
    ensures Choice(cs, i, gs, j, c) == SumOver(Completions(cs[i := c], i + 1), i, gs, j)
    decreases |cs| - i, 0, 0
  {
    var cs' := cs[i := c];
    var ts := Completions(cs', i + 1);
    var transition := i > 0 && cs'[i - 1] == Damaged && c == Operational;
    var nextj := if transition then j + 1 else j;
    var gs' := if j < |gs| then gs[j := if c == Damaged then gs[j] - 1 else gs[j]] else gs;
    KnownMembers(cs[i], c);
    forall k | 0 <= k < |ts|
      ensures FillsFrom(cs', i + 1, ts[k])
    {
      CompletionsFill(cs', i + 1, ts[k]);
    }
    forall k | 0 <= k < |ts|
      ensures Arrangements(ts[k], i, gs, j) == Choice(ts[k], i, gs, j, c)
      ensures Choice(ts[k], i, gs, j, c) ==
        if j >= |gs| && c == Damaged then 0 else Arrangements(ts[k], i + 1, gs', nextj)
    {
      var t := ts[k];
      assert t[i] == c;
      OneChoice(t, i, gs, j);
      assert t[i := c] == t;
      assert i > 0 ==> t[i - 1] == cs'[i - 1];
    }
    if j >= |gs| && c == Damaged {
      SumZero(ts, i, gs, j);
    } else {
      ArrangementsSum(cs', i + 1, gs', nextj);
      SumShift(ts, i, gs, j, i + 1, gs', nextj);
    }
  }

  /** A damaged run is open at `i`: the spring before it is damaged. */
  predicate Open(f: seq<Condition>, i: nat) {
    0 < i <= |f| && f[i - 1] == Damaged
  }

  /** The group the next run from `i` uses up: `j`, or `j + 1` when the open run ends at `i`. */
  function NextGroup(f: seq<Condition>, i: nat, j: nat): nat {
    if Open(f, i) && !(i < |f| && f[i] == Damaged) then j + 1 else j
  }

  /**
   * From the state `(i, gs, j)` a filled-in row succeeds: the groups before the next one
   * are used up and the rest match the runs from `i` on.
   */
  predicate Accepts(f: seq<Condition>, i: nat, gs: seq<int>, j: nat)
    requires i <= |f|
  {
    var b := NextGroup(f, i, j);
    b <= |gs| && (forall k :: 0 <= k < b ==> gs[k] == 0) && Matches(Runs(f[i..]), gs[b..])
  }

  /** An accepted state has no group below 0. */
  lemma AcceptsNonNegative(f: seq<Condition>, i: nat, gs: seq<int>, j: nat)
    requires i <= |f|
    ensures Accepts(f, i, gs, j) ==> forall k :: 0 <= k < |gs| ==> gs[k] >= 0
  {
    var b, rest := NextGroup(f, i, j), Runs(f[i..]);
    RunsPositive(f[i..]);
    if Accepts(f, i, gs, j) {
      forall k | 0 <= k < |gs|
        ensures gs[k] >= 0
      {
        if b <= k < b + |rest| {
          assert gs[b..][..|rest|][k - b] == gs[k];
        } else if k >= b {
          assert gs[b..][k - b] == gs[k];
        }
      }
    }
  }

  /** A damaged spring at `i` uses up one spring of group `j`. */
  lemma AcceptsDamaged(f: seq<Condition>, i: nat, gs: seq<int>, j: nat)
    requires i < |f| && f[i] == Damaged && j < |gs|
    ensures Accepts(f, i, gs, j) <==> Accepts(f, i + 1, gs[j := gs[j] - 1], j)
  {
    var gs' := gs[j := gs[j] - 1];
    var rest, rest' := Runs(f[i..]), Runs(f[i + 1..]);
    assert f[i..][1..] == f[i + 1..];
    assert gs[j..] == [gs[j]] + gs[j + 1..];
    assert gs'[j..] == [gs[j] - 1] + gs[j + 1..];
    assert gs'[j + 1..] == gs[j + 1..];
    assert forall k :: 0 <= k < j ==> gs'[k] == gs[k];
    assert NextGroup(f, i, j) == j;
    if i + 1 < |f| && f[i + 1] == Damaged {
      assert NextGroup(f, i + 1, j) == j;
      assert rest == [rest'[0] + 1] + rest'[1..];
      MatchesCons(rest'[0] + 1, rest'[1..], gs[j], gs[j + 1..]);
      assert rest' == [rest'[0]] + rest'[1..];
      MatchesCons(rest'[0], rest'[1..], gs[j] - 1, gs[j + 1..]);
    } else {
      assert rest == [1] + rest';
      assert NextGroup(f, i + 1, j) == j + 1;
      MatchesCons(1, rest', gs[j], gs[j + 1..]);
      if forall k :: 0 <= k < j + 1 ==> gs'[k] == 0 {
        assert gs'[j] == 0;
        forall k | 0 <= k < j
          ensures gs[k] == 0
        {
          assert gs'[k] == 0;
        }
      }
      if (forall k :: 0 <= k < j ==> gs[k] == 0) && gs[j] == 1 {
        forall k | 0 <= k < j + 1
          ensures gs'[k] == 0
        {
          if k < j {
            assert gs'[k] == gs[k];
          }
        }
      }
    }
  }

  /**
   * On a row whose springs from `i` on are all known, the search from a state it can reach
   * finds 1 exactly when the row is accepted.
   */
  lemma {:induction false} Decided(f: seq<Condition>, i: nat, gs: seq<int>, j: nat)
    requires i <= |f| && forall k :: i <= k < |f| ==> f[k] != Unknown
    requires j <= |gs| && (Open(f, i) ==> j < |gs|)
    ensures Arrangements(f, i, gs, j) == if Accepts(f, i, gs, j) then 1 else 0
    decreases |f| - i
  {
    var b := NextGroup(f, i, j);
    if i == |f| {
      assert f[i..] == [];
      assert Accepts(f, i, gs, j) <==> AllZero(gs) by {
        if Accepts(f, i, gs, j) {
          forall k | 0 <= k < |gs|
            ensures gs[k] == 0
          {
            if k >= b {
              assert gs[b..][k - b] == gs[k];
            }
          }
        }
      }
    } else if AnyNegative(gs) {
      AcceptsNonNegative(f, i, gs, j);
    } else {
      OneChoice(f, i, gs, j);
      var c := f[i];
      assert f[i := c] == f;
      if c == Damaged {
        if j < |gs| {
          Decided(f, i + 1, gs[j := gs[j] - 1], j);
          AcceptsDamaged(f, i, gs, j);
        } else {
          assert f[i..][0] == Damaged;
        }
      } else {
        var nextj := if Open(f, i) then j + 1 else j;
        if j < |gs| {
          assert gs[j := gs[j]] == gs;
        }
        Decided(f, i + 1, gs, nextj);
        assert f[i..][1..] == f[i + 1..];
        assert Runs(f[i..]) == Runs(f[i + 1..]);
      }
    }
  }

  /**
   * `count(conditions, 0, groups, 0)` is the number of ways to fill in the unknown springs
   * so that the damaged runs have the groups' lengths: `Matching(Completions(cs, 0), gs)`
   * lists exactly those fillings, each once.
   */
  lemma CountsFillings(cs: seq<Condition>, gs: seq<int>)
    ensures var arrangements := Matching(Completions(cs, 0), gs);
      Arrangements(cs, 0, gs, 0) == |arrangements| && Distinct(arrangements) &&
      forall f :: f in arrangements <==> Filling(cs, f) && Matches(Runs(f), gs)
  {
    var ts := Completions(cs, 0);
    CompletionsExact(cs);
    MatchingMembers(ts, gs);
    MatchingDistinct(ts, gs);
    ArrangementsSum(cs, 0, gs, 0);
    forall k | 0 <= k < |ts|
      ensures Arrangements(ts[k], 0, gs, 0) == if Matches(Runs(ts[k]), gs) then 1 else 0
    {
      assert Filling(cs, ts[k]);
      Decided(ts[k], 0, gs, 0);
      assert ts[k][0..] == ts[k];
    }
    SumMatching(ts, gs);
  }

  lemma {:induction false} SumMatching(ts: seq<seq<Condition>>, gs: seq<int>)
    requires forall k :: 0 <= k < |ts| ==> Arrangements(ts[k], 0, gs, 0) == if Matches(Runs(ts[k]), gs) then 1 else 0
    ensures SumOver(ts, 0, gs, 0) == |Matching(ts, gs)|
  {
    if ts != [] {
      SumMatching(ts[..|ts| - 1], gs);
    }
  }

  /** `n` copies of the row with an unknown spring between each two. */
  function Joined(base: seq<Condition>, n: nat): (r: seq<Condition>)
    requires n >= 1
    ensures |r| == n * (|base| + 1) - 1
  {
    if n == 1 then base else Joined(base, n - 1) + [Unknown] + base
  }

  /** The part-2 row has five times the unknowns of the row, plus the four between the copies. */
  lemma {:induction false} JoinedUnknowns(base: seq<Condition>, n: nat)
    requires n >= 1
    ensures Unknowns(Joined(base, n), 0) == n * Unknowns(base, 0) + n - 1
  {
    if n > 1 {
      JoinedUnknowns(base, n - 1);
      var prefix := Joined(base, n - 1);
      UnknownsConcat(prefix, [Unknown] + base);
      UnknownsConcat([Unknown], base);
      assert prefix + [Unknown] + base == prefix + ([Unknown] + base);
      assert ([Unknown] + base)[1..] == base;
    }
  }

  /** The unknowns of two rows put together add up. */
  lemma {:induction false} UnknownsConcat(a: seq<Condition>, b: seq<Condition>)
    ensures Unknowns(a + b, 0) == Unknowns(a, 0) + Unknowns(b, 0)
  {
    UnknownsShift(a, b, 0);
  }

  lemma {:induction false} UnknownsShift(a: seq<Condition>, b: seq<Condition>, i: nat)
    requires i <= |a|
    ensures Unknowns(a + b, i) == Unknowns(a, i) + Unknowns(b, 0)
    decreases |a| - i
  {
    if i < |a| {
      UnknownsShift(a, b, i + 1);
    } else {
      UnknownsSuffix(a, b, 0);
    }
  }

  lemma {:induction false} UnknownsSuffix(a: seq<Condition>, b: seq<Condition>, k: nat)
    requires k <= |b|
    ensures Unknowns(a + b, |a| + k) == Unknowns(b, k)
    decreases |b| - k
  {
    if k < |b| {
      UnknownsSuffix(a, b, k + 1);
    }
  }

  /** The part-2 row: the row, then four times an unknown spring and the row again. */
  method UnfoldRow(conditions: seq<Condition>) returns (row: seq<Condition>)
    ensures row == Joined(conditions, 5)
  {
    var base := conditions;
    row := conditions;
    for copies := 1 to 5
      invariant row == Joined(base, copies)
    {
      row := row + [Unknown];
      row := row + base;
    }
  }

  /** `counts * 5`: `n` copies of the counts. */
  function Repeat(counts: seq<int>, n: nat): (r: seq<int>)
    ensures |r| == n * |counts|
  {
    if n == 0 then [] else Repeat(counts, n - 1) + counts
  }

  /** The repeated counts start and end with the counts and repeat with their length as period. */
  lemma {:induction false} RepeatPeriodic(counts: seq<int>, n: nat)
    ensures var r := Repeat(counts, n);
      n >= 1 ==> r[..|counts|] == counts && r[|r| - |counts|..] == counts
    ensures var r := Repeat(counts, n);
      forall k :: |counts| <= k < |r| ==> r[k] == r[k - |counts|]
  {
    if n >= 1 {
      RepeatPeriodic(counts, n - 1);
      var prefix := Repeat(counts, n - 1);
      var r := prefix + counts;
      forall k | |counts| <= k < |r|
        ensures r[k] == r[k - |counts|]
      {
        if k >= |prefix| {
          assert prefix[|prefix| - |counts|..][k - |prefix|] == prefix[k - |counts|];
        }
      }
    }
  }
}
