/**
 * The part-sorting workflow engine: each workflow is a list of rules, a rule sends a part on
 * to another workflow when its comparison holds (or always, when it has none), and a part is
 * accepted when its route from `in` ends at `A`.
 */
module Workflows {
  import opened Wrappers

  const In := "in"
  const Accept := "A"
  const Reject := "R"
  const Greater := ">"
  const Less := "<"

  const KeyError := "KeyError"
  const ValueError := "ValueError: unknown operator"
  /** The outcome of a run still going when its passes run out; the source would loop on. */
  const Unfinished := "no verdict within the fuel"

  /** `x>1716`: a property, an operator and a threshold. The grammar only yields `>` and `<`. */
  datatype Comparison = Comparison(property: string, operator: string, value: nat)

  /** A target workflow, guarded by a comparison or not. */
  datatype Rule = Rule(workflow: string, comparison: Option<Comparison>)

  datatype Workflow = Workflow(name: string, rules: seq<Rule>)

  datatype Rating = Rating(property: string, value: nat)

  datatype Part = Part(ratings: seq<Rating>)

  /** The engine's dictionary from workflow name to workflow. */
  datatype Engine = Engine(workflows: map<string, Workflow>)

  // ---- the engine's dictionary ----

  /** `{workflow.name: workflow for workflow in workflows}`. */
  function Index(ws: seq<Workflow>): map<string, Workflow> {
    if ws == [] then map[] else Index(ws[..|ws| - 1])[ws[|ws| - 1].name := ws[|ws| - 1]]
  }

  /** Every workflow's name is a key, and nothing else is. */
  lemma {:induction false} IndexKeys(ws: seq<Workflow>)
    ensures Index(ws).Keys == set i | 0 <= i < |ws| :: ws[i].name
  {
    if ws != [] {
      var front := ws[..|ws| - 1];
      IndexKeys(front);
      assert (set i | 0 <= i < |ws| :: ws[i].name) == (set i | 0 <= i < |front| :: front[i].name) + {ws[|ws| - 1].name} by {
        forall i | 0 <= i < |front|
          ensures front[i].name == ws[i].name
        {
        }
      }
    }
  }

  /** A name maps to its last definition: a later duplicate overrides an earlier one. */
  lemma {:induction false} IndexLast(ws: seq<Workflow>, i: nat)
    requires i < |ws|
    requires forall j :: i < j < |ws| ==> ws[j].name != ws[i].name
    ensures ws[i].name in Index(ws) && Index(ws)[ws[i].name] == ws[i]
  {
    if i < |ws| - 1 {
      var front := ws[..|ws| - 1];
      IndexLast(front, i);
    }
  }

  function NewEngine(ws: seq<Workflow>): Engine {
    Engine(Index(ws))
  }

  /** A later workflow of the same name replaces an earlier one. */
  lemma LaterDefinitionWins(ws: seq<Workflow>, w: Workflow, v: Workflow)
    requires w.name == v.name
    ensures NewEngine(ws + [w, v]).workflows[w.name] == v
  {
    var all := ws + [w, v];
    assert all[|all| - 1] == v;
  }

  // ---- process_comparison ----

  /** The verdict of a comparison on the value of the rating it looks at. */
  function Verdict(value: nat, c: Comparison): Result<bool> {
    if c.operator == Greater then Success(value > c.value)
    else if c.operator == Less then Success(value < c.value)
    else Failure(ValueError)
  }

  /** `ratings[i]` is the first rating of `property`. */
  predicate FirstOf(ratings: seq<Rating>, property: string, i: int) {
    0 <= i < |ratings| && ratings[i].property == property
    && forall j :: 0 <= j < i ==> ratings[j].property != property
  }

  /**
   * `process_comparison`: the verdict on the first rating of the comparison's property, and
   * False when the part has no rating of it.
   */
  function Compare(ratings: seq<Rating>, c: Comparison): Result<bool> {
    if ratings == [] then Success(false)
    else if ratings[0].property == c.property then Verdict(ratings[0].value, c)
    else Compare(ratings[1..], c)
  }

  /**
   * `process_comparison` decides on the first rating of the comparison's property, and says
   * False when the part has no rating of it.
   */
  lemma {:induction false} CompareFirst(ratings: seq<Rating>, c: Comparison)
    ensures forall i :: FirstOf(ratings, c.property, i) ==> Compare(ratings, c) == Verdict(ratings[i].value, c)
    ensures (forall i :: 0 <= i < |ratings| ==> ratings[i].property != c.property) ==> Compare(ratings, c) == Success(false)
  {
    if ratings != [] && ratings[0].property != c.property {
      CompareFirst(ratings[1..], c);
      assert forall i :: FirstOf(ratings, c.property, i) ==> i > 0 && FirstOf(ratings[1..], c.property, i - 1);
      assert (forall i :: 0 <= i < |ratings| ==> ratings[i].property != c.property)
             ==> (forall i :: 0 <= i < |ratings[1..]| ==> ratings[1..][i].property != c.property);
    }
  }

  /** The loop of `process_comparison`, returning at the first rating of the property. */
  method ProcessComparison(part: Part, c: Comparison) returns (r: Result<bool>)
    ensures r == Compare(part.ratings, c)
  {
    var ratings := part.ratings;
    for i := 0 to |ratings|
      invariant Compare(ratings, c) == Compare(ratings[i..], c)
    {
      if ratings[i].property == c.property {
        return Verdict(ratings[i].value, c);
      }
      assert ratings[i..][1..] == ratings[i + 1..];
    }
    return Success(false);
  }

  // ---- process_workflow ----

  /** Whether a rule fires on a part: always without a comparison, else by the comparison. */
  function Fires(part: Part, rule: Rule): Result<bool> {
    match rule.comparison
    case None => Success(true)
    case Some(c) => Compare(part.ratings, c)
  }

  /** No rule before index `i` fires. */
  predicate PassedBy(part: Part, rules: seq<Rule>, i: int)
    requires 0 <= i <= |rules|
  {
    forall j :: 0 <= j < i ==> Fires(part, rules[j]) == Success(false)
  }

  /**
   * The loop of `process_workflow` over a rule list: the target of the first rule that fires,
   * `R` when none does, and the comparison's error when one raises before any fires.
   */
  function Route(part: Part, rules: seq<Rule>): Result<string> {
    if rules == [] then Success(Reject)
    else
      match Fires(part, rules[0])
      case Failure(e) => Failure(e)
      case Success(true) => Success(rules[0].workflow)
      case Success(false) => Route(part, rules[1..])
  }

  /**
   * A workflow sends the part to the target of the first rule that fires, to `R` when none
   * does, and raises the comparison's error when one raises before any rule fires.
   */
  lemma {:induction false} RouteFirstFiring(part: Part, rules: seq<Rule>)
    ensures forall i :: 0 <= i < |rules| && PassedBy(part, rules, i) && Fires(part, rules[i]) == Success(true)
                        ==> Route(part, rules) == Success(rules[i].workflow)
    ensures forall i :: 0 <= i < |rules| && PassedBy(part, rules, i) && Fires(part, rules[i]).Failure?
                        ==> Route(part, rules) == Failure(Fires(part, rules[i]).error)
    ensures PassedBy(part, rules, |rules|) ==> Route(part, rules) == Success(Reject)
  {
    if rules != [] && Fires(part, rules[0]) == Success(false) {
      RouteFirstFiring(part, rules[1..]);
      forall i | 0 < i <= |rules| && PassedBy(part, rules, i)
        ensures PassedBy(part, rules[1..], i - 1)
      {
        forall j | 0 <= j < i - 1
          ensures Fires(part, rules[1..][j]) == Success(false)
        {
          assert rules[1..][j] == rules[j + 1];
        }
      }
    }
  }

  /** Some rule of the list, or `R`: the only names a workflow can send a part to. */
  lemma RouteTargets(part: Part, rules: seq<Rule>)
    requires Route(part, rules).Success?
    ensures Route(part, rules).value == Reject
            || exists i :: 0 <= i < |rules| && rules[i].workflow == Route(part, rules).value
  {
    if rules != [] && Fires(part, rules[0]) == Success(false) {
      RouteTargets(part, rules[1..]);
      if Route(part, rules[1..]).value != Reject {
        var i :| 0 <= i < |rules[1..]| && rules[1..][i].workflow == Route(part, rules).value;
        assert rules[i + 1].workflow == Route(part, rules).value;
      }
    }
  }

  /** `process_workflow`: the named workflow's route, and a KeyError for an unknown name. */
  function Process(e: Engine, part: Part, name: string): Result<string> {
    if name !in e.workflows then Failure(KeyError) else Route(part, e.workflows[name].rules)
  }

  /** `process_workflow` as the source writes it: a loop over the rules with early returns. */
  method ProcessWorkflow(e: Engine, part: Part, name: string) returns (r: Result<string>)
    ensures r == Process(e, part, name)
  {
    if name !in e.workflows {
      return Failure(KeyError);
    }
    var rules := e.workflows[name].rules;
    for i := 0 to |rules|
      invariant Route(part, rules) == Route(part, rules[i..])
    {
      var rule := rules[i];
      assert rules[i..][1..] == rules[i + 1..];
      if rule.comparison.None? {
        return Success(rule.workflow);
      }
      var holds := ProcessComparison(part, rule.comparison.value);
      if holds.Failure? {
        return Failure(holds.error);
      }
      if holds.value {
        return Success(rule.workflow);
      }
    }
    return Success(Reject);
  }

  // ---- accept ----

  /** Where a part's run stands: decided, stopped by an exception, or still at a workflow. */
  datatype Run = Decided(accepted: bool) | Raised(error: string) | At(workflow: string)

  predicate Terminal(name: string) {
    name == Accept || name == Reject
  }

  /**
   * The `accept` loop from workflow `name`, allowed at most `fuel` passes: it stops at `A` or
   * `R`, or when a pass raises, and is still `At` a workflow when the passes run out.
   */
  function Steps(e: Engine, part: Part, name: string, fuel: nat): Run
    decreases fuel
  {
    if Terminal(name) then Decided(name == Accept)
    else if fuel == 0 then At(name)
    else
      match Process(e, part, name)
      case Failure(err) => Raised(err)
      case Success(next) => Steps(e, part, next, fuel - 1)
  }

  /** More passes never change a run that has already ended. */
  lemma {:induction false} StepsSettled(e: Engine, part: Part, name: string, fuel: nat, more: nat)
    requires !Steps(e, part, name, fuel).At?
    requires fuel <= more
    ensures Steps(e, part, name, more) == Steps(e, part, name, fuel)
    decreases fuel
  {
    if !Terminal(name) && fuel > 0 {
      match Process(e, part, name)
      case Failure(_) =>
      case Success(next) => StepsSettled(e, part, next, fuel - 1, more - 1);
    }
  }

  /** A workflow that sends the part back to itself keeps the loop going forever. */
  lemma {:induction false} SelfRouteNeverEnds(e: Engine, part: Part, name: string, fuel: nat)
    requires !Terminal(name) && Process(e, part, name) == Success(name)
    ensures Steps(e, part, name, fuel) == At(name)
    decreases fuel
  {
    if fuel > 0 {
      SelfRouteNeverEnds(e, part, name, fuel - 1);
    }
  }

  /** A part whose route reaches an unknown workflow name raises a KeyError. */
  lemma UnknownWorkflowRaises(e: Engine, part: Part, name: string, fuel: nat)
    requires !Terminal(name) && name !in e.workflows && fuel > 0
    ensures Steps(e, part, name, fuel) == Raised(KeyError)
  {
  }

  /** `accept`: start at `in` and process workflows until the name is `A` or `R`. */
  method AcceptPart(e: Engine, part: Part, fuel: nat) returns (r: Run)
    ensures r == Steps(e, part, In, fuel)
  {
    var workflow := In;
    var left := fuel;
    while !Terminal(workflow) && left > 0
      invariant Steps(e, part, In, fuel) == Steps(e, part, workflow, left)
      decreases left
    {
      var next := ProcessWorkflow(e, part, workflow);
      if next.Failure? {
        return Raised(next.error);
      }
      workflow := next.value;
      left := left - 1;
    }
    if Terminal(workflow) {
      return Decided(workflow == Accept);
    }
    return At(workflow);
  }

  // ---- the part-1 total ----

  /** The sum of a part's rating values. */
  function RatingSum(ratings: seq<Rating>): nat {
    if ratings == [] then 0 else RatingSum(ratings[..|ratings| - 1]) + ratings[|ratings| - 1].value
  }

  /** Every run of the first `n` parts ends within the fuel without raising. */
  predicate AllDecided(e: Engine, parts: seq<Part>, fuel: nat, n: nat)
    requires n <= |parts|
  {
    forall i :: 0 <= i < n ==> Steps(e, parts[i], In, fuel).Decided?
  }

  /** The sum of all rating values of every part, accepted or not. */
  function AllRatings(parts: seq<Part>): nat {
    if parts == [] then 0 else AllRatings(parts[..|parts| - 1]) + RatingSum(parts[|parts| - 1].ratings)
  }

  /**
   * The part-1 answer over the first `n` parts: the rating sums of the accepted ones. The
   * first run that raises (or runs out of fuel) decides the outcome instead.
   */
  function AcceptedTotal(e: Engine, parts: seq<Part>, fuel: nat, n: nat): Result<nat>
    requires n <= |parts|
  {
    if n == 0 then Success(0)
    else
      var before := AcceptedTotal(e, parts, fuel, n - 1);
      if before.Failure? then before
      else
        match Steps(e, parts[n - 1], In, fuel)
        case Raised(err) => Failure(err)
        case At(_) => Failure(Unfinished)
        case Decided(accepted) => Success(before.value + if accepted then RatingSum(parts[n - 1].ratings) else 0)
  }

  /**
   * The total exists exactly when every run ends with a verdict, and it is at most the sum of
   * all ratings.
   */
  lemma {:induction false} TotalDefined(e: Engine, parts: seq<Part>, fuel: nat, n: nat)
    requires n <= |parts|
    ensures AcceptedTotal(e, parts, fuel, n).Success? <==> AllDecided(e, parts, fuel, n)
    ensures AcceptedTotal(e, parts, fuel, n).Success? ==> AcceptedTotal(e, parts, fuel, n).value <= AllRatings(parts[..n])
  {
    if n > 0 {
      TotalDefined(e, parts, fuel, n - 1);
      assert parts[..n][..n - 1] == parts[..n - 1];
    }
  }

  /** The first part whose run fails decides the outcome: later parts are never looked at. */
  lemma {:induction false} FailureSticks(e: Engine, parts: seq<Part>, fuel: nat, n: nat, m: nat)
    requires n <= m <= |parts|
    requires AcceptedTotal(e, parts, fuel, n).Failure?
    ensures AcceptedTotal(e, parts, fuel, m) == AcceptedTotal(e, parts, fuel, n)
    decreases m
  {
    if n < m {
      FailureSticks(e, parts, fuel, n, m - 1);
    }
  }

  /** Rejected parts add nothing: with every part rejected the total is zero. */
  lemma {:induction false} AllRejectedTotal(e: Engine, parts: seq<Part>, fuel: nat, n: nat)
    requires n <= |parts|
    requires forall i :: 0 <= i < n ==> Steps(e, parts[i], In, fuel) == Decided(false)
    ensures AcceptedTotal(e, parts, fuel, n) == Success(0)
  {
    if n > 0 {
      AllRejectedTotal(e, parts, fuel, n - 1);
    }
  }

  /** With every part accepted the total is the sum of all their ratings. */
  lemma {:induction false} AllAcceptedTotal(e: Engine, parts: seq<Part>, fuel: nat, n: nat)
    requires n <= |parts|
    requires forall i :: 0 <= i < n ==> Steps(e, parts[i], In, fuel) == Decided(true)
    ensures AcceptedTotal(e, parts, fuel, n) == Success(AllRatings(parts[..n]))
  {
    if n > 0 {
      AllAcceptedTotal(e, parts, fuel, n - 1);
      assert parts[..n][..n - 1] == parts[..n - 1];
    }
  }

  /** One more decided part adds its rating sum when accepted and nothing when rejected. */
  lemma TotalStep(e: Engine, parts: seq<Part>, fuel: nat, n: nat, total: nat, accepted: bool)
    requires n < |parts|
    requires AcceptedTotal(e, parts, fuel, n) == Success(total)
    requires Steps(e, parts[n], In, fuel) == Decided(accepted)
    ensures AcceptedTotal(e, parts, fuel, n + 1) == Success(total + if accepted then RatingSum(parts[n].ratings) else 0)
  {
  }

  /** The loop summing one part's ratings. */
  method SumRatings(part: Part) returns (sum: nat)
    ensures sum == RatingSum(part.ratings)
  {
    sum := 0;
    for i := 0 to |part.ratings|
      invariant sum == RatingSum(part.ratings[..i])
    {
      assert part.ratings[..i + 1][..i] == part.ratings[..i];
      sum := sum + part.ratings[i].value;
    }
    assert part.ratings[..|part.ratings|] == part.ratings;
  }

  /** One pass of the part-1 loop: run the part through the engine and add its ratings if accepted. */
  method Tally(e: Engine, parts: seq<Part>, fuel: nat, i: nat, total: nat) returns (r: Result<nat>)
    requires i < |parts|
    requires AcceptedTotal(e, parts, fuel, i) == Success(total)
    ensures r == AcceptedTotal(e, parts, fuel, i + 1)
  {
    var run := AcceptPart(e, parts[i], fuel);
    if run.Raised? {
      return Failure(run.error);
    }
    if run.At? {
      return Failure(Unfinished);
    }
    TotalStep(e, parts, fuel, i, total, run.accepted);
    if run.accepted {
      var sum := SumRatings(parts[i]);
      return Success(total + sum);
    }
    return Success(total);
  }

  /** Part 1: build the engine, keep the accepted parts and sum their ratings. */
  method Part1(ws: seq<Workflow>, parts: seq<Part>, fuel: nat) returns (r: Result<nat>)
    ensures r == AcceptedTotal(NewEngine(ws), parts, fuel, |parts|)
  {
    var e := NewEngine(ws);
    var total := 0;
    for i := 0 to |parts|
      invariant AcceptedTotal(e, parts, fuel, i) == Success(total)
    {
      var next := Tally(e, parts, fuel, i, total);
      if next.Failure? {
        FailureSticks(e, parts, fuel, i + 1, |parts|);
        return next;
      }
      total := next.value;
    }
    r := Success(total);
  }
}
