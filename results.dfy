/**
 * `[f(x) for x in xs]` where `f` may raise: the list of results, or the error of the
 * first element that fails, as Python reports it.
 */
module Results {
  import opened Wrappers

  function MapAll<A, B>(f: A -> Result<B>, xs: seq<A>): (r: Result<seq<B>>)
    ensures r.Success? ==> |r.value| == |xs|
    decreases |xs|
  {
    if xs == [] then Success([])
    else
      match (MapAll(f, xs[..|xs| - 1]), f(xs[|xs| - 1]))
      case (Success(init), Success(last)) => Success(init + [last])
      case (Failure(e), _) => Failure(e)
      case (_, Failure(e)) => Failure(e)
  }

  /** The list is made exactly when every element succeeds, and holds their results in order. */
  lemma {:induction false} MapAllSuccess<A, B>(f: A -> Result<B>, xs: seq<A>)
    ensures MapAll(f, xs).Success? <==> forall i :: 0 <= i < |xs| ==> f(xs[i]).Success?
    ensures MapAll(f, xs).Success? ==> forall i :: 0 <= i < |xs| ==> f(xs[i]) == Success(MapAll(f, xs).value[i])
    decreases |xs|
  {
    if xs != [] {
      var init := xs[..|xs| - 1];
      MapAllSuccess(f, init);
      assert forall i :: 0 <= i < |init| ==> init[i] == xs[i];
    }
  }

  /** Elements whose results are known give exactly those results. */
  lemma {:induction false} MapAllOf<A, B>(f: A -> Result<B>, xs: seq<A>, ys: seq<B>)
    requires |xs| == |ys| && forall i :: 0 <= i < |xs| ==> f(xs[i]) == Success(ys[i])
    ensures MapAll(f, xs) == Success(ys)
    decreases |xs|
  {
    var n := |xs|;
    if n > 0 {
      MapAllOf(f, xs[..n - 1], ys[..n - 1]);
      assert f(xs[n - 1]) == Success(ys[n - 1]);
      assert ys[..n - 1] + [ys[n - 1]] == ys;
    }
  }

  /** One more successful element appends its result. */
  lemma MapAllStep<A, B>(f: A -> Result<B>, xs: seq<A>, k: nat, ys: seq<B>)
    requires k < |xs| && MapAll(f, xs[..k]) == Success(ys) && f(xs[k]).Success?
    ensures MapAll(f, xs[..k + 1]) == Success(ys + [f(xs[k]).value])
  {
    assert xs[..k + 1][..k] == xs[..k];
  }

  /** After successes, the first element that fails gives its error to the whole list. */
  lemma {:induction false} MapAllFail<A, B>(f: A -> Result<B>, xs: seq<A>, k: nat, n: nat)
    requires k < n <= |xs| && MapAll(f, xs[..k]).Success? && f(xs[k]).Failure?
    ensures MapAll(f, xs[..n]) == Failure(f(xs[k]).error)
    decreases n
  {
    assert xs[..n][..n - 1] == xs[..n - 1];
    if n > k + 1 {
      MapAllFail(f, xs, k, n - 1);
    }
  }
}
