/** Building a sequence by applying a failing step to each element in turn. */
module Sequences {
  import opened Wrappers

  /**
   * `f` applied to every element of `xs`, left to right, collecting the
   * results; the first element whose step fails stops the whole traversal.
   */
  function MapAll<A, B, E>(xs: seq<A>, f: A -> Result<B, E>): Result<seq<B>, E>
    decreases |xs|
  {
    if xs == [] then Success([])
    else
      match MapAll(xs[..|xs| - 1], f)
      case Failure(e) => Failure(e)
      case Success(front) =>
        match f(xs[|xs| - 1])
        case Failure(e) => Failure(e)
        case Success(y) => Success(front + [y])
  }

  /**
   * The traversal succeeds exactly when every step does, and then holds one
   * result per element, in element order; otherwise it fails with the error
   * of the first failing element.
   */
  lemma {:induction false} MapAllSpec<A, B, E>(xs: seq<A>, f: A -> Result<B, E>)
    ensures var r := MapAll(xs, f);
      && (r.Success? <==> forall i | 0 <= i < |xs| :: f(xs[i]).Success?)
      && (r.Success? ==>
            |r.value| == |xs| && forall i | 0 <= i < |xs| :: f(xs[i]) == Success(r.value[i]))
      && (r.Failure? ==>
            exists k | 0 <= k < |xs| ::
              f(xs[k]) == Failure(r.error) && forall i | 0 <= i < k :: f(xs[i]).Success?)
  {
    if xs != [] {
      var front := xs[..|xs| - 1];
      MapAllSpec(front, f);
      assert forall i | 0 <= i < |front| :: front[i] == xs[i];
      var r := MapAll(xs, f);
      if MapAll(front, f).Failure? {
        var k :| 0 <= k < |front| && f(front[k]) == Failure(r.error)
          && forall i | 0 <= i < k :: f(front[i]).Success?;
        assert f(xs[k]) == Failure(r.error);
      }
    }
  }

  /** One more element: its step's result extends a successful traversal of the ones before it. */
  lemma MapAllExtend<A, B, E>(xs: seq<A>, i: nat, f: A -> Result<B, E>, front: seq<B>)
    requires i < |xs| && MapAll(xs[..i], f) == Success(front)
    ensures f(xs[i]).Success? ==> MapAll(xs[..i + 1], f) == Success(front + [f(xs[i]).value])
    ensures f(xs[i]).Failure? ==> MapAll(xs, f) == Failure(f(xs[i]).error)
  {
    assert xs[..i + 1][..i] == xs[..i];
    if f(xs[i]).Failure? {
      MapAllPrefixFails(xs, i + 1, f);
    }
  }

  /** Once a prefix of the elements fails, the rest of them change nothing. */
  lemma {:induction false} MapAllPrefixFails<A, B, E>(xs: seq<A>, k: nat, f: A -> Result<B, E>)
    requires k <= |xs|
    requires MapAll(xs[..k], f).Failure?
    ensures MapAll(xs, f) == MapAll(xs[..k], f)
    decreases |xs| - k
  {
    if k < |xs| {
      assert xs[..k + 1][..k] == xs[..k];
      MapAllPrefixFails(xs, k + 1, f);
    } else {
      assert xs[..k] == xs;
    }
  }
}
