/**
 * Collecting the present results of a partial function over a sequence, in
 * order. The reconciler uses it for "the changes of a table"; the lemmas
 * here are about any such function and never look inside it.
 */
module Sequences {
  import opened Wrappers

  /** The present results of `f` over `xs`, in the order of `xs`. */
  function Collect<T, U>(f: T -> Option<U>, xs: seq<T>): seq<U>
    decreases |xs|
  {
    if xs == [] then []
    else Collect(f, xs[..|xs| - 1]) + Present(f(xs[|xs| - 1]))
  }

  /** A present result as a one-element sequence, an absent one as the empty sequence. */
  function Present<U>(o: Option<U>): seq<U> {
    if o.Some? then [o.value] else []
  }

  /** One more element adds its result, if present, at the end. */
  lemma CollectStep<T, U>(f: T -> Option<U>, xs: seq<T>, n: nat)
    requires n < |xs|
    ensures Collect(f, xs[..n + 1]) == Collect(f, xs[..n]) + Present(f(xs[n]))
  {
    assert xs[..n + 1][..n] == xs[..n];
  }

  /** An element is collected exactly when some input yields it. */
  lemma {:induction false} CollectMembership<T, U>(f: T -> Option<U>, xs: seq<T>, u: U)
    ensures u in Collect(f, xs) <==> exists j :: 0 <= j < |xs| && f(xs[j]) == Some(u)
    decreases |xs|
  {
    if xs != [] {
      var init := xs[..|xs| - 1];
      CollectMembership(f, init, u);
      if u in Collect(f, xs) && u !in Collect(f, init) {
        assert f(xs[|xs| - 1]) == Some(u);
      }
      if j :| 0 <= j < |init| && f(init[j]) == Some(u) {
        assert xs[j] == init[j];
      }
      if j :| 0 <= j < |xs| && f(xs[j]) == Some(u) {
        if j < |init| {
          assert init[j] == xs[j];
        }
      }
    }
  }

  /** Collecting distributes over concatenation: the order of the input is kept. */
  lemma {:induction false} CollectAppend<T, U>(f: T -> Option<U>, front: seq<T>, back: seq<T>)
    ensures Collect(f, front + back) == Collect(f, front) + Collect(f, back)
    decreases |back|
  {
    if back == [] {
      assert front + back == front;
    } else {
      var whole := front + back;
      assert whole[..|whole| - 1] == front + back[..|back| - 1];
      assert whole[|whole| - 1] == back[|back| - 1];
      CollectAppend(f, front, back[..|back| - 1]);
    }
  }

}
