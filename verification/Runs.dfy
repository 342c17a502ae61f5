/**
 Runs of a machine whose steps may fail: the state after a sequence of events,
 and the three ways of reasoning about all runs that the other modules share.
 */
module Runs {
  import opened Wrappers

  function Run<S, E>(step: (S, E) -> Result<S>, s: S, events: seq<E>): (r: Result<S>) {
    if events == [] then Success(s)
    else
      var t :- Run(step, s, events[..|events| - 1]);
      step(t, events[|events| - 1])
  }

  lemma RunOne<S, E>(step: (S, E) -> Result<S>, s: S, e: E)
    ensures Run(step, s, [e]) == step(s, e)
  {
    assert [e][..|[e]| - 1] == [];
    assert Run(step, s, [e][..|[e]| - 1]) == Success(s);
  }

  /** A run one event longer takes one more step. */
  lemma RunNext<S, E>(step: (S, E) -> Result<S>, s: S, events: seq<E>, i: nat)
    requires i < |events|
    ensures Run(step, s, events[..i + 1]) == (var t :- Run(step, s, events[..i]); step(t, events[i]))
  {
    assert events[..i + 1][..i] == events[..i];
  }

  lemma {:induction false} RunSplits<S, E>(step: (S, E) -> Result<S>, s: S, a: seq<E>, b: seq<E>)
    ensures Run(step, s, a + b) == (var t :- Run(step, s, a); Run(step, t, b))
  {
    if b == [] {
      assert a + b == a;
    } else {
      RunSplits(step, s, a, b[..|b| - 1]);
      assert (a + b)[..|a + b| - 1] == a + b[..|b| - 1];
    }
  }

  /** A run that fails keeps failing. */
  lemma RunPrefixFails<S, E>(step: (S, E) -> Result<S>, s: S, events: seq<E>, n: nat)
    requires n <= |events| && Run(step, s, events[..n]).Failure?
    ensures Run(step, s, events).Failure?
  {
    RunSplits(step, s, events[..n], events[n..]);
    assert events == events[..n] + events[n..];
  }

  /** What every step keeps, every run keeps. */
  lemma {:induction false} RunInvariant<S(!new), E(!new)>(
    step: (S, E) -> Result<S>, inv: S -> bool, s: S, events: seq<E>)
    requires inv(s) && forall x, e :: inv(x) && step(x, e).Success? ==> inv(step(x, e).value)
    ensures Run(step, s, events).Success? ==> inv(Run(step, s, events).value)
  {
    if events != [] {
      RunInvariant(step, inv, s, events[..|events| - 1]);
    }
  }

  /** A reflexive and transitive relation that every step obeys relates the ends of every run. */
  lemma {:induction false} RunRelation<S(!new), E(!new)>(
    step: (S, E) -> Result<S>, inv: S -> bool, rel: (S, S) -> bool, s: S, events: seq<E>)
    requires inv(s) && forall x, e :: inv(x) && step(x, e).Success? ==>
               inv(step(x, e).value) && rel(x, step(x, e).value)
    requires (forall x :: rel(x, x)) && forall x, y, z :: rel(x, y) && rel(y, z) ==> rel(x, z)
    ensures Run(step, s, events).Success? ==>
              inv(Run(step, s, events).value) && rel(s, Run(step, s, events).value)
  {
    if events != [] {
      RunRelation(step, inv, rel, s, events[..|events| - 1]);
    }
  }

  /** A step that keeps `inv` and gets closer to the end. */
  ghost predicate Advances<S, E>(step: (S, E) -> Result<S>, inv: S -> bool, rank: S -> nat, s: S, e: E) {
    step(s, e).Success? && inv(step(s, e).value) && rank(step(s, e).value) < rank(s)
  }

  ghost predicate Ends<S(!new), E(!new)>(step: (S, E) -> Result<S>, s: S, t: S) {
    exists events: seq<E> :: Run(step, s, events) == Success(t)
  }

  /** Where every state that is not done has a step that gets closer, some run gets done. */
  lemma {:induction false} RunToEnd<S(!new), E(!new)>(
    step: (S, E) -> Result<S>, inv: S -> bool, done: S -> bool, rank: S -> nat, s: S) returns (t: S)
    requires inv(s) && forall x :: inv(x) && !done(x) ==> exists e :: Advances(step, inv, rank, x, e)
    ensures Ends(step, s, t) && inv(t) && done(t)
    decreases rank(s)
  {
    if done(s) {
      t := s;
      assert Run(step, s, []) == Success(t);
    } else {
      var e :| Advances(step, inv, rank, s, e);
      var next := step(s, e).value;
      t := RunToEnd(step, inv, done, rank, next);
      var rest :| Run(step, next, rest) == Success(t);
      RunOne(step, s, e);
      RunSplits(step, s, [e], rest);
    }
  }
}
