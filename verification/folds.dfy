/** Runs as folds: the state an event sequence leads to, and what its steps put out on the way. */
module Folds {
  function Fold<S, E>(step: (S, E) -> S, s: S, es: seq<E>): S {
    if es == [] then s else step(Fold(step, s, es[..|es| - 1]), es[|es| - 1])
  }

  function Emitted<S, E, W>(step: (S, E) -> S, out: (S, E) -> seq<W>, s: S, es: seq<E>): seq<W> {
    if es == [] then []
    else Emitted(step, out, s, es[..|es| - 1]) + out(Fold(step, s, es[..|es| - 1]), es[|es| - 1])
  }

  lemma FoldMore<S, E>(step: (S, E) -> S, s: S, es: seq<E>, e: E)
    ensures Fold(step, s, es + [e]) == step(Fold(step, s, es), e)
  {
    assert (es + [e])[..|es|] == es;
  }

  lemma EmittedMore<S, E, W>(step: (S, E) -> S, out: (S, E) -> seq<W>, s: S, es: seq<E>, e: E)
    ensures Emitted(step, out, s, es + [e]) == Emitted(step, out, s, es) + out(Fold(step, s, es), e)
  {
    assert (es + [e])[..|es|] == es;
  }

  lemma {:induction false} FoldConcat<S, E>(step: (S, E) -> S, s: S, a: seq<E>, b: seq<E>)
    ensures Fold(step, s, a + b) == Fold(step, Fold(step, s, a), b)
  {
    if b == [] {
      assert a + b == a;
    } else {
      var n := |b| - 1;
      FoldConcat(step, s, a, b[..n]);
      assert (a + b)[..|a + b| - 1] == a + b[..n];
    }
  }

  lemma {:induction false} EmittedConcat<S, E, W>(
      step: (S, E) -> S, out: (S, E) -> seq<W>, s: S, a: seq<E>, b: seq<E>)
    ensures Emitted(step, out, s, a + b)
         == Emitted(step, out, s, a) + Emitted(step, out, Fold(step, s, a), b)
  {
    if b == [] {
      assert a + b == a;
    } else {
      var n := |b| - 1;
      EmittedConcat(step, out, s, a, b[..n]);
      FoldConcat(step, s, a, b[..n]);
      assert (a + b)[..|a + b| - 1] == a + b[..n];
    }
  }

  /** Each pair of an input and its answer leads from one state of the chain to the next. */
  ghost predicate Chain<A, B, M>(rel: (A, B, M, M) -> bool, inputs: seq<A>, answers: seq<B>, states: seq<M>) {
    && |answers| == |inputs| && |states| == |inputs| + 1
    && forall i :: 0 <= i < |inputs| ==> rel(inputs[i], answers[i], states[i], states[i + 1])
  }

  lemma ChainMore<A, B, M>(rel: (A, B, M, M) -> bool, inputs: seq<A>, answers: seq<B>, states: seq<M>,
                           a: A, b: B, m: M)
    requires Chain(rel, inputs, answers, states) && rel(a, b, states[|inputs|], m)
    ensures Chain(rel, inputs + [a], answers + [b], states + [m])
  {
    var as', bs', ms' := inputs + [a], answers + [b], states + [m];
    forall i | 0 <= i < |as'|
      ensures rel(as'[i], bs'[i], ms'[i], ms'[i + 1])
    {
      assert i < |inputs| ==> rel(inputs[i], answers[i], states[i], states[i + 1]);
    }
  }
}
