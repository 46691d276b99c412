/**
 * The protocol every visitor in the resolution helpers follows: candidates
 * are offered to a processor callback one at a time, and a callback that
 * answers `false` stops the whole search. A callback is modelled as a
 * predicate, and a search by the sequence of calls it made (its trace).
 */
module Processor {
  import opened Psi

  /** The calls a search made, in order, and whether it ran to the end (`true`) or was stopped (`false`). */
  datatype Walk = Walk(trace: seq<Symbol>, completed: bool)

  /** A search that first made the calls `done` (all accepted) and then went on as `rest`. */
  function Then(done: seq<Symbol>, rest: Walk): Walk
  {
    Walk(done + rest.trace, rest.completed)
  }

  /** Offers `xs` in order to `accept`, stopping right after the first rejection. */
  function VisitAll(xs: seq<Symbol>, accept: Symbol -> bool): Walk
  {
    if xs == [] then Walk([], true)
    else if !accept(xs[0]) then Walk([xs[0]], false)
    else Then([xs[0]], VisitAll(xs[1..], accept))
  }

  /** Unfolds one step of a search whose first candidate is `x`. */
  lemma VisitAllFirst(x: Symbol, rest: seq<Symbol>, accept: Symbol -> bool)
    ensures VisitAll([x] + rest, accept) ==
            if accept(x) then Then([x], VisitAll(rest, accept)) else Walk([x], false)
  {
    assert ([x] + rest)[0] == x && ([x] + rest)[1..] == rest;
  }

  /** Two searches run one after the other are one search over both sets of accepted calls. */
  lemma ThenThen(a: seq<Symbol>, b: seq<Symbol>, w: Walk)
    ensures Then(a, Then(b, w)) == Then(a + b, w)
  {
    assert a + (b + w.trace) == a + b + w.trace;
  }

  /** The calls of a search are a prefix of the candidates, and all of them when it ran to the end. */
  lemma {:induction false} VisitAllPrefix(xs: seq<Symbol>, accept: Symbol -> bool)
    ensures var w := VisitAll(xs, accept);
      && |w.trace| <= |xs| && w.trace == xs[..|w.trace|]
      && (w.completed ==> w.trace == xs)
  {
    if xs != [] && accept(xs[0]) {
      VisitAllPrefix(xs[1..], accept);
      var rest := VisitAll(xs[1..], accept);
      var n := |rest.trace|;
      assert [xs[0]] + xs[1..][..n] == xs[..n + 1];
      assert [xs[0]] + xs[1..] == xs;
    }
  }

  /** A search runs to the end exactly when every candidate is accepted. */
  lemma {:induction false} VisitAllCompleted(xs: seq<Symbol>, accept: Symbol -> bool)
    ensures VisitAll(xs, accept).completed <==> forall k :: 0 <= k < |xs| ==> accept(xs[k])
  {
    if xs != [] && accept(xs[0]) {
      VisitAllCompleted(xs[1..], accept);
      forall k | 1 <= k < |xs| ensures xs[k] == xs[1..][k - 1] { }
      if !VisitAll(xs[1..], accept).completed {
        var m :| 0 <= m < |xs[1..]| && !accept(xs[1..][m]);
        assert !accept(xs[m + 1]);
      }
    }
  }

  /** Every call but the last was accepted, and a stopped search ends with the rejected candidate. */
  lemma {:induction false} VisitAllLastRejected(xs: seq<Symbol>, accept: Symbol -> bool)
    ensures var w := VisitAll(xs, accept);
      && (forall k :: 0 <= k < |w.trace| - 1 ==> accept(w.trace[k]))
      && (!w.completed ==> w.trace != [] && !accept(w.trace[|w.trace| - 1]))
  {
    if xs != [] && accept(xs[0]) {
      VisitAllLastRejected(xs[1..], accept);
      var rest := VisitAll(xs[1..], accept);
      var trace := [xs[0]] + rest.trace;
      forall k | 1 <= k < |trace| ensures trace[k] == rest.trace[k - 1] { }
    }
  }

  /**
   * What a search promises: its calls are a prefix of the candidates, every
   * call but the last was accepted, it ran to the end exactly when every
   * candidate is accepted, and a stopped search ends with the rejected one.
   */
  lemma VisitAllFacts(xs: seq<Symbol>, accept: Symbol -> bool)
    ensures var w := VisitAll(xs, accept);
      && |w.trace| <= |xs| && w.trace == xs[..|w.trace|]
      && (w.completed <==> forall k :: 0 <= k < |xs| ==> accept(xs[k]))
      && (w.completed ==> w.trace == xs)
      && (forall k :: 0 <= k < |w.trace| - 1 ==> accept(w.trace[k]))
      && (!w.completed ==> w.trace != [] && !accept(w.trace[|w.trace| - 1]))
  {
    VisitAllPrefix(xs, accept);
    VisitAllCompleted(xs, accept);
    VisitAllLastRejected(xs, accept);
  }

  /** The search stops exactly at the first rejected candidate and calls nothing after it. */
  lemma VisitAllStopsAt(xs: seq<Symbol>, accept: Symbol -> bool, j: nat)
    requires j < |xs| && !accept(xs[j])
    requires forall k :: 0 <= k < j ==> accept(xs[k])
    ensures VisitAll(xs, accept) == Walk(xs[..j + 1], false)
  {
    VisitAllFacts(xs, accept);
    var w := VisitAll(xs, accept);
    var n := |w.trace|;
    assert !w.completed;
    assert w.trace[n - 1] == xs[n - 1];
  }

  /** A search over `a + b` is a search over `a`, followed by one over `b` only if `a` was not stopped. */
  lemma {:induction false} VisitAllAppend(a: seq<Symbol>, b: seq<Symbol>, accept: Symbol -> bool)
    ensures VisitAll(a + b, accept) ==
            if VisitAll(a, accept).completed then Then(a, VisitAll(b, accept)) else VisitAll(a, accept)
  {
    if a == [] {
      assert a + b == b;
    } else {
      assert (a + b)[0] == a[0] && (a + b)[1..] == a[1..] + b;
      if accept(a[0]) {
        VisitAllAppend(a[1..], b, accept);
        assert [a[0]] + a[1..] == a;
      }
    }
  }
}
