/**
 * The part of the store runtime every store shares: the outcome of an
 * asynchronous call, the ordered trace of what an executor does, and the
 * left fold that applies dispatched Msgs to a State one at a time.
 */
module Mvi {

  /** The outcome of a suspending call: a value, or an exception caught by the executor. */
  datatype Response<T> = Ok(value: T) | Failed

  /** A nullable reference such as `Job?`. */
  datatype Option<T> = None | Some(value: T)

  /**
   * One observable step of an executor: a Msg dispatched to the reducer,
   * a Label published to the component, or a call into a collaborator.
   */
  datatype Event<M, L, C> = Dispatched(msg: M) | Published(labelValue: L) | Called(call: C)

  /** The dispatched Msgs of a trace, in order. */
  function Msgs<M, L, C>(es: seq<Event<M, L, C>>): seq<M>
    decreases |es|
  {
    if |es| == 0 then []
    else
      var last := es[|es| - 1];
      Msgs(es[..|es| - 1]) + (if last.Dispatched? then [last.msg] else [])
  }

  /** The published Labels of a trace, in order. */
  function Labels<M, L, C>(es: seq<Event<M, L, C>>): seq<L>
    decreases |es|
  {
    if |es| == 0 then []
    else
      var last := es[|es| - 1];
      Labels(es[..|es| - 1]) + (if last.Published? then [last.labelValue] else [])
  }

  /** The collaborator calls of a trace, in order. */
  function Calls<M, L, C>(es: seq<Event<M, L, C>>): seq<C>
    decreases |es|
  {
    if |es| == 0 then []
    else
      var last := es[|es| - 1];
      Calls(es[..|es| - 1]) + (if last.Called? then [last.call] else [])
  }

  /** A component's label collector: the callback `onLabel` picks for each published Label, in order. */
  function Collect<M, L, C, B>(es: seq<Event<M, L, C>>, onLabel: L -> B): (cbs: seq<B>)
    ensures |cbs| == |Labels(es)|
    ensures forall i :: 0 <= i < |cbs| ==> cbs[i] == onLabel(Labels(es)[i])
  {
    var ls := Labels(es);
    seq(|ls|, i requires 0 <= i < |ls| => onLabel(ls[i]))
  }

  /** Applies `reduce` to `s` and each Msg of `ms` in order (the store engine's serial queue). */
  function Fold<S, M>(reduce: (S, M) -> S, s: S, ms: seq<M>): S
    decreases |ms|
  {
    if |ms| == 0 then s else reduce(Fold(reduce, s, ms[..|ms| - 1]), ms[|ms| - 1])
  }

  /** Filtering a concatenated trace is concatenating the filtered parts. */
  lemma {:induction false} TraceAppend<M, L, C>(a: seq<Event<M, L, C>>, b: seq<Event<M, L, C>>)
    ensures Msgs(a + b) == Msgs(a) + Msgs(b)
    ensures Labels(a + b) == Labels(a) + Labels(b)
    ensures Calls(a + b) == Calls(a) + Calls(b)
    decreases |b|
  {
    if |b| > 0 {
      var b' := b[..|b| - 1];
      assert (a + b)[..|a + b| - 1] == a + b';
      TraceAppend(a, b');
    } else {
      assert a + b == a;
    }
  }

  /** Folding a concatenation is folding the second part over the result of the first. */
  lemma {:induction false} FoldAppend<S, M>(reduce: (S, M) -> S, s: S, a: seq<M>, b: seq<M>)
    ensures Fold(reduce, s, a + b) == Fold(reduce, Fold(reduce, s, a), b)
    decreases |b|
  {
    if |b| > 0 {
      var b' := b[..|b| - 1];
      assert (a + b)[..|a + b| - 1] == a + b';
      FoldAppend(reduce, s, a, b');
    } else {
      assert a + b == a;
    }
  }

  /** Applying the Msgs of a concatenated trace is applying those of the second part after those of the first. */
  lemma FoldTrace<S, M, L, C>(reduce: (S, M) -> S, s: S, a: seq<Event<M, L, C>>, b: seq<Event<M, L, C>>)
    ensures Fold(reduce, s, Msgs(a + b)) == Fold(reduce, Fold(reduce, s, Msgs(a)), Msgs(b))
  {
    TraceAppend(a, b);
    FoldAppend(reduce, s, Msgs(a), Msgs(b));
  }

  lemma AppendAssoc<T>(a: seq<T>, b: seq<T>, c: seq<T>)
    ensures a + b + c == a + (b + c)
  {
  }

  /** The trace of a single event. */
  lemma SingleEvent<M, L, C>(e: Event<M, L, C>)
    ensures Msgs([e]) == (if e.Dispatched? then [e.msg] else [])
    ensures Labels([e]) == (if e.Published? then [e.labelValue] else [])
    ensures Calls([e]) == (if e.Called? then [e.call] else [])
  {
    assert [e][..0] == [];
  }
}
