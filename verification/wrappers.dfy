/** Optional values: `None` stands for a value that pandas or numpy would
    report as NaN (undefined), `Some(v)` for a defined one. */
module Wrappers {

  datatype Option<+T> = None | Some(value: T)

  /** True iff every entry of `xs` is defined. */
  predicate AllSome<T>(xs: seq<Option<T>>) {
    forall i :: 0 <= i < |xs| ==> xs[i].Some?
  }

  /** The entries of a fully defined sequence, unwrapped. */
  function Values<T>(xs: seq<Option<T>>): (vs: seq<T>)
    requires AllSome(xs)
    ensures |vs| == |xs|
    ensures forall i :: 0 <= i < |xs| ==> xs[i] == Some(vs[i])
  {
    seq(|xs|, i requires 0 <= i < |xs| => xs[i].value)
  }
}
