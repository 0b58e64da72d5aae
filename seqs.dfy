/** The list a loop builds when it walks a sequence and appends a derived value for some elements and skips the rest. */
module Seqs {
  import opened Wrappers

  /** The values `f` keeps, in input order (a loop that appends `f(x)` unless it is `None`). */
  function FilterMap<A, B>(xs: seq<A>, f: A -> Option<B>): (r: seq<B>)
    ensures |r| <= |xs|
    decreases |xs|
  {
    if xs == [] then []
    else
      var init := FilterMap(xs[..|xs| - 1], f);
      match f(xs[|xs| - 1])
      case Some(y) => init + [y]
      case None => init
  }

  /** One more loop step: the element at `i` is appended when `f` keeps it. */
  lemma FilterMapStep<A, B>(xs: seq<A>, i: nat, f: A -> Option<B>)
    requires i < |xs|
    ensures FilterMap(xs[..i + 1], f) == FilterMap(xs[..i], f) + (if f(xs[i]).Some? then [f(xs[i]).value] else [])
  {
    assert xs[..i + 1][..i] == xs[..i];
  }

  /** The positions of the elements that `f` keeps. */
  function KeptIndices<A, B>(xs: seq<A>, f: A -> Option<B>): seq<nat>
    decreases |xs|
  {
    if xs == [] then []
    else
      var init := KeptIndices(xs[..|xs| - 1], f);
      if f(xs[|xs| - 1]).Some? then init + [|xs| - 1] else init
  }

  /** Each output element comes from one input element, in strictly increasing input order,
      and every input element that `f` keeps is among them: the output is an order-preserving
      subsequence of the input, mapped through `f`. */
  lemma {:induction false} FilterMapProvenance<A, B>(xs: seq<A>, f: A -> Option<B>)
    ensures |KeptIndices(xs, f)| == |FilterMap(xs, f)|
    ensures forall k :: 0 <= k < |KeptIndices(xs, f)| ==>
              KeptIndices(xs, f)[k] < |xs| && f(xs[KeptIndices(xs, f)[k]]) == Some(FilterMap(xs, f)[k])
    ensures forall k, l :: 0 <= k < l < |KeptIndices(xs, f)| ==> KeptIndices(xs, f)[k] < KeptIndices(xs, f)[l]
    ensures forall i :: 0 <= i < |xs| && f(xs[i]).Some? ==> i in KeptIndices(xs, f)
    decreases |xs|
  {
    if xs != [] {
      var init := xs[..|xs| - 1];
      FilterMapProvenance(init, f);
      forall i | 0 <= i < |xs| && f(xs[i]).Some?
        ensures i in KeptIndices(xs, f)
      {
        if i < |xs| - 1 {
          assert init[i] == xs[i];
        }
      }
    }
  }

  /** When exactly one of `f` and `g` keeps each element, the two outputs together are as long as the input. */
  lemma {:induction false} FilterMapPartition<A, B, C>(xs: seq<A>, f: A -> Option<B>, g: A -> Option<C>)
    requires forall i :: 0 <= i < |xs| ==> f(xs[i]).Some? != g(xs[i]).Some?
    ensures |FilterMap(xs, f)| + |FilterMap(xs, g)| == |xs|
    decreases |xs|
  {
    if xs != [] {
      var init := xs[..|xs| - 1];
      assert forall i :: 0 <= i < |init| ==> init[i] == xs[i];
      FilterMapPartition(init, f, g);
    }
  }

  /** Every element `f` keeps satisfies `P` when `f` only ever produces values satisfying `P`. */
  lemma {:induction false} FilterMapAll<A, B>(xs: seq<A>, f: A -> Option<B>, P: B -> bool)
    requires forall i :: 0 <= i < |xs| && f(xs[i]).Some? ==> P(f(xs[i]).value)
    ensures forall k :: 0 <= k < |FilterMap(xs, f)| ==> P(FilterMap(xs, f)[k])
    decreases |xs|
  {
    if xs != [] {
      var init := xs[..|xs| - 1];
      assert forall i :: 0 <= i < |init| ==> init[i] == xs[i];
      FilterMapAll(init, f, P);
    }
  }
}
