/**
 * The shape shared by the geocoding loop and the geodata join: walk a
 * sequence in order, try each element, keep only the successes.
 */
module FilterMaps {
  import opened Wrappers

  /** The successful results of `f` over `xs`, in the order of `xs`. */
  function FilterMap<A, B>(f: A -> Option<B>, xs: seq<A>): (r: seq<B>)
    ensures |r| <= |xs|
  {
    if xs == [] then []
    else
      var rest := FilterMap(f, xs[..|xs| - 1]);
      match f(xs[|xs| - 1])
      case Some(y) => rest + [y]
      case None => rest
  }

  /** The positions in `xs` at which `f` succeeds, in increasing order. */
  function Kept<A, B>(f: A -> Option<B>, xs: seq<A>): (idx: seq<nat>)
    ensures forall k :: 0 <= k < |idx| ==> idx[k] < |xs|
  {
    if xs == [] then []
    else
      var rest := Kept(f, xs[..|xs| - 1]);
      if f(xs[|xs| - 1]).Some? then rest + [|xs| - 1] else rest
  }

  /**
   * FilterMap keeps exactly the successes: its k-th result is the result of
   * `f` at the k-th successful position, those positions increase, and a
   * position is among them exactly when `f` succeeds there. Nothing is
   * invented for a failure and nothing is reordered.
   */
  lemma {:induction false} FilterMapExact<A, B>(f: A -> Option<B>, xs: seq<A>)
    ensures |FilterMap(f, xs)| == |Kept(f, xs)|
    ensures forall k :: 0 <= k < |Kept(f, xs)| ==>
              f(xs[Kept(f, xs)[k]]) == Some(FilterMap(f, xs)[k])
    ensures forall k, l :: 0 <= k < l < |Kept(f, xs)| ==> Kept(f, xs)[k] < Kept(f, xs)[l]
    ensures forall i :: 0 <= i < |xs| ==> (f(xs[i]).Some? <==> i in Kept(f, xs))
  {
    if xs != [] {
      var n := |xs| - 1;
      var p := xs[..n];
      FilterMapExact(f, p);
      var kp, rp := Kept(f, p), FilterMap(f, p);
      assert forall k :: 0 <= k < |kp| ==> xs[kp[k]] == p[kp[k]];
      assert forall i :: 0 <= i < n ==> xs[i] == p[i];
      if f(xs[n]).Some? {
        assert Kept(f, xs) == kp + [n];
        assert FilterMap(f, xs) == rp + [f(xs[n]).value];
      } else {
        assert Kept(f, xs) == kp;
        assert FilterMap(f, xs) == rp;
      }
    }
  }

  /** Filtering a concatenation filters each part: the result is not deduplicated or merged across parts. */
  lemma {:induction false} FilterMapAppend<A, B>(f: A -> Option<B>, xs: seq<A>, ys: seq<A>)
    ensures FilterMap(f, xs + ys) == FilterMap(f, xs) + FilterMap(f, ys)
  {
    if ys != [] {
      var n := |ys| - 1;
      assert (xs + ys)[..|xs + ys| - 1] == xs + ys[..n];
      assert (xs + ys)[|xs + ys| - 1] == ys[n];
      FilterMapAppend(f, xs, ys[..n]);
    } else {
      assert xs + ys == xs;
    }
  }
}
