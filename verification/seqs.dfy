/** Flattened-array helpers: the mesh constructor receives every per-entity
    node list as one flat array plus a per-entity count array. */
module Seqs {
  import opened Wrappers

  /** Sum of a count array. */
  function Sum(xs: seq<nat>): nat
  {
    if xs == [] then 0 else xs[0] + Sum(xs[1..])
  }

  /** Concatenation of a sequence of node lists. */
  function Concat<T>(xss: seq<seq<T>>): seq<T>
  {
    if xss == [] then [] else xss[0] + Concat(xss[1..])
  }

  /** The length of each node list. */
  function Lengths<T>(xss: seq<seq<T>>): (r: seq<nat>)
    ensures |r| == |xss|
    ensures forall i :: 0 <= i < |xss| ==> r[i] == |xss[i]|
  {
    if xss == [] then [] else [|xss[0]|] + Lengths(xss[1..])
  }

  /** Cut `flat` into consecutive pieces whose lengths are `counts`. */
  function Slices<T>(counts: seq<nat>, flat: seq<T>): (r: seq<seq<T>>)
    requires Sum(counts) == |flat|
    ensures |r| == |counts|
    ensures forall i :: 0 <= i < |r| ==> |r[i]| == counts[i]
    ensures Concat(r) == flat
  {
    if counts == [] then []
    else
      var head := flat[..counts[0]];
      var rest := Slices(counts[1..], flat[counts[0]..]);
      assert flat == head + flat[counts[0]..];
      [head] + rest
  }

  /** Slicing the concatenation of pieces by their own lengths gives the pieces back. */
  lemma {:induction false} SlicesOfConcat<T>(xss: seq<seq<T>>)
    ensures Sum(Lengths(xss)) == |Concat(xss)|
    ensures Slices(Lengths(xss), Concat(xss)) == xss
  {
    if xss != [] {
      SlicesOfConcat(xss[1..]);
      assert Lengths(xss)[1..] == Lengths(xss[1..]);
      assert Concat(xss)[|xss[0]|..] == Concat(xss[1..]);
      assert Concat(xss)[..|xss[0]|] == xss[0];
    }
  }

  /** All elements are below `n` (every node reference names an existing node). */
  predicate InRange(xs: seq<nat>, n: nat)
  {
    forall i :: 0 <= i < |xs| ==> xs[i] < n
  }

  /** No element repeats. */
  predicate Distinct(xs: seq<nat>)
  {
    forall i, j :: 0 <= i < j < |xs| ==> xs[i] != xs[j]
  }

  /** Strictly increasing. */
  predicate Ascending(xs: seq<nat>)
  {
    forall i, j :: 0 <= i < j < |xs| ==> xs[i] < xs[j]
  }

  /** Putting an element below all of an ascending list in front keeps it
      ascending. */
  lemma AscendingCons(x: nat, xs: seq<nat>)
    requires Ascending(xs) && forall i :: 0 <= i < |xs| ==> x < xs[i]
    ensures Ascending([x] + xs)
  {
    var ys := [x] + xs;
    forall i, j | 0 <= i < j < |ys|
      ensures ys[i] < ys[j]
    {
      assert ys[j] == xs[j - 1];
      if i > 0 {
        assert ys[i] == xs[i - 1];
      }
    }
  }

  /** Index of the first element of `xs` at or after `from` that `ok` rejects. */
  function FirstFailing<T>(xs: seq<T>, ok: T -> bool, from: nat): (r: Option<nat>)
    decreases |xs| - from
    ensures r.None? ==> forall i :: from <= i < |xs| ==> ok(xs[i])
    ensures r.Some? ==> from <= r.value < |xs| && !ok(xs[r.value])
    ensures r.Some? ==> forall i :: from <= i < r.value ==> ok(xs[i])
  {
    if from >= |xs| then None
    else if !ok(xs[from]) then Some(from)
    else FirstFailing(xs, ok, from + 1)
  }
}
