/** Sequence helpers shared by the mesh tables. */
module Seqs {

  /** Removes one level of nesting, as `_.flatten` does to an array of arrays of
      numbers. */
  function Flatten<T>(xss: seq<seq<T>>): (xs: seq<T>)
    ensures forall i :: 0 <= i < |xss| ==> |xss[i]| <= |xs|
  {
    if |xss| == 0 then [] else xss[0] + Flatten(xss[1..])
  }

  /** Every inner sequence has length `k`. */
  predicate AllOfLength<T>(xss: seq<seq<T>>, k: nat)
  {
    forall i :: 0 <= i < |xss| ==> |xss[i]| == k
  }

  /** Flattening distributes over concatenation. */
  lemma {:induction false} FlattenConcat<T>(a: seq<seq<T>>, b: seq<seq<T>>)
    ensures Flatten(a + b) == Flatten(a) + Flatten(b)
    decreases |a|
  {
    if |a| == 0 {
      assert a + b == b;
    } else {
      assert (a + b)[1..] == a[1..] + b;
      FlattenConcat(a[1..], b);
    }
  }

  lemma MulStep(k: nat, v: nat)
    ensures k * (v + 1) == k + k * v
  {
  }

  /** Flattening `n` sequences of length `k` gives `k * n` elements. */
  lemma {:induction false} FlattenUniformLength<T>(xss: seq<seq<T>>, k: nat)
    requires AllOfLength(xss, k)
    ensures |Flatten(xss)| == k * |xss|
    decreases |xss|
  {
    if |xss| > 0 {
      FlattenUniformLength(xss[1..], k);
      MulStep(k, |xss| - 1);
    }
  }

  /** Element `j` of inner sequence `v` lands at position `k * v + j`. */
  lemma {:induction false} FlattenUniformAt<T>(xss: seq<seq<T>>, k: nat, v: nat, j: nat)
    requires AllOfLength(xss, k)
    requires v < |xss| && j < k
    ensures k * v + j < |Flatten(xss)|
    ensures Flatten(xss)[k * v + j] == xss[v][j]
    decreases v
  {
    var rest := xss[1..];
    var flat := Flatten(xss);
    assert flat == xss[0] + Flatten(rest);
    if v > 0 {
      FlattenUniformAt(rest, k, v - 1, j);
      MulStep(k, v - 1);
      assert rest[v - 1] == xss[v];
    }
  }
}
