/**
  A table filled by assigning `table[key(x)] = val(x)` for each `x` of a
  sequence, in order: the shape of the mass-table and excitation-table loaders.
  Every key that occurs is present, no other key is, and a key maps to the
  value of its LAST occurrence.
 */
module LastWins {

  function Build<T, K, V>(xs: seq<T>, key: T -> K, val: T -> V): (m: map<K, V>)
    ensures forall i :: 0 <= i < |xs| ==> key(xs[i]) in m
  {
    if xs == [] then map[]
    else
      var last := xs[|xs| - 1];
      var m' := Build(xs[..|xs| - 1], key, val);
      m'[key(last) := val(last)]
  }

  /** The entry for the key of `xs[i]` is `xs[i]`'s value when no later element has that key. */
  lemma {:induction false} LastWriteWins<T, K, V>(xs: seq<T>, key: T -> K, val: T -> V, i: nat)
    requires i < |xs|
    requires forall j :: i < j < |xs| ==> key(xs[j]) != key(xs[i])
    ensures key(xs[i]) in Build(xs, key, val)
    ensures Build(xs, key, val)[key(xs[i])] == val(xs[i])
  {
    if i < |xs| - 1 {
      var init := xs[..|xs| - 1];
      assert forall j :: i < j < |init| ==> init[j] == xs[j];
      LastWriteWins(init, key, val, i);
    }
  }

  /** A key that no element has is absent. */
  lemma {:induction false} Absent<T, K, V>(xs: seq<T>, key: T -> K, val: T -> V, k: K)
    requires forall i :: 0 <= i < |xs| ==> key(xs[i]) != k
    ensures k !in Build(xs, key, val)
  {
    if xs != [] {
      Absent(xs[..|xs| - 1], key, val, k);
    }
  }

  /** Appending one element is one more assignment. */
  lemma BuildSnoc<T, K, V>(xs: seq<T>, x: T, key: T -> K, val: T -> V)
    ensures Build(xs + [x], key, val) == Build(xs, key, val)[key(x) := val(x)]
  {
    assert (xs + [x])[..|xs|] == xs;
  }
}
