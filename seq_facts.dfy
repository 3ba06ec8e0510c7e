/** Facts about concatenation that the codec proofs call on explicitly: stated
    once here, they spare the solver from rediscovering them element by element
    in contexts full of unfolded readers. */
module SeqFacts {
  lemma Assoc<T>(a: seq<T>, b: seq<T>, c: seq<T>)
    ensures a + (b + c) == a + b + c
  {
  }

  lemma EmptyLeft<T>(a: seq<T>)
    ensures [] + a == a
  {
  }

  lemma EmptyRight<T>(a: seq<T>)
    ensures a + [] == a
  {
  }

  lemma HeadTail<T>(s: seq<T>)
    requires s != []
    ensures [s[0]] + s[1..] == s
  {
  }

  lemma InitLast<T>(s: seq<T>)
    requires s != []
    ensures s[..|s| - 1] + [s[|s| - 1]] == s
  {
  }

  lemma SliceAround<T>(s: seq<T>, i: nat, j: nat)
    requires i <= j <= |s|
    ensures s == s[..i] + s[i..j] + s[j..]
  {
  }

  lemma SliceSplit<T>(s: seq<T>, i: nat, j: nat, k: nat)
    requires i <= j <= k <= |s|
    ensures s[i..k] == s[i..j] + s[j..k]
  {
  }

  lemma AppendCancel<T>(x: seq<T>, y: seq<T>, a: seq<T>, b: seq<T>)
    requires x + y == a + b && |x| == |a|
    ensures x == a && y == b
  {
    assert x == (x + y)[..|x|];
    assert y == (x + y)[|x|..];
  }

  lemma PrefixSlice<T>(a: seq<T>, b: seq<T>)
    ensures (a + b)[0..|a|] == a
  {
  }
}
