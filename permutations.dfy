/** Facts about applying a function to every element of a sequence and about multisets. */
module Permutations {

  /** The function applied to every element, in order. */
  function MapSeq<T, U>(f: T -> U, s: seq<T>): seq<U> {
    seq(|s|, k requires 0 <= k < |s| => f(s[k]))
  }

  /** Taking out the element at k leaves the rest of the multiset. */
  lemma MultisetRemoveAt<T>(s: seq<T>, k: nat)
    requires k < |s|
    ensures multiset(s) == multiset(s[..k] + s[k + 1..]) + multiset{s[k]}
  {
    assert s == s[..k] + [s[k]] + s[k + 1..];
  }

  /** The same element added to two multisets can be cancelled. */
  lemma MultisetCancel<T>(a: multiset<T>, b: multiset<T>, x: T)
    requires a + multiset{x} == b + multiset{x}
    ensures a == b
  {
    assert forall e :: a[e] == (a + multiset{x})[e] - multiset{x}[e];
    assert forall e :: b[e] == (b + multiset{x})[e] - multiset{x}[e];
  }

  /** Taking the first element out of one of two permutations, and the same element out of the other, leaves permutations. */
  lemma RemoveSameElement<T>(xs: seq<T>, ys: seq<T>, k: nat)
    requires multiset(xs) == multiset(ys)
    requires 0 < |xs| && k < |ys| && ys[k] == xs[0]
    ensures multiset(xs[1..]) == multiset(ys[..k] + ys[k + 1..])
  {
    MultisetRemoveAt(ys, k);
    assert xs == [xs[0]] + xs[1..];
    MultisetCancel(multiset(xs[1..]), multiset(ys[..k] + ys[k + 1..]), xs[0]);
  }

  /** Mapping a sequence with the element at k taken out maps every other element. */
  lemma MapSeqRemoveAt<T, U>(f: T -> U, s: seq<T>, k: nat)
    requires k < |s|
    ensures multiset(MapSeq(f, s)) == multiset(MapSeq(f, s[..k] + s[k + 1..])) + multiset{f(s[k])}
  {
    var out := MapSeq(f, s);
    MultisetRemoveAt(out, k);
    assert out[..k] + out[k + 1..] == MapSeq(f, s[..k] + s[k + 1..]);
  }

  /** Mapping a permutation of a sequence gives a permutation of the mapped sequence. */
  lemma {:induction false} MapPermutation<T, U>(f: T -> U, xs: seq<T>, ys: seq<T>)
    requires multiset(xs) == multiset(ys)
    ensures multiset(MapSeq(f, xs)) == multiset(MapSeq(f, ys))
    decreases |xs|
  {
    if xs == [] {
      assert |ys| == |multiset(ys)| == 0;
    } else {
      var x := xs[0];
      assert x in multiset(ys);
      var k :| 0 <= k < |ys| && ys[k] == x;
      var rest := ys[..k] + ys[k + 1..];
      RemoveSameElement(xs, ys, k);
      MapPermutation(f, xs[1..], rest);
      assert xs[..0] + xs[1..] == xs[1..];
      MapSeqRemoveAt(f, xs, 0);
      MapSeqRemoveAt(f, ys, k);
    }
  }
}
