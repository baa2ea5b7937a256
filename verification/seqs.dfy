/**
  Generic facts about sequences: removing the element at a position, and the
  "is a subsequence of" relation that says one list is another with some
  elements deleted and the rest kept in order.
 */
module Seqs {

  /** `s` without the element at position `k`: what `List.remove` leaves. */
  function RemoveAt<T>(s: seq<T>, k: nat): (r: seq<T>)
    requires k < |s|
    ensures |r| == |s| - 1
    ensures forall i :: 0 <= i < k ==> r[i] == s[i]
    ensures forall i :: k <= i < |r| ==> r[i] == s[i + 1]
  {
    s[..k] + s[k + 1..]
  }

  /** A value that occurs at most once is at no other position. */
  lemma OnceDistinct<T>(s: seq<T>, i: nat, j: nat)
    requires i < |s| && j < |s| && i != j
    requires multiset(s)[s[i]] <= 1
    ensures s[i] != s[j]
  {
    var lo, hi := if i < j then i else j, if i < j then j else i;
    assert s == s[..lo] + [s[lo]] + s[lo + 1..hi] + [s[hi]] + s[hi + 1..];
  }

  /** `a` is `b` with some elements deleted, the others kept in order. */
  ghost predicate IsSubseq<T>(a: seq<T>, b: seq<T>)
    decreases |b|
  {
    if |a| == 0 then true
    else if |b| == 0 then false
    else
      (a[|a| - 1] == b[|b| - 1] && IsSubseq(a[..|a| - 1], b[..|b| - 1]))
      || IsSubseq(a, b[..|b| - 1])
  }

  /** Every list is a subsequence of itself. */
  lemma {:induction false} SubseqRefl<T>(a: seq<T>)
    ensures IsSubseq(a, a)
    decreases |a|
  {
    if |a| > 0 {
      SubseqRefl(a[..|a| - 1]);
    }
  }

  /** Appending an element to the larger sequence keeps the relation. */
  lemma SubseqExtend<T>(a: seq<T>, b: seq<T>, x: T)
    requires IsSubseq(a, b)
    ensures IsSubseq(a, b + [x])
  {
    assert (b + [x])[..|b|] == b;
  }

  /** Appending the same element to both sides keeps the relation. */
  lemma SubseqAppend<T>(a: seq<T>, b: seq<T>, x: T)
    requires IsSubseq(a, b)
    ensures IsSubseq(a + [x], b + [x])
  {
    assert (a + [x])[..|a|] == a;
    assert (b + [x])[..|b|] == b;
  }

  /** Deleting one more element from the smaller sequence keeps the relation. */
  lemma {:induction false} SubseqRemove<T>(a: seq<T>, b: seq<T>, k: nat)
    requires k < |a|
    requires IsSubseq(a, b)
    ensures IsSubseq(RemoveAt(a, k), b)
    decreases |b|
  {
    var a', b' := a[..|a| - 1], b[..|b| - 1];
    assert b == b' + [b[|b| - 1]];
    if k == |a| - 1 {
      assert RemoveAt(a, k) == a';
      if a[|a| - 1] == b[|b| - 1] && IsSubseq(a', b') {
        SubseqExtend(a', b', b[|b| - 1]);
      } else {
        SubseqRemove(a, b', k);
        SubseqExtend(a', b', b[|b| - 1]);
      }
    } else {
      assert RemoveAt(a, k) == RemoveAt(a', k) + [a[|a| - 1]];
      if a[|a| - 1] == b[|b| - 1] && IsSubseq(a', b') {
        SubseqRemove(a', b', k);
        SubseqAppend(RemoveAt(a', k), b', b[|b| - 1]);
      } else {
        SubseqRemove(a, b', k);
        SubseqExtend(RemoveAt(a, k), b', b[|b| - 1]);
      }
    }
  }

  /** A subsequence takes each element at most as often as the larger sequence holds it. */
  lemma {:induction false} SubseqMultiset<T>(a: seq<T>, b: seq<T>)
    requires IsSubseq(a, b)
    ensures multiset(a) <= multiset(b)
    ensures |a| <= |b|
    decreases |b|
  {
    if |a| > 0 {
      var a', b' := a[..|a| - 1], b[..|b| - 1];
      assert a == a' + [a[|a| - 1]];
      assert b == b' + [b[|b| - 1]];
      if a[|a| - 1] == b[|b| - 1] && IsSubseq(a', b') {
        SubseqMultiset(a', b');
      } else {
        SubseqMultiset(a, b');
      }
    }
  }
}
