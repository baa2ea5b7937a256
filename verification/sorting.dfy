/**
  The ordering of the candidates before selection: by price, dearest first,
  with a stable sort, so that things of equal price keep their order in the line.
 */
module Sorting {
  import opened Things

  /** Prices never increase along the list. */
  predicate NonIncreasing(s: seq<Thing>) {
    forall i, j :: 0 <= i < j < |s| ==> s[i].price >= s[j].price
  }

  /** The things of price `p`, in their order in `s`. */
  function WithPrice(s: seq<Thing>, p: nat): seq<Thing> {
    if |s| == 0 then [] else (if s[0].price == p then [s[0]] else []) + WithPrice(s[1..], p)
  }

  /** The things of price `p` in `[x] + s`. */
  lemma WithPriceCons(x: Thing, s: seq<Thing>, p: nat)
    ensures WithPrice([x] + s, p) == (if x.price == p then [x] + WithPrice(s, p) else WithPrice(s, p))
  {
    assert ([x] + s)[1..] == s;
    if x.price != p {
      assert [] + WithPrice(s, p) == WithPrice(s, p);
    }
  }

  /** `x` placed after every dearer thing and before every other one. */
  function Insert(x: Thing, s: seq<Thing>): (r: seq<Thing>)
    requires NonIncreasing(s)
    ensures NonIncreasing(r)
    ensures multiset(r) == multiset(s) + multiset{x}
    ensures forall p :: WithPrice(r, p) == if p == x.price then [x] + WithPrice(s, p) else WithPrice(s, p)
  {
    if |s| == 0 || s[0].price <= x.price then
      var r := [x] + s;
      forall p | true
        ensures WithPrice(r, p) == if p == x.price then [x] + WithPrice(s, p) else WithPrice(s, p)
      {
        WithPriceCons(x, s, p);
      }
      r
    else
      var rest := Insert(x, s[1..]);
      var r := [s[0]] + rest;
      InsertHead(x, s, rest);
      r
  }

  /** The recursive case of `Insert`: the dearer head stays in front. */
  lemma InsertHead(x: Thing, s: seq<Thing>, rest: seq<Thing>)
    requires NonIncreasing(s) && 0 < |s| && s[0].price > x.price
    requires NonIncreasing(rest)
    requires multiset(rest) == multiset(s[1..]) + multiset{x}
    requires forall p :: WithPrice(rest, p) == if p == x.price then [x] + WithPrice(s[1..], p) else WithPrice(s[1..], p)
    ensures NonIncreasing([s[0]] + rest)
    ensures multiset([s[0]] + rest) == multiset(s) + multiset{x}
    ensures forall p :: WithPrice([s[0]] + rest, p) == if p == x.price then [x] + WithPrice(s, p) else WithPrice(s, p)
  {
    HeadDearest(x, s, rest);
    HeadStaysInFront(s[0], rest);
    HeadKeepsClasses(x, s, rest);
    assert multiset([s[0]] + rest) == multiset{s[0]} + multiset(rest);
    assert multiset(s) == multiset{s[0]} + multiset(s[1..]) by {
      assert s == [s[0]] + s[1..];
    }
  }

  /** The head of a dearest-first list is at least as dear as the rest with a cheaper thing added. */
  lemma HeadDearest(x: Thing, s: seq<Thing>, rest: seq<Thing>)
    requires NonIncreasing(s) && 0 < |s| && s[0].price > x.price
    requires multiset(rest) == multiset(s[1..]) + multiset{x}
    ensures forall y :: y in multiset(rest) ==> y.price <= s[0].price
  {
    forall y | y in multiset(rest)
      ensures y.price <= s[0].price
    {
      if y != x {
        assert y in multiset(s[1..]);
        var k :| 0 <= k < |s[1..]| && s[1..][k] == y;
        assert s[k + 1] == y;
      }
    }
  }

  /** Every thing of a list is at most as dear as the head of a dearest-first arrangement of it. */
  lemma DearestFirst(s: seq<Thing>, sorted: seq<Thing>)
    requires NonIncreasing(sorted) && 0 < |sorted|
    requires multiset(sorted) == multiset(s)
    ensures forall x :: x in s ==> x.price <= sorted[0].price
  {
    forall x | x in s
      ensures x.price <= sorted[0].price
    {
      assert x in multiset(sorted);
      var j :| 0 <= j < |sorted| && sorted[j] == x;
    }
  }

  /** A head at least as dear as every thing it goes before keeps the list dearest first. */
  lemma HeadStaysInFront(h: Thing, rest: seq<Thing>)
    requires NonIncreasing(rest)
    requires forall y :: y in multiset(rest) ==> y.price <= h.price
    ensures NonIncreasing([h] + rest)
  {
    var r := [h] + rest;
    forall j | 0 < j < |r|
      ensures r[0].price >= r[j].price
    {
      assert r[j] == rest[j - 1];
      assert r[j] in multiset(rest);
    }
  }

  /** Putting the head back in front adds it to the things of its own price and to no others. */
  lemma HeadKeepsClasses(x: Thing, s: seq<Thing>, rest: seq<Thing>)
    requires 0 < |s| && s[0].price > x.price
    requires forall p :: WithPrice(rest, p) == if p == x.price then [x] + WithPrice(s[1..], p) else WithPrice(s[1..], p)
    ensures forall p :: WithPrice([s[0]] + rest, p) == if p == x.price then [x] + WithPrice(s, p) else WithPrice(s, p)
  {
    assert s == [s[0]] + s[1..];
    forall p | true
      ensures WithPrice([s[0]] + rest, p) == if p == x.price then [x] + WithPrice(s, p) else WithPrice(s, p)
    {
      WithPriceCons(s[0], rest, p);
      WithPriceCons(s[0], s[1..], p);
    }
  }

  /**
    The list sorted by price, dearest first; things of equal price keep their
    relative order (a stable sort, as `Stream.sorted` is on a list).
   */
  function SortByPrice(s: seq<Thing>): (r: seq<Thing>)
    ensures NonIncreasing(r)
    ensures multiset(r) == multiset(s)
    ensures forall p :: WithPrice(r, p) == WithPrice(s, p)
  {
    if |s| == 0 then []
    else
      assert s == [s[0]] + s[1..];
      Insert(s[0], SortByPrice(s[1..]))
  }

  /** A thing of price `p` in `s` shows up in the things of price `p`. */
  lemma {:induction false} WithPriceNonEmpty(s: seq<Thing>, j: nat)
    requires j < |s|
    ensures |WithPrice(s, s[j].price)| > 0
    decreases j
  {
    if j > 0 {
      WithPriceNonEmpty(s[1..], j - 1);
    }
  }

  /** Every thing of the things of price `p` has price `p` and comes from `s`. */
  lemma {:induction false} WithPriceMembers(s: seq<Thing>, p: nat)
    ensures forall x :: x in WithPrice(s, p) ==> x.price == p && x in s
    decreases |s|
  {
    if |s| > 0 {
      WithPriceMembers(s[1..], p);
    }
  }

  /**
    The sort is the only arrangement that is dearest-first and keeps the order
    within each price: any such arrangement of the things equals it.
   */
  lemma SortUnique(s: seq<Thing>, r: seq<Thing>)
    requires NonIncreasing(r)
    requires forall p :: WithPrice(r, p) == WithPrice(s, p)
    ensures r == SortByPrice(s)
  {
    SameClassesEqual(r, SortByPrice(s));
  }

  /** Two dearest-first lists with the same things of every price are equal. */
  lemma {:induction false} SameClassesEqual(a: seq<Thing>, b: seq<Thing>)
    requires NonIncreasing(a) && NonIncreasing(b)
    requires forall p :: WithPrice(a, p) == WithPrice(b, p)
    ensures a == b
    decreases |a| + |b|
  {
    if |a| == 0 && |b| == 0 {
      return;
    }
    if |a| == 0 {
      WithPriceNonEmpty(b, 0);
      assert false;
    }
    if |b| == 0 {
      WithPriceNonEmpty(a, 0);
      assert false;
    }
    var p, q := a[0].price, b[0].price;
    if p > q {
      assert WithPrice(a, p)[0] == a[0];
      assert a[0] in WithPrice(b, p);
      WithPriceMembers(b, p);
      assert false;
    }
    if q > p {
      assert WithPrice(b, q)[0] == b[0];
      assert b[0] in WithPrice(a, q);
      WithPriceMembers(a, q);
      assert false;
    }
    WithPriceCons(a[0], a[1..], p);
    WithPriceCons(b[0], b[1..], p);
    assert a == [a[0]] + a[1..] && b == [b[0]] + b[1..];
    assert WithPrice(a, p)[0] == a[0];
    assert WithPrice(b, p)[0] == b[0];
    assert WithPrice(a, p) == WithPrice(b, p);
    assert a == [a[0]] + a[1..] && b == [b[0]] + b[1..];
    forall p' | true
      ensures WithPrice(a[1..], p') == WithPrice(b[1..], p')
    {
      assert WithPrice(a, p') == WithPrice(b, p');
      WithPriceCons(a[0], a[1..], p');
      WithPriceCons(b[0], b[1..], p');
      if a[0].price == p' {
        assert ([a[0]] + WithPrice(a[1..], p'))[1..] == WithPrice(a[1..], p');
        assert ([b[0]] + WithPrice(b[1..], p'))[1..] == WithPrice(b[1..], p');
      }
    }
    SameClassesEqual(a[1..], b[1..]);
    assert a == [a[0]] + a[1..] && b == [b[0]] + b[1..];
  }
}
