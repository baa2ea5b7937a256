/**
  The heuristic selector: the candidates, dearest first, are offered one by one
  to a step that keeps a list of chosen things. The step takes the first thing
  unconditionally, appends a thing that keeps the total weight strictly under
  the capacity, and otherwise swaps out the first cheapest chosen thing only
  for a thing of the same price that is strictly lighter.

  All weights and the capacity are in hundredths.
 */
module Selector {
  import opened Seqs
  import opened Things
  import opened Sorting

  /** Position of the first chosen thing of lowest price: the one `min` by price finds. */
  function LowestPriceIndex(s: seq<Thing>): (k: nat)
    requires |s| > 0
    ensures k < |s|
    ensures forall j :: 0 <= j < |s| ==> s[k].price <= s[j].price
    ensures forall j :: 0 <= j < k ==> s[j].price > s[k].price
  {
    if |s| == 1 then 0
    else
      var k' := LowestPriceIndex(s[1..]);
      if s[0].price <= s[k' + 1].price then 0 else k' + 1
  }

  /** The tie-break: same price as the cheapest chosen thing, but strictly lighter. */
  predicate SamePriceButLessWeight(t: Thing, lowest: Thing) {
    t.price == lowest.price && t.weight < lowest.weight
  }

  /**
    One step of the selector as the program writes it. A chosen list whose
    prices sum to zero takes the thing without a weight check: that is how the
    program recognises the empty list, but it also lets a thing into a
    non-empty list of zero-priced things (see `ZeroPricesOverfill`).
   */
  function PickThings(capacity: nat, chosen: seq<Thing>, t: Thing): seq<Thing> {
    if TotalPrice(chosen) > 0 then
      if TotalWeight(chosen) + t.weight < capacity then chosen + [t]
      else
        var k := LowestPriceIndex(chosen);
        if SamePriceButLessWeight(t, chosen[k]) then RemoveAt(chosen, k) + [t] else chosen
    else chosen + [t]
  }

  /** The step as evidently intended: the unconditional branch only for an empty list. */
  function PickThingsIntended(capacity: nat, chosen: seq<Thing>, t: Thing): seq<Thing> {
    if |chosen| == 0 then [t]
    else if TotalWeight(chosen) + t.weight < capacity then chosen + [t]
    else
      var k := LowestPriceIndex(chosen);
      if SamePriceButLessWeight(t, chosen[k]) then RemoveAt(chosen, k) + [t] else chosen
  }

  /** The chosen list after offering each of `ts`, in order, to the step. */
  function Choose(capacity: nat, ts: seq<Thing>): seq<Thing>
    decreases |ts|
  {
    if |ts| == 0 then []
    else PickThings(capacity, Choose(capacity, ts[..|ts| - 1]), ts[|ts| - 1])
  }

  /** `Choose` with the intended step. */
  function ChooseIntended(capacity: nat, ts: seq<Thing>): seq<Thing>
    decreases |ts|
  {
    if |ts| == 0 then []
    else PickThingsIntended(capacity, ChooseIntended(capacity, ts[..|ts| - 1]), ts[|ts| - 1])
  }

  /** The selection for a package: sort the candidates dearest first, then choose. */
  function Select(capacity: nat, candidates: seq<Thing>): seq<Thing> {
    Choose(capacity, SortByPrice(candidates))
  }

  // ---------------------------------------------------------------------------
  // The outcomes of one step

  /** The step's swap: the first cheapest chosen thing gives way to `t`. */
  predicate IsSwap(chosen: seq<Thing>, t: Thing, r: seq<Thing>) {
    && |chosen| > 0
    && var k := LowestPriceIndex(chosen);
    && SamePriceButLessWeight(t, chosen[k])
    && r == RemoveAt(chosen, k) + [t]
  }

  /**
    The step appends `t` to a list whose prices sum to zero (in particular
    takes it into an empty list) without looking at its weight. Otherwise it
    appends `t`, keeping every earlier choice in place, exactly when the new
    total stays strictly under the capacity; failing that it either swaps or
    leaves the list as it is, and it swaps exactly when `t` has the price of
    the first cheapest chosen thing and is strictly lighter.
   */
  lemma PickThingsOutcomes(capacity: nat, chosen: seq<Thing>, t: Thing)
    ensures var r := PickThings(capacity, chosen, t);
      && (|chosen| == 0 ==> r == [t])
      && (TotalPrice(chosen) == 0 ==> |r| == |chosen| + 1 && r[..|chosen|] == chosen && r[|chosen|] == t)
      && (TotalPrice(chosen) > 0 && TotalWeight(chosen) + t.weight < capacity ==>
            |r| == |chosen| + 1 && r[..|chosen|] == chosen && r[|chosen|] == t)
      && (TotalPrice(chosen) > 0 && TotalWeight(chosen) + t.weight >= capacity ==>
            (IsSwap(chosen, t, r) <==>
               SamePriceButLessWeight(t, chosen[LowestPriceIndex(chosen)]))
            && (!IsSwap(chosen, t, r) ==> r == chosen))
  {
    var r := PickThings(capacity, chosen, t);
    if TotalPrice(chosen) == 0 || TotalWeight(chosen) + t.weight < capacity {
      assert r[..|chosen|] == chosen;
    }
  }

  /**
    A thing that leaves no room strictly under the capacity is appended
    exactly when the chosen prices sum to zero; in particular a thing that
    would fill the capacity exactly is not appended to priced things.
   */
  lemma AppendWithoutRoom(capacity: nat, chosen: seq<Thing>, t: Thing)
    requires TotalWeight(chosen) + t.weight >= capacity
    ensures PickThings(capacity, chosen, t) == chosen + [t] <==> TotalPrice(chosen) == 0
  {
    if TotalPrice(chosen) > 0 {
      assert |PickThings(capacity, chosen, t)| == |chosen|;
    }
  }

  /** A swap keeps the number of chosen things and their total price, and makes them lighter. */
  lemma SwapKeepsCountAndPrice(chosen: seq<Thing>, t: Thing, r: seq<Thing>)
    requires IsSwap(chosen, t, r)
    ensures |r| == |chosen|
    ensures TotalPrice(r) == TotalPrice(chosen)
    ensures TotalWeight(r) < TotalWeight(chosen)
    ensures r[|r| - 1] == t
  {
    var k := LowestPriceIndex(chosen);
    TotalsOfRemoveAt(chosen, k);
    TotalsOfConcat(RemoveAt(chosen, k), [t]);
    assert TotalWeight([t]) == t.weight && TotalPrice([t]) == t.price;
  }

  // ---------------------------------------------------------------------------
  // What one step preserves

  /** A step never lowers the price sum of the chosen things. */
  lemma PickThingsKeepsPrice(capacity: nat, chosen: seq<Thing>, t: Thing)
    ensures TotalPrice(PickThings(capacity, chosen, t)) >= TotalPrice(chosen)
  {
    var r := PickThings(capacity, chosen, t);
    TotalsOfConcat(chosen, [t]);
    if TotalPrice(chosen) > 0 && TotalWeight(chosen) + t.weight >= capacity && IsSwap(chosen, t, r) {
      SwapKeepsCountAndPrice(chosen, t, r);
    }
  }

  /** The chosen list stays a subsequence of the things offered so far. */
  lemma PickThingsSubseq(capacity: nat, chosen: seq<Thing>, done: seq<Thing>, t: Thing)
    requires IsSubseq(chosen, done)
    ensures IsSubseq(PickThings(capacity, chosen, t), done + [t])
  {
    if TotalPrice(chosen) > 0 && TotalWeight(chosen) + t.weight >= capacity {
      var k := LowestPriceIndex(chosen);
      if SamePriceButLessWeight(t, chosen[k]) {
        SubseqRemove(chosen, done, k);
        SubseqAppend(RemoveAt(chosen, k), done, t);
      } else {
        SubseqExtend(chosen, done, t);
      }
    } else {
      SubseqAppend(chosen, done, t);
    }
  }

  /** No thing heavier than the capacity is offered, so one intended step keeps the chosen list within it. */
  lemma PickThingsIntendedFits(capacity: nat, chosen: seq<Thing>, t: Thing)
    requires TotalWeight(chosen) <= capacity
    requires t.weight <= capacity
    ensures TotalWeight(PickThingsIntended(capacity, chosen, t)) <= capacity
  {
    var r := PickThingsIntended(capacity, chosen, t);
    if |chosen| == 0 {
      assert TotalWeight([t]) == t.weight;
    } else if TotalWeight(chosen) + t.weight < capacity {
      TotalsOfConcat(chosen, [t]);
      assert TotalWeight([t]) == t.weight;
    } else if IsSwap(chosen, t, r) {
      SwapKeepsCountAndPrice(chosen, t, r);
    }
  }

  /**
    While the chosen list is empty or priced, the program's price-sum test is
    an emptiness test, so its step and the intended step agree.
   */
  lemma PickThingsAgree(capacity: nat, chosen: seq<Thing>, t: Thing)
    requires |chosen| == 0 || TotalPrice(chosen) > 0
    ensures PickThings(capacity, chosen, t) == PickThingsIntended(capacity, chosen, t)
  {
    assert [] + [t] == [t];
  }

  // ---------------------------------------------------------------------------
  // What the whole run guarantees

  /**
    The chosen things are some of the offered things, in the order offered:
    no thing is chosen twice and there are no more of them than were offered.
   */
  lemma ChooseSubseq(capacity: nat, ts: seq<Thing>)
    ensures IsSubseq(Choose(capacity, ts), ts)
    ensures multiset(Choose(capacity, ts)) <= multiset(ts)
    ensures |Choose(capacity, ts)| <= |ts|
  {
    ChooseKeepsOrder(capacity, ts);
    SubseqMultiset(Choose(capacity, ts), ts);
  }

  /** The chosen things keep the order in which they were offered. */
  lemma {:induction false} ChooseKeepsOrder(capacity: nat, ts: seq<Thing>)
    ensures IsSubseq(Choose(capacity, ts), ts)
    decreases |ts|
  {
    if |ts| > 0 {
      var front, t := ts[..|ts| - 1], ts[|ts| - 1];
      assert front + [t] == ts;
      ChooseKeepsOrder(capacity, front);
      PickThingsSubseq(capacity, Choose(capacity, front), front, t);
    }
  }

  /** Something is chosen exactly when something is offered: steps never empty the list. */
  lemma {:induction false} ChooseEmptyIff(capacity: nat, ts: seq<Thing>)
    ensures |Choose(capacity, ts)| == 0 <==> |ts| == 0
    decreases |ts|
  {
    if |ts| > 0 {
      var chosen := Choose(capacity, ts[..|ts| - 1]);
      var t := ts[|ts| - 1];
      var r := PickThings(capacity, chosen, t);
      if TotalPrice(chosen) > 0 && TotalWeight(chosen) + t.weight >= capacity && IsSwap(chosen, t, r) {
        SwapKeepsCountAndPrice(chosen, t, r);
      }
    }
  }

  /**
    Offered dearest first, the chosen list always holds a thing of the highest
    offered price: the first thing is always taken, and a swap only replaces
    a thing by one of the same price.
   */
  lemma {:induction false} ChooseKeepsTopPrice(capacity: nat, ts: seq<Thing>)
    requires |ts| > 0
    requires NonIncreasing(ts)
    ensures exists i :: 0 <= i < |Choose(capacity, ts)| && Choose(capacity, ts)[i].price == ts[0].price
    decreases |ts|
  {
    var front := ts[..|ts| - 1];
    var t := ts[|ts| - 1];
    var r := Choose(capacity, ts);
    if |front| == 0 {
      assert Choose(capacity, front) == [];
      assert r == [t];
      assert r[0].price == ts[0].price;
    } else {
      ChooseKeepsTopPrice(capacity, front);
      var chosen := Choose(capacity, front);
      var i :| 0 <= i < |chosen| && chosen[i].price == front[0].price;
      assert front[0] == ts[0];
      if TotalPrice(chosen) == 0 || TotalWeight(chosen) + t.weight < capacity {
        assert r[i] == chosen[i];
      } else {
        var k := LowestPriceIndex(chosen);
        if SamePriceButLessWeight(t, chosen[k]) {
          if i == k {
            assert r[|r| - 1] == t;
          } else if i < k {
            assert r[i] == chosen[i];
          } else {
            assert r[i - 1] == chosen[i];
          }
        } else {
          assert r[i] == chosen[i];
        }
      }
    }
  }

  /** Every candidate fits on its own, so the intended run never exceeds the capacity. */
  lemma {:induction false} ChooseIntendedFits(capacity: nat, ts: seq<Thing>)
    requires forall i :: 0 <= i < |ts| ==> ts[i].weight <= capacity
    ensures TotalWeight(ChooseIntended(capacity, ts)) <= capacity
    decreases |ts|
  {
    if |ts| > 0 {
      ChooseIntendedFits(capacity, ts[..|ts| - 1]);
      PickThingsIntendedFits(capacity, ChooseIntended(capacity, ts[..|ts| - 1]), ts[|ts| - 1]);
    }
  }

  /**
    Offered dearest first with the dearest thing priced at least 1, the
    chosen prices never sum to zero after the first step, so the program's run
    chooses exactly what the intended run chooses.
   */
  lemma {:induction false} ChooseAgrees(capacity: nat, ts: seq<Thing>)
    requires NonIncreasing(ts)
    requires |ts| > 0 && ts[0].price >= 1
    ensures Choose(capacity, ts) == ChooseIntended(capacity, ts)
    ensures TotalPrice(Choose(capacity, ts)) >= ts[0].price
    decreases |ts|
  {
    var front, t := ts[..|ts| - 1], ts[|ts| - 1];
    if |front| == 0 {
      assert Choose(capacity, front) == [] && ChooseIntended(capacity, front) == [];
      assert [] + [t] == [t];
      assert TotalPrice([t]) == t.price;
    } else {
      assert front[0] == ts[0];
      ChooseAgrees(capacity, front);
      var chosen := Choose(capacity, front);
      PickThingsAgree(capacity, chosen, t);
      PickThingsKeepsPrice(capacity, chosen, t);
    }
  }

  /**
    The selection keeps within the capacity when every candidate does on its
    own and some candidate is priced at least 1. When every candidate is
    priced 0 the program's step can exceed it (`ZeroPricesOverfill`).
   */
  lemma SelectFits(capacity: nat, candidates: seq<Thing>)
    requires forall i :: 0 <= i < |candidates| ==> candidates[i].weight <= capacity
    requires exists i :: 0 <= i < |candidates| && candidates[i].price >= 1
    ensures TotalWeight(Select(capacity, candidates)) <= capacity
  {
    var sorted := SortByPrice(candidates);
    forall i | 0 <= i < |sorted|
      ensures sorted[i].weight <= capacity
    {
      assert sorted[i] in multiset(candidates);
    }
    var i :| 0 <= i < |candidates| && candidates[i].price >= 1;
    assert candidates[i] in multiset(sorted);
    var j :| 0 <= j < |sorted| && sorted[j] == candidates[i];
    assert sorted[0].price >= sorted[j].price;
    ChooseAgrees(capacity, sorted);
    ChooseIntendedFits(capacity, sorted);
  }

  /**
    The selection is a list of distinct candidates, in dearest-first order,
    empty exactly when there are no candidates, and holding a thing of the
    highest candidate price when there are some.
   */
  lemma SelectShape(capacity: nat, candidates: seq<Thing>)
    ensures var r := Select(capacity, candidates);
      && multiset(r) <= multiset(candidates)
      && NonIncreasing(r)
      && (|r| == 0 <==> |candidates| == 0)
      && (forall x :: x in candidates ==> exists i :: 0 <= i < |r| && r[i].price >= x.price)
  {
    var sorted := SortByPrice(candidates);
    var r := Choose(capacity, sorted);
    ChooseSubseq(capacity, sorted);
    ChooseEmptyIff(capacity, sorted);
    SubseqNonIncreasing(r, sorted);
    if |candidates| > 0 {
      ChooseKeepsTopPrice(capacity, sorted);
      var i :| 0 <= i < |r| && r[i].price == sorted[0].price;
      DearestFirst(candidates, sorted);
      forall x | x in candidates
        ensures exists i :: 0 <= i < |r| && r[i].price >= x.price
      {
        assert r[i].price >= x.price;
      }
    }
  }

  /**
    A candidate dearer than every other candidate, that fits the capacity but
    fits alongside none of the others, is the whole selection.
   */
  lemma SelectDominant(capacity: nat, candidates: seq<Thing>, x: Thing)
    requires x in candidates
    requires multiset(candidates)[x] == 1
    requires forall i :: 0 <= i < |candidates| ==> candidates[i].weight <= capacity
    requires forall i :: 0 <= i < |candidates| ==>
      candidates[i] == x || (candidates[i].price < x.price && candidates[i].weight + x.weight > capacity)
    ensures Select(capacity, candidates) == [x]
  {
    var r := Select(capacity, candidates);
    SelectShape(capacity, candidates);
    var k :| 0 <= k < |r| && r[k].price >= x.price;
    forall j | 0 <= j < |r|
      ensures r[j] == x || (r[j].price < x.price && r[j].weight + x.weight > capacity)
    {
      assert r[j] in multiset(candidates);
      var c :| 0 <= c < |candidates| && candidates[c] == r[j];
    }
    HeavyCompanions(capacity, r, k, x);
    if x.price >= 1 {
      var c :| 0 <= c < |candidates| && candidates[c] == x;
      SelectFits(capacity, candidates);
    }
  }

  /**
    A list holding `x` once, whose every other thing is cheaper than `x` and
    too heavy to go alongside it, either is `x` alone or holds a cheaper thing
    (so `x` is priced) and weighs more than the capacity.
   */
  lemma HeavyCompanions(capacity: nat, r: seq<Thing>, k: nat, x: Thing)
    requires k < |r| && r[k].price >= x.price && multiset(r)[x] <= 1
    requires forall j :: 0 <= j < |r| ==>
      r[j] == x || (r[j].price < x.price && r[j].weight + x.weight > capacity)
    ensures r == [x] || (TotalWeight(r) > capacity && x.price >= 1)
  {
    if |r| > 1 {
      var m := if k == 0 then 1 else 0;
      OnceDistinct(r, k, m);
      TotalWeightOfTwo(r, k, m);
    }
  }

  /** A subsequence of a dearest-first list is dearest first. */
  lemma {:induction false} SubseqNonIncreasing(a: seq<Thing>, b: seq<Thing>)
    requires IsSubseq(a, b)
    requires NonIncreasing(b)
    ensures NonIncreasing(a)
    decreases |b|
  {
    if |a| > 0 {
      var a', b' := a[..|a| - 1], b[..|b| - 1];
      assert NonIncreasing(b');
      if a[|a| - 1] == b[|b| - 1] && IsSubseq(a', b') {
        SubseqNonIncreasing(a', b');
        forall i | 0 <= i < |a'|
          ensures a[i].price >= a[|a| - 1].price
        {
          SubseqMultiset(a', b');
          assert a'[i] in multiset(b');
          var j :| 0 <= j < |b'| && b'[j] == a'[i];
          assert b[j] == a[i];
        }
      } else {
        SubseqNonIncreasing(a, b');
      }
    }
  }

  // ---------------------------------------------------------------------------
  // Zero prices

  /**
    The program's step appends to a chosen list whose prices are all zero
    whatever the weights: two zero-priced things of 6.00 each are both
    selected for a package of capacity 10.00, where the intended run takes
    only the first.
   */
  lemma ZeroPricesOverfill()
    ensures var a, b := Thing(1, 600, 0), Thing(2, 600, 0);
      && Select(1000, [a, b]) == [a, b]
      && TotalWeight(Select(1000, [a, b])) == 1200
      && ChooseIntended(1000, [a, b]) == [a]
  {
    var a, b := Thing(1, 600, 0), Thing(2, 600, 0);
    assert [b][1..] == [];
    assert SortByPrice([b]) == [b];
    assert [a, b][1..] == [b];
    assert SortByPrice([a, b]) == [a, b];
    assert [a, b][..1] == [a];
    assert [a][..0] == [];
    assert Choose(1000, [a]) == [a];
    assert ChooseIntended(1000, [a]) == [a];
    assert [a][1..] == [];
    assert TotalPrice([a]) == 0;
    assert [a] + [b] == [a, b];
    assert TotalWeight([a, b]) == 1200;
  }
}
