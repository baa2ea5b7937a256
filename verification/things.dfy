/**
  The things a package line offers. Weights are integer hundredths (every
  weight the line grammar admits has at most two fractional digits).
 */
module Things {
  import opened Seqs

  /** One candidate thing: its index in the line, its weight in hundredths, its price. */
  datatype Thing = Thing(index: nat, weight: nat, price: nat)

  /** The `weightSum` of a list of things. */
  function TotalWeight(s: seq<Thing>): nat {
    if |s| == 0 then 0 else s[0].weight + TotalWeight(s[1..])
  }

  /** The `priceSum` of a list of things. */
  function TotalPrice(s: seq<Thing>): nat {
    if |s| == 0 then 0 else s[0].price + TotalPrice(s[1..])
  }

  /** The totals of a concatenation are the sums of the totals. */
  lemma {:induction false} TotalsOfConcat(a: seq<Thing>, b: seq<Thing>)
    ensures TotalWeight(a + b) == TotalWeight(a) + TotalWeight(b)
    ensures TotalPrice(a + b) == TotalPrice(a) + TotalPrice(b)
    decreases |a|
  {
    if |a| == 0 {
      assert a + b == b;
    } else {
      assert (a + b)[1..] == a[1..] + b;
      TotalsOfConcat(a[1..], b);
    }
  }

  /** Removing one thing takes exactly its weight and its price off the totals. */
  lemma {:induction false} TotalsOfRemoveAt(s: seq<Thing>, k: nat)
    requires k < |s|
    ensures TotalWeight(RemoveAt(s, k)) + s[k].weight == TotalWeight(s)
    ensures TotalPrice(RemoveAt(s, k)) + s[k].price == TotalPrice(s)
    decreases k
  {
    if k == 0 {
      assert RemoveAt(s, 0) == s[1..];
    } else {
      assert RemoveAt(s, k)[1..] == RemoveAt(s[1..], k - 1);
      TotalsOfRemoveAt(s[1..], k - 1);
    }
  }

  /** Any two things of a list weigh no more than the whole list. */
  lemma TotalWeightOfTwo(s: seq<Thing>, i: nat, j: nat)
    requires i < |s| && j < |s| && i != j
    ensures s[i].weight + s[j].weight <= TotalWeight(s)
  {
    var k, other := if i < j then j else i, if i < j then i else j;
    TotalsOfRemoveAt(s, k);
    var rest := RemoveAt(s, k);
    assert rest[other] == s[other];
    TotalsOfRemoveAt(rest, other);
  }
}
