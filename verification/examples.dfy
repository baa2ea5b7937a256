/**
  The worked examples of the repository's tests: a capacity-81 line whose
  selection is thing 4, a capacity-8 line whose only thing is too heavy, and
  the two lines packed together.
 */
module PackerExamples {
  import opened Wrappers
  import opened Numerals
  import opened Things
  import opened Grammar
  import opened Format
  import opened Texts
  import opened Packer
  import opened Selector

  /** `81 : (1,53.38,€45) (2,88.62,€98) (3,78.48,€3) (4,72.30,€76) (5,30.18,€9) (6,46.34,€48)` */
  function Line81(): Line {
    Line("81", [
      Group("1", Decimal("53", "38"), "45"),
      Group("2", Decimal("88", "62"), "98"),
      Group("3", Decimal("78", "48"), "3"),
      Group("4", Decimal("72", "30"), "76"),
      Group("5", Decimal("30", "18"), "9"),
      Group("6", Decimal("46", "34"), "48")])
  }

  /** The things of the capacity-81 line, weights in hundredths. */
  function Things81(): seq<Thing> {
    [Thing(1, 5338, 45), Thing(2, 8862, 98), Thing(3, 7848, 3),
     Thing(4, 7230, 76), Thing(5, 3018, 9), Thing(6, 4634, 48)]
  }

  /** What the capacity-81 line offers: no thing for the empty first piece, then its six things. */
  function Offered81(): seq<Option<Thing>> {
    [None, Some(Things81()[0]), Some(Things81()[1]), Some(Things81()[2]),
     Some(Things81()[3]), Some(Things81()[4]), Some(Things81()[5])]
  }

  /** `8 : (1,15.3,€34)` */
  function Line8(): Line {
    Line("8", [Group("1", Decimal("15", "3"), "34")])
  }

  // ---------------------------------------------------------------------------
  // Reading the capacity-81 line

  /**
    A group with a one-digit index, a weight of two digits on either side of
    the point and a price of one digit or of two without a leading zero is
    well formed, and describes the thing its digits spell.
   */
  lemma ReadShortGroup(g: Group)
    requires NonZeroDigit(g.index)
    requires TwoDigits(g.weight.whole) && TwoDigits(g.weight.frac)
    requires NonZeroDigit(g.price) || (TwoDigits(g.price) && g.price[0] != '0')
    ensures GroupText(g)
    ensures GroupThing(g).index == DigitValue(g.index[0])
    ensures GroupThing(g).weight == (DigitValue(g.weight.whole[0]) * 10 + DigitValue(g.weight.whole[1])) * 100
      + DigitValue(g.weight.frac[0]) * 10 + DigitValue(g.weight.frac[1])
    ensures GroupThing(g).price == if |g.price| == 1 then DigitValue(g.price[0])
      else DigitValue(g.price[0]) * 10 + DigitValue(g.price[1])
  {
    ShortValue(g.index);
    ShortValue(g.weight.whole);
    ShortValue(g.weight.frac);
    ShortValue(g.price);
  }

  /** Each group of the capacity-81 line is well formed and reads as the thing at its position. */
  lemma Line81Group(i: nat)
    requires i < |Line81().groups|
    ensures GroupText(Line81().groups[i]) && GroupThing(Line81().groups[i]) == Things81()[i]
  {
    ReadShortGroup(Line81().groups[i]);
  }

  /** The capacity-81 line passes the grammar; each group describes the thing at its position. */
  lemma Line81Matches()
    ensures Matches(Line81())
    ensures |Line81().groups| == |Things81()|
    ensures forall i :: 0 <= i < |Line81().groups| ==> GroupThing(Line81().groups[i]) == Things81()[i]
  {
    var line := Line81();
    forall i | 0 <= i < |line.groups|
      ensures GroupText(line.groups[i]) && GroupThing(line.groups[i]) == Things81()[i]
    {
      Line81Group(i);
    }
    assert AmountText(line.capacity);
  }

  /** An admitted line offers no thing for its first piece, then its groups' things in order. */
  lemma OfferedThings(line: Line, ts: seq<Thing>)
    requires Matches(line)
    requires |line.groups| == |ts|
    requires forall i :: 0 <= i < |ts| ==> GroupThing(line.groups[i]) == ts[i]
    ensures LineThings(line) == [None] + Present(ts)
  {
    ThingsOfLine(line);
    NoneThenPresent(LineThings(line), ts);
  }

  /** A list holding no thing and then exactly the things of `ts` is `[None] + Present(ts)`. */
  lemma NoneThenPresent(things: seq<Option<Thing>>, ts: seq<Thing>)
    requires |things| == |ts| + 1 && things[0].None?
    requires forall i :: 0 <= i < |ts| ==> things[i + 1] == Some(ts[i])
    ensures things == [None] + Present(ts)
  {
    var want := [None] + Present(ts);
    forall i | 0 <= i < |things|
      ensures things[i] == want[i]
    {
      if i > 0 {
        assert want[i] == Present(ts)[i - 1];
      }
    }
  }

  /** The offered list is the empty piece's `null` followed by the six things. */
  lemma Offered81Present()
    ensures Offered81() == [None] + Present(Things81())
  {
  }

  // ---------------------------------------------------------------------------
  // Selecting from the capacity-81 line

  /** Thing 4 is offered once. */
  lemma Offered81Count()
    ensures multiset(Offered81())[Some(Things81()[3])] == 1
  {
  }

  /** Every other offered thing within capacity 81.00 is cheaper than thing 4 and too heavy to join it. */
  lemma Offered81Member(y: Thing)
    requires Some(y) in multiset(Offered81()) && y.weight <= 8100
    ensures y == Things81()[3] || (y.price < 76 && y.weight + 7230 > 8100)
  {
  }

  /**
    Of the things within capacity 81.00 (all but thing 2, which weighs 88.62),
    thing 4 is the dearest and fits alongside none of the others, so it is
    packed alone and the result line is `4`.
   */
  lemma Line81Selection()
    ensures ProcessCostWeight(Candidates(Offered81(), 8100), 8100) == "4"
  {
    var x := Things81()[3];
    Offered81Count();
    forall y | Some(y) in multiset(Offered81()) && y.weight <= 8100
      ensures y == x || (y.price < x.price && y.weight + x.weight > 8100)
    {
      Offered81Member(y);
    }
    ProcessDominant(Offered81(), 8100, x);
    assert NatToString(4) == "4";
  }

  // ---------------------------------------------------------------------------
  // Whole lines

  /** The capacity-81 line gives the result line `4`. */
  lemma Line81Result()
    ensures ProcessBunchOfThings(Line81()) == "4"
  {
    var line := Line81();
    Line81Matches();
    OfferedThings(line, Things81());
    Offered81Present();
    assert CapacityOf(line) == 8100;
    assert LineCandidates(line) == Candidates(LineThings(line), 8100);
    Line81Selection();
  }

  /** The only thing weighs 15.30, more than the capacity 8, so nothing is packed. */
  lemma Line8Result()
    ensures ProcessBunchOfThings(Line8()) == "-"
  {
    var line := Line8();
    assert Matches(line);
    assert GroupWeight(line.groups[0]) == 1530;
    assert NothingFits(line);
  }

  /** Two parts, each followed by the terminator. */
  lemma TerminateTwo(parts: seq<string>, sep: char)
    requires |parts| == 2
    ensures Terminate(parts, sep) == parts[0] + [sep] + parts[1] + [sep]
  {
    var rest := parts[1..];
    assert rest[1..] == [];
    assert Terminate(rest, sep) == parts[1] + [sep] + "";
    assert Terminate(parts, sep) == parts[0] + [sep] + Terminate(rest, sep);
  }

  /**
    The two result lines, each ended by a line break. Stated apart from
    `PackFourDash`: with the results' contracts in scope the solver does not
    close this string equation within its resource limit.
   */
  lemma ResultLines(a: string, b: string)
    requires a == "4" && b == "-"
    ensures a + ['\n'] + b + ['\n'] == "4\n-\n"
  {
  }

  /** Packing two lines whose results are `4` and `-`. */
  lemma PackFourDash(first: Line, second: Line)
    requires ProcessBunchOfThings(first) == "4" && ProcessBunchOfThings(second) == "-"
    ensures Pack([first, second]) == "4\n-\n"
  {
    var rs := Results([first, second]);
    TerminateTwo(rs, '\n');
    ResultLines(rs[0], rs[1]);
  }

  /** The two lines packed together: each result on a line of its own. */
  lemma TwoLinesResult()
    ensures Pack([Line81(), Line8()]) == "4\n-\n"
  {
    Line81Result();
    Line8Result();
    PackFourDash(Line81(), Line8());
  }

  // ---------------------------------------------------------------------------
  // Zero prices

  /** `10 : (1,6.00,€00) (2,6.00,€00)` */
  function LineZero(): Line {
    Line("10", [Group("1", Decimal("6", "00"), "00"), Group("2", Decimal("6", "00"), "00")])
  }

  /**
    The grammar admits the price `00`, and the program's step then packs both
    things of 6.00 into the package of capacity 10: the result line is `1,2`,
    12.00 in all.
   */
  lemma LineZeroResult()
    ensures Matches(LineZero())
    ensures ProcessBunchOfThings(LineZero()) == "1,2"
    ensures TotalWeight(Chosen(LineZero())) == 1200 && CapacityOf(LineZero()) == 1000
  {
    LineZeroCandidates();
    ZeroPricesOverfill();
    FormatOneTwo(Chosen(LineZero()));
  }

  /** The zero-price line passes the grammar, has capacity 10.00 and both its things as candidates. */
  lemma LineZeroCandidates()
    ensures Matches(LineZero()) && CapacityOf(LineZero()) == 1000
    ensures LineCandidates(LineZero()) == [Thing(1, 600, 0), Thing(2, 600, 0)]
  {
    var line := LineZero();
    var a, b := Thing(1, 600, 0), Thing(2, 600, 0);
    ReadZeroGroup(line.groups[0]);
    ReadZeroGroup(line.groups[1]);
    assert AmountText(line.capacity);
    assert Value(line.capacity) == 10 by {
      ShortValue(line.capacity);
    }
    OfferedThings(line, [a, b]);
    AllCandidates([a, b], 1000);
  }

  /** The result line for things 1 and 2. */
  lemma FormatOneTwo(chosen: seq<Thing>)
    requires chosen == [Thing(1, 600, 0), Thing(2, 600, 0)]
    ensures FormatChosen(chosen) == "1,2"
  {
    var texts := IndexTexts(chosen);
    assert texts[0] == "1" && texts[1] == "2";
    assert texts[1..] == ["2"];
    assert Join(texts, ',') == texts[0] + [','] + texts[1];
  }

  /** A group `(I,6.00,€00)` with a one-digit index is well formed and reads as that index, 6.00 and price 0. */
  lemma ReadZeroGroup(g: Group)
    requires NonZeroDigit(g.index) && g.weight == Decimal("6", "00") && g.price == "00"
    ensures GroupText(g)
    ensures GroupThing(g) == Thing(DigitValue(g.index[0]), 600, 0)
  {
    ShortValue(g.index);
    ShortValue(g.weight.whole);
    ShortValue(g.weight.frac);
    ShortValue(g.price);
  }

  /** After the empty piece's `null`, things that all fit are all candidates, in order. */
  lemma {:induction false} AllCandidates(ts: seq<Thing>, capacity: nat)
    requires forall i :: 0 <= i < |ts| ==> ts[i].weight <= capacity
    ensures Candidates([None] + Present(ts), capacity) == ts
    decreases |ts|
  {
    if |ts| == 0 {
      CandidatesOfNone(capacity);
      assert [None] + Present(ts) == [None];
    } else {
      var front, last := ts[..|ts| - 1], ts[|ts| - 1];
      assert front + [last] == ts;
      AllCandidates(front, capacity);
      CandidatesFitStep(front, last, capacity);
    }
  }

  /** The empty piece alone gives no candidates. */
  lemma CandidatesOfNone(capacity: nat)
    ensures Candidates([None], capacity) == []
  {
    var none: seq<Option<Thing>> := [];
    CandidatesSnoc(none, None, capacity);
    assert none + [None] == [None];
  }

  /** One more thing that fits is one more candidate, at the end. */
  lemma CandidatesFitStep(front: seq<Thing>, t: Thing, capacity: nat)
    requires t.weight <= capacity
    requires Candidates([None] + Present(front), capacity) == front
    ensures Candidates([None] + Present(front + [t]), capacity) == front + [t]
  {
    PresentSnoc(front, t);
    CandidatesSnoc([None] + Present(front), Some(t), capacity);
  }

  /** Offering one more thing appends it to the offered list. */
  lemma PresentSnoc(front: seq<Thing>, t: Thing)
    ensures [None] + Present(front + [t]) == ([None] + Present(front)) + [Some(t)]
  {
  }

  /** The filter over one more thing: that thing is kept exactly when it is present and fits. */
  lemma CandidatesSnoc(front: seq<Option<Thing>>, last: Option<Thing>, capacity: nat)
    ensures Candidates(front + [last], capacity) ==
      if last.Some? && last.value.weight <= capacity then Candidates(front, capacity) + [last.value]
      else Candidates(front, capacity)
  {
    assert (front + [last])[..|front|] == front;
  }
}
