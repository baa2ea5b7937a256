/**
  The per-line pipeline: check the line against the grammar, turn its tokens
  into things, keep those within the capacity, select, and write the result
  line; then put every line's result on a line of its own.
 */
module Packer {
  import opened Wrappers
  import opened Seqs
  import opened Numerals
  import opened Things
  import opened Grammar
  import opened Sorting
  import opened Selector
  import opened Format
  import opened Texts

  /** The capacity of a line, in hundredths. */
  function CapacityOf(line: Line): nat
    requires AmountText(line.capacity)
  {
    AmountTextRange(line.capacity);
    Value(line.capacity) * 100
  }

  /** The list of things, one per token, `null` (`None`) for the empty piece. */
  function ExtractThings(tokens: seq<Token>): (r: seq<Option<Thing>>)
    requires forall i :: 0 <= i < |tokens| ==> Parsable(tokens[i])
    ensures |r| == |tokens|
    ensures forall i :: 0 <= i < |r| ==> r[i] == ConvertToThing(tokens[i])
  {
    seq(|tokens|, i requires 0 <= i < |tokens| => ConvertToThing(tokens[i]))
  }

  /** The things themselves, each wrapped as present. */
  function Present(s: seq<Thing>): (r: seq<Option<Thing>>)
    ensures |r| == |s|
    ensures forall i :: 0 <= i < |s| ==> r[i] == Some(s[i])
  {
    seq(|s|, i requires 0 <= i < |s| => Some(s[i]))
  }

  /** No thing in `things` is both present and within the capacity. */
  predicate NoneFits(things: seq<Option<Thing>>, capacity: nat) {
    forall i :: 0 <= i < |things| ==> things[i].None? || things[i].value.weight > capacity
  }

  /**
    The capacity filter: exactly the present things no heavier than the
    capacity, each as often as it occurs, in their order in the line.
   */
  function Candidates(things: seq<Option<Thing>>, capacity: nat): (r: seq<Thing>)
    ensures forall i :: 0 <= i < |r| ==> r[i].weight <= capacity
    ensures forall x :: multiset(r)[x] == if x.weight <= capacity then multiset(things)[Some(x)] else 0
    ensures IsSubseq(Present(r), things)
    ensures |r| == 0 <==> NoneFits(things, capacity)
    decreases |things|
  {
    if |things| == 0 then []
    else
      var last := things[|things| - 1];
      var r' := Candidates(things[..|things| - 1], capacity);
      var r := if last.Some? && last.value.weight <= capacity then r' + [last.value] else r';
      CandidatesExtend(things, capacity, r', r);
      r
  }

  /** One more thing at the end of the list: the filter's contract carries over. */
  lemma CandidatesExtend(things: seq<Option<Thing>>, capacity: nat, r': seq<Thing>, r: seq<Thing>)
    requires |things| > 0
    requires var front := things[..|things| - 1];
      && (forall i :: 0 <= i < |r'| ==> r'[i].weight <= capacity)
      && (forall x :: multiset(r')[x] == if x.weight <= capacity then multiset(front)[Some(x)] else 0)
      && IsSubseq(Present(r'), front)
      && (|r'| == 0 <==> NoneFits(front, capacity))
    requires var last := things[|things| - 1];
      r == if last.Some? && last.value.weight <= capacity then r' + [last.value] else r'
    ensures forall i :: 0 <= i < |r| ==> r[i].weight <= capacity
    ensures forall x :: multiset(r)[x] == if x.weight <= capacity then multiset(things)[Some(x)] else 0
    ensures IsSubseq(Present(r), things)
    ensures |r| == 0 <==> NoneFits(things, capacity)
  {
    var front, last := things[..|things| - 1], things[|things| - 1];
    assert things == front + [last];
    assert forall x :: multiset(r)[x] == if x.weight <= capacity then multiset(things)[Some(x)] else 0 by {
      CandidatesCountStep(front, last, capacity, r', r);
    }
    assert IsSubseq(Present(r), things) by {
      CandidatesOrderStep(front, last, capacity, r', r);
    }
    assert |r| == 0 <==> NoneFits(things, capacity) by {
      NoneFitsStep(front, last, capacity);
    }
  }

  /** The filter keeps the offered order across one more thing. */
  lemma CandidatesOrderStep(front: seq<Option<Thing>>, last: Option<Thing>, capacity: nat, r': seq<Thing>, r: seq<Thing>)
    requires IsSubseq(Present(r'), front)
    requires r == if last.Some? && last.value.weight <= capacity then r' + [last.value] else r'
    ensures IsSubseq(Present(r), front + [last])
  {
    if last.Some? && last.value.weight <= capacity {
      assert Present(r) == Present(r') + [last];
      SubseqAppend(Present(r'), front, last);
    } else {
      SubseqExtend(Present(r'), front, last);
    }
  }

  /** The filter keeps every count right across one more thing. */
  lemma CandidatesCountStep(front: seq<Option<Thing>>, last: Option<Thing>, capacity: nat, r': seq<Thing>, r: seq<Thing>)
    requires forall x :: multiset(r')[x] == if x.weight <= capacity then multiset(front)[Some(x)] else 0
    requires r == if last.Some? && last.value.weight <= capacity then r' + [last.value] else r'
    ensures forall x :: multiset(r)[x] == if x.weight <= capacity then multiset(front + [last])[Some(x)] else 0
  {
    forall x
      ensures multiset(r)[x] == if x.weight <= capacity then multiset(front + [last])[Some(x)] else 0
    {
      assert multiset(front + [last])[Some(x)] == multiset(front)[Some(x)] + (if last == Some(x) then 1 else 0);
      if last.Some? && last.value.weight <= capacity {
        assert multiset(r)[x] == multiset(r')[x] + (if last.value == x then 1 else 0);
      }
    }
  }

  /** Nothing fits in a longer list exactly when nothing fits in its front and the last one does not fit. */
  lemma NoneFitsStep(front: seq<Option<Thing>>, last: Option<Thing>, capacity: nat)
    ensures NoneFits(front + [last], capacity) <==>
      NoneFits(front, capacity) && (last.None? || last.value.weight > capacity)
  {
    var things := front + [last];
    assert things[|front|] == last;
    assert forall i :: 0 <= i < |front| ==> things[i] == front[i];
  }

  /** `processThings`: convert every token and keep the things within the capacity. */
  function ProcessThings(tokens: seq<Token>, capacity: nat): seq<Thing>
    requires forall i :: 0 <= i < |tokens| ==> Parsable(tokens[i])
  {
    Candidates(ExtractThings(tokens), capacity)
  }

  /** `processCostWeight`: sort dearest first, run the selector, write the result line. */
  function ProcessCostWeight(candidates: seq<Thing>, capacity: nat): string {
    FormatChosen(Select(capacity, candidates))
  }

  /**
    When one offered thing within the capacity is dearer than every other
    such thing and fits alongside none of them, the result line is its index
    alone.
   */
  lemma ProcessDominant(things: seq<Option<Thing>>, capacity: nat, x: Thing)
    requires multiset(things)[Some(x)] == 1 && x.weight <= capacity
    requires forall y :: Some(y) in multiset(things) && y.weight <= capacity ==>
      y == x || (y.price < x.price && y.weight + x.weight > capacity)
    ensures ProcessCostWeight(Candidates(things, capacity), capacity) == FormatChosen([x])
  {
    var cands := Candidates(things, capacity);
    forall i | 0 <= i < |cands|
      ensures cands[i] == x || (cands[i].price < x.price && cands[i].weight + x.weight > capacity)
    {
      assert cands[i] in multiset(cands);
    }
    SelectDominant(capacity, cands, x);
  }

  /** The things of a line the grammar admits, one per token. */
  function LineThings(line: Line): seq<Option<Thing>>
    requires Matches(line)
  {
    MatchesParsable(line);
    ExtractThings(Tokens(line))
  }

  /** The candidates of a line the grammar admits. */
  function LineCandidates(line: Line): seq<Thing>
    requires Matches(line)
  {
    MatchesParsable(line);
    ProcessThings(Tokens(line), CapacityOf(line))
  }

  /** What the selector picks for a line the grammar admits. */
  function Chosen(line: Line): seq<Thing>
    requires Matches(line)
  {
    Select(CapacityOf(line), LineCandidates(line))
  }

  /** No group of the line is light enough to fit the capacity on its own. */
  predicate NothingFits(line: Line)
    requires Matches(line)
  {
    forall i :: 0 <= i < |line.groups| ==> GroupWeight(line.groups[i]) > CapacityOf(line)
  }

  /**
    `processBunchOfThings`: the result line for one package line. It is the
    sentinel exactly when the grammar rejects the line or no group fits the
    capacity on its own, and it never holds a line break.
   */
  function ProcessBunchOfThings(line: Line): (r: string)
    ensures r == "-" <==> !Matches(line) || NothingFits(line)
    ensures forall j :: 0 <= j < |r| ==> r[j] != '\n'
  {
    if !Matches(line) then "-"
    else
      var capacity := CapacityOf(line);
      var candidates := LineCandidates(line);
      CandidatesOfLine(line);
      SelectShape(capacity, candidates);
      ProcessCostWeight(candidates, capacity)
  }

  /** The candidates of an admitted line are empty exactly when no group fits on its own. */
  lemma CandidatesOfLine(line: Line)
    requires Matches(line)
    ensures |LineCandidates(line)| == 0 <==> NothingFits(line)
  {
    assert LineCandidates(line) == Candidates(LineThings(line), CapacityOf(line));
    NoneFitsOfLine(line);
  }

  /** No offered thing of an admitted line fits exactly when no group fits on its own. */
  lemma NoneFitsOfLine(line: Line)
    requires Matches(line)
    ensures NoneFits(LineThings(line), CapacityOf(line)) <==> NothingFits(line)
  {
    ThingsOfLine(line);
    NoneFitsOfGroups(line, LineThings(line));
  }

  /** The same, for any list holding no thing and then the things of the line's groups. */
  lemma NoneFitsOfGroups(line: Line, things: seq<Option<Thing>>)
    requires Matches(line)
    requires |things| == |line.groups| + 1 && things[0].None?
    requires forall i :: 1 <= i < |things| ==> things[i] == Some(GroupThing(line.groups[i - 1]))
    ensures NoneFits(things, CapacityOf(line)) <==> NothingFits(line)
  {
    var capacity := CapacityOf(line);
    if NoneFits(things, capacity) {
      forall i | 0 <= i < |line.groups|
        ensures GroupWeight(line.groups[i]) > capacity
      {
        assert things[i + 1].Some?;
      }
    } else {
      var j :| 0 <= j < |things| && !(things[j].None? || things[j].value.weight > capacity);
      assert GroupWeight(line.groups[j - 1]) <= capacity;
    }
  }

  /** The first token of a line gives no thing; every further one gives the thing of its group. */
  lemma ThingsOfLine(line: Line)
    requires Matches(line)
    ensures var things := LineThings(line);
      && |things| == |line.groups| + 1
      && things[0].None?
      && forall i :: 0 <= i < |line.groups| ==>
           things[i + 1] == Some(GroupThing(line.groups[i]))
  {
    MatchesParsable(line);
    var tokens := Tokens(line);
    var things := LineThings(line);
    forall i | 0 <= i < |line.groups|
      ensures things[i + 1] == Some(GroupThing(line.groups[i]))
    {
      assert tokens[i + 1] == Piece(line.groups[i]);
      ConvertAdmitted(line.groups[i]);
    }
  }

  /**
    For a line the grammar admits, the chosen things are drawn from the line's
    candidates and the result line reads back as their indices.
   */
  lemma LineReadsBack(line: Line)
    requires Matches(line)
    ensures ParseChosen(ProcessBunchOfThings(line)) == Some(Indices(Chosen(line)))
    ensures multiset(Chosen(line)) <= multiset(LineCandidates(line))
  {
    SelectShape(CapacityOf(line), LineCandidates(line));
    FormatRoundTrip(Chosen(line));
  }

  /** Some group of the line fits the capacity on its own and is priced at least 1. */
  predicate SomePricedFits(line: Line)
    requires Matches(line)
  {
    exists i :: 0 <= i < |line.groups| &&
      GroupWeight(line.groups[i]) <= CapacityOf(line) && GroupThing(line.groups[i]).price >= 1
  }

  /**
    The chosen things of an admitted line stay within its capacity when some
    group that fits on its own is priced at least 1. When every fitting group
    is priced 0 the program's step can exceed the capacity.
   */
  lemma LineWithinCapacity(line: Line)
    requires Matches(line)
    requires SomePricedFits(line)
    ensures TotalWeight(Chosen(line)) <= CapacityOf(line)
  {
    var i :| 0 <= i < |line.groups| &&
      GroupWeight(line.groups[i]) <= CapacityOf(line) && GroupThing(line.groups[i]).price >= 1;
    FittingGroupCandidate(line, i);
    SelectFits(CapacityOf(line), LineCandidates(line));
  }

  /** A group that fits the capacity on its own is among the line's candidates. */
  lemma FittingGroupCandidate(line: Line, i: nat)
    requires Matches(line)
    requires i < |line.groups| && GroupWeight(line.groups[i]) <= CapacityOf(line)
    ensures exists j :: 0 <= j < |LineCandidates(line)| && LineCandidates(line)[j] == GroupThing(line.groups[i])
  {
    var things := LineThings(line);
    var candidates := LineCandidates(line);
    assert candidates == Candidates(things, CapacityOf(line));
    ThingsOfLine(line);
    var x := GroupThing(line.groups[i]);
    assert things[i + 1] == Some(x);
    assert Some(x) in multiset(things);
    assert multiset(candidates)[x] > 0;
    assert x in candidates;
  }

  /** The result lines, one per package line. */
  function Results(lines: seq<Line>): (r: seq<string>)
    ensures |r| == |lines|
    ensures forall i :: 0 <= i < |lines| ==> r[i] == ProcessBunchOfThings(lines[i])
  {
    seq(|lines|, i requires 0 <= i < |lines| => ProcessBunchOfThings(lines[i]))
  }

  /** `pack`: every line's result followed by a line break, in line order. */
  function Pack(lines: seq<Line>): string {
    Terminate(Results(lines), '\n')
  }

  /**
    Cutting the output at its line breaks gives each line's result, in order,
    followed by the empty rest after the final line break: one line never
    affects another's result.
   */
  lemma PackLines(lines: seq<Line>)
    ensures Split(Pack(lines), '\n') == Results(lines) + [""]
  {
    var rs := Results(lines);
    forall i | 0 <= i < |rs|
      ensures '\n' !in rs[i]
    {
      var r := ProcessBunchOfThings(lines[i]);
      assert forall j :: 0 <= j < |r| ==> r[j] != '\n';
    }
    SplitTerminate(rs, '\n');
  }
}
