/**
  The line grammar and the conversion of one item token into a thing.

  A line reads `C : (I,W,€P) (I,W,€P) ...`. The model holds it as its fields:
  the capacity numeral and, per parenthesised group, the index numeral, the
  two sides of the weight's decimal point and the price numeral. The grammar
  becomes a predicate over those fields, one per alternative of the line's
  regular expression, and `LineText` renders the fields as the line's text so
  that the program's splitting of that text can be stated.
 */
module Grammar {
  import opened Wrappers
  import opened Numerals
  import opened Things
  import opened Texts

  /** A decimal weight `whole.frac`, as written in the line. */
  datatype Decimal = Decimal(whole: string, frac: string)

  /** One `(index,weight,€price)` group. */
  datatype Group = Group(index: string, weight: Decimal, price: string)

  /** One package line: the capacity before the colon and the groups after it. */
  datatype Line = Line(capacity: string, groups: seq<Group>)

  /**
    A piece that splitting the text after the colon at single spaces gives:
    the empty piece before the first group's space, or one group.
   */
  datatype Token = Blank | Piece(group: Group)

  /** A single digit 1 to 9: the `[1-9]` alternative. */
  predicate NonZeroDigit(s: string) {
    |s| == 1 && '1' <= s[0] <= '9'
  }

  /** Exactly two digits, leading zero allowed: the `\d\d` alternative. */
  predicate TwoDigits(s: string) {
    |s| == 2 && Digits(s)
  }

  /** `[1-9]|\d\d|100`: the capacity and the price. */
  predicate AmountText(s: string) {
    NonZeroDigit(s) || TwoDigits(s) || s == "100"
  }

  /** `[1-9]|1[0-5]`: the index. */
  predicate IndexText(s: string) {
    NonZeroDigit(s) || (|s| == 2 && s[0] == '1' && '0' <= s[1] <= '5')
  }

  /** `([1-9]|\d\d)\.([1-9]|\d\d)|100\.00`: the weight. */
  predicate WeightText(w: Decimal) {
    ((NonZeroDigit(w.whole) || TwoDigits(w.whole)) && (NonZeroDigit(w.frac) || TwoDigits(w.frac)))
    || (w.whole == "100" && w.frac == "00")
  }

  /**
    One `(index,weight,€price)` group as the line's regular expression admits
    it; the price has the same alternatives as the capacity.
   */
  predicate GroupText(g: Group) {
    IndexText(g.index) && WeightText(g.weight) && AmountText(g.price)
  }

  /** The whole line grammar: a capacity, then one or more well-formed groups. */
  predicate Matches(line: Line) {
    && AmountText(line.capacity)
    && |line.groups| >= 1
    && forall i :: 0 <= i < |line.groups| ==> GroupText(line.groups[i])
  }

  // ---------------------------------------------------------------------------
  // The line as text, and how the program cuts it

  /** The text of one group, `(I,W.F,€P)`. */
  function GroupString(g: Group): string {
    "(" + g.index + "," + g.weight.whole + "." + g.weight.frac + ",€" + g.price + ")"
  }

  /** The texts of the groups, in order. */
  function GroupStrings(gs: seq<Group>): (r: seq<string>)
    ensures |r| == |gs|
    ensures forall i :: 0 <= i < |gs| ==> r[i] == GroupString(gs[i])
  {
    seq(|gs|, i requires 0 <= i < |gs| => GroupString(gs[i]))
  }

  /** The text after the colon: every group preceded by a single space. */
  function AfterColon(line: Line): string {
    " " + Join(GroupStrings(line.groups), ' ')
  }

  /** The whole line: the capacity, ` :`, then the groups. */
  function LineText(line: Line): string {
    line.capacity + " :" + AfterColon(line)
  }

  /** The text a token stands for. */
  function TokenText(t: Token): string {
    match t
    case Blank => ""
    case Piece(g) => GroupString(g)
  }

  /** Digits are neither a space nor a colon. */
  lemma DigitsPlain(s: string)
    requires Digits(s)
    ensures ' ' !in s && ':' !in s
  {
    forall i | 0 <= i < |s|
      ensures s[i] != ' ' && s[i] != ':'
    {
      assert IsDigit(s[i]);
    }
  }

  /** The text of an admitted group holds neither a space nor a colon. */
  lemma GroupStringPlain(g: Group)
    requires GroupText(g)
    ensures ' ' !in GroupString(g) && ':' !in GroupString(g)
  {
    IndexTextRange(g.index);
    WeightTextRange(g.weight);
    AmountTextRange(g.price);
    DigitsPlain(g.index);
    DigitsPlain(g.weight.whole);
    DigitsPlain(g.weight.frac);
    DigitsPlain(g.price);
  }

  /**
    `line.split(":")` cuts an admitted line into the capacity (with the space
    that `trim` removes) and the text after the colon; `split(" ")` of that
    text gives an empty piece, then the text of each group, in order.
   */
  lemma SplitLine(line: Line)
    requires Matches(line)
    ensures Split(LineText(line), ':') == [line.capacity + " ", AfterColon(line)]
    ensures Split(AfterColon(line), ' ') == [""] + GroupStrings(line.groups)
  {
    var parts := GroupStrings(line.groups);
    forall i | 0 <= i < |parts|
      ensures ' ' !in parts[i] && ':' !in parts[i]
    {
      GroupStringPlain(line.groups[i]);
    }
    SplitAfterColon(line.capacity, parts);
  }

  /** The two cuts, for any capacity numeral and any group texts free of spaces and colons. */
  lemma SplitAfterColon(capacity: string, parts: seq<string>)
    requires AmountText(capacity) && |parts| > 0
    requires forall i :: 0 <= i < |parts| ==> ' ' !in parts[i] && ':' !in parts[i]
    ensures var after := " " + Join(parts, ' ');
      && Split(capacity + " :" + after, ':') == [capacity + " ", after]
      && Split(after, ' ') == [""] + parts
  {
    var after := " " + Join(parts, ' ');
    assert "" + [' '] + Join(parts, ' ') == after;
    assert (capacity + " ") + [':'] + after == capacity + " :" + after;
    SplitJoin(parts, ' ');
    SplitAtSep("", Join(parts, ' '), ' ');
    JoinAvoids(parts, ' ', ':');
    SplitNoSep(after, ':');
    AmountTextRange(capacity);
    DigitsPlain(capacity);
    SplitAtSep(capacity + " ", after, ':');
  }

  /**
    The pieces `split(" ")` makes of the text after the colon of an admitted
    line: an empty piece (`Blank`), then one piece per group, in order.
   */
  function Tokens(line: Line): (r: seq<Token>)
    requires Matches(line)
    ensures |r| == |line.groups| + 1 == |Split(AfterColon(line), ' ')|
    ensures forall i :: 0 <= i < |r| ==> TokenText(r[i]) == Split(AfterColon(line), ' ')[i]
    ensures r[0] == Blank
    ensures forall i :: 0 <= i < |line.groups| ==> r[i + 1] == Piece(line.groups[i])
  {
    var pieces := seq(|line.groups|, i requires 0 <= i < |line.groups| => Piece(line.groups[i]));
    var r := [Blank] + pieces;
    assert |r| == |Split(AfterColon(line), ' ')|
      && forall i :: 0 <= i < |r| ==> TokenText(r[i]) == Split(AfterColon(line), ' ')[i] by {
      SplitLine(line);
      assert forall i :: 0 <= i < |pieces| ==> TokenText(pieces[i]) == GroupStrings(line.groups)[i];
    }
    r
  }

  /** What an admitted group guarantees and `Hundredths` needs: digits only, one or two fractional digits. */
  predicate Parsable(t: Token) {
    t.Piece? ==>
      && 0 < |t.group.index| && Digits(t.group.index)
      && 0 < |t.group.weight.whole| && Digits(t.group.weight.whole)
      && 1 <= |t.group.weight.frac| <= 2 && Digits(t.group.weight.frac)
      && 0 < |t.group.price| && Digits(t.group.price)
  }

  /** A weight in hundredths: one fractional digit counts tenths. */
  function Hundredths(w: Decimal): nat
    requires Digits(w.whole) && Digits(w.frac) && 1 <= |w.frac| <= 2
  {
    Value(w.whole) * 100 + (if |w.frac| == 1 then Value(w.frac) * 10 else Value(w.frac))
  }

  /** The weight of a well-formed group, in hundredths. */
  function GroupWeight(g: Group): nat
    requires WeightText(g.weight)
  {
    WeightTextRange(g.weight);
    Hundredths(g.weight)
  }

  /** The thing a well-formed group describes. */
  function GroupThing(g: Group): Thing
    requires GroupText(g)
  {
    IndexTextRange(g.index);
    AmountTextRange(g.price);
    Thing(Value(g.index), GroupWeight(g), Value(g.price))
  }

  /** The whole and fractional parts of a weight in hundredths are the two sides of its point. */
  lemma HundredthsParts(w: Decimal)
    requires Digits(w.whole) && Digits(w.frac) && 1 <= |w.frac| <= 2
    ensures Hundredths(w) / 100 == Value(w.whole)
    ensures Hundredths(w) % 100 == if |w.frac| == 1 then 10 * Value(w.frac) else Value(w.frac)
  {
    ShortValue(w.frac);
  }

  /**
    One token to a thing; the empty piece gives no thing (`null`). A group
    gives the thing whose index and price are its numerals' values and whose
    weight has the group's whole part before the point and its fraction,
    read as hundredths, after it.
   */
  function ConvertToThing(t: Token): (r: Option<Thing>)
    requires Parsable(t)
    ensures r.None? <==> t.Blank?
    ensures t.Piece? ==>
      && r.value.index == Value(t.group.index)
      && r.value.price == Value(t.group.price)
      && r.value.weight / 100 == Value(t.group.weight.whole)
      && r.value.weight % 100 == if |t.group.weight.frac| == 1 then 10 * Value(t.group.weight.frac) else Value(t.group.weight.frac)
  {
    match t
    case Blank => None
    case Piece(g) =>
      HundredthsParts(g.weight);
      Some(Thing(Value(g.index), Hundredths(g.weight), Value(g.price)))
  }

  /**
    An admitted group converts to its thing: an index of 1 to 15 written back
    as the group's own index text, a weight of at most 100.00 and a price of
    at most 100.
   */
  lemma ConvertAdmitted(g: Group)
    requires GroupText(g)
    ensures Parsable(Piece(g))
    ensures ConvertToThing(Piece(g)) == Some(GroupThing(g))
    ensures var x := GroupThing(g);
      && 1 <= x.index <= 15 && NatToString(x.index) == g.index
      && x.weight <= 10000 && x.price <= 100
  {
    IndexTextRange(g.index);
    WeightTextRange(g.weight);
    AmountTextRange(g.price);
  }

  /** The capacity and price alternatives denote 0 to 100; `00` lets zero through. */
  lemma AmountTextRange(s: string)
    requires AmountText(s)
    ensures Digits(s) && Value(s) <= 100
  {
    if s == "100" {
      HundredValue();
    } else {
      ShortValue(s);
    }
  }

  /** A numeral of at most two digits denotes at most 99, read off its digits. */
  lemma ShortValue(s: string)
    requires |s| <= 2 && Digits(s)
    ensures Value(s) <= 99
    ensures |s| == 1 ==> Value(s) == DigitValue(s[0])
    ensures |s| == 2 ==> Value(s) == DigitValue(s[0]) * 10 + DigitValue(s[1])
  {
    if |s| == 2 {
      assert s[..1][..0] == [];
    }
  }

  /** The numeral `100` denotes 100. */
  lemma HundredValue()
    ensures Digits("100") && Value("100") == 100
  {
    var s := "100";
    assert s[..2] == "10" && s[..2][..1] == "1" && s[..2][..1][..0] == [];
    assert Value("1") == 1;
    assert Value("10") == 10;
  }

  /** The index alternatives are exactly the canonical numerals of 1 to 15. */
  lemma IndexTextRange(s: string)
    requires IndexText(s)
    ensures Canonical(s) && 1 <= Value(s) <= 15
    ensures NatToString(Value(s)) == s
  {
    if |s| == 2 {
      assert s[..1][..0] == [];
    }
    CanonicalRoundTrip(s);
  }

  /** A weight the grammar admits is at most 100.00. */
  lemma WeightTextRange(w: Decimal)
    requires WeightText(w)
    ensures Digits(w.whole) && Digits(w.frac) && 1 <= |w.frac| <= 2
    ensures Hundredths(w) <= 10000
  {
    if w.whole == "100" && w.frac == "00" {
      HundredValue();
      assert w.frac[..1] == "0" && w.frac[..1][..0] == [];
      assert Value(w.frac[..1]) == 0;
      assert Value(w.frac) == 0;
    } else {
      ShortValue(w.whole);
      ShortValue(w.frac);
    }
  }

  /** Every token of a line the grammar admits can be converted. */
  lemma MatchesParsable(line: Line)
    requires Matches(line)
    ensures forall i :: 0 <= i < |Tokens(line)| ==> Parsable(Tokens(line)[i])
  {
    var ts := Tokens(line);
    forall i | 0 <= i < |ts|
      ensures Parsable(ts[i])
    {
      if i > 0 {
        var g := line.groups[i - 1];
        assert ts[i] == Piece(g);
        AmountTextRange(g.price);
        WeightTextRange(g.weight);
        IndexTextRange(g.index);
      }
    }
  }
}
