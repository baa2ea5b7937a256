/**
  The result line of one package: the chosen indices joined by commas in the
  order they were chosen, or the sentinel "-" when nothing was chosen. A
  reader for that line (`ParseChosen`) is the partner the round trip is
  stated against.
 */
module Format {
  import opened Wrappers
  import opened Numerals
  import opened Things
  import opened Texts

  /** A join of numerals is not empty, starts with a digit and holds only digits and the separator. */
  lemma {:induction false} JoinOfNumerals(parts: seq<string>, sep: char)
    requires |parts| > 0
    requires forall i :: 0 <= i < |parts| ==> Canonical(parts[i])
    ensures var r := Join(parts, sep);
      && 0 < |r| && IsDigit(r[0])
      && forall j :: 0 <= j < |r| ==> IsDigit(r[j]) || r[j] == sep
    decreases |parts|
  {
    if |parts| > 1 {
      JoinOfNumerals(parts[1..], sep);
      var r := Join(parts, sep);
      var tail := Join(parts[1..], sep);
      assert r == parts[0] + [sep] + tail;
      forall j | 0 <= j < |r|
        ensures IsDigit(r[j]) || r[j] == sep
      {
        if j >= |parts[0]| + 1 {
          assert r[j] == tail[j - |parts[0]| - 1];
        }
      }
    }
  }

  /** The indices of the chosen things, in order. */
  function Indices(chosen: seq<Thing>): seq<nat> {
    seq(|chosen|, i requires 0 <= i < |chosen| => chosen[i].index)
  }

  /**
    Each chosen index as `Integer.toString` writes it: a numeral without
    leading zeros that reads back as that index.
   */
  function IndexTexts(chosen: seq<Thing>): (r: seq<string>)
    ensures |r| == |chosen|
    ensures forall i :: 0 <= i < |r| ==> Canonical(r[i]) && Value(r[i]) == chosen[i].index
  {
    seq(|chosen|, i requires 0 <= i < |chosen| => NatToString(chosen[i].index))
  }

  /**
    The result line for one package. It is the sentinel exactly when nothing
    was chosen, and it never holds a line break, so result lines can be
    joined and told apart again.
   */
  function FormatChosen(chosen: seq<Thing>): (r: string)
    ensures r == "-" <==> |chosen| == 0
    ensures 0 < |r|
    ensures forall j :: 0 <= j < |r| ==> r[j] != '\n'
  {
    if |chosen| == 0 then "-"
    else
      JoinOfNumerals(IndexTexts(chosen), ',');
      Join(IndexTexts(chosen), ',')
  }

  /** Reads a result line back: the sentinel, or comma-separated numerals without leading zeros. */
  function ParseChosen(s: string): Option<seq<nat>> {
    if s == "-" then Some([])
    else
      var parts := Split(s, ',');
      if forall i :: 0 <= i < |parts| ==> Canonical(parts[i]) then
        Some(seq(|parts|, i requires 0 <= i < |parts| => Value(parts[i])))
      else None
  }

  /** The result line reads back as the chosen indices, in the order they were chosen. */
  lemma FormatRoundTrip(chosen: seq<Thing>)
    ensures ParseChosen(FormatChosen(chosen)) == Some(Indices(chosen))
  {
    if |chosen| == 0 {
      assert Indices(chosen) == [];
    } else {
      var parts := IndexTexts(chosen);
      forall i | 0 <= i < |parts|
        ensures ',' !in parts[i]
      {
        assert Canonical(parts[i]);
      }
      SplitJoin(parts, ',');
      var s := FormatChosen(chosen);
      assert Split(s, ',') == parts;
      assert s != "-";
      var values := seq(|parts|, i requires 0 <= i < |parts| => Value(parts[i]));
      assert values == Indices(chosen);
    }
  }

  /** Equal result lines come from the same indices in the same order. */
  lemma FormatInjective(a: seq<Thing>, b: seq<Thing>)
    requires FormatChosen(a) == FormatChosen(b)
    ensures Indices(a) == Indices(b)
  {
    FormatRoundTrip(a);
    FormatRoundTrip(b);
  }
}
