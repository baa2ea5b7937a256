# Packer: a model of the per-line package selector

`Packer.pack` reads a text of package lines. Each line has the form
`C : (I,W,€P) (I,W,€P) ...`, with a capacity `C`, an item index `I`, a
decimal weight `W` and a euro price `P`. For each line the program writes one
result line: the indices of the things it packs, or `-`. The selection is a
greedy heuristic, not an optimal knapsack solver:

1. Things heavier than the capacity are dropped.
2. The rest are sorted dearest first with a stable sort.
3. They are offered one at a time to a step (`pickThings`):
   - the first thing is taken unconditionally;
   - a thing that keeps the total weight strictly under the capacity is appended;
   - otherwise the first cheapest chosen thing is swapped out, but only for a
     thing of exactly its price that is strictly lighter.

This project models that pipeline in Dafny and proves what it guarantees:

- the line's text cuts at the colon and at spaces into the capacity, an
  empty piece and one piece per group;
- the capacity filter keeps exactly the things that fit, in line order;
- the sort is the unique stable dearest-first arrangement;
- the step's branches behave as described, and a swap keeps the count and
  total price while making the list lighter;
- the chosen things are distinct candidates in dearest-first order, and are
  empty only when there are no candidates;
- the chosen things never exceed the capacity when some thing that fits on
  its own is priced at least 1 (see "Findings" for zero prices);
- the result line reads back as the chosen indices;
- the packed output splits back into one result per input line;
- the repository's worked examples give `4`, `-` and `4\n-\n`, and a line of
  zero-priced things shows the overfill.

Modules, one file each:

- `Seqs`: list removal and subsequences.
- `Numerals`: `Integer.valueOf` / `Integer.toString` on digit strings.
- `Texts`: joining, `split` at one character, and line termination.
- `Things`: the thing record and the weight and price sums.
- `Grammar`: the line grammar over the line's fields, the line's text and how
  `split` cuts it, and `convertToThing`.
- `Sorting`: the stable price sort.
- `Selector`: `pickThings`, the fold over the sorted list, and the selection.
- `Format`: the result line and its reader.
- `Packer`: `processThings`, `processCostWeight`, `processBunchOfThings` and `pack`.
- `PackerExamples`: the repository's test lines, and a zero-price line.

Weights and capacities are integer hundredths. Every weight the grammar admits
has at most two fractional digits, so this is exact. One fractional digit
counts tenths: `15.3` is 1530.

A line is held as its fields: the capacity numeral, then for each group the
index numeral, the two sides of the weight's decimal point, and the price
numeral. The line's regular expression becomes a predicate over those fields.
`LineText` renders the fields as the line's text, `C :` followed by each group
after one space. `Grammar.SplitLine` proves what `split(":")` and `split(" ")`
make of that text. The text after the colon starts with a space, so its first
piece is empty and converts to `null` (`None`).

The comment on `processBunchOfThings` (Packer.java:102) says the capacity lies
between 1 and 100. The code is looser, and the model follows the code:

- The alternative `\d\d` also admits `00`..`09`, so capacity 0 and price 0
  pass the grammar. See "Findings" for the consequence.
- The regular expression bounds each index to 1..15 but not the number of
  groups (`(...)+`), so the model allows any number of groups.

## Model

| member | source | states |
|---|---|---|
| Numerals.NatToString | src/main/java/com/mobiquityinc/packer/Packer.java:159-161 | The text written for an index is a numeral without superfluous leading zeros, and it reads back (`Value`) as the same number. |
| Numerals.CanonicalRoundTrip | src/main/java/com/mobiquityinc/packer/Packer.java:225 | A numeral without leading zeros, parsed and written again, is the same text. |
| Seqs.RemoveAt | src/main/java/com/mobiquityinc/packer/Packer.java:193 | Removing the element at a position leaves one element fewer: the ones before it in place and the ones after it moved up by one. |
| Things.TotalsOfConcat | src/main/java/com/mobiquityinc/packer/Packer.java:178-183 | The weight sum and the price sum of two lists joined are the sums of their sums. |
| Things.TotalsOfRemoveAt | src/main/java/com/mobiquityinc/packer/Packer.java:193 | Removing one thing takes exactly its weight and its price off the sums. |
| Texts.SplitJoin | src/main/java/com/mobiquityinc/packer/Packer.java:166 | Splitting a comma join at commas gives the parts back, when no part holds a comma. |
| Texts.SplitTerminate | src/main/java/com/mobiquityinc/packer/Packer.java:56-58 | Splitting results that each end in a terminator gives the results back, then an empty rest, when no result holds the terminator. |
| Grammar.SplitLine | src/main/java/com/mobiquityinc/packer/Packer.java:115-118 | `split(":")` cuts an admitted line's text into the capacity with its trailing space and the text after the colon. `split(" ")` cuts that text into an empty piece, then each group's own text, in order. |
| Grammar.Tokens | src/main/java/com/mobiquityinc/packer/Packer.java:118 | The pieces of the text after the colon are, position by position, the texts of the tokens: the empty piece first, then one piece per group, in order. |
| Grammar.AmountTextRange | src/main/java/com/mobiquityinc/packer/Packer.java:109 | The capacity and price alternatives `[1-9]`, `\d\d`, `100` are digit strings with values 0 to 100. |
| Grammar.IndexTextRange | src/main/java/com/mobiquityinc/packer/Packer.java:109 | The index alternatives `[1-9]`, `1[0-5]` are numerals without leading zeros, with values 1 to 15, that read back as themselves. |
| Grammar.WeightTextRange | src/main/java/com/mobiquityinc/packer/Packer.java:109 | Every weight the grammar admits is at most 100.00, in hundredths. |
| Grammar.MatchesParsable | src/main/java/com/mobiquityinc/packer/Packer.java:225-229 | Every piece of a line the grammar admits is one the numeric parses accept, so `convertToThing` never fails on it. |
| Grammar.ConvertToThing | src/main/java/com/mobiquityinc/packer/Packer.java:219-237 | The empty piece, and only it, gives no thing. A group gives the thing whose index and price are the values of its numerals. Its weight has the whole part before the point as its hundreds, and the fraction after it, one digit counting tenths. |
| Grammar.ConvertAdmitted | src/main/java/com/mobiquityinc/packer/Packer.java:219-237 | An admitted group converts to a thing with index 1 to 15 that is written back as the group's own index text, weight at most 100.00 and price at most 100. |
| Sorting.Insert | src/main/java/com/mobiquityinc/packer/Packer.java:148-150 | Inserting into a dearest-first list keeps it dearest first and adds exactly that thing. The new thing goes in front of the things of its own price, and the other prices are untouched. |
| Sorting.SortByPrice | src/main/java/com/mobiquityinc/packer/Packer.java:148-150 | The sorted list is a permutation of the candidates, with prices never increasing. For every price, the things of that price appear in their original order (stability). |
| Sorting.SortUnique | src/main/java/com/mobiquityinc/packer/Packer.java:148-150 | Any arrangement of the candidates that is dearest first and keeps the order within each price is the sorted list. |
| Selector.LowestPriceIndex | src/main/java/com/mobiquityinc/packer/Packer.java:190-191 | The position found holds a lowest price, and every earlier position is strictly dearer, so it is the first minimum. |
| Selector.PickThingsOutcomes | src/main/java/com/mobiquityinc/packer/Packer.java:185-200 | An empty list, or any list whose prices sum to 0, gets the thing appended with no weight check. Otherwise the step appends, keeping earlier choices in place, when the new total stays strictly under the capacity. Failing that, it swaps exactly when the thing has the price of the first cheapest chosen thing and is strictly lighter; if it does not swap, the list is unchanged. |
| Selector.AppendWithoutRoom | src/main/java/com/mobiquityinc/packer/Packer.java:185-186 | A thing that leaves no room strictly under the capacity is appended exactly when the chosen prices sum to 0. So a thing that would fill the capacity exactly is never appended to priced things. |
| Selector.SwapKeepsCountAndPrice | src/main/java/com/mobiquityinc/packer/Packer.java:192-195 | A swap keeps the number of chosen things and their price sum, lowers the weight sum, and puts the new thing last. |
| Selector.PickThingsKeepsPrice | src/main/java/com/mobiquityinc/packer/Packer.java:185-200 | A step never lowers the price sum of the chosen things. |
| Selector.PickThingsSubseq | src/main/java/com/mobiquityinc/packer/Packer.java:177-201 | The step's result is a subsequence of the things offered so far. |
| Selector.PickThingsIntendedFits | src/main/java/com/mobiquityinc/packer/Packer.java:177-201 | With the first-thing branch taken only for an empty list, a step from a list that fits, offering a thing that fits on its own, gives a list that fits. |
| Selector.PickThingsAgree | src/main/java/com/mobiquityinc/packer/Packer.java:181-185 | When the chosen list is empty or its prices sum to at least 1, the step as written (price-sum test) equals the step with an emptiness test. |
| Selector.ChooseSubseq | src/main/java/com/mobiquityinc/packer/Packer.java:154-157 | The chosen things are a subsequence of the offered list. So they are distinct offered things, in offered order, and no more of them than were offered. |
| Selector.ChooseEmptyIff | src/main/java/com/mobiquityinc/packer/Packer.java:154-157 | Something is chosen exactly when something is offered. |
| Selector.ChooseKeepsTopPrice | src/main/java/com/mobiquityinc/packer/Packer.java:148-157 | Over a dearest-first list, some chosen thing has the top price. |
| Selector.ChooseIntendedFits | src/main/java/com/mobiquityinc/packer/Packer.java:154-157 | With the corrected step, the fold over things that each fit chooses things that together fit the capacity. |
| Selector.ChooseAgrees | src/main/java/com/mobiquityinc/packer/Packer.java:154-157 | Over a dearest-first list whose dearest price is at least 1, the fold with the step as written chooses exactly what the corrected fold chooses, and the chosen prices sum to at least that top price. |
| Selector.SelectFits | src/main/java/com/mobiquityinc/packer/Packer.java:147-157 | When every candidate fits on its own and some candidate is priced at least 1, the selection fits the capacity. |
| Selector.SelectShape | src/main/java/com/mobiquityinc/packer/Packer.java:147-157 | The selection is a sub-multiset of the candidates, dearest first, and empty exactly when there are no candidates. For every candidate, some chosen thing is at least as dear. |
| Selector.SelectDominant | src/main/java/com/mobiquityinc/packer/Packer.java:147-157 | Suppose one candidate occurs once, is dearer than all the others, and fits alongside none of them. Then it alone is selected. |
| Selector.ZeroPricesOverfill | src/main/java/com/mobiquityinc/packer/Packer.java:185 | The selection takes two zero-priced things of 6.00 into a package of capacity 10.00, 12.00 in all. The corrected fold takes only the first. |
| Format.IndexTexts | src/main/java/com/mobiquityinc/packer/Packer.java:159-161 | Each chosen index becomes a numeral without leading zeros that reads back as that index, one per chosen thing, in order. |
| Format.JoinOfNumerals | src/main/java/com/mobiquityinc/packer/Packer.java:159-166 | A join of numerals is non-empty, starts with a digit and holds only digits and the separator. |
| Format.FormatChosen | src/main/java/com/mobiquityinc/packer/Packer.java:159-167 | The result line is `-` exactly when nothing was chosen. It is never empty and never holds a line break. |
| Format.FormatRoundTrip | src/main/java/com/mobiquityinc/packer/Packer.java:159-167 | Reading the result line back gives the chosen indices, in the order chosen. |
| Format.FormatInjective | src/main/java/com/mobiquityinc/packer/Packer.java:159-167 | Equal result lines come from the same index sequence. |
| Packer.Candidates | src/main/java/com/mobiquityinc/packer/Packer.java:135-137 | Every candidate fits the capacity. Each thing occurs among the candidates exactly as often as it is offered when it fits, and not at all otherwise. The candidates keep the offered order, and they are empty exactly when no offered thing fits. |
| Packer.ProcessDominant | src/main/java/com/mobiquityinc/packer/Packer.java:130-168 | Suppose one offered thing that fits occurs once, is dearer than every other fitting thing, and fits alongside none of them. Then the result line is its index alone. |
| Packer.ThingsOfLine | src/main/java/com/mobiquityinc/packer/Packer.java:131-133 | An admitted line gives no thing for its first piece, then exactly the thing of each group, in order. |
| Packer.CandidatesOfLine | src/main/java/com/mobiquityinc/packer/Packer.java:135-137 | An admitted line has no candidates exactly when no group fits the capacity on its own. |
| Packer.ProcessBunchOfThings | src/main/java/com/mobiquityinc/packer/Packer.java:108-120 | The result line is `-` exactly when the grammar rejects the line or no group fits the capacity on its own. It never holds a line break. |
| Packer.LineReadsBack | src/main/java/com/mobiquityinc/packer/Packer.java:147-168 | For an admitted line, the chosen things are drawn from the line's candidates, and the result line reads back as their indices. |
| Packer.LineWithinCapacity | src/main/java/com/mobiquityinc/packer/Packer.java:147-168 | For an admitted line where some group that fits on its own is priced at least 1, the chosen things fit the capacity. |
| Packer.PackLines | src/main/java/com/mobiquityinc/packer/Packer.java:56-58 | Splitting the output at line breaks gives each line's result in order, then the empty rest after the final break. No line affects another's result. |
| PackerExamples.Line81Selection | src/test/java/com/mobiquityinc/packer/PackerTest.java:39-44 | From the six things of the capacity-81 line, the result line is `4`. |
| PackerExamples.Line81Result | src/test/java/com/mobiquityinc/packer/PackerTest.java:39-44 | The line `81 : (1,53.38,€45) ... (6,46.34,€48)` gives `4`. |
| PackerExamples.Line8Result | src/test/java/com/mobiquityinc/packer/PackerTest.java:46-51 | The line `8 : (1,15.3,€34)` gives `-`. |
| PackerExamples.TwoLinesResult | src/test/java/com/mobiquityinc/packer/PackerTest.java:46-51 | The two lines packed together give `4\n-\n`. |
| PackerExamples.LineZeroResult | src/main/java/com/mobiquityinc/packer/Packer.java:177-200 | The admitted line `10 : (1,6.00,€00) (2,6.00,€00)` gives `1,2`: 12.00 packed into capacity 10.00. |

## Left out

- File input and output (`pack` lines 44-52 and 59, `extractData` lines 63-84):
  - the blank-path and empty-file `APIException`s;
  - the class-path resource lookup;
  - `System.out.println`.

  `Pack` takes the package lines as a list.
- `getLinesWithoutProcess` (lines 91-98): splitting the file text into lines,
  including Java's dropping of trailing empty strings. `Pack` starts from the
  lines.
- The regular expression engine and the euro sign's byte encoding (lines 109
  and 228). The grammar is stated over already-split fields, and the euro sign
  counts as the one character `substring(1, ...)` strips.
- The regular expression's `\s` is read as a single space. This matters
  because `split(" ")` then cuts the text into the pieces `Tokens` describes.
  A tab there is not modelled.
- IEEE doubles: `Double.valueOf`, and the `double` sums and comparisons at
  lines 116, 136, 178-180 and 186. Weights are exact integer hundredths. The
  model can differ from Java only where a rounded double sum lands on the
  other side of the capacity.
- `Thing.java` is not part of this model. Its three fields are taken from the
  getters and setters `Packer.java` uses.
- Tie-breaking inside Java's library. The model takes, as the JDK does, the
  first of several minima from `Stream.min` (line 191).
  `List.remove(Object)` (line 193) removes the first element that `equals`
  the argument. That is the minimum found: every earlier element is strictly
  dearer, so it is not equal to it, whether `Thing` compares by identity or
  by field values.
- `PackerTest.java` lines 53-58 read a four-line fixture file that is not
  available, so that expected output is not restated.
- Java's `String.split` drops trailing empty strings, and the model's `Split`
  keeps them. Where `Split` stands for a `split` call of the program, at
  lines 115 and 118 through `Grammar.SplitLine`, there is no trailing empty
  piece to drop: an admitted line ends in `)`. `Packer.PackLines` and
  `Format.ParseChosen` use `Split` only to read the output back, and
  `PackLines` keeps the empty piece after the final line break.
- PickThings: does not model Java's `int` price sum. `priceSum` (lines
  181-183) is an `int`, and `IntStream.sum` wraps past 2^31-1 to a negative
  value; `TotalPrice` is unbounded. The grammar bounds each price by 100 but
  not the number of groups, so a wrap needs more than 21 million priced
  things on one line. There, line 185 would see a sum that is not positive,
  and line 199 would append the next thing with no weight check; the model
  keeps the positive sum and applies the weight test.
- SelectFits: does not promise that the selection fits the capacity when
  every candidate is priced 0, because there the program's step appends
  without a weight check and can exceed it (see "Findings").
- LineWithinCapacity: does not promise that the chosen things fit the
  capacity when every group that fits on its own is priced 0, for the same
  reason; `PackerExamples.LineZeroResult` shows such a line.

## Findings

| source | as written | input that shows it | evidently intended | confidence | as-written member | corrected member |
|---|---|---|---|---|---|---|
| src/main/java/com/mobiquityinc/packer/Packer.java:185 | The step takes the unconditional branch whenever the chosen prices sum to 0 (`priceSum > 0` is false). The grammar's `\d\d` admits price `00`, so a chosen list of zero-priced things also takes that branch, and the next thing is appended with no weight check. | The line `10 : (1,6.00,€00) (2,6.00,€00)`. Both things are packed, 12.00 in all, and the result line is `1,2`. | Take the first thing unconditionally only when nothing is chosen yet, so the chosen things never exceed the capacity. | medium; not executed | PackerExamples.LineZeroResult | Selector.ChooseIntendedFits |

The pipeline follows the program: `Selector.PickThings` is the step as
written and `Selector.Choose` folds it. The corrected step
`Selector.PickThingsIntended` tests for an empty list instead, and its fold
`Selector.ChooseIntended` never exceeds the capacity. `Selector.ChooseAgrees`
proves that the two folds choose the same things over any dearest-first list
whose dearest thing is priced at least 1. The candidates are sorted dearest
first, so the program can overfill only when every candidate is priced 0.
`Selector.SelectFits` and `Packer.LineWithinCapacity` carry that condition.
