/**
 The line-to-card filter of the deck handler (`create_deck`, app.py:56-71).

 Lines arrive one at a time. An empty line is skipped. The first non-empty
 line fixes `line_length`, its number of comma-separated fields. A later line
 is accepted only when its field count equals `line_length`; it is then
 destructured into exactly two names, `word, definition`, which raises when
 the count is not 2. Each accepted pair becomes a note appended to the deck,
 the whole deck is written to the deck file again, and `total_cards` grows by
 one. The deck file is modelled as a snapshot of the cards it holds.
 */
module DeckBuilder {
  import opened Wrappers
  import Fields

  /** One note of the deck: the fields `Word` and `Definition`. */
  datatype Card = Card(word: string, definition: string)

  /**
   The loop's state between two lines: the notes added to the deck, the
   counter `total_cards`, `line_length` (`None` until fixed) and the cards
   held by the deck file last written (`None` while no file was written).
   */
  datatype Builder = Builder(
    cards: seq<Card>,
    totalCards: nat,
    lineLength: Option<nat>,
    deckFile: Option<seq<Card>>)

  /** The `ValueError` raised by `word, definition = line.split(",")`. */
  datatype Crash = UnpackError(fieldCount: nat, deckFile: Option<seq<Card>>)

  /** The delimiter the lines are split on. */
  const Comma: char := ','

  /** The state before the first line. */
  const Start: Builder := Builder([], 0, None, None)

  /** What the deck file holds after the cards `cs` were added one by one. */
  function Snapshot(cs: seq<Card>): Option<seq<Card>>
  {
    if cs == [] then None else Some(cs)
  }

  /** The number of fields `len(line.split(","))`. */
  function FieldCount(line: string): (n: nat)
    ensures n >= 1
    ensures n == Fields.Occurrences(line, Comma) + 1
  {
    |Fields.Split(line, Comma)|
  }

  /** Python's `bool(line_length)`: neither `None` nor zero. */
  predicate IsFixed(lineLength: Option<nat>)
  {
    lineLength.Some? && lineLength.value != 0
  }

  /** What holds of the state between any two lines. */
  ghost predicate Valid(b: Builder)
  {
    && b.totalCards == |b.cards|
    && b.deckFile == Snapshot(b.cards)
    && (b.lineLength.Some? ==> b.lineLength.value >= 1)
    && (b.cards != [] ==> b.lineLength == Some(2))
  }

  /** A line that is accepted once the field count is fixed at 2. */
  predicate IsCardLine(line: string)
  {
    |line| > 0 && FieldCount(line) == 2
  }

  /** The note made of a two-field line. */
  function ToCard(line: string): (c: Card)
    requires IsCardLine(line)
    ensures c.word + [Comma] + c.definition == line
    ensures Comma !in c.word && Comma !in c.definition
  {
    var parts := Fields.Split(line, Comma);
    Fields.JoinSplit(line, Comma);
    assert Fields.Join(parts[1..], Comma) == parts[1];
    Card(parts[0], parts[1])
  }

  /** One pass of the loop body on `line`. */
  function Step(b: Builder, line: string): (r: Result<Builder, Crash>)
    ensures |line| == 0 ==> r == Ok(b)
    ensures Valid(b) && r.Ok? ==> Valid(r.value)
    ensures r.Ok? ==> b.cards <= r.value.cards && |r.value.cards| <= |b.cards| + 1
    ensures r.Ok? && IsFixed(b.lineLength) ==> r.value.lineLength == b.lineLength
    ensures r.Ok? && |r.value.cards| > |b.cards| ==>
      IsCardLine(line) && r.value.cards == b.cards + [ToCard(line)]
    ensures r.Err? ==> r.error.deckFile == b.deckFile && r.error.fieldCount != 2
    ensures Valid(b) && r.Err? ==> b.cards == [] && r.error.deckFile == None
  {
    if |line| == 0 then Ok(b)
    else
      var parts := Fields.Split(line, Comma);
      var lineLength := if IsFixed(b.lineLength) then b.lineLength else Some(|parts|);
      if lineLength != Some(|parts|) then Ok(b.(lineLength := lineLength))
      else if |parts| != 2 then Err(UnpackError(|parts|, b.deckFile))
      else
        var cards := b.cards + [Card(parts[0], parts[1])];
        Ok(Builder(cards, b.totalCards + 1, lineLength, Snapshot(cards)))
  }

  /** The loop over `lines` from state `b`, stopped by the first crash. */
  function Run(b: Builder, lines: seq<string>): (r: Result<Builder, Crash>)
    ensures Valid(b) && r.Ok? ==> Valid(r.value)
    ensures r.Ok? ==> b.cards <= r.value.cards
    ensures r.Ok? && IsFixed(b.lineLength) ==> r.value.lineLength == b.lineLength
    ensures Valid(b) && r.Err? ==> r.error.deckFile == None
    ensures r.Err? ==> r.error.fieldCount != 2
    decreases |lines|
  {
    if |lines| == 0 then Ok(b)
    else
      match Step(b, lines[0])
      case Err(e) => Err(e)
      case Ok(next) => Run(next, lines[1..])
  }

  /**
   The loop of the handler over all the lines of the upstream response: it
   ends in a state that keeps the invariant, or in the unpacking error of a
   field count other than 2 before any deck file was written.
   */
  function Build(lines: seq<string>): (r: Result<Builder, Crash>)
    ensures r.Ok? ==> Valid(r.value)
    ensures r.Err? ==> r.error.deckFile == None && r.error.fieldCount != 2
  {
    Run(Start, lines)
  }

  // ---------------------------------------------------------------------
  // Reference definition: what the loop computes, stated without a state.
  // ---------------------------------------------------------------------

  /** The first non-empty line, if any. */
  function FirstNonBlank(lines: seq<string>): (r: Option<string>)
    ensures r.Some? ==> |r.value| > 0 && r.value in lines
    ensures r.None? <==> forall i :: 0 <= i < |lines| ==> |lines[i]| == 0
    ensures r.Some? ==>
      exists k :: 0 <= k < |lines| && lines[k] == r.value && forall j :: 0 <= j < k ==> |lines[j]| == 0
  {
    if |lines| == 0 then None
    else if |lines[0]| > 0 then Some(lines[0])
    else
      var r := FirstNonBlank(lines[1..]);
      assert forall i :: 1 <= i < |lines| ==> lines[i] == lines[1..][i - 1];
      if r.Some? then
        var k :| 0 <= k < |lines[1..]| && lines[1..][k] == r.value &&
          forall j :: 0 <= j < k ==> |lines[1..][j]| == 0;
        assert lines[k + 1] == r.value;
        assert forall j :: 0 <= j < k + 1 ==> |lines[j]| == 0;
        r
      else r
  }

  /** The non-empty lines, in order. */
  function NonBlank(lines: seq<string>): seq<string>
  {
    if |lines| == 0 then []
    else if |lines[0]| == 0 then NonBlank(lines[1..])
    else [lines[0]] + NonBlank(lines[1..])
  }

  /** The notes of the two-field lines, in input order. */
  function CardsOf(lines: seq<string>): seq<Card>
  {
    if |lines| == 0 then []
    else if IsCardLine(lines[0]) then [ToCard(lines[0])] + CardsOf(lines[1..])
    else CardsOf(lines[1..])
  }

  /**
   What the loop yields: no card when all lines are empty; the notes of every
   two-field line when the first non-empty line has two fields; otherwise
   the field count of that first line, on which the unpacking fails.
   */
  function Expected(lines: seq<string>): Result<seq<Card>, nat>
  {
    match FirstNonBlank(lines)
    case None => Ok([])
    case Some(first) =>
      if FieldCount(first) == 2 then Ok(CardsOf(lines)) else Err(FieldCount(first))
  }

  /** The value `line_length` takes: the field count of the first non-empty line. */
  function ExpectedLineLength(lines: seq<string>): Option<nat>
  {
    match FirstNonBlank(lines)
    case None => None
    case Some(first) => Some(FieldCount(first))
  }

  /** The state in which `cs` were accepted with nothing else happening. */
  function Holding(cs: seq<Card>, lineLength: Option<nat>): Builder
  {
    Builder(cs, |cs|, lineLength, Snapshot(cs))
  }

  /** With the count fixed at 2, one line appends its note when it has two fields and is dropped otherwise. */
  lemma StepFixedAtTwo(cs: seq<Card>, line: string)
    ensures Step(Holding(cs, Some(2)), line) ==
      Ok(if IsCardLine(line) then Holding(cs + [ToCard(line)], Some(2)) else Holding(cs, Some(2)))
  {
  }

  /** Once the count is fixed at 2, the loop appends the notes of the two-field lines. */
  lemma {:induction false} RunFixedAtTwo(cs: seq<Card>, lines: seq<string>)
    ensures Run(Holding(cs, Some(2)), lines) == Ok(Holding(cs + CardsOf(lines), Some(2)))
    decreases |lines|
  {
    if |lines| == 0 {
      assert cs + [] == cs;
    } else {
      var line, rest := lines[0], lines[1..];
      StepFixedAtTwo(cs, line);
      if IsCardLine(line) {
        var next := cs + [ToCard(line)];
        RunFixedAtTwo(next, rest);
        assert CardsOf(lines) == [ToCard(line)] + CardsOf(rest);
        assert next + CardsOf(rest) == cs + CardsOf(lines);
      } else {
        RunFixedAtTwo(cs, rest);
        assert CardsOf(lines) == CardsOf(rest);
      }
    }
  }

  /** The loop from a state where nothing happened yet meets the reference. */
  lemma {:induction false} RunFromNothing(lines: seq<string>)
    ensures Run(Start, lines) == (
      match Expected(lines)
      case Ok(cs) => Ok(Holding(cs, ExpectedLineLength(lines)))
      case Err(n) => Err(UnpackError(n, None)))
    decreases |lines|
  {
    if |lines| > 0 {
      var line := lines[0];
      if |line| == 0 {
        RunFromNothing(lines[1..]);
        assert Run(Start, lines) == Run(Start, lines[1..]);
      } else if FieldCount(line) == 2 {
        var c := ToCard(line);
        var parts := Fields.Split(line, Comma);
        assert c == Card(parts[0], parts[1]);
        assert Start.cards + [c] == [c];
        assert Step(Start, line) == Ok(Holding([c], Some(2)));
        RunFixedAtTwo([c], lines[1..]);
      }
    }
  }

  /**
   The loop meets the reference definition: it fails exactly when the
   reference fails, with the count of the first non-empty line and no deck
   file written; otherwise its cards are the reference's cards, counted by
   `total_cards`, the deck file holds exactly them, and `line_length` is the
   field count of the first non-empty line.
   */
  lemma BuildMeetsReference(lines: seq<string>)
    ensures Build(lines).Ok? <==> Expected(lines).Ok?
    ensures Build(lines).Ok? ==>
      var b := Build(lines).value;
      && b.cards == Expected(lines).value
      && b.totalCards == |b.cards|
      && b.deckFile == Snapshot(b.cards)
      && b.lineLength == ExpectedLineLength(lines)
    ensures Build(lines).Err? ==>
      Build(lines).error == UnpackError(Expected(lines).error, None)
  {
    RunFromNothing(lines);
  }

  /**
   Once `line_length` is fixed, a non-empty line whose field count differs
   is dropped without a trace, one whose count equals it is appended, and
   the unpacking fails exactly when the matching count is not 2.
   */
  lemma StepOnFixedCount(b: Builder, line: string)
    requires Valid(b) && IsFixed(b.lineLength)
    ensures Step(b, line).Err? <==>
      |line| > 0 && FieldCount(line) == b.lineLength.value && b.lineLength.value != 2
    ensures Step(b, line).Ok? ==>
      (|Step(b, line).value.cards| > |b.cards| <==>
        |line| > 0 && FieldCount(line) == b.lineLength.value)
    ensures Step(b, line).Ok? && |Step(b, line).value.cards| == |b.cards| ==>
      Step(b, line).value == b
  {
  }

  /**
   The first non-empty line fixes `line_length` to its own field count,
   which is at least 1, so Python's `bool(line_length)` holds from then on.
   */
  lemma FirstLineFixesCount(b: Builder, line: string)
    requires Valid(b) && b.lineLength.None? && |line| > 0
    ensures Step(b, line).Ok? ==>
      Step(b, line).value.lineLength == Some(FieldCount(line)) && IsFixed(Step(b, line).value.lineLength)
    ensures Step(b, line).Err? <==> FieldCount(line) != 2
  {
  }

  /** Empty lines change nothing: the loop over the non-empty lines alone is the same. */
  lemma {:induction false} BlankLinesChangeNothing(b: Builder, lines: seq<string>)
    ensures Run(b, lines) == Run(b, NonBlank(lines))
    decreases |lines|
  {
    if |lines| > 0 {
      BlankLinesChangeNothing(b, lines[1..]);
      if |lines[0]| > 0 {
        var rest := NonBlank(lines[1..]);
        assert NonBlank(lines) == [lines[0]] + rest;
        assert NonBlank(lines)[1..] == rest;
        match Step(b, lines[0])
        case Err(e) =>
        case Ok(next) => BlankLinesChangeNothing(next, lines[1..]);
      }
    }
  }

  /** The two-field lines are among the non-empty ones. */
  lemma {:induction false} CardsOfAtMostNonBlank(lines: seq<string>)
    ensures |CardsOf(lines)| <= |NonBlank(lines)|
    ensures (forall i :: 0 <= i < |lines| && |lines[i]| > 0 ==> FieldCount(lines[i]) == 2) ==>
      |CardsOf(lines)| == |NonBlank(lines)|
    decreases |lines|
  {
    if |lines| > 0 {
      CardsOfAtMostNonBlank(lines[1..]);
      assert forall i :: 1 <= i < |lines| ==> lines[i] == lines[1..][i - 1];
    }
  }

  /**
   When every non-empty line has two fields, every one of them becomes a
   card: `total_cards` is the number of non-empty lines.
   */
  lemma UniformInputKeepsEveryLine(lines: seq<string>)
    requires forall i :: 0 <= i < |lines| && |lines[i]| > 0 ==> FieldCount(lines[i]) == 2
    ensures Build(lines).Ok?
    ensures Build(lines).value.totalCards == |NonBlank(lines)|
  {
    BuildMeetsReference(lines);
    CardsOfAtMostNonBlank(lines);
    var f := FirstNonBlank(lines);
    if f.Some? {
      var i :| 0 <= i < |lines| && lines[i] == f.value;
    }
  }

  /** Each card splits back into the line it was made of: word, comma, definition. */
  lemma CardOfLineRoundTrip(c: Card)
    requires Comma !in c.word && Comma !in c.definition
    ensures IsCardLine(c.word + [Comma] + c.definition)
    ensures ToCard(c.word + [Comma] + c.definition) == c
  {
    var line := c.word + [Comma] + c.definition;
    Fields.SplitJoin([c.word, c.definition], Comma);
    assert Fields.Join([c.word, c.definition], Comma) == line;
  }
}
