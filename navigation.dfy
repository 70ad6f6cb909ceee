/**
 * The cards of the wizard and the buttons that move between them without touching the
 * recorded answers: the next/back order of the question cards follows the table.
 */
module Navigation {

  import opened Config

  const WELCOME: string := "welcome"
  const DIABETES_CHECK: string := "diabetes_check"
  const TEST_INTRO: string := "test_intro"
  const PREGNANCY: string := "pregnancy"
  const PREGNANCY_TIMES: string := "pregnancy_times"
  const RESULT: string := "result"
  const RESULT_FINAL: string := "result_final"

  /** The help card of question `i`, shown by its "I'm not sure" button. */
  function InstructionsCard(i: nat): string
    requires i < |MEASUREMENTS|
  {
    "instructions_" + MEASUREMENTS[i].name
  }

  /** A help card carries its row's key after the prefix, and no help card is a question card. */
  lemma HelpCardNamesRow(i: nat)
    requires i < |MEASUREMENTS|
    ensures InstructionsCard(i)[|"instructions_"|..] == MEASUREMENTS[i].name
    ensures forall j | 0 <= j < |MEASUREMENTS| :: InstructionsCard(i) != MEASUREMENTS[j].name
  {
    var card := InstructionsCard(i);
    assert card[|"instructions_"|..] == MEASUREMENTS[i].name;
    forall j | 0 <= j < |MEASUREMENTS| ensures card != MEASUREMENTS[j].name {
      assert card[..|"instructions_"|] == "instructions_";
    }
  }

  /** True when `card` is the question card or the help card of measurement `i`. */
  predicate OnField(card: string, i: nat)
    requires i < |MEASUREMENTS|
  {
    card == MEASUREMENTS[i].name || card == InstructionsCard(i)
  }

  /** Where a valid answer on question `i` leads: the next question, or the result card after the last. */
  function NextCard(i: nat): (card: string)
    requires i < |MEASUREMENTS|
    ensures card == RESULT <==> i == |MEASUREMENTS| - 1
  {
    NamesDistinct();
    if i < |MEASUREMENTS| - 1 then MEASUREMENTS[i + 1].name else RESULT
  }

  /** The result card follows the last question and no other; every other question leads to
      the question card, not the help card, of the row after it. */
  lemma NextCardOrder(i: nat)
    requires i < |MEASUREMENTS|
    ensures NextCard(i) == RESULT <==> i == |MEASUREMENTS| - 1
    ensures NextCard(i) != RESULT ==> OnField(NextCard(i), i + 1) && NextCard(i) != InstructionsCard(i + 1)
  {
    NamesDistinct();
  }

  /** Where the third failed answer on a question leads, computed from the row's own index. */
  function SkipTarget(c: MeasurementConfig): (card: string)
    requires 0 <= c.index < |MEASUREMENTS|
    ensures card == RESULT <==> c.index == |MEASUREMENTS| - 1
  {
    NamesDistinct();
    if c.index == |MEASUREMENTS| - 1 then RESULT else MEASUREMENTS[c.index + 1].name
  }

  /** Where the back button of a question card leads, computed from the row's own index. */
  function BackCard(c: MeasurementConfig): (card: string)
    requires 0 <= c.index < |MEASUREMENTS|
    ensures card == PREGNANCY_TIMES <==> c.index == 0
  {
    NamesDistinct();
    if c.index == 0 then PREGNANCY_TIMES else MEASUREMENTS[c.index - 1].name
  }

  /** The automatic skip after three failures goes where a valid answer would have gone. */
  lemma SkipMatchesNext(i: nat)
    requires i < |MEASUREMENTS|
    ensures 0 <= MEASUREMENTS[i].index < |MEASUREMENTS|
    ensures SkipTarget(MEASUREMENTS[i]) == NextCard(i)
  {
    RowWellFormed(i);
  }

  /** Going forward from question `i` and then back returns to question `i`; going back from
      the first question returns to the pregnancy-count card. */
  lemma BackUndoesNext(i: nat)
    requires i < |MEASUREMENTS|
    ensures 0 <= MEASUREMENTS[i].index < |MEASUREMENTS|
    ensures i == 0 ==> BackCard(MEASUREMENTS[i]) == PREGNANCY_TIMES
    ensures i + 1 < |MEASUREMENTS| ==>
              NextCard(i) == MEASUREMENTS[i + 1].name && BackCard(MEASUREMENTS[i + 1]) == MEASUREMENTS[i].name
  {
    TableWellFormed();
  }

  /** A card belongs to at most one measurement. */
  lemma OnFieldUnique(card: string, i: nat, k: nat)
    requires i < |MEASUREMENTS| && k < |MEASUREMENTS|
    requires OnField(card, i) && OnField(card, k)
    ensures i == k
  {
    NamesDistinct();
    var prefix := "instructions_";
    if card == InstructionsCard(i) && card == InstructionsCard(k) {
      assert MEASUREMENTS[i].name == card[|prefix|..];
      assert MEASUREMENTS[k].name == card[|prefix|..];
    }
  }

  /** The cards that are not about a measurement. */
  predicate FixedCard(card: string) {
    card in {WELCOME, DIABETES_CHECK, TEST_INTRO, PREGNANCY, PREGNANCY_TIMES, RESULT, RESULT_FINAL}
  }

  /** No fixed card is the question or help card of a measurement. */
  lemma FixedCardShowsNoField(card: string)
    requires FixedCard(card)
    ensures forall i | 0 <= i < |MEASUREMENTS| :: !OnField(card, i)
  {
    NamesDistinct();
  }

  /** The buttons of the introductory cards that only change the card shown. */
  predicate IntroButton(from: string, to: string) {
    || (from == WELCOME && to == DIABETES_CHECK)
    || (from == DIABETES_CHECK && (to == TEST_INTRO || to == WELCOME))
    || (from == TEST_INTRO && (to == PREGNANCY || to == DIABETES_CHECK))
    || (from == PREGNANCY && (to == PREGNANCY_TIMES || to == TEST_INTRO))
    || (from == PREGNANCY_TIMES && to == PREGNANCY)
  }

  /** The buttons of measurement `i`'s cards that only change the card shown: "I'm not sure"
      and Back on the question card, "Back to Question" on the help card. */
  predicate FieldButton(from: string, to: string, i: nat)
    requires i < |MEASUREMENTS|
  {
    || (from == MEASUREMENTS[i].name && to == InstructionsCard(i))
    || (from == MEASUREMENTS[i].name && 0 <= MEASUREMENTS[i].index < |MEASUREMENTS|
        && to == BackCard(MEASUREMENTS[i]))
    || (from == InstructionsCard(i) && to == MEASUREMENTS[i].name)
  }

  /** Every button that only changes the card shown. */
  predicate ButtonEdge(from: string, to: string) {
    IntroButton(from, to) || exists i | 0 <= i < |MEASUREMENTS| :: FieldButton(from, to, i)
  }

  /** Among the buttons that only change the card shown, a move onto measurement `k`'s cards
      comes from measurement `k`'s own cards or from the Back button of the question after it. */
  lemma ButtonEdgeIntoField(from: string, to: string, k: nat)
    requires k < |MEASUREMENTS|
    requires ButtonEdge(from, to) && OnField(to, k)
    ensures OnField(from, k) || (k + 1 < |MEASUREMENTS| && from == MEASUREMENTS[k + 1].name)
  {
    if IntroButton(from, to) {
      assert FixedCard(to);
      FixedCardShowsNoField(to);
      assert false;
    }
    var i :| 0 <= i < |MEASUREMENTS| && FieldButton(from, to, i);
    RowWellFormed(i);
    if from == MEASUREMENTS[i].name && to == BackCard(MEASUREMENTS[i]) {
      if i == 0 {
        assert FixedCard(to);
        FixedCardShowsNoField(to);
        assert false;
      }
      OnFieldUnique(to, i - 1, k);
    } else {
      OnFieldUnique(to, i, k);
    }
  }
}
