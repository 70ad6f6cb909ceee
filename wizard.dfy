/**
 * The wizard itself: the card shown, the recorded answers and the failure counters, changed in
 * place by the button handlers.
 */
module Wizard {

  import opened Wrappers
  import opened Config
  import opened Navigation
  import opened Answers
  import opened ResultMessage

  /** The pregnancy count and the answers to every question before `i` are recorded. */
  predicate CollectedBefore(m: map<string, Entry>, i: nat)
    requires i <= |MEASUREMENTS|
  {
    PREGNANCIES in m && forall j | 0 <= j < i :: MEASUREMENTS[j].name in m
  }

  /** Every recorded measurement number passed its row's range test. */
  predicate RecordedInRange(m: map<string, Entry>) {
    forall j | 0 <= j < |MEASUREMENTS| && MEASUREMENTS[j].name in m && m[MEASUREMENTS[j].name].Num? ::
      Accepts(MEASUREMENTS[j], m[MEASUREMENTS[j].name].x)
  }

  /** Answers recorded for every question, none of them "null", are complete. */
  lemma NoNullsMeansComplete(m: map<string, Entry>)
    requires CollectedBefore(m, |MEASUREMENTS|) && !HasNulls(m)
    ensures Complete(m)
  {
  }

  /** Filling defaults keeps every recorded number within its range. */
  lemma FillKeepsInRange(m: map<string, Entry>)
    requires RecordedInRange(m)
    ensures RecordedInRange(FilledWithDefaults(m))
  {
    var r := FilledWithDefaults(m);
    forall j | 0 <= j < |MEASUREMENTS| && MEASUREMENTS[j].name in r && r[MEASUREMENTS[j].name].Num?
      ensures Accepts(MEASUREMENTS[j], r[MEASUREMENTS[j].name].x)
    {
      DefaultAccepted(j);
      assert r[MEASUREMENTS[j].name] == DefaultedValue(m, j);
    }
  }

  /** Complete answers that kept the range invariant give the predictor a number within the
      absolute range of every measurement, after the pregnancy count. */
  lemma PredictorArgsInRange(m: map<string, Entry>)
    requires PREGNANCIES in m && Complete(m) && RecordedInRange(m)
    ensures var args := PredictorArgs(m);
            forall t | 1 <= t < |args| :: args[t].Num? && Accepts(MEASUREMENTS[t - 1], args[t].x)
  {
    var args := PredictorArgs(m);
    forall t | 1 <= t < |args| ensures args[t].Num? && Accepts(MEASUREMENTS[t - 1], args[t].x) {
      var k := MEASUREMENTS[t - 1].name;
      assert args[t] == m[k];
    }
  }

  /** Only known keys are recorded, the pregnancy count is a number of at least zero, and every
      recorded measurement passed its range test. */
  predicate KnownAnswers(m: map<string, Entry>) {
    && (forall k | k in m :: IsKey(k))
    && (PREGNANCIES in m ==> m[PREGNANCIES].Num? && m[PREGNANCIES].x >= 0.0)
    && RecordedInRange(m)
  }

  /** While a measurement's question or help card is shown, the pregnancy count and every
      earlier measurement are recorded. */
  predicate Reached(screen: string, m: map<string, Entry>) {
    forall i | 0 <= i < |MEASUREMENTS| && OnField(screen, i) :: CollectedBefore(m, i)
  }

  /** Recording a number that passed question `i`'s range test, or the "null" marker, keeps the
      answers well formed. */
  lemma RecordAnswer(m: map<string, Entry>, i: nat, e: Entry)
    requires i < |MEASUREMENTS| && KnownAnswers(m)
    requires e.Num? ==> Accepts(MEASUREMENTS[i], e.x)
    ensures KnownAnswers(m[MEASUREMENTS[i].name := e])
  {
    var r := m[MEASUREMENTS[i].name := e];
    assert IsField(MEASUREMENTS[i].name);
    FieldNotPregnancies(i);
    forall j | 0 <= j < |MEASUREMENTS| && MEASUREMENTS[j].name in r && r[MEASUREMENTS[j].name].Num?
      ensures Accepts(MEASUREMENTS[j], r[MEASUREMENTS[j].name].x)
    {
      if MEASUREMENTS[j].name == MEASUREMENTS[i].name {
        NameInjective(i, j);
      }
    }
  }

  /** Recording a pregnancy count of at least zero keeps the answers well formed. */
  lemma RecordPregnancies(m: map<string, Entry>, x: real)
    requires KnownAnswers(m) && x >= 0.0
    ensures KnownAnswers(m[PREGNANCIES := Num(x)])
  {
    forall j | 0 <= j < |MEASUREMENTS| ensures MEASUREMENTS[j].name != PREGNANCIES {
      FieldNotPregnancies(j);
    }
  }

  /** Filling defaults keeps the answers well formed. */
  lemma FillKeepsKnown(m: map<string, Entry>)
    requires KnownAnswers(m)
    ensures KnownAnswers(FilledWithDefaults(m))
  {
    FillKeepsInRange(m);
    forall j | 0 <= j < |MEASUREMENTS| ensures MEASUREMENTS[j].name != PREGNANCIES {
      FieldNotPregnancies(j);
    }
  }

  /** Recording more answers never undoes what a card requires. */
  lemma ReachedGrows(screen: string, m: map<string, Entry>, m': map<string, Entry>)
    requires Reached(screen, m) && m.Keys <= m'.Keys
    ensures Reached(screen, m')
  {
  }

  /** Once question `i`'s answer is recorded (as a number or as "null"), the card that follows
      it may be shown. */
  lemma MovedOn(m: map<string, Entry>, i: nat)
    requires i < |MEASUREMENTS| && CollectedBefore(m, i) && MEASUREMENTS[i].name in m
    ensures Reached(NextCard(i), m)
  {
    NextCardOrder(i);
    if i == |MEASUREMENTS| - 1 {
      FixedCardShowsNoField(RESULT);
    } else {
      forall k | 0 <= k < |MEASUREMENTS| && OnField(NextCard(i), k) ensures CollectedBefore(m, k) {
        OnFieldUnique(NextCard(i), i + 1, k);
      }
    }
  }

  /** Once the pregnancy count is recorded, the first question may be shown. */
  lemma FirstQuestionReached(m: map<string, Entry>)
    requires PREGNANCIES in m
    ensures Reached(MEASUREMENTS[0].name, m)
  {
    forall k | 0 <= k < |MEASUREMENTS| && OnField(MEASUREMENTS[0].name, k) ensures CollectedBefore(m, k) {
      OnFieldUnique(MEASUREMENTS[0].name, 0, k);
    }
  }

  /** The wizard's invariant over its card and its answers. */
  predicate Inv(screen: string, m: map<string, Entry>) {
    KnownAnswers(m) && Reached(screen, m)
  }

  /** Giving up on question `i` after its third failure keeps the invariant. */
  lemma GiveUpKeepsInv(screen: string, m: map<string, Entry>, i: nat)
    requires Inv(screen, m) && i < |MEASUREMENTS| && screen == MEASUREMENTS[i].name
    ensures Inv(NextCard(i), m[MEASUREMENTS[i].name := Missing])
  {
    assert OnField(screen, i);
    RecordAnswer(m, i, Missing);
    MovedOn(m[MEASUREMENTS[i].name := Missing], i);
  }

  class DiabetesAssistant {
    /** Name of the card currently shown. */
    var screen: string
    /** Recorded answers by key. */
    var userData: map<string, Entry>
    /** Failed answers by measurement key. */
    var attemptCount: map<string, nat>
    /** Predictor outputs whose delayed final-card step has been queued and has not run yet. */
    var pending: seq<string>

    /**
     * Only known keys are recorded, the pregnancy count is a number of at least zero, every
     * recorded measurement passed its range test, and while a measurement's question or help
     * card is shown, the pregnancy count and every earlier measurement are recorded.
     */
    ghost predicate Valid()
      reads this
    {
      Inv(screen, userData)
    }

    /** The wizard opens on the welcome card with nothing recorded. */
    constructor ()
      ensures Valid()
      ensures screen == WELCOME && userData == map[] && attemptCount == map[] && pending == []
    {
      screen := WELCOME;
      userData := map[];
      attemptCount := map[];
      pending := [];
      FixedCardShowsNoField(WELCOME);
    }

    /** The Exit button of every card except the welcome and final cards, and the Restart button
        of the final card: forget every answer and every failure count and show the welcome card.
        A final-card step already queued is not cancelled. */
    method Reset()
      requires screen != WELCOME
      modifies this`screen, this`userData, this`attemptCount
      ensures Valid()
      ensures screen == WELCOME && userData == map[] && attemptCount == map[]
      ensures pending == old(pending)
    {
      userData := map[];
      attemptCount := map[];
      screen := WELCOME;
      FixedCardShowsNoField(screen);
    }

    /** A button that only changes the card shown. */
    method Press(target: string)
      requires Valid() && ButtonEdge(screen, target)
      modifies this`screen
      ensures Valid()
      ensures screen == target
      ensures userData == old(userData) && attemptCount == old(attemptCount)
    {
      forall k | 0 <= k < |MEASUREMENTS| && OnField(target, k) ensures CollectedBefore(userData, k) {
        ButtonEdgeIntoField(screen, target, k);
        if !OnField(screen, k) {
          assert OnField(screen, k + 1);
        }
      }
      screen := target;
    }

    /** The "No" answer to the pregnancy question records a count of 0 and moves to the first
        measurement. */
    method AnswerNeverPregnant()
      requires Valid() && screen == PREGNANCY
      modifies this`screen, this`userData
      ensures Valid()
      ensures userData == old(userData)[PREGNANCIES := Num(0.0)]
      ensures screen == MEASUREMENTS[0].name
      ensures attemptCount == old(attemptCount)
    {
      RecordPregnancies(userData, 0.0);
      userData := userData[PREGNANCIES := Num(0.0)];
      screen := MEASUREMENTS[0].name;
      FirstQuestionReached(userData);
    }

    /** The Continue button of the pregnancy-count card: an accepted count is recorded and the
        first measurement is asked; any other input changes nothing. */
    method SubmitPregnancyCount(parsed: Option<int>)
      requires Valid() && screen == PREGNANCY_TIMES
      modifies this`screen, this`userData
      ensures Valid()
      ensures AcceptPregnancyCount(parsed).Some? ==>
                userData == old(userData)[PREGNANCIES := Num(AcceptPregnancyCount(parsed).value as real)]
                && screen == MEASUREMENTS[0].name
      ensures AcceptPregnancyCount(parsed).None? ==> userData == old(userData) && screen == old(screen)
      ensures attemptCount == old(attemptCount)
    {
      var times := AcceptPregnancyCount(parsed);
      if times.Some? {
        RecordPregnancies(userData, times.value as real);
        userData := userData[PREGNANCIES := Num(times.value as real)];
        screen := MEASUREMENTS[0].name;
        FirstQuestionReached(userData);
      }
    }

    /**
     * A failed answer on question `i`: its failure count goes up by one. From the third failure
     * on, the answer is recorded as "null" and the wizard moves on as a valid answer would;
     * before that nothing else changes. The count is not reset by the skip.
     */
    method HandleInvalidInput(i: nat)
      requires Valid() && i < |MEASUREMENTS| && screen == MEASUREMENTS[i].name
      modifies this`screen, this`userData, this`attemptCount
      ensures Valid()
      ensures var name := MEASUREMENTS[i].name;
              var attempts := AttemptsOf(old(attemptCount), name) + 1;
              && attemptCount == old(attemptCount)[name := attempts]
              && (attempts >= 3 ==> userData == old(userData)[name := Missing] && screen == NextCard(i))
              && (attempts < 3 ==> userData == old(userData) && screen == old(screen))
    {
      var config := MEASUREMENTS[i];
      var attempts := AttemptsOf(attemptCount, config.name) + 1;
      GiveUpKeepsInv(screen, userData, i);
      SkipMatchesNext(i);
      if attempts >= 3 {
        userData := userData[config.name := Missing];
        screen := SkipTarget(config);
      }
      attemptCount := attemptCount[config.name := attempts];
    }

    /**
     * Fills every measurement that is absent or "null" with its nominal minimum, row by row in
     * table order.
     */
    method FillMissingWithDefaults()
      requires Valid()
      modifies this`userData
      ensures Valid()
      ensures userData == FilledWithDefaults(old(userData))
    {
      for i := 0 to |MEASUREMENTS|
        invariant userData == FillFirst(old(userData), i)
      {
        var config := MEASUREMENTS[i];
        if config.name !in userData || userData[config.name] == Missing {
          userData := userData[config.name := Num(config.min)];
        }
      }
      FillKeepsKnown(old(userData));
      ReachedGrows(screen, old(userData), userData);
    }

    /**
     * Before predicting: if some answer is "null", the user is asked whether to fill defaults.
     * Declining returns false and changes nothing; otherwise (after filling when asked) the
     * result card is shown and true is returned.
     */
    method CheckAndHandleMissingValues(fillConsent: bool) returns (ok: bool)
      requires Valid()
      modifies this`screen, this`userData
      ensures Valid()
      ensures ok <==> !(HasNulls(old(userData)) && !fillConsent)
      ensures ok ==> screen == RESULT
                     && userData == (if HasNulls(old(userData)) then FilledWithDefaults(old(userData)) else old(userData))
      ensures !ok ==> screen == old(screen) && userData == old(userData)
      ensures attemptCount == old(attemptCount)
    {
      var hasNulls := HasNulls(userData);
      if hasNulls {
        if fillConsent {
          FillMissingWithDefaults();
        } else {
          return false;
        }
      }
      screen := RESULT;
      FixedCardShowsNoField(screen);
      return true;
    }

    /**
     * The Continue button of question `i`. A failed answer (empty, not a number, or outside
     * the range) is handled as `HandleInvalidInput` does. An accepted answer is recorded, the
     * question's failure count is reset to 0, and the next question is shown; after the last
     * question the missing-value check runs and, when it lets the prediction go ahead, the
     * predictor's output is returned and its final-card step is queued. The predictor then
     * always receives the eight complete arguments.
     */
    method SubmitMeasurement(i: nat, input: Option<Double>, fillConsent: bool,
                             predict: seq<Entry> -> Option<string>) returns (prediction: Option<string>)
      requires Valid() && i < |MEASUREMENTS| && screen == MEASUREMENTS[i].name
      modifies this`screen, this`userData, this`attemptCount, this`pending
      ensures Valid()
      ensures pending == old(pending) + (if prediction.Some? then [prediction.value] else [])
      ensures var name := MEASUREMENTS[i].name;
              var attempts := AttemptsOf(old(attemptCount), name) + 1;
              Validate(MEASUREMENTS[i], input).None? ==>
                && prediction == None
                && attemptCount == old(attemptCount)[name := attempts]
                && (attempts >= 3 ==> userData == old(userData)[name := Missing] && screen == NextCard(i))
                && (attempts < 3 ==> userData == old(userData) && screen == old(screen))
      ensures var name := MEASUREMENTS[i].name;
              var value := Validate(MEASUREMENTS[i], input);
              value.Some? && i < |MEASUREMENTS| - 1 ==>
                && attemptCount == old(attemptCount)[name := 0]
                && userData == old(userData)[name := Num(value.value)]
                && screen == NextCard(i)
                && prediction == None
      ensures var name := MEASUREMENTS[i].name;
              var value := Validate(MEASUREMENTS[i], input);
              value.Some? && i == |MEASUREMENTS| - 1 ==>
                var stored := old(userData)[name := Num(value.value)];
                && attemptCount == old(attemptCount)[name := 0]
                && (HasNulls(stored) && !fillConsent ==>
                      userData == stored && screen == WELCOME && prediction == None)
                && (!(HasNulls(stored) && !fillConsent) ==>
                      && userData == (if HasNulls(stored) then FilledWithDefaults(stored) else stored)
                      && screen == RESULT
                      && PREGNANCIES in userData && Complete(userData)
                      && prediction == Some(Launch(predict, PredictorArgs(userData))))
    {
      var config := MEASUREMENTS[i];
      var value := Validate(config, input);
      if value.None? {
        HandleInvalidInput(i);
        return None;
      }
      userData := userData[config.name := Num(value.value)];
      attemptCount := attemptCount[config.name := 0];
      RecordAnswer(old(userData), i, Num(value.value));
      assert OnField(old(screen), i);
      var next := NextCard(i);
      NextCardOrder(i);
      if next == RESULT {
        assert CollectedBefore(userData, |MEASUREMENTS|);
        ghost var stored := userData;
        var ok := CheckAndHandleMissingValues(fillConsent);
        if ok {
          if HasNulls(stored) {
            assert Complete(userData);
          } else {
            NoNullsMeansComplete(stored);
          }
          var text := CallModel(userData, predict);
          prediction := Some(text);
          pending := pending + [text];
        } else {
          screen := WELCOME;
          FixedCardShowsNoField(screen);
          prediction := None;
        }
      } else {
        screen := next;
        MovedOn(userData, i);
        prediction := None;
      }
    }

    /** The oldest queued final-card step runs, whatever card is shown by then (Exit during
        the wait does not cancel it): the final card shows the message for that output. */
    method ShowFinalResult() returns (message: Message)
      requires Valid() && |pending| > 0
      modifies this`screen, this`pending
      ensures Valid()
      ensures screen == RESULT_FINAL && message == MessageFor(old(pending)[0])
      ensures pending == old(pending)[1..]
      ensures userData == old(userData) && attemptCount == old(attemptCount)
    {
      var prediction := pending[0];
      pending := pending[1..];
      screen := RESULT_FINAL;
      FixedCardShowsNoField(screen);
      message := MessageFor(prediction);
    }
  }
}
