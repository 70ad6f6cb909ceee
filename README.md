# Diabetes risk assistant: the form wizard

A model of the question wizard of the Java desktop front end `DiabetesAssistant`.

The wizard leads the user through a fixed sequence of cards:
- welcome;
- diabetes check;
- test intro;
- pregnancy question;
- pregnancy count;
- seven measurement questions, each with a help card;
- result.

It records answers by key (`pregnancies`, `glucose`, `diastolic`, `skin_thickness`, `insulin`, `bmi`, `dpf`, `age`). It counts failed answers per question. After three failures it records the text `"null"` for that question and moves on. Before predicting, it offers to fill `"null"` answers with the row's nominal minimum. It then hands eight arguments to an external predictor and maps the predictor's output line to a message.

The model has five modules:

- `Config` (`config.dfy`):
  - the measurement table, with its names, ranges and indices;
  - the inclusive range test;
  - a Java `double` datatype used to state the answer guard as written and as intended.
- `Navigation` (`navigation.dfy`):
  - the card names;
  - the next and back order of the question cards;
  - the skip target after three failures;
  - every button that only changes the card shown.
- `Answers` (`answers.dfy`):
  - recorded answers, where `Missing` stands for the stored text `"null"`;
  - the pregnancy-count rule;
  - the default-filling loop as a function of the answers;
  - the predictor argument list;
  - `CallModel`, the array-filling method that assembles the arguments and runs the predictor.
- `ResultMessage` (`result_message.dfy`):
  - Java's `String.trim()`;
  - the mapping of the predictor's output line to the high-risk, low-risk or verbatim message.
- `Wizard` (`wizard.dfy`):
  - the class `DiabetesAssistant`, whose fields are the card shown (`screen`), the recorded answers (`userData`), the failure counts (`attemptCount`) and the queue of final-card steps not yet run (`pending`);
  - one method per button handler;
  - the class invariant `Valid()`.

`Valid()` states three things:
- only known keys are recorded;
- the pregnancy count is a number of at least zero, and every recorded measurement passed its range test;
- while a measurement's question or help card is shown, the pregnancy count and every earlier answer are recorded.

Every handler preserves it.

Inputs from outside the program are parameters:
- the parsed text of a text field (`Option<int>` / `Option<Double>`, where `None` means empty or unparsable);
- the user's answer to the fill-defaults dialog (`fillConsent`);
- the predictor process (`predict: seq<Entry> -> Option<string>`, where `None` means the process failed with an I/O error).

## Model

| member | source | states |
|---|---|---|
| Config.NewConfig | src/JavaFrontEnd/DiabetesAssistant.java:34-47 | The constructor first stores 0 as the absolute minimum and then overwrites it, so every field ends up holding its parameter, including the absolute minimum. Every table row is built with it. |
| Config.Accepts | src/JavaFrontEnd/DiabetesAssistant.java:384 | The inclusive range test `absoluteMin <= v <= absoluteMax` of the corrected guard. `GuardAsWrittenExactOffNaN` ties it to the written guard off NaN. |
| Config.JavaLess | src/JavaFrontEnd/DiabetesAssistant.java:384 | Java's `<` on doubles. Every comparison with NaN is false, nothing is below negative infinity, and positive infinity is below nothing. Negative infinity is below every other non-NaN value, and every finite value is below positive infinity. On finite values it is `<` on the reals. |
| Config.PassesGuardAsWritten | src/JavaFrontEnd/DiabetesAssistant.java:384 | The guard exactly as written: refuse when `JavaLess(v, absoluteMin)` or `JavaLess(absoluteMax, v)`. `NaNPassesGuardAsWritten` and `GuardAsWrittenExactOffNaN` characterise it completely. |
| Config.TableWellFormed | src/JavaFrontEnd/DiabetesAssistant.java:56-93 | The table has seven rows. Each row's `index` is its own position. Each row's nominal range lies inside its absolute range. |
| Config.RowWellFormed | src/JavaFrontEnd/DiabetesAssistant.java:56-93 | The same two facts for a single row `i`. |
| Config.NamesDistinct | src/JavaFrontEnd/DiabetesAssistant.java:56-93 | The seven keys are pairwise distinct and non-empty, and none of them is the pregnancy key. |
| Config.NameInjective | src/JavaFrontEnd/DiabetesAssistant.java:56-93 | Two rows with the same key are the same row. |
| Config.FieldNotPregnancies | src/JavaFrontEnd/DiabetesAssistant.java:56-93 | No row uses the key `pregnancies`. |
| Config.DefaultAccepted | src/JavaFrontEnd/DiabetesAssistant.java:608-614 | The default written for a missing answer (the row's `min`) itself passes that row's range test. |
| Config.NaNPassesGuardAsWritten | src/JavaFrontEnd/DiabetesAssistant.java:383-388 | The guard as written, `value < absoluteMin \|\| value > absoluteMax`, lets NaN through on every row. On a row whose range excludes 0, the guard accepts NaN while rejecting the number 0. |
| Config.GuardAsWrittenExactOffNaN | src/JavaFrontEnd/DiabetesAssistant.java:383-388 | For every input other than NaN, the written guard passes exactly the finite numbers inside the inclusive absolute range. |
| Config.Validate | src/JavaFrontEnd/DiabetesAssistant.java:376-388 | The range test of the corrected program (see Findings), which the model's handlers use. An answer is accepted if and only if it parsed to a finite number inside the inclusive absolute range. The accepted value is that number. |
| Config.ValidateMatchesGuard | src/JavaFrontEnd/DiabetesAssistant.java:376-388 | On every input except NaN, `Validate` accepts exactly what the written guard accepts. |
| Navigation.InstructionsCard | src/JavaFrontEnd/DiabetesAssistant.java:336 | The name under which question `i`'s help card is registered, and which its "I'm not sure" button (line 367) shows. `HelpCardNamesRow` states what identifies it. |
| Navigation.HelpCardNamesRow | src/JavaFrontEnd/DiabetesAssistant.java:336 | A help card's name is the row's key after the `instructions_` prefix, and no help card is a question card. |
| Navigation.NextCard | src/JavaFrontEnd/DiabetesAssistant.java:334 | The card after question `i` is the result card if and only if `i` is the last row. |
| Navigation.NextCardOrder | src/JavaFrontEnd/DiabetesAssistant.java:331-337 | The card after question `i` is the result card if and only if `i` is the last row. Otherwise it is the question card of row `i + 1`, not its help card. |
| Navigation.SkipTarget | src/JavaFrontEnd/DiabetesAssistant.java:444-445 | The skip after the third failure, computed from the row's stored index, leads to the result card if and only if that index is the last. |
| Navigation.SkipMatchesNext | src/JavaFrontEnd/DiabetesAssistant.java:443-447 | The skip after the third failure, computed from the row's `index`, goes to the same card as a valid answer on that question. |
| Navigation.BackCard | src/JavaFrontEnd/DiabetesAssistant.java:424 | A question's Back button, computed from the row's stored index, leads to the pregnancy-count card if and only if that index is 0. |
| Navigation.BackUndoesNext | src/JavaFrontEnd/DiabetesAssistant.java:423-425 | Back from the first question leads to the pregnancy-count card. Back from question `i + 1` leads to question `i`, whose next card is question `i + 1`. |
| Navigation.OnFieldUnique | src/JavaFrontEnd/DiabetesAssistant.java:331-337 | A question or help card belongs to exactly one measurement. |
| Navigation.FixedCardShowsNoField | src/JavaFrontEnd/DiabetesAssistant.java:155-708 | No introductory or result card is the question or help card of a measurement. |
| Navigation.ButtonEdgeIntoField | src/JavaFrontEnd/DiabetesAssistant.java:365-472 | Among the buttons that only change the card shown, only two kinds lead onto measurement `k`'s cards: a button on measurement `k`'s own cards, or the Back button of question `k + 1`. The buttons that also record an answer, such as the pregnancy card's No (lines 261-263) and the Continue buttons, are `AnswerNeverPregnant`, `SubmitPregnancyCount` and `SubmitMeasurement`. The navigation-only buttons covered are on the welcome, check and intro cards (lines 138-146, 178-189, 226-232). They also include the pregnancy card's Yes and Back (lines 257, 269), the pregnancy-count card's Back (line 321), and the question and help buttons (lines 367, 424-425, 472). |
| Answers.AttemptsOf | src/JavaFrontEnd/DiabetesAssistant.java:436 | The failure count of a key, where an absent key counts as 0 (Java's `getOrDefault(name, 0)`). |
| Answers.HasNulls | src/JavaFrontEnd/DiabetesAssistant.java:586 | The search over the map's values for the `"null"` marker holds if and only if some key maps to the marker. |
| Answers.AcceptPregnancyCount | src/JavaFrontEnd/DiabetesAssistant.java:309-315 | A count is accepted if and only if it parsed as a whole number of at least 0. The accepted count is that number. |
| Answers.FillOne | src/JavaFrontEnd/DiabetesAssistant.java:610-612 | One loop step for row `i`: that row now holds its recorded number or its minimum. Its key is added if it was absent, and every other key keeps its value. |
| Answers.FillFirst | src/JavaFrontEnd/DiabetesAssistant.java:609-613 | The loop after its first `n` rows. It never removes a key; `FillFirstSpec` states the rest. |
| Answers.FillFirstSpec | src/JavaFrontEnd/DiabetesAssistant.java:608-614 | After the loop has visited the first `n` rows, each of them holds its recorded number or its minimum. No key other than theirs has been added, and every other key is unchanged. |
| Answers.FilledWithDefaults | src/JavaFrontEnd/DiabetesAssistant.java:608-614 | After filling, every measurement is present and numeric, holding its recorded number or else its minimum. Only measurement keys are added, and all other keys are unchanged. |
| Answers.FillIdempotent | src/JavaFrontEnd/DiabetesAssistant.java:608-614 | Filling twice gives the same answers as filling once. |
| Answers.FillKeepsComplete | src/JavaFrontEnd/DiabetesAssistant.java:608-614 | Filling answers that are already complete changes nothing. |
| Answers.PredictorArgs | src/JavaFrontEnd/DiabetesAssistant.java:618-648 | There are eight arguments: the pregnancy count, then each measurement in table order. |
| Answers.Launch | src/JavaFrontEnd/DiabetesAssistant.java:637-659 | Running the predictor gives its output line, or the failure text when the launch or the read raises an I/O error. |
| Answers.EnoughKeys | src/JavaFrontEnd/DiabetesAssistant.java:618-631 | The argument array is sized by the number of recorded answers. It has room for the pregnancy count and every measurement the loop writes. |
| Answers.CallModel | src/JavaFrontEnd/DiabetesAssistant.java:616-659 | If any measurement is absent or `"null"`, the result is the incomplete-data text. Otherwise the predictor runs on exactly `PredictorArgs`, and the result is its output line, or the failure text on an I/O error. |
| ResultMessage.SkipLeading | src/JavaFrontEnd/DiabetesAssistant.java:674 | Skips only blank characters and stops at the first non-blank one, or at the end. |
| ResultMessage.SkipTrailing | src/JavaFrontEnd/DiabetesAssistant.java:674 | Skips only blank characters from the right and stops just after the last non-blank one, or at the lower bound. |
| ResultMessage.Trim | src/JavaFrontEnd/DiabetesAssistant.java:674 | The trimmed text is empty, or both its first and its last characters are non-blank. |
| ResultMessage.TrimIsPadded | src/JavaFrontEnd/DiabetesAssistant.java:674 | The input is the trimmed text with nothing but blanks before and after it. |
| ResultMessage.TrimPadded | src/JavaFrontEnd/DiabetesAssistant.java:674 | A text whose ends are not blank comes back unchanged from trimming, whatever blanks pad it. |
| ResultMessage.MessageFor | src/JavaFrontEnd/DiabetesAssistant.java:673-686 | The message is high risk if and only if the trimmed output is `1`, and low risk if and only if it is `0`. Any other output is shown verbatim. |
| ResultMessage.PaddedLabels | src/JavaFrontEnd/DiabetesAssistant.java:673-686 | `1` or `0` surrounded by any blanks, such as a trailing newline, gives the high-risk or low-risk message. |
| ResultMessage.HighRiskOnlyForOne | src/JavaFrontEnd/DiabetesAssistant.java:673-686 | Conversely, the high-risk message appears only for a blank-padded `1`. |
| ResultMessage.LowRiskOnlyForZero | src/JavaFrontEnd/DiabetesAssistant.java:673-686 | Conversely, the low-risk message appears only for a blank-padded `0`. |
| Wizard.NoNullsMeansComplete | src/JavaFrontEnd/DiabetesAssistant.java:585-605 | If every question has a recorded answer and none of them is `"null"`, the answers are complete. |
| Wizard.FillKeepsInRange | src/JavaFrontEnd/DiabetesAssistant.java:608-614 | Filling defaults keeps every recorded measurement inside its range. |
| Wizard.PredictorArgsInRange | src/JavaFrontEnd/DiabetesAssistant.java:616-648 | In the corrected program, which refuses NaN, every measurement argument the predictor receives lies inside its row's absolute range. |
| Wizard.RecordAnswer | src/JavaFrontEnd/DiabetesAssistant.java:384-389 | Recording a number that passed the range test, or recording `"null"`, keeps the answers well formed. |
| Wizard.RecordPregnancies | src/JavaFrontEnd/DiabetesAssistant.java:309-312 | Recording a count of at least zero keeps the answers well formed. |
| Wizard.FillKeepsKnown | src/JavaFrontEnd/DiabetesAssistant.java:608-614 | Filling defaults keeps the answers well formed. |
| Wizard.ReachedGrows | src/JavaFrontEnd/DiabetesAssistant.java:608-614 | Adding answers never invalidates the card shown. |
| Wizard.MovedOn | src/JavaFrontEnd/DiabetesAssistant.java:414-416 | Once question `i` and everything before it are recorded, the card that follows question `i` may be shown. |
| Wizard.FirstQuestionReached | src/JavaFrontEnd/DiabetesAssistant.java:261-263 | Once the pregnancy count is recorded, the first question may be shown. |
| Wizard.GiveUpKeepsInv | src/JavaFrontEnd/DiabetesAssistant.java:439-447 | Recording `"null"` for question `i` and moving on keeps the invariant. |
| Wizard.DiabetesAssistant.constructor | src/JavaFrontEnd/DiabetesAssistant.java:95-116 | The wizard starts on the welcome card with no answers, no counts and nothing queued, and the invariant holds. |
| Wizard.DiabetesAssistant.Reset | src/JavaFrontEnd/DiabetesAssistant.java:539-546 | Exit is on every card except the welcome and final cards, and Restart (lines 694-698) is on the final card. Both clear the answers and the counts and show the welcome card. A queued final-card step is not cancelled. The invariant holds afterwards. |
| Wizard.DiabetesAssistant.Press | src/JavaFrontEnd/DiabetesAssistant.java:527-537 | A navigation-only button changes the card shown and nothing else, and keeps the invariant. |
| Wizard.DiabetesAssistant.AnswerNeverPregnant | src/JavaFrontEnd/DiabetesAssistant.java:261-264 | "No" records a pregnancy count of 0 and shows the first question. |
| Wizard.DiabetesAssistant.SubmitPregnancyCount | src/JavaFrontEnd/DiabetesAssistant.java:307-319 | An accepted count is recorded and the first question is shown. Any other input changes nothing. |
| Wizard.DiabetesAssistant.HandleInvalidInput | src/JavaFrontEnd/DiabetesAssistant.java:435-451 | The question's failure count goes up by one. From the third failure on, `"null"` is recorded and the wizard moves to the next card. Below three failures, the answers and the card are unchanged. The invariant is kept in both cases. |
| Wizard.DiabetesAssistant.FillMissingWithDefaults | src/JavaFrontEnd/DiabetesAssistant.java:608-614 | The loop leaves exactly `FilledWithDefaults` of the old answers, and nothing else changes. |
| Wizard.DiabetesAssistant.CheckAndHandleMissingValues | src/JavaFrontEnd/DiabetesAssistant.java:585-605 | The check returns false if and only if some answer is `"null"` and the user declines. In that case nothing changes. Otherwise the answers are filled if needed and the result card is shown. |
| Wizard.DiabetesAssistant.SubmitMeasurement | src/JavaFrontEnd/DiabetesAssistant.java:375-421 | A refused answer is handled like `HandleInvalidInput`. An accepted answer is recorded, its failure count is reset to 0, and the next question is shown. After the last question, declining the fill shows the welcome card. Otherwise the predictor runs on complete answers and its output's final-card step is queued (lines 395-407). Nothing is queued on any other path. |
| Wizard.DiabetesAssistant.ShowFinalResult | src/JavaFrontEnd/DiabetesAssistant.java:403-406 | The oldest queued step runs on whatever card is shown by then, even after Exit during the wait. The final card then shows the message for its output (lines 663-688), and the step leaves the queue. The answers and counts are unchanged. |

## Left out

- Swing presentation is not modelled: layout, colours, the rounded button painting, the HTML help texts and dialog texts, and each row's display name and unit. Dialogs appear only through their effect: the fill-defaults choice is the `fillConsent` parameter, and the warnings change nothing.
- The three-second delay before the final card (lines 395-407) is not timed. Queued steps run between button handlers, in queue order, as `ShowFinalResult`.
- Wizard.DiabetesAssistant.ShowFinalResult runs only between handlers. In Swing a modal dialog keeps dispatching events, so a queued step can also run while the dialog at line 410, 441 or 589 is open. The handler's own card change after the dialog (lines 411, 447, 603) then hides the final card. This interleaving is not modelled.
- Starting the Python process and reading its output (lines 637-659) are a parameter `predict`. `Model/predict_diabetes.py` is not part of this model.
- Answers are stored as numbers, not as the text `String.valueOf` produces. `CallModel` hands the predictor the values rather than their trimmed text.
- `reader.readLine()` returning `null` at end of stream is not modelled, and the model treats the output line as a string. `Model/predict_diabetes.py` writes its errors to stderr and exits with status 1, so its stdout is empty. `readLine()` then returns `null`, `prediction.trim()` at line 674 throws in the queued step, and the final card never appears.
- Wizard.DiabetesAssistant.HandleInvalidInput: the failure count is an unbounded natural number. Java's `int` would wrap only after 2^31 failures on one question.
- Wizard.DiabetesAssistant.SubmitMeasurement uses the corrected range test `Config.Validate`, so it refuses the text `NaN` and counts a failure. The program as written records `"NaN"`, resets the count and moves on (lines 383-389; see Findings). `Wizard.PredictorArgsInRange` and the invariant's range clause hold of the corrected program only.
- Wizard.DiabetesAssistant.SubmitMeasurement requires its question card to be shown, and so does HandleInvalidInput. The Java handlers are attached to that card's button and cannot fire from any other card.
- Answers.CallModel requires the pregnancy count to be recorded. Its only caller runs it after the last question, where the invariant guarantees the count is present. Without that key, the Java array sized by `userData.size()` is one slot short. It either throws an index-out-of-bounds exception (at line 621 when nothing is recorded, or at line 630 when the recorded measurements form a leading run with no `"null"`) or returns the incomplete-data text at line 633.
- The invariant does not restrict the keys of the failure-count map. Counts are only ever kept for the question being answered.
- `"1".equalsIgnoreCase` and `equalsIgnoreCase("0")` are modelled as plain equality, which is the same for the digits 1 and 0.
- The initial `cardLayout` and panel construction in the constructor is reduced to the welcome card being shown.

## Findings

| source | as written | input that shows it | evidently intended | confidence | as-written member | corrected member |
|---|---|---|---|---|---|---|
| src/JavaFrontEnd/DiabetesAssistant.java:383-388 | `value < config.absoluteMin \|\| value > config.absoluteMax` refuses an answer; every comparison with NaN is false, so `Double.parseDouble("NaN")` passes and `"NaN"` is recorded and later sent to the predictor | the text `NaN` typed into any question, for example glucose, whose range is 40-400 | only finite numbers inside the inclusive range are recorded | not executed | Config.NaNPassesGuardAsWritten | Config.Validate |
