# Quiz session model

A Dafny model of the `QuizApp` component of a single-page quiz
(`src/app/page.tsx`). The quiz walks through a fixed table of ten questions.
The first five are multiple-choice ("mcq"): the user clicks an option. The
last five are "integer" questions: the user types an answer and submits it.
Every question has a 30-second countdown. "Next", or the countdown reaching
zero, turns the current question into an attempt, appends it to the session
log and to the browser's attempt store, and moves to the next question. After
the last question the session starts over.

Modules:

- `Text` (`text.dfy`): JavaScript's `String.prototype.trim`. It strips the
  ECMAScript WhiteSpace and LineTerminator code points from both ends. The
  model proves that `Trim` is the unique slice with whitespace-only ends that
  has non-whitespace ends itself.
- `Questions` (`questions.dfy`): the `Question` record, the ten-entry table
  copied character for character (stray spaces included), and the table's
  well-formedness.
- `Transitions` (`transitions.dfy`): the component's state fields as a `State`
  value, and one function per handler that says what the handler does to the
  state. It also holds the session invariant `Inv` and its preservation lemmas.
- `QuizApp` (`session.dfy`): the component as a `Session` class. Its fields
  are the `useState` fields and its methods are the handlers, updating the
  fields in place. Each method is proved to perform its `Transitions` function
  and to keep `Inv`. The ghost field `stored` holds the attempts this session
  has handed to the attempt store (IndexedDB), in order. `HandleNext` appends
  to it and nothing ever clears it. What the store held before the page was
  opened is not modelled.
- `Runs` (`runs.dfy`): sequences of events (clicks, submissions, edits, Next,
  timer ticks) and properties that span several steps. These cover the
  invariant over any run, the clock running out, and a full round returning to
  the initial state. The worked scenarios of the quiz are here too.

The feedback strings are modelled by the three values `NoFeedback`, `Correct`
and `Incorrect`. The handlers compare feedback only with the "Correct" string
(line 97). The view (line 162) only asks whether feedback is set and whether it
contains ✅, and the three values decide both.

Behaviour of `page.tsx` that the model keeps as written:

- The click handler does not check the question type; the page never calls it
  on an integer question, since it shows option buttons only for mcq
  questions.
- The selection stored after a typed submission is the untrimmed input.
- Repeated correct answers before advancing each add one to the score.
- At the end of a round the log is cleared, including the attempt just
  appended. The attempt store keeps it.

## Model

| member | source | states |
|---|---|---|
| `Text.Trim` | src/app/page.tsx:83 | the trimmed string is a slice of the input whose cut-off ends are all whitespace and whose own first and last characters are not whitespace |
| `Text.TrimUnique` | src/app/page.tsx:83 | any string that satisfies that description is `Trim` of the input, so the description defines trimming exactly |
| `Text.TrimIdempotent` | src/app/page.tsx:83 | trimming an already trimmed string changes nothing |
| `Text.TrimPadding` | src/app/page.tsx:83 | whitespace put around a string that is empty or has non-whitespace ends is exactly what trimming removes; an all-whitespace input trims to the empty string |
| `Text.TrimBlank` | src/app/page.tsx:83 | any all-whitespace input trims to the empty string |
| `Text.TrimSpacedNumber` | src/app/page.tsx:83 | `" 40 "` trims to `"40"` |
| `Text.TrimDecimal` | src/app/page.tsx:83 | `"40.0"` trims to itself, so it is never equal to `"40"` |
| `Text.TrimYear` | src/app/page.tsx:83 | `"1777"` trims to itself |
| `Questions.TableWellFormed` | src/app/page.tsx:16-27 | the table has ten entries with ids 1 to 10; every mcq question has a non-empty options list containing its answer; no integer question has options |
| `Transitions.AnswerClick` | src/app/page.tsx:71-79 | the clicked option becomes the selection; feedback is Correct exactly when the option equals the current answer, Incorrect otherwise; the score rises by one exactly on a match; pointer, log, timer and input are unchanged; the question type is not consulted |
| `Transitions.AnswerSubmit` | src/app/page.tsx:81-91 | nothing changes unless the current question is an integer question; otherwise the untrimmed input becomes the selection, feedback is Correct exactly when the trimmed input equals the answer as a string, and the score rises by one exactly then |
| `Transitions.InputChange` | src/app/page.tsx:151 | editing the answer field sets the input and leaves every other field alone |
| `Transitions.Next` | src/app/page.tsx:93-115 | selection, feedback and input are cleared and the timer is 30; before the last question the pointer moves up by one, the score is kept and the log gains exactly the attempt (current prompt, current selection, feedback was Correct) after its unchanged earlier entries; after the last question the state is the initial one (pointer 0, score 0, empty log) |
| `Transitions.TimerEffect` | src/app/page.tsx:55-62 | with time left, the timer drops by one and nothing else changes; at zero, the effect is exactly `Next` |
| `Transitions.InitialInv` | src/app/page.tsx:46-52 | the initial state satisfies the session invariant |
| `Transitions.AnswerClickInv` | src/app/page.tsx:71-79 | a click keeps the session invariant |
| `Transitions.AnswerSubmitInv` | src/app/page.tsx:81-91 | a submission keeps the session invariant |
| `Transitions.InputChangeInv` | src/app/page.tsx:151 | an edit keeps the session invariant |
| `Transitions.NextInv` | src/app/page.tsx:93-115 | with the store write succeeding, advancing keeps the session invariant: pointer in range, one logged attempt per passed question in table order, score at least the logged correct attempts plus a pending correct one |
| `Transitions.TimerEffectInv` | src/app/page.tsx:55-62 | a timer step keeps the session invariant, including the countdown staying within 0..30 |
| `Transitions.CorrectCountAppend` | src/app/page.tsx:100 | appending an attempt raises the count of correct attempts by one exactly when that attempt is correct |
| `Transitions.RepeatedCorrectClick` | src/app/page.tsx:73-75 | clicking the right answer twice before advancing adds two to the score |
| `QuizApp.Session.constructor` | src/app/page.tsx:46-52 | a fresh session is in the initial state (pointer 0, no selection, no feedback, score 0, empty log, timer 30, empty input), nothing has been handed to the store yet, and the invariant holds |
| `QuizApp.Session.HandleAnswerClick` | src/app/page.tsx:71-79 | the fields afterwards are `AnswerClick` of the fields before; the invariant is kept; the store is untouched |
| `QuizApp.Session.HandleAnswerSubmit` | src/app/page.tsx:81-91 | the fields afterwards are `AnswerSubmit` of the fields before; the invariant is kept; the store is untouched |
| `QuizApp.Session.HandleInputChange` | src/app/page.tsx:151 | the fields afterwards are `InputChange` of the fields before; the invariant is kept; the store is untouched |
| `QuizApp.Session.HandleNext` | src/app/page.tsx:93-115 | the fields afterwards are `Next` of the fields before; the invariant is kept; the store gains exactly the finalised attempt, in both branches |
| `QuizApp.Session.TimerEffect` | src/app/page.tsx:55-62 | the fields afterwards are `TimerEffect` of the fields before; the store gains the finalised attempt exactly when the timer was at zero |
| `Runs.Step` | src/app/page.tsx:55-115 | every event keeps the question pointer inside the table |
| `Runs.Run` | src/app/page.tsx:55-115 | with each handler run as one atomic step, any sequence of events keeps the question pointer inside the table, so the current question always exists |
| `Runs.StepInv` | src/app/page.tsx:55-115 | every event keeps the session invariant |
| `Runs.RunInv` | src/app/page.tsx:55-115 | with each handler run as one atomic step and every store write succeeding, any sequence of events from a state satisfying the invariant ends in one that satisfies it |
| `Runs.ReachableInv` | src/app/page.tsx:46-115 | with each handler run as one atomic step and every store write succeeding, every state reachable from a fresh page satisfies the invariant |
| `Runs.ClockRunsOut` | src/app/page.tsx:55-62 | `timer` ticks bring the countdown to zero and change nothing else; one more tick is `Next`; the attempt recorded is the one held before the clock ran; with no answer given, its selection is null and it is incorrect |
| `Runs.NextsAdvance` | src/app/page.tsx:107-108 | pressing Next n times short of the end moves the pointer n places, keeps the score, and grows the log by n while keeping its earlier entries |
| `Runs.RoundRestarts` | src/app/page.tsx:107-114 | from any question, pressing Next once per remaining question returns the session to its initial state |
| `Runs.FirstQuestionScenario` | src/app/page.tsx:71-108 | clicking "Mercury" on the first question gives Correct and score 1; advancing then logs the attempt with the planet prompt, "Mercury" and correct, and moves to question 2 with the timer at 30 |
| `Runs.DoubleClickScenario` | src/app/page.tsx:73-75 | two clicks on "Mercury" before advancing leave the score at 2 |
| `Runs.TypedAnswerScenario` | src/app/page.tsx:81-91 | on the "12 + 28" question, typing " 40 " and submitting gives Correct; typing "40.0" gives Incorrect |
| `Runs.WrongYearScenario` | src/app/page.tsx:81-100 | on the Declaration question, submitting "1777" gives Incorrect, and advancing logs an incorrect attempt |
| `Runs.ClickOnIntegerQuestion` | src/app/page.tsx:71-79 | the click handler, given the answer string of an integer question, scores it as correct (a call the page never makes) |

## Left out

- The attempt store (`initDB`, `saveAttempt`, lines 29-37 and 64-69): IndexedDB through the `idb` library, asynchronous and foreign. It is modelled only as the ghost sequence `stored`, which `HandleNext` appends to. Store failures, keys and the database schema are not modelled. In the code, `setAttempts` (line 100) runs before `await saveAttempt` (line 101), with no try/catch: if `openDB` or `store.add` rejects (lines 65-68), lines 102-114 never run, so the log gains an attempt while pointer, selection, feedback, input and timer stay as they were, which breaks the invariant's one-attempt-per-passed-question clause. After such a failure on a timeout the timer stays at 0; the effect depends on `[timer]` only, so it does not run again and the countdown stays frozen, and each later Next press adds another attempt without advancing. `NextInv`, `RunInv` and `ReachableInv` hold only when every store write succeeds.
- The `await` inside `handleNext`, React's batching of state updates and stale closures: every handler is one atomic step on the current state. For example, the completion `alert` reads a closed-over `score`, and that is not modelled. Two `handleNext` runs can overlap across the `await saveAttempt` (line 101): Next pressed twice within the store's latency, or pressed as the timer reaches 0 and line 60 calls it again. Both then read the same `currentQuestion`, log two attempts for one question, and each applies line 108's increment; from question 9 of 10 the pointer reaches 10 and line 127 reads past the table. The invariant (`RunInv`, `ReachableInv`, `Run`), including the pointer bound and one logged attempt per question, holds only for atomic handler runs.
- `setInterval`/`clearInterval` timing: the timer effect is one abstract step (`TimerEffect`) with no notion of seconds or timer cancellation.
- The completion `alert` (line 110), the JSX view, the CSS, the option labels A to D and the unused `menuOpen` state (line 53).
- Events the view cannot produce: the `Event` type of `Runs` is a superset of what the page emits (option clicks only on mcq questions and only with that question's options, lines 129-142; typing and Submit only on integer questions, lines 145-158). The invariants hold for every event, so they hold for the page's events too, but `Runs.ClickOnIntegerQuestion` shows a handler behaviour the page cannot reach.
- The browser's `type="number"` filtering of the input field (line 147): the typed input is any string.
- Whitespace for trimming: the set is fixed by the Unicode Zs category as of current Unicode versions. Strings are sequences of Unicode scalar values, so JavaScript strings with unpaired surrogates are not represented.
