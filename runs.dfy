/**
 * Sequences of user and timer events applied to a session, and what they do
 * over several steps: the invariant holds throughout, an unanswered question
 * times out into an incorrect attempt, and a full round ends where it began.
 */
module Runs {
  import opened Questions
  import opened Transitions
  import Text

  /** Everything that can happen to a session: an option clicked, the typed
      answer submitted, the answer field edited, Next pressed, or one run of the
      timer effect. This is more than the page produces: it offers option
      buttons (with the question's own options) only on mcq questions, and the
      answer field and Submit only on integer questions. */
  datatype Event = Click(option: string) | Submit | Type(text: string) | NextPressed | Tick

  function Step(s: State, e: Event): (t: State)
    requires InRange(s)
    ensures InRange(t)
  {
    match e
    case Click(option) => AnswerClick(s, option)
    case Submit => AnswerSubmit(s)
    case Type(text) => InputChange(s, text)
    case NextPressed => Next(s)
    case Tick => TimerEffect(s)
  }

  /** The state after the events `es`, one after the other. */
  function Run(s: State, es: seq<Event>): (t: State)
    requires InRange(s)
    ensures InRange(t)
    decreases |es|
  {
    if es == [] then s else Run(Step(s, es[0]), es[1..])
  }

  /** `n` copies of one event. */
  function Repeat(e: Event, n: nat): (es: seq<Event>)
    ensures |es| == n
    ensures forall k :: 0 <= k < n ==> es[k] == e
  {
    if n == 0 then [] else [e] + Repeat(e, n - 1)
  }

  lemma StepInv(s: State, e: Event)
    requires Inv(s)
    ensures Inv(Step(s, e))
  {
    match e
    case Click(option) => AnswerClickInv(s, option);
    case Submit => AnswerSubmitInv(s);
    case Type(text) => InputChangeInv(s, text);
    case NextPressed => NextInv(s);
    case Tick => TimerEffectInv(s);
  }

  /** With every handler run as one atomic step, whatever happens the session
      invariant holds; in particular the pointer always designates a question.
      Handler runs that overlap across the store write, and store writes that
      fail, are outside this model. */
  lemma {:induction false} RunInv(s: State, es: seq<Event>)
    requires Inv(s)
    ensures Inv(Run(s, es))
    decreases |es|
  {
    if es != [] {
      StepInv(s, es[0]);
      RunInv(Step(s, es[0]), es[1..]);
    }
  }

  /** Every state reachable from a fresh page satisfies the invariant. */
  lemma ReachableInv(es: seq<Event>)
    ensures Inv(Run(Initial, es))
  {
    InitialInv();
    RunInv(Initial, es);
  }

  /** Letting the clock run out: `timer` ticks bring the countdown to zero and
      change nothing else, and the next tick advances. The attempt recorded is
      the one the state held before the clock started; with no answer given it
      has no selection and is incorrect. */
  lemma {:induction false} ClockRunsOut(s: State)
    requires InRange(s)
    ensures Run(s, Repeat(Tick, s.timer)) == s.(timer := 0)
    ensures Run(s, Repeat(Tick, s.timer + 1)) == Next(s.(timer := 0))
    ensures Record(s.(timer := 0)) == Record(s)
    ensures s.selectedAnswer == None && s.feedback == NoFeedback ==>
      Record(s) == Attempt(Current(s).text, None, false)
    decreases s.timer
  {
    if s.timer > 0 {
      var s' := s.(timer := s.timer - 1);
      assert Step(s, Tick) == s';
      ClockRunsOut(s');
      assert Repeat(Tick, s.timer)[1..] == Repeat(Tick, s'.timer);
      assert Repeat(Tick, s.timer + 1)[1..] == Repeat(Tick, s'.timer + 1);
    } else {
      assert Repeat(Tick, 1)[1..] == [];
    }
  }

  /** Pressing Next `n` times without reaching the end of the table moves the
      pointer `n` places, keeps the score, and extends the log by `n`
      attempts, leaving earlier ones as they were. */
  lemma {:induction false} NextsAdvance(s: State, n: nat)
    requires InRange(s) && s.currentQuestion + n < |Table|
    ensures Run(s, Repeat(NextPressed, n)).currentQuestion == s.currentQuestion + n
    ensures Run(s, Repeat(NextPressed, n)).score == s.score
    ensures |Run(s, Repeat(NextPressed, n)).attempts| == |s.attempts| + n
    ensures Run(s, Repeat(NextPressed, n)).attempts[..|s.attempts|] == s.attempts
    decreases n
  {
    if n > 0 {
      var t := Next(s);
      assert Repeat(NextPressed, n)[1..] == Repeat(NextPressed, n - 1);
      NextsAdvance(t, n - 1);
      var u := Run(t, Repeat(NextPressed, n - 1));
      assert u.attempts[..|s.attempts|] == u.attempts[..|t.attempts|][..|s.attempts|];
    }
  }

  /** From any question, pressing Next once per remaining question ends the round
      and restarts the session: pointer, score and log are back to their initial
      values, whatever was answered. */
  lemma {:induction false} RoundRestarts(s: State)
    requires InRange(s)
    ensures Run(s, Repeat(NextPressed, |Table| - s.currentQuestion)) == Initial
    decreases |Table| - s.currentQuestion
  {
    var n := |Table| - s.currentQuestion;
    assert Repeat(NextPressed, n)[1..] == Repeat(NextPressed, n - 1);
    if s.currentQuestion + 1 < |Table| {
      RoundRestarts(Next(s));
    }
  }

  /** Picking "Mercury" on the first question and advancing logs one correct
      attempt and moves to the second question with a score of one. */
  lemma FirstQuestionScenario()
    ensures Run(Initial, [Click("Mercury")]).feedback == Correct
    ensures Run(Initial, [Click("Mercury")]).score == 1
    ensures Run(Initial, [Click("Mercury"), NextPressed]) ==
      State(1, None, NoFeedback, 1,
            [Attempt("Which planet is closest to the Sun?", Some("Mercury"), true)], 30, "")
  {
  }

  /** Clicking the right option twice on the first question scores two. */
  lemma DoubleClickScenario()
    ensures Run(Initial, [Click("Mercury"), Click("Mercury")]).score == 2
  {
  }

  /** A typed answer is trimmed and then compared as text: " 40 " is right for
      "12 + 28", "40.0" is not. */
  lemma TypedAnswerScenario(s: State)
    requires s.currentQuestion == 5
    ensures AnswerSubmit(InputChange(s, " 40 ")).feedback == Correct
    ensures AnswerSubmit(InputChange(s, "40.0")).feedback == Incorrect
  {
    Text.TrimSpacedNumber();
    Text.TrimDecimal();
  }

  /** A wrong typed year is logged as incorrect. */
  lemma WrongYearScenario(s: State)
    requires s.currentQuestion == 7 && s.inputAnswer == "1777"
    ensures AnswerSubmit(s).feedback == Incorrect
    ensures Next(AnswerSubmit(s)).attempts[|s.attempts|].correct == false
  {
    Text.TrimYear();
  }

  /** The click handler does not look at the question type: the answer of an
      integer question, passed to it, still scores. The page itself shows no
      option buttons on integer questions, so it never makes this call. */
  lemma ClickOnIntegerQuestion(s: State)
    requires s.currentQuestion == 5
    ensures Current(s).kind == Integer
    ensures AnswerClick(s, "40").feedback == Correct
    ensures AnswerClick(s, "40").score == s.score + 1
  {
  }
}
