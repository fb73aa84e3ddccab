/**
 * The quiz session as a value and its transitions as functions on that value.
 * Each function is the specification of one handler of the `QuizApp` component;
 * the `Session` class in module QuizApp performs the same steps on fields.
 */
module Transitions {
  import opened Questions
  import Text

  /** The countdown every question starts with, in seconds. */
  const TimerReset: nat := 30

  /** The feedback line: nothing yet, "✅ Correct!" or "❌ Incorrect!". */
  datatype Feedback = NoFeedback | Correct | Incorrect

  /** One resolved question: its prompt, the answer given (if any), and whether
      the feedback at that moment said correct. */
  datatype Attempt = Attempt(question: string, selectedAnswer: Option<string>, correct: bool)

  /** The component's state fields, except the unused menu flag. */
  datatype State = State(
    currentQuestion: nat,
    selectedAnswer: Option<string>,
    feedback: Feedback,
    score: nat,
    attempts: seq<Attempt>,
    timer: nat,
    inputAnswer: string)

  /** The state a fresh page starts in. */
  const Initial: State := State(0, None, NoFeedback, 0, [], TimerReset, "")

  /** The question pointer designates an entry of the table. */
  predicate InRange(s: State) {
    s.currentQuestion < |Table|
  }

  function Current(s: State): Question
    requires InRange(s)
  {
    Table[s.currentQuestion]
  }

  /** Clicking an option: it becomes the selection, and the feedback and score
      follow from comparing it with the answer. The question's type is not
      consulted, and a correct click adds to the score however often it is made. */
  function AnswerClick(s: State, option: string): (t: State)
    requires InRange(s)
    ensures t.selectedAnswer == Some(option)
    ensures t.feedback == Correct <==> option == Current(s).answer
    ensures t.feedback == Incorrect <==> option != Current(s).answer
    ensures t.score == if option == Current(s).answer then s.score + 1 else s.score
    ensures t.currentQuestion == s.currentQuestion && t.attempts == s.attempts
    ensures t.timer == s.timer && t.inputAnswer == s.inputAnswer
  {
    if option == Current(s).answer then
      s.(selectedAnswer := Some(option), feedback := Correct, score := s.score + 1)
    else
      s.(selectedAnswer := Some(option), feedback := Incorrect)
  }

  /** Submitting the typed answer: ignored unless the question is an integer
      question; otherwise the trimmed input is compared with the answer as a
      string, and the untrimmed input becomes the selection. */
  function AnswerSubmit(s: State): (t: State)
    requires InRange(s)
    ensures Current(s).kind != Integer ==> t == s
    ensures Current(s).kind == Integer ==>
      && t.selectedAnswer == Some(s.inputAnswer)
      && (t.feedback == Correct <==> Text.Trim(s.inputAnswer) == Current(s).answer)
      && (t.feedback == Incorrect <==> Text.Trim(s.inputAnswer) != Current(s).answer)
      && t.score == (if t.feedback == Correct then s.score + 1 else s.score)
    ensures t.currentQuestion == s.currentQuestion && t.attempts == s.attempts
    ensures t.timer == s.timer && t.inputAnswer == s.inputAnswer
  {
    if Current(s).kind == Integer then
      if Text.Trim(s.inputAnswer) == Current(s).answer then
        s.(feedback := Correct, score := s.score + 1, selectedAnswer := Some(s.inputAnswer))
      else
        s.(feedback := Incorrect, selectedAnswer := Some(s.inputAnswer))
    else
      s
  }

  /** Editing the answer field replaces the typed input and nothing else. */
  function InputChange(s: State, text: string): (t: State)
    ensures t.inputAnswer == text
    ensures t.(inputAnswer := s.inputAnswer) == s
  {
    s.(inputAnswer := text)
  }

  /** The attempt that advancing from `s` finalises. */
  function Record(s: State): Attempt
    requires InRange(s)
  {
    Attempt(Current(s).text, s.selectedAnswer, s.feedback == Correct)
  }

  /** Advancing: the current attempt is appended to the log, the transient fields
      are cleared, the countdown restarts; then the pointer moves on, or, after
      the last question, the pointer, the score and the log all go back to their
      initial values (the attempt just appended included). */
  function Next(s: State): (t: State)
    requires InRange(s)
    ensures InRange(t)
    ensures t.selectedAnswer == None && t.feedback == NoFeedback
    ensures t.inputAnswer == "" && t.timer == TimerReset
    ensures s.currentQuestion + 1 < |Table| ==>
      && t.currentQuestion == s.currentQuestion + 1
      && t.score == s.score
      && t.attempts == s.attempts + [Attempt(Current(s).text, s.selectedAnswer, s.feedback == Correct)]
    ensures s.currentQuestion + 1 == |Table| ==> t == Initial
  {
    var logged := s.attempts + [Record(s)];
    var cleared := s.(attempts := logged, selectedAnswer := None, feedback := NoFeedback,
                      inputAnswer := "", timer := TimerReset);
    if s.currentQuestion + 1 < |Table| then
      cleared.(currentQuestion := s.currentQuestion + 1)
    else
      cleared.(currentQuestion := 0, score := 0, attempts := [])
  }

  /** One run of the timer effect: while time is left, one second passes;
      at zero, the session advances as if Next had been pressed. */
  function TimerEffect(s: State): (t: State)
    requires InRange(s)
    ensures InRange(t)
    ensures s.timer > 0 ==> t == s.(timer := s.timer - 1)
    ensures s.timer == 0 ==> t == Next(s)
  {
    if s.timer > 0 then s.(timer := s.timer - 1) else Next(s)
  }

  /** How many attempts of a log were judged correct. */
  function CorrectCount(log: seq<Attempt>): nat {
    if log == [] then 0
    else CorrectCount(log[..|log| - 1]) + (if log[|log| - 1].correct then 1 else 0)
  }

  lemma CorrectCountAppend(log: seq<Attempt>, a: Attempt)
    ensures CorrectCount(log + [a]) == CorrectCount(log) + (if a.correct then 1 else 0)
  {
    assert (log + [a])[..|log|] == log;
  }

  /** What holds in every state the session reaches: the pointer is in range and
      the countdown never exceeds its reset value; the log holds exactly one
      attempt for each question already passed in this round, in table order;
      and the score is at least the number of correct attempts logged plus one
      for a correct answer still pending (it may be larger, since repeated
      correct answers are all counted). */
  predicate Inv(s: State) {
    && InRange(s)
    && s.timer <= TimerReset
    && |s.attempts| == s.currentQuestion
    && (forall i :: 0 <= i < |s.attempts| ==> s.attempts[i].question == Table[i].text)
    && CorrectCount(s.attempts) + (if s.feedback == Correct then 1 else 0) <= s.score
  }

  lemma InitialInv()
    ensures Inv(Initial)
  {
  }

  lemma AnswerClickInv(s: State, option: string)
    requires Inv(s)
    ensures Inv(AnswerClick(s, option))
  {
  }

  lemma AnswerSubmitInv(s: State)
    requires Inv(s)
    ensures Inv(AnswerSubmit(s))
  {
  }

  lemma InputChangeInv(s: State, text: string)
    requires Inv(s)
    ensures Inv(InputChange(s, text))
  {
  }

  lemma NextInv(s: State)
    requires Inv(s)
    ensures Inv(Next(s))
  {
    var t := Next(s);
    if s.currentQuestion + 1 < |Table| {
      var logged := s.attempts + [Record(s)];
      assert t.attempts == logged;
      CorrectCountAppend(s.attempts, Record(s));
      assert forall i :: 0 <= i < |logged| ==> logged[i].question == Table[i].text by {
        forall i | 0 <= i < |logged| ensures logged[i].question == Table[i].text {
          if i < |s.attempts| { assert logged[i] == s.attempts[i]; }
        }
      }
    }
  }

  lemma TimerEffectInv(s: State)
    requires Inv(s)
    ensures Inv(TimerEffect(s))
  {
    if s.timer == 0 {
      NextInv(s);
    }
  }

  /** Clicking the right option twice before advancing scores twice. */
  lemma RepeatedCorrectClick(s: State)
    requires InRange(s)
    ensures AnswerClick(AnswerClick(s, Current(s).answer), Current(s).answer).score == s.score + 2
  {
  }
}
