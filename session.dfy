/**
 * The `QuizApp` component as an object: its state fields are fields of a
 * `Session`, and each handler is a method that updates them in place. Every
 * method is proved to perform exactly the transition of module Transitions and
 * to keep the session invariant.
 */
module QuizApp {
  import opened Questions
  import opened Transitions
  import Text

  class Session {
    var currentQuestion: nat
    var selectedAnswer: Option<string>
    var feedback: Feedback
    var score: nat
    var attempts: seq<Attempt>
    var timer: nat
    var inputAnswer: string

    /** The attempts handed to the attempt store so far, in order. The store
        outlives the session, so a completed round does not clear it. */
    ghost var stored: seq<Attempt>

    /** The fields, read as a session value. */
    function Snapshot(): State
      reads this
    {
      State(currentQuestion, selectedAnswer, feedback, score, attempts, timer, inputAnswer)
    }

    ghost predicate Valid()
      reads this
    {
      Inv(Snapshot())
    }

    constructor ()
      ensures Valid()
      ensures Snapshot() == Initial && stored == []
    {
      currentQuestion := 0;
      selectedAnswer := None;
      feedback := NoFeedback;
      score := 0;
      attempts := [];
      timer := TimerReset;
      inputAnswer := "";
      stored := [];
      InitialInv();
    }

    /** A click on an option: the option becomes the selection, and the
        feedback and score follow from comparing it with the current answer. */
    method HandleAnswerClick(option: string)
      requires Valid()
      modifies this
      ensures Valid()
      ensures Snapshot() == AnswerClick(old(Snapshot()), option)
      ensures stored == old(stored)
    {
      AnswerClickInv(Snapshot(), option);
      selectedAnswer := Some(option);
      if option == Table[currentQuestion].answer {
        feedback := Correct;
        score := score + 1;
      } else {
        feedback := Incorrect;
      }
    }

    /** Submitting the typed answer: on an integer question the trimmed input
        is judged against the answer and the raw input becomes the selection. */
    method HandleAnswerSubmit()
      requires Valid()
      modifies this
      ensures Valid()
      ensures Snapshot() == AnswerSubmit(old(Snapshot()))
      ensures stored == old(stored)
    {
      AnswerSubmitInv(Snapshot());
      if Table[currentQuestion].kind == Integer {
        if Text.Trim(inputAnswer) == Table[currentQuestion].answer {
          feedback := Correct;
          score := score + 1;
        } else {
          feedback := Incorrect;
        }
        selectedAnswer := Some(inputAnswer);
      }
    }

    /** The answer field's change handler. */
    method HandleInputChange(text: string)
      requires Valid()
      modifies this
      ensures Valid()
      ensures Snapshot() == InputChange(old(Snapshot()), text)
      ensures stored == old(stored)
    {
      InputChangeInv(Snapshot(), text);
      inputAnswer := text;
    }

    /** handleNext: the finished attempt goes to the log and to the store. */
    method HandleNext()
      requires Valid()
      modifies this
      ensures Valid()
      ensures Snapshot() == Next(old(Snapshot()))
      ensures stored == old(stored) + [Record(old(Snapshot()))]
    {
      NextInv(Snapshot());
      var attempt := Attempt(Table[currentQuestion].text, selectedAnswer, feedback == Correct);
      attempts := attempts + [attempt];
      stored := stored + [attempt];
      selectedAnswer := None;
      feedback := NoFeedback;
      inputAnswer := "";
      timer := TimerReset;
      if currentQuestion + 1 < |Table| {
        currentQuestion := currentQuestion + 1;
      } else {
        currentQuestion := 0;
        score := 0;
        attempts := [];
      }
    }

    /** The timer effect, once: a second passes, or at zero the session advances. */
    method TimerEffect()
      requires Valid()
      modifies this
      ensures Valid()
      ensures Snapshot() == Transitions.TimerEffect(old(Snapshot()))
      ensures stored == if old(timer) > 0 then old(stored) else old(stored) + [Record(old(Snapshot()))]
    {
      if timer > 0 {
        timer := timer - 1;
      } else {
        HandleNext();
      }
    }
  }
}
