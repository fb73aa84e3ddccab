/**
 * The quiz's fixed question table and the record types it is made of.
 */
module Questions {

  /** A value that may be absent (JavaScript's `null` or a missing property). */
  datatype Option<T> = None | Some(value: T)

  /** The two question types: picked from a list of options, or typed in. */
  datatype Kind = Mcq | Integer

  datatype Question = Question(
    id: nat,
    kind: Kind,
    text: string,
    options: Option<seq<string>>,
    answer: string)

  /** The ten questions, in the order they are asked. The odd spaces in some
      options and prompts are part of the data. */
  const Table: seq<Question> := [
    Question(1, Mcq, "Which planet is closest to the Sun?",
      Some(["Venus", "Mercury", " Earth", " Mars"]), "Mercury"),
    Question(2, Mcq, "Which data structure organizes items in a First-In, First-Out (FIFO) manner",
      Some(["Stack", "Queue", "Tree", "Graph"]), "Queue"),
    Question(3, Mcq, "Which of the following is primarily used for structuring web pages?",
      Some(["Python", "Java", "HTML", "C++"]), "HTML"),
    Question(4, Mcq, "Which chemical symbol stands for Gold?",
      Some(["Au", "Gd", "Ag", "Pt"]), "Au"),
    Question(5, Mcq, "Which of these processes is not typically involved in refining petroleum",
      Some(["Fractional distillation", "Cracking", "Polymerization", "Filtration"]), "Fractional distillation"),
    Question(6, Integer, " What is the value of 12 + 28?", None, "40"),
    Question(7, Integer, " How many states are there in the United States?", None, "50"),
    Question(8, Integer, " In which year was the Declaration of Independence signed ", None, "1776"),
    Question(9, Integer, "What is the value of pi rounded to the nearest integer ", None, "3"),
    Question(10, Integer, "  If a car travels at 60 mph for 2 hours, how many miles does it travel", None, "120")
  ]

  /** A multiple-choice question offers a non-empty list of options that includes
      its answer; an integer question offers none. */
  predicate WellFormed(q: Question) {
    match q.kind
    case Mcq => q.options.Some? && q.options.value != [] && q.answer in q.options.value
    case Integer => q.options.None?
  }

  /** The table is non-empty, every entry is well formed, and the ids run 1, 2, … */
  lemma TableWellFormed()
    ensures |Table| == 10
    ensures forall i :: 0 <= i < |Table| ==> WellFormed(Table[i]) && Table[i].id == i + 1
  {
  }
}
