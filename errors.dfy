/** Failure values shared by every part of the classroom model.
    The source reports each of these by raising an exception at the point of
    construction or query; here an operation returns Err(kind) instead. */
module Errors {

  datatype Option<+T> = None | Some(value: T)

  /** Each kind names the exception the source raises and its message. */
  datatype Error =
    /** TypeError from the generated dataclass initialiser: "missing N required
        positional argument(s)", naming the absent fields in declaration order. */
    | MissingArguments(names: seq<string>)
    /** ValueError "Value field cannot be empty" (Answer). */
    | EmptyValue
    /** ValueError "Choices field cannot be empty" (Question). */
    | EmptyChoices
    /** ValueError "Answer field cannot be empty" (Question). */
    | EmptyAnswers
    /** ValueError "Choices field does not contain specified answer(s)" (Question). */
    | AnswersNotInChoices
    /** ValueError "Choices field contains duplicates: ..." listing the repeated values. */
    | DuplicateChoices(values: set<string>)
    /** ValueError "Answers field contains duplicates: ..." listing the repeated values. */
    | DuplicateAnswers(values: set<string>)
    /** ValueError "Title field cannot be empty" (Quiz). */
    | EmptyTitle
    /** ValueError "Author is empty or wrong type (Teacher)" (Quiz). */
    | InvalidAuthor
    /** ValueError "Field question_set cannot be empty, ..." (Quiz). */
    | EmptyQuestionSet
    /** KeyError "Filter found more than one instance." (registry get). */
    | AmbiguousQuery
    /** ValueError "Teacher field cannot be empty" (Classroom). */
    | EmptyTeacher
    /** ValueError "list.remove(x): x not in list" (removing an absent student). */
    | NotInList

  datatype Result<+T> = Ok(value: T) | Err(error: Error)

  /** The result of an operation that only succeeds or fails. */
  datatype Outcome = Pass | Fail(error: Error)
}
