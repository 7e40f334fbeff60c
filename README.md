# Classroom domain model in Dafny

This project models the in-memory domain logic of a small classroom application. The domain has teachers, students, classrooms, quizzes, questions and answers. The behaviour modelled is:

- **Construct-or-fetch registry.** Building a person returns an equal person that was registered earlier, if there is one. Otherwise it registers the new person. The registry answers field-equality queries: `filter`, `get` and `all`.
- **Person entities.** Teachers and students are equal when they have the same class and the same first and last names. A Teacher owns a quiz list.
- **Question and answer validation.** Answers must be non-empty. Questions run five checks in a fixed order. `check` compares answer sets.
- **Quiz aggregate.** It validates its fields, records itself in its author's quiz list unless an equal quiz is already there, and grades submissions by symmetric difference.
- **Classroom.** It requires a teacher and holds a mutable student list.

Modules, one per part of the program:

- `errors.dfy` (`Errors`): the exceptions the program raises, as error kinds in a `Result`.
- `questions.dfy` (`Questions`): `Answer` and `Question` as values; their validation is pure.
- `entities.dfy` (`Entities`): `Teacher` and `Student` as classes, a kind-tagged `Person`, and the `Quiz` record. A Teacher holds its quizzes and a Quiz holds its author, so these types share one module.
- `registry.dfy` (`Registry`): the metaclass list as the `instances` field of one `Registry` object. It has the construct-or-fetch methods and the queries.
- `quizzes.dfy` (`Quizzes`): Quiz construction, which updates the author's list in place, and the grading loop.
- `classrooms.dfy` (`Classrooms`): the `Classroom` class.

Three points where the code's behaviour is easy to misread, and the model follows the code:

- There is one registry list, and both kinds share it (`ClassroomApp/models/meta.py` line 11). It is not one list per kind. Queries made through either class therefore see both kinds. Teachers and students are still deduplicated separately, because equality compares the class.
- Question construction stops at the first failing check. It does not report every failing check.
- Names are checked only for presence. Empty names are accepted.

Object identity (the `id` property) is Dafny reference equality.

## Model

| member | source | states |
|---|---|---|
| `Questions.NewAnswer` | ClassroomApp/models/quiz.py:7-13 | An answer is refused with the empty-value error exactly when its value is empty. Otherwise the value is stored unchanged. |
| `Questions.RepeatedValues` | ClassroomApp/models/quiz.py:23-26 | The values a duplicate error reports are exactly those held at two different positions of the list, and no others. |
| `Questions.RepeatedValuesEmptyIffDistinct` | ClassroomApp/models/quiz.py:23-26 | A duplicate error is raised exactly when the list has a repeated answer. |
| `Questions.NewQuestion` | ClassroomApp/models/quiz.py:16-43 | Construction succeeds exactly when the question is well formed: non-empty choices and answers, answers among the choices, no repeats in either list. The arguments are then kept. The first failing check decides the error, in source order: empty choices, empty answers, answers not among choices, duplicate choices, duplicate answers. A duplicate error names exactly the repeated values. |
| `Questions.Question.Check` | ClassroomApp/models/quiz.py:45-46 | True exactly when every submitted answer is correct and every correct answer was submitted, regardless of order or repetition. |
| `Questions.Question.WrongAnswers` | ClassroomApp/models/quiz.py:73 | An answer is reported exactly when it is correct but missing, or submitted but incorrect. The report is empty exactly when `Check` holds. |
| `Entities.Teacher.constructor` | ClassroomApp/models/teacher.py:15-19 | A new Teacher has the given names and an empty quiz list. |
| `Entities.Student.constructor` | ClassroomApp/models/student.py:6-7 | A new Student has the given names. |
| `Entities.Person.Equals` | ClassroomApp/models/meta.py:59-62 | Two persons are equal exactly when they are of the same kind and have the same hash, the pair of names. So a Teacher never equals a Student, and every object equals itself. The quiz list plays no part. |
| `Entities.HashConsistentWithEquals` | ClassroomApp/models/teacher.py:21-25 | Equal persons hash alike. The hash depends on the two names only, so two persons of the same kind with the same hash are equal. |
| `Entities.NamesakesCollideUnequal` | ClassroomApp/models/student.py:9-13 | A Student's hash is the same name pair as a Teacher's, so a Teacher and a Student with the same names hash alike but are not equal. |
| `Entities.IdDeterminesPerson` | ClassroomApp/models/meta.py:64-69 | Two persons with the same `id` are the same person. |
| `Entities.SameAsIsEquivalence` | ClassroomApp/models/quiz.py:49-53 | Quiz equality compares title, question list and author names, and it is reflexive, symmetric and transitive. |
| `Registry.Filter` | ClassroomApp/models/meta.py:26-33 | Every result is a stored entry that matches all criteria. Every matching entry is among the results. There are never more results than entries. |
| `Registry.FilterConcat` | ClassroomApp/models/meta.py:32-33 | Filtering keeps registration order: filtering a concatenation is the concatenation of the filtered parts. |
| `Registry.FilterNoCriteria` | ClassroomApp/models/meta.py:32-33 | With no criteria, filter yields the whole list. |
| `Registry.TwoResultsIffTwoMatches` | ClassroomApp/models/meta.py:42-44 | Filter yields two or more entries exactly when two positions of the list match. |
| `Registry.Get` | ClassroomApp/models/meta.py:35-47 | Get gives the ambiguous-query error exactly when two entries match. It gives nothing exactly when no entry matches. Otherwise it gives the one stored entry that matches. |
| `Registry.AmbiguousFullNameMeansNamesakes` | ClassroomApp/models/meta.py:11-21 | In a duplicate-free list, a get by both names is ambiguous only when a Teacher and a Student share those names. |
| `Registry.MissingNames` | ClassroomApp/models/meta.py:59-62 | The missing-argument error names exactly the name fields that were left out, each once, in declaration order: `first_name` before `last_name`. It is empty exactly when both were given. |
| `Registry.Registry.constructor` | ClassroomApp/models/meta.py:11 | The registry starts as an empty, duplicate-free list. |
| `Registry.Registry.All` | ClassroomApp/models/meta.py:49-54 | `all` gives the current contents of the stored list, equal to filtering with no criteria. It never holds two equal persons. |
| `Registry.Registry.GetOrCreate` | ClassroomApp/models/meta.py:13-21 | If an equal person is stored, that stored person is returned and the list is unchanged. Otherwise the candidate is appended at the end and returned. In both cases the list stays free of equal entries. |
| `Registry.Registry.NewTeacher` | ClassroomApp/models/teacher.py:15-19 | A missing name gives the missing-argument error and registers nothing. Otherwise the result has the given names and is in the list. It is either the already-registered Teacher with those names, with the list unchanged, or a fresh Teacher with an empty quiz list, appended once. |
| `Registry.Registry.NewStudent` | ClassroomApp/models/student.py:6-7 | The same construct-or-fetch for Students. A missing name registers nothing. Otherwise the result is either the registered Student with those names or a fresh one, appended once. |
| `Registry.SameNamesSameTeacher` | ClassroomApp/models/meta.py:64-69 | Two constructions with the same names return the same object, so the `id` is the same. |
| `Registry.TeacherAndStudentNamesake` | ClassroomApp/models/meta.py:11-21 | A Teacher and a Student with the same names are both stored in the shared list, and a get on those names is ambiguous. |
| `Quizzes.AddQuiz` | ClassroomApp/models/quiz.py:65-67 | After the update the quiz is listed. The old entries stay first and in order. The quiz itself is appended exactly when no equal quiz was listed; otherwise the list is unchanged. |
| `Quizzes.AddQuizKeepsNoRepeats` | ClassroomApp/models/quiz.py:65-67 | The update keeps a quiz list free of equal entries. |
| `Quizzes.AddQuizIdempotent` | ClassroomApp/models/quiz.py:65-67 | Adding a quiz equal to one just added changes nothing. |
| `Quizzes.NewQuiz` | ClassroomApp/models/quiz.py:55-67 | The checks run in order: empty title, then an author that is missing or not a Teacher, then an empty question list. Construction succeeds exactly when all three pass. A failure leaves every quiz list unchanged. On success the author's list becomes `AddQuiz` of the old list and the new quiz. |
| `Quizzes.SameQuizTwice` | ClassroomApp/models/quiz.py:65-67 | Constructing the same quiz twice lists it once and adds at most one entry. |
| `Quizzes.Failures` | ClassroomApp/models/quiz.py:69-79 | Every reported failure is a submitted question paired with its non-empty set of wrong answers. There are never more failures than submissions. |
| `Quizzes.FailuresComplete` | ClassroomApp/models/quiz.py:71-77 | Every submission with a non-empty set of wrong answers is reported, paired with exactly that set. |
| `Quizzes.FailuresConcat` | ClassroomApp/models/quiz.py:71-77 | Failures are reported in submission order: grading a concatenation is the concatenation of the gradings. |
| `Quizzes.NoFailuresIffAllCorrect` | ClassroomApp/models/quiz.py:69-79 | The failure list is empty exactly when every submission passes `Check`. |
| `Quizzes.Validate` | ClassroomApp/models/quiz.py:69-79 | The loop's accumulated list is exactly `Failures` of the submissions. |
| `Classrooms.RemoveFirst` | ClassroomApp/tests/classroom.py:85 | Removal drops the first entry equal to the student and keeps the others in order. A list without such an entry is unchanged. |
| `Classrooms.RemoveAfterAppend` | ClassroomApp/tests/classroom.py:80-86 | Appending a student who was not enrolled makes them enrolled. Removing them again restores the list, and they are then no longer enrolled. |
| `Classrooms.Classroom.New` | ClassroomApp/models/classrom.py:8-15 | An absent teacher is refused with the empty-teacher error. Otherwise a fresh classroom holds the teacher, and either the given students in order or a new empty list. |
| `Classrooms.Classroom.Add` | ClassroomApp/tests/classroom.py:81-82 | The student becomes the last entry and is enrolled. The teacher is unchanged. |
| `Classrooms.Classroom.Remove` | ClassroomApp/tests/classroom.py:85-86 | This fails with the not-in-list error exactly when no equal student is enrolled. The list becomes `RemoveFirst` of the old list. |

## Left out

- The metaclass interception of construction is not modelled. Construction is an explicit call to `NewTeacher`, `NewStudent` or `GetOrCreate`.
- CPython's `id()` memory addresses are not modelled. Identity is object reference.
- Queries accept only the fields `first_name` and `last_name`. Dynamic `getattr` on other attributes, and the AttributeError for unknown fields, are not modelled.
- `filter` is not lazy. The source returns a generator; the model returns the list of matches.
- The text of the duplicate error messages is not modelled. The source builds it from a Python set in unspecified order; the error carries the set of repeated values instead.
- Type checks that Dafny's types make unnecessary are not modelled:
  - non-Answer elements in a Question's lists;
  - a question set that is not a list;
  - `None` for a string field (only the empty string is modelled);
  - an author of another type (only absent, Student or Teacher).
- `Classroom` does not check its teacher's type. The model accepts only a Teacher or nothing.
- Hashing is not modelled beyond equality. Questions and quizzes cannot be hashed in the source, because they hold lists.
- The `weight` field is kept in `Question` but has no default value, and nothing reads it.
- The base `Person` class is never instantiated directly, and that case is not modelled.
- Person names are constants. In the source they are mutable dataclass fields that no code reassigns.
- Registry.Registry.All: returns the list's current value. The source returns the live shared list, so a list fetched earlier shows later registrations, and changing it changes the registry. The model does not capture that aliasing.
- Answer and Question values can be built directly with their datatype constructors, which do not validate. Only `NewAnswer` and `NewQuestion` enforce the source's construction checks, and `NewQuiz` and `Validate` accept questions and answers built either way.
- `Classroom.students` is a sequence value. A list passed by the caller stays aliased to the classroom in the source; the model does not capture that aliasing.
- `Registry.Registry.GetOrCreate`, `Registry.Registry.NewTeacher` and `Registry.Registry.NewStudent` require the registry's invariant (no two equal entries) on entry. Every operation establishes or keeps this invariant.
- The test harness file is not modelled. Its assertions serve only as the source cited for classroom list behaviour.
