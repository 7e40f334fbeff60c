/** Quiz construction and grading (ClassroomApp/models/quiz.py, class Quiz).
    Building a quiz validates its fields and then records the quiz in its
    author's quiz list, unless an equal quiz is already there; grading walks
    the submitted (question, answers) pairs and collects the wrong ones. */
module Quizzes {
  import opened Errors
  import opened Questions
  import opened Entities

  /** Membership as the source's `in` tests it: some entry equals q. */
  predicate Listed(s: seq<Quiz>, q: Quiz)
  {
    exists i :: 0 <= i < |s| && s[i].SameAs(q)
  }

  /** No two entries of a quiz list are equal. */
  predicate NoRepeats(s: seq<Quiz>)
  {
    forall i, j :: 0 <= i < j < |s| ==> !s[i].SameAs(s[j])
  }

  /** What Quiz construction does to its author's list: append q unless an
      equal quiz is listed. Afterwards q is listed, the old entries stay first
      and in order, and at most one entry was added. */
  function AddQuiz(s: seq<Quiz>, q: Quiz): (r: seq<Quiz>)
    ensures Listed(r, q)
    ensures s <= r && |r| <= |s| + 1
    ensures Listed(s, q) ==> r == s
    ensures !Listed(s, q) ==> |r| == |s| + 1 && r[|s|] == q
  {
    if Listed(s, q) then s
    else
      assert (s + [q])[|s|].SameAs(q);
      s + [q]
  }

  /** Adding a quiz keeps a list free of equal entries. */
  lemma AddQuizKeepsNoRepeats(s: seq<Quiz>, q: Quiz)
    requires NoRepeats(s)
    ensures NoRepeats(AddQuiz(s, q))
  {
  }

  /** Constructing an equal quiz again leaves the list as it was. */
  lemma AddQuizIdempotent(s: seq<Quiz>, q: Quiz, q': Quiz)
    requires q.SameAs(q')
    ensures AddQuiz(AddQuiz(s, q), q') == AddQuiz(s, q)
  {
  }

  /** The authors Quiz construction may update: the author, when it is a Teacher. */
  function AuthorFrame(author: Option<Person>): set<Teacher>
  {
    if author.Some? && author.value.TeacherRef? then {author.value.teacher} else {}
  }

  /** Quiz(title, question_set, author). The checks run in order and the first
      that fails decides the error: empty title, an author that is missing or
      not a Teacher, an empty question list. Only when all pass is the author's
      list touched, and then the quiz is in it afterwards. */
  method NewQuiz(title: string, questionSet: seq<Question>, author: Option<Person>) returns (r: Result<Quiz>)
    modifies AuthorFrame(author)
    ensures title == [] ==> r == Err(EmptyTitle)
    ensures title != [] && (author.None? || author.value.StudentRef?) ==> r == Err(InvalidAuthor)
    ensures title != [] && author.Some? && author.value.TeacherRef? && questionSet == [] ==> r == Err(EmptyQuestionSet)
    ensures r.Ok? <==> title != [] && author.Some? && author.value.TeacherRef? && questionSet != []
    ensures r.Err? ==> unchanged(AuthorFrame(author))
    ensures r.Ok? ==>
              r.value == Quiz(title, questionSet, author.value.teacher)
              && author.value.teacher.quizSet == AddQuiz(old(author.value.teacher.quizSet), r.value)
  {
    if title == [] {
      return Err(EmptyTitle);
    }
    if author.None? || !author.value.TeacherRef? {
      return Err(InvalidAuthor);
    }
    if questionSet == [] {
      return Err(EmptyQuestionSet);
    }
    var teacher := author.value.teacher;
    var quiz := Quiz(title, questionSet, teacher);
    if !Listed(teacher.quizSet, quiz) {
      teacher.quizSet := teacher.quizSet + [quiz];
    }
    r := Ok(quiz);
  }

  /** Building the same quiz twice for a Teacher lists it once: the second
      construction finds the equal quiz and leaves the list alone. */
  method SameQuizTwice(title: string, questionSet: seq<Question>, author: Teacher) returns (q1: Quiz, q2: Quiz)
    requires title != [] && questionSet != []
    modifies author
    ensures q1 == q2
    ensures author.quizSet == AddQuiz(old(author.quizSet), q1)
    ensures |author.quizSet| <= |old(author.quizSet)| + 1 && Listed(author.quizSet, q1)
  {
    var r1 := NewQuiz(title, questionSet, Some(TeacherRef(author)));
    var r2 := NewQuiz(title, questionSet, Some(TeacherRef(author)));
    q1, q2 := r1.value, r2.value;
    AddQuizIdempotent(old(author.quizSet), q1, q2);
  }

  /** One submission: a question and the answers given to it. */
  type Submission = (Question, seq<Answer>)

  /** One graded failure: a question and the answers wrong or missing for it. */
  type Failure = (Question, set<Answer>)

  /** The failure recorded for one submission, if any. */
  function Grade(s: Submission): seq<Failure>
  {
    var wrong := s.0.WrongAnswers(s.1);
    if wrong == {} then [] else [(s.0, wrong)]
  }

  /** The failures of a list of submissions, in submission order: one entry for
      each submission whose symmetric difference is non-empty. */
  function Failures(submissions: seq<Submission>): (r: seq<Failure>)
    ensures |r| <= |submissions|
    ensures forall k :: 0 <= k < |r| ==>
              r[k].1 != {} && exists m :: 0 <= m < |submissions| && r[k] == (submissions[m].0, submissions[m].0.WrongAnswers(submissions[m].1))
  {
    if submissions == [] then []
    else
      var front := submissions[..|submissions| - 1];
      var r := Failures(front) + Grade(submissions[|submissions| - 1]);
      assert forall k :: 0 <= k < |front| ==> front[k] == submissions[k];
      r
  }

  /** Grading a concatenation grades each part and keeps their order. */
  lemma {:induction false} FailuresConcat(a: seq<Submission>, b: seq<Submission>)
    ensures Failures(a + b) == Failures(a) + Failures(b)
  {
    if b == [] {
      assert a + b == a;
    } else {
      var front := b[..|b| - 1];
      assert (a + b)[..|a + b| - 1] == a + front;
      assert (a + b)[|a + b| - 1] == b[|b| - 1];
      FailuresConcat(a, front);
    }
  }

  /** Every failing submission is reported: a submission whose set of wrong
      answers is non-empty appears in the failures with that set. */
  lemma {:induction false} FailuresComplete(submissions: seq<Submission>, m: nat)
    requires m < |submissions|
    requires submissions[m].0.WrongAnswers(submissions[m].1) != {}
    ensures (submissions[m].0, submissions[m].0.WrongAnswers(submissions[m].1)) in Failures(submissions)
  {
    var before, after := submissions[..m], submissions[m + 1..];
    assert submissions == before + [submissions[m]] + after;
    FailuresConcat(before + [submissions[m]], after);
    FailuresConcat(before, [submissions[m]]);
    assert [submissions[m]][..0] == [];
  }

  /** No failure is reported exactly when every submission passes Check. */
  lemma {:induction false} NoFailuresIffAllCorrect(submissions: seq<Submission>)
    ensures Failures(submissions) == [] <==> forall k :: 0 <= k < |submissions| ==> submissions[k].0.Check(submissions[k].1)
  {
    if submissions != [] {
      var front := submissions[..|submissions| - 1];
      NoFailuresIffAllCorrect(front);
      assert forall k :: 0 <= k < |front| ==> front[k] == submissions[k];
    }
  }

  /** Quiz.validate: the loop that accumulates the failed list. It reads
      nothing of the quiz it is called on, only the submissions. */
  method Validate(submissions: seq<Submission>) returns (failed: seq<Failure>)
    ensures failed == Failures(submissions)
  {
    failed := [];
    for i := 0 to |submissions|
      invariant failed == Failures(submissions[..i])
    {
      var question := submissions[i].0;
      var wrong := question.WrongAnswers(submissions[i].1);
      if wrong != {} {
        failed := failed + [(question, wrong)];
      }
      assert submissions[..i + 1][..i] == submissions[..i];
    }
    assert submissions[..|submissions|] == submissions;
  }
}
