/** Answers and questions of a quiz (ClassroomApp/models/quiz.py, the two
    frozen dataclasses Answer and Question). Both are immutable values whose
    equality is structural, so they are datatypes here; their validation is a
    pure function from the constructor arguments to a Result. */
module Questions {
  import opened Errors

  /** One possible answer; two answers are equal when their values are. */
  datatype Answer = Answer(value: string)

  /** Answer construction: an empty value is refused, any other is kept as given. */
  function NewAnswer(value: string): (r: Result<Answer>)
    ensures r.Err? <==> value == []
    ensures r.Err? ==> r.error == EmptyValue
    ensures r.Ok? ==> r.value.value == value
  {
    if value == [] then Err(EmptyValue) else Ok(Answer(value))
  }

  /** The set of answers in a list, as the source's set(...) builds it. */
  function Elements(s: seq<Answer>): (r: set<Answer>)
    ensures forall a :: a in r <==> a in s
  {
    set a | a in s
  }

  /** No answer occurs at two positions of s. */
  predicate Distinct(s: seq<Answer>)
  {
    forall i, j :: 0 <= i < j < |s| ==> s[i] != s[j]
  }

  /** An answer found at two positions is counted at least twice. */
  lemma TwoPositionsCountedTwice(s: seq<Answer>, i: nat, j: nat)
    requires i < j < |s| && s[i] == s[j]
    ensures multiset(s)[s[i]] >= 2
  {
    assert s == s[..i] + [s[i]] + s[i + 1..j] + [s[j]] + s[j + 1..];
  }

  /** An answer counted at least twice sits at two positions. */
  lemma {:induction false} CountedTwiceAtTwoPositions(s: seq<Answer>, x: Answer)
    requires multiset(s)[x] >= 2
    ensures exists i, j :: 0 <= i < j < |s| && s[i] == x && s[j] == x
  {
    var t := s[1..];
    assert s == [s[0]] + t;
    assert multiset(s) == multiset{s[0]} + multiset(t);
    if s[0] == x {
      assert x in multiset(t);
      var j :| 0 <= j < |t| && t[j] == x;
      assert s[0] == x && s[j + 1] == x;
    } else {
      CountedTwiceAtTwoPositions(t, x);
      var i, j :| 0 <= i < j < |t| && t[i] == x && t[j] == x;
      assert s[i + 1] == x && s[j + 1] == x;
    }
  }

  /** Value v is held by the answers at two positions of s. */
  predicate Repeated(s: seq<Answer>, v: string)
  {
    exists i, j :: 0 <= i < j < |s| && s[i].value == v && s[j].value == v
  }

  /** The values reported by a duplicate error: those of every element whose
      count in the list is at least two. The source joins them into its message
      in set order, which is unspecified, so the message is kept as a set. */
  function RepeatedValues(s: seq<Answer>): (r: set<string>)
    ensures forall v :: v in r <==> Repeated(s, v)
  {
    var r := set i | 0 <= i < |s| && multiset(s)[s[i]] >= 2 :: s[i].value;
    assert forall v :: v in r <==> Repeated(s, v) by {
      forall v | v in r ensures Repeated(s, v) {
        var k :| 0 <= k < |s| && multiset(s)[s[k]] >= 2 && s[k].value == v;
        CountedTwiceAtTwoPositions(s, s[k]);
        var i, j :| 0 <= i < j < |s| && s[i] == s[k] && s[j] == s[k];
        assert s[i].value == v && s[j].value == v;
      }
      forall v | Repeated(s, v) ensures v in r {
        var i, j :| 0 <= i < j < |s| && s[i].value == v && s[j].value == v;
        assert s[i] == s[j];
        TwoPositionsCountedTwice(s, i, j);
      }
    }
    r
  }

  /** A duplicate error is raised exactly when the list is not distinct. */
  lemma RepeatedValuesEmptyIffDistinct(s: seq<Answer>)
    ensures RepeatedValues(s) == {} <==> Distinct(s)
  {
    if !Distinct(s) {
      var i, j :| 0 <= i < j < |s| && s[i] == s[j];
      assert Repeated(s, s[i].value);
    }
    if RepeatedValues(s) != {} {
      var v :| v in RepeatedValues(s);
      var i, j :| 0 <= i < j < |s| && s[i].value == v && s[j].value == v;
      assert s[i] == s[j];
    }
  }

  /** A question: its text, the offered choices, the correct answers and a weight
      that no operation reads. */
  datatype Question = Question(text: string, choices: seq<Answer>, answers: seq<Answer>, weight: int)
  {
    /** Every correct answer is one of the choices. */
    predicate AnswersAmongChoices()
    {
      forall a :: a in answers ==> a in choices
    }

    /** What every constructed question satisfies. */
    predicate WellFormed()
    {
      choices != [] && answers != [] && AnswersAmongChoices() && Distinct(choices) && Distinct(answers)
    }

    /** Grading of one submission: true exactly when the submitted answers, taken
        as a set, are the correct ones, whatever their order and repetitions. */
    function Check(provided: seq<Answer>): (r: bool)
      ensures r <==> forall a :: a in provided <==> a in answers
    {
      Elements(answers) == Elements(provided)
    }

    /** The answers that were wrong or missing: the symmetric difference of the
        correct set and the submitted set. It is empty exactly when Check holds. */
    function WrongAnswers(provided: seq<Answer>): (r: set<Answer>)
      ensures forall a :: a in r <==> (a in answers <==> a !in provided)
      ensures r == {} <==> Check(provided)
    {
      (Elements(answers) - Elements(provided)) + (Elements(provided) - Elements(answers))
    }
  }

  /** Question construction. The checks run in the source's order and the first
      that fails decides the error: empty choices, empty answers, an answer that
      is not a choice, repeated choices, repeated answers. Construction succeeds
      exactly when the question is well formed, and then keeps its arguments. */
  function NewQuestion(text: string, choices: seq<Answer>, answers: seq<Answer>, weight: int): (r: Result<Question>)
    ensures r.Ok? <==> Question(text, choices, answers, weight).WellFormed()
    ensures r.Ok? ==> r.value == Question(text, choices, answers, weight)
    ensures choices == [] ==> r == Err(EmptyChoices)
    ensures choices != [] && answers == [] ==> r == Err(EmptyAnswers)
    ensures choices != [] && answers != [] && !Question(text, choices, answers, weight).AnswersAmongChoices()
            ==> r == Err(AnswersNotInChoices)
    ensures choices != [] && answers != [] && Question(text, choices, answers, weight).AnswersAmongChoices()
            && !Distinct(choices)
            ==> r.Err? && r.error.DuplicateChoices? && r.error.values != {}
    ensures choices != [] && answers != [] && Question(text, choices, answers, weight).AnswersAmongChoices()
            && Distinct(choices) && !Distinct(answers)
            ==> r.Err? && r.error.DuplicateAnswers? && r.error.values != {}
    ensures r.Err? && r.error.DuplicateChoices? ==>
            forall v :: v in r.error.values <==> Repeated(choices, v)
    ensures r.Err? && r.error.DuplicateAnswers? ==>
            forall v :: v in r.error.values <==> Repeated(answers, v)
  {
    RepeatedValuesEmptyIffDistinct(choices);
    RepeatedValuesEmptyIffDistinct(answers);
    if choices == [] then Err(EmptyChoices)
    else if answers == [] then Err(EmptyAnswers)
    else if !(Elements(answers) <= Elements(choices)) then Err(AnswersNotInChoices)
    else if RepeatedValues(choices) != {} then Err(DuplicateChoices(RepeatedValues(choices)))
    else if RepeatedValues(answers) != {} then Err(DuplicateAnswers(RepeatedValues(answers)))
    else Ok(Question(text, choices, answers, weight))
  }
}
