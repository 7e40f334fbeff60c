/** The people of the domain and the quizzes teachers author.
    Person (ClassroomApp/models/meta.py) has two kinds, Teacher
    (ClassroomApp/models/teacher.py) and Student (ClassroomApp/models/student.py).
    Both are objects: the registry hands out the object itself, and a Teacher's
    quiz list is updated in place. Quiz (ClassroomApp/models/quiz.py) lives here
    too, because a Teacher holds its quizzes and a Quiz holds its author. */
module Entities {
  import opened Questions

  /** A Teacher: the two name fields and the quiz list that Quiz construction
      appends to. The names are never reassigned after construction. */
  class Teacher {
    const firstName: string
    const lastName: string
    var quizSet: seq<Quiz>

    /** Teacher.__init__: the quiz list starts empty, then the names are stored. */
    constructor (firstName: string, lastName: string)
      ensures this.firstName == firstName && this.lastName == lastName
      ensures quizSet == []
    {
      this.firstName := firstName;
      this.lastName := lastName;
      quizSet := [];
    }
  }

  /** A Student: only the two name fields. */
  class Student {
    const firstName: string
    const lastName: string

    constructor (firstName: string, lastName: string)
      ensures this.firstName == firstName && this.lastName == lastName
    {
      this.firstName := firstName;
      this.lastName := lastName;
    }
  }

  /** The class of a person object. */
  datatype Kind = TeacherKind | StudentKind

  /** A person object of either kind, as it sits in the registry's one list. */
  datatype Person = TeacherRef(teacher: Teacher) | StudentRef(student: Student)
  {
    function Kind(): Kind
    {
      if TeacherRef? then TeacherKind else StudentKind
    }

    function FirstName(): string
    {
      match this
      case TeacherRef(t) => t.firstName
      case StudentRef(s) => s.firstName
    }

    function LastName(): string
    {
      match this
      case TeacherRef(t) => t.lastName
      case StudentRef(s) => s.lastName
    }

    /** The id property: the identity of the object itself. */
    function Id(): object
    {
      match this
      case TeacherRef(t) => t
      case StudentRef(s) => s
    }

    /** The hash both kinds define: the pair of names. */
    function Hash(): (string, string)
    {
      (FirstName(), LastName())
    }

    /** Dataclass equality: the same class and the same names. It reads no
        mutable state, so a Teacher's quiz list takes no part in it. Two persons
        are equal exactly when they have the same kind and hash alike, and every
        object equals itself. */
    function Equals(other: Person): (r: bool)
      ensures r <==> Kind() == other.Kind() && Hash() == other.Hash()
      ensures Id() == other.Id() ==> r
    {
      match (this, other)
      case (TeacherRef(a), TeacherRef(b)) => a.firstName == b.firstName && a.lastName == b.lastName
      case (StudentRef(a), StudentRef(b)) => a.firstName == b.firstName && a.lastName == b.lastName
      case _ => false
    }
  }

  /** A quiz: its title, its questions in order and its author. */
  datatype Quiz = Quiz(title: string, questionSet: seq<Question>, author: Teacher)
  {
    /** Dataclass equality of quizzes: equal titles, equal question lists, and
        authors equal as Teachers, that is by names. */
    predicate SameAs(other: Quiz)
    {
      title == other.title && questionSet == other.questionSet
      && TeacherRef(author).Equals(TeacherRef(other.author))
    }
  }

  /** The hash agrees with equality: equal persons hash alike. It ignores the
      class, so persons of different kinds may hash alike without being equal,
      as a Teacher and a Student with the same names do. */
  lemma HashConsistentWithEquals(p: Person, q: Person)
    ensures p.Equals(q) ==> p.Hash() == q.Hash()
    ensures p.Hash() == q.Hash() <==> p.FirstName() == q.FirstName() && p.LastName() == q.LastName()
    ensures p.Hash() == q.Hash() && p.Kind() == q.Kind() ==> p.Equals(q)
  {
  }

  /** A Teacher and a Student with the same names share a hash but are not equal. */
  lemma NamesakesCollideUnequal(t: Teacher, s: Student)
    requires t.firstName == s.firstName && t.lastName == s.lastName
    ensures TeacherRef(t).Hash() == StudentRef(s).Hash()
    ensures !TeacherRef(t).Equals(StudentRef(s))
  {
  }

  /** The id property tells persons apart: two persons with the same id are the
      same person, of the same kind, and equal. */
  lemma IdDeterminesPerson(p: Person, q: Person)
    requires p.Id() == q.Id()
    ensures p == q
  {
  }

  /** Quiz equality is an equivalence, so at most one of a group of equal
      quizzes is ever kept in a quiz list. */
  lemma SameAsIsEquivalence(a: Quiz, b: Quiz, c: Quiz)
    ensures a.SameAs(a)
    ensures a.SameAs(b) ==> b.SameAs(a)
    ensures a.SameAs(b) && b.SameAs(c) ==> a.SameAs(c)
  {
  }
}
