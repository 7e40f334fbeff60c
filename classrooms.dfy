/** A classroom (ClassroomApp/models/classrom.py): a mutable record holding a
    required teacher and a list of students that is appended to and removed
    from after construction. */
module Classrooms {
  import opened Errors
  import opened Entities

  /** Student equality as list membership and removal test it: by names. */
  predicate SameStudent(a: Student, b: Student)
  {
    StudentRef(a).Equals(StudentRef(b))
  }

  /** The source's `x in students`: some entry equals x. */
  predicate Enrolled(s: seq<Student>, x: Student)
  {
    exists i :: 0 <= i < |s| && SameStudent(s[i], x)
  }

  /** The position of the first entry equal to x, or |s| when there is none. */
  function FirstIndex(s: seq<Student>, x: Student): (i: nat)
    ensures i <= |s|
    ensures i < |s| ==> SameStudent(s[i], x)
    ensures forall k :: 0 <= k < i ==> !SameStudent(s[k], x)
  {
    if s == [] then 0
    else if SameStudent(s[0], x) then 0
    else 1 + FirstIndex(s[1..], x)
  }

  /** list.remove: drop the first entry equal to x, keeping the others in order;
      a list without such an entry is left as it is. */
  function RemoveFirst(s: seq<Student>, x: Student): (r: seq<Student>)
    ensures !Enrolled(s, x) ==> r == s
    ensures Enrolled(s, x) ==>
              exists i :: 0 <= i < |s| && SameStudent(s[i], x) && r == s[..i] + s[i + 1..]
                          && forall k :: 0 <= k < i ==> !SameStudent(s[k], x)
  {
    var i := FirstIndex(s, x);
    if i < |s| then s[..i] + s[i + 1..] else s
  }

  /** Appending x, which was not enrolled, makes it enrolled; removing it
      again restores the list, so it is no longer enrolled. */
  lemma RemoveAfterAppend(s: seq<Student>, x: Student)
    requires !Enrolled(s, x)
    ensures Enrolled(s + [x], x)
    ensures RemoveFirst(s + [x], x) == s
    ensures !Enrolled(RemoveFirst(s + [x], x), x)
  {
    var t := s + [x];
    assert t[|s|] == x;
    assert forall k :: 0 <= k < |s| ==> t[k] == s[k];
    assert FirstIndex(t, x) == |s|;
    assert t[..|s|] == s;
  }

  class Classroom {
    var teacher: Teacher
    var students: seq<Student>

    constructor (teacher: Teacher, students: seq<Student>)
      ensures this.teacher == teacher && this.students == students
    {
      this.teacher := teacher;
      this.students := students;
    }

    /** Classroom(teacher, students): an absent teacher is refused; students
        default to a new empty list, otherwise they are kept as given. */
    static method New(teacher: Option<Teacher>, students: Option<seq<Student>>) returns (r: Result<Classroom>)
      ensures r.Err? <==> teacher.None?
      ensures r.Err? ==> r.error == EmptyTeacher
      ensures r.Ok? ==>
                fresh(r.value) && r.value.teacher == teacher.value
                && r.value.students == (if students.Some? then students.value else [])
    {
      if teacher.None? {
        return Err(EmptyTeacher);
      }
      var c := new Classroom(teacher.value, if students.Some? then students.value else []);
      r := Ok(c);
    }

    /** students.append(x): x becomes the last entry. */
    method Add(x: Student)
      modifies this
      ensures students == old(students) + [x] && teacher == old(teacher)
      ensures Enrolled(students, x)
    {
      students := students + [x];
      assert students[|students| - 1] == x;
    }

    /** students.remove(x): the first equal entry goes; when there is none the
        source raises ValueError and the list stays as it was. */
    method Remove(x: Student) returns (outcome: Outcome)
      modifies this
      ensures outcome.Fail? <==> !Enrolled(old(students), x)
      ensures outcome.Fail? ==> outcome.error == NotInList
      ensures students == RemoveFirst(old(students), x) && teacher == old(teacher)
    {
      if !Enrolled(students, x) {
        return Fail(NotInList);
      }
      students := RemoveFirst(students, x);
      outcome := Pass;
    }
  }
}
