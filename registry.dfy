/** The construct-or-fetch registry of ClassroomApp/models/meta.py.
    The source keeps ONE list on the metaclass, shared by every Person class:
    constructing a Teacher or a Student builds a candidate, returns an equal
    object already in the list if there is one, and appends the candidate
    otherwise. The queries filter, get and all read that same list whatever
    class they are called on, so Teacher queries see Students too. Here the
    list is the field `instances` of one Registry object, and construction is
    an explicit call. */
module Registry {
  import opened Errors
  import opened Entities

  /** The fields a query may name. */
  datatype Field = FirstName | LastName

  function FieldValue(p: Person, f: Field): string
  {
    match f
    case FirstName => p.FirstName()
    case LastName => p.LastName()
  }

  /** Keyword criteria field=value, in the order given. */
  type Criteria = seq<(Field, string)>

  /** Every named field of p holds the given value; no criteria match everyone. */
  predicate Matches(p: Person, criteria: Criteria)
  {
    forall k :: 0 <= k < |criteria| ==> FieldValue(p, criteria[k].0) == criteria[k].1
  }

  /** No two entries of s are equal. */
  predicate Unique(s: seq<Person>)
  {
    forall i, j :: 0 <= i < j < |s| ==> !s[i].Equals(s[j])
  }

  /** Some entry of s has this kind and these names, that is, equals a
      candidate built from them. */
  predicate Holds(s: seq<Person>, kind: Kind, firstName: string, lastName: string)
  {
    exists i :: 0 <= i < |s| && s[i].Kind() == kind && s[i].FirstName() == firstName && s[i].LastName() == lastName
  }

  /** objects.filter: the entries of s that match the criteria, in list order. */
  function Filter(s: seq<Person>, criteria: Criteria): (r: seq<Person>)
    ensures |r| <= |s|
    ensures forall k :: 0 <= k < |r| ==> r[k] in s && Matches(r[k], criteria)
    ensures forall i :: 0 <= i < |s| && Matches(s[i], criteria) ==> s[i] in r
  {
    if s == [] then []
    else (if Matches(s[0], criteria) then [s[0]] else []) + Filter(s[1..], criteria)
  }

  /** Filtering distributes over concatenation, so results keep list order. */
  lemma {:induction false} FilterConcat(a: seq<Person>, b: seq<Person>, criteria: Criteria)
    ensures Filter(a + b, criteria) == Filter(a, criteria) + Filter(b, criteria)
  {
    if a == [] {
      assert a + b == b;
    } else {
      assert (a + b)[0] == a[0] && (a + b)[1..] == a[1..] + b;
      FilterConcat(a[1..], b, criteria);
    }
  }

  /** With no criteria, filter yields the whole list. */
  lemma {:induction false} FilterNoCriteria(s: seq<Person>)
    ensures Filter(s, []) == s
  {
    if s != [] {
      FilterNoCriteria(s[1..]);
    }
  }

  /** At least two results exactly when two positions of s match. */
  lemma {:induction false} TwoResultsIffTwoMatches(s: seq<Person>, criteria: Criteria)
    ensures |Filter(s, criteria)| >= 2 <==>
            exists i, j :: 0 <= i < j < |s| && Matches(s[i], criteria) && Matches(s[j], criteria)
  {
    if s == [] {
      return;
    }
    var t := s[1..];
    TwoResultsIffTwoMatches(t, criteria);
    if |Filter(s, criteria)| >= 2 {
      if Matches(s[0], criteria) {
        assert Filter(t, criteria) != [];
        var p := Filter(t, criteria)[0];
        assert p in t && Matches(p, criteria);
        var j :| 0 <= j < |t| && t[j] == p;
        assert Matches(s[0], criteria) && Matches(s[j + 1], criteria);
      } else {
        var i, j :| 0 <= i < j < |t| && Matches(t[i], criteria) && Matches(t[j], criteria);
        assert Matches(s[i + 1], criteria) && Matches(s[j + 1], criteria);
      }
    }
    if exists i, j :: 0 <= i < j < |s| && Matches(s[i], criteria) && Matches(s[j], criteria) {
      var i, j :| 0 <= i < j < |s| && Matches(s[i], criteria) && Matches(s[j], criteria);
      if i == 0 {
        assert t[j - 1] in Filter(t, criteria);
      } else {
        assert Matches(t[i - 1], criteria) && Matches(t[j - 1], criteria);
      }
    }
  }

  /** objects.get: an ambiguous-query error when two entries match, nothing
      when none does, and otherwise the one entry that matches. */
  function Get(s: seq<Person>, criteria: Criteria): (r: Result<Option<Person>>)
    ensures r.Err? <==> exists i, j :: 0 <= i < j < |s| && Matches(s[i], criteria) && Matches(s[j], criteria)
    ensures r.Err? ==> r.error == AmbiguousQuery
    ensures r == Ok(None) <==> forall i :: 0 <= i < |s| ==> !Matches(s[i], criteria)
    ensures r.Ok? && r.value.Some? ==>
            r.value.value in s && Matches(r.value.value, criteria)
            && forall i :: 0 <= i < |s| && Matches(s[i], criteria) ==> s[i] == r.value.value
  {
    TwoResultsIffTwoMatches(s, criteria);
    var found := Filter(s, criteria);
    if |found| > 1 then Err(AmbiguousQuery)
    else if found == [] then Ok(None)
    else
      assert found[0] in found;
      Ok(Some(found[0]))
  }

  /** In a list without equal entries, a get on both names can only be
      ambiguous because a Teacher and a Student share them. */
  lemma AmbiguousFullNameMeansNamesakes(s: seq<Person>, firstName: string, lastName: string)
    requires Unique(s)
    requires Get(s, [(FirstName, firstName), (LastName, lastName)]).Err?
    ensures Holds(s, TeacherKind, firstName, lastName) && Holds(s, StudentKind, firstName, lastName)
  {
    var criteria := [(FirstName, firstName), (LastName, lastName)];
    var i, j :| 0 <= i < j < |s| && Matches(s[i], criteria) && Matches(s[j], criteria);
    assert FieldValue(s[i], criteria[0].0) == firstName && FieldValue(s[i], criteria[1].0) == lastName;
    assert FieldValue(s[j], criteria[0].0) == firstName && FieldValue(s[j], criteria[1].0) == lastName;
    assert !s[i].Equals(s[j]);
    assert s[i].Kind() != s[j].Kind();
  }

  /** The names a construction call left out, in field order. */
  function MissingNames(firstName: Option<string>, lastName: Option<string>): (r: seq<string>)
    ensures r == [] <==> firstName.Some? && lastName.Some?
    ensures "first_name" in r <==> firstName.None?
    ensures "last_name" in r <==> lastName.None?
    ensures |r| <= 2
    ensures forall i, j :: 0 <= i < j < |r| ==> r[i] == "first_name" && r[j] == "last_name"
  {
    (if firstName.None? then ["first_name"] else []) + (if lastName.None? then ["last_name"] else [])
  }

  /** The metaclass-level list of every constructed person, in registration order. */
  class Registry {
    var instances: seq<Person>

    /** The invariant every construction keeps: no two stored persons are equal. */
    ghost predicate Valid()
      reads this
    {
      Unique(instances)
    }

    constructor ()
      ensures Valid() && instances == []
    {
      instances := [];
    }

    /** objects.all: the stored list itself, which is what filtering with no
        criteria yields; it never holds two equal persons. */
    function All(): (r: seq<Person>)
      reads this
      ensures r == Filter(instances, [])
      ensures Valid() ==> Unique(r)
    {
      FilterNoCriteria(instances);
      instances
    }

    /** The metaclass call, once the candidate is built: scan the list for an
        equal person and return it, or append the candidate and return that. */
    method GetOrCreate(candidate: Person) returns (stored: Person)
      requires Valid()
      modifies this
      ensures Valid()
      ensures stored.Equals(candidate)
      ensures Holds(old(instances), candidate.Kind(), candidate.FirstName(), candidate.LastName()) ==>
                stored in old(instances) && instances == old(instances)
      ensures !Holds(old(instances), candidate.Kind(), candidate.FirstName(), candidate.LastName()) ==>
                stored == candidate && instances == old(instances) + [candidate]
    {
      for i := 0 to |instances|
        invariant forall k :: 0 <= k < i ==> !instances[k].Equals(candidate)
      {
        if instances[i].Equals(candidate) {
          return instances[i];
        }
      }
      instances := instances + [candidate];
      stored := candidate;
    }

    /** Teacher(first_name, last_name): a missing name is a TypeError raised
        before the scan, so nothing is registered; otherwise a candidate with an
        empty quiz list goes through GetOrCreate. An already registered Teacher
        with these names is returned as it is, its quiz list untouched. */
    method NewTeacher(firstName: Option<string>, lastName: Option<string>) returns (r: Result<Teacher>)
      requires Valid()
      modifies this
      ensures Valid()
      ensures r.Ok? <==> firstName.Some? && lastName.Some?
      ensures r.Err? ==> r.error == MissingArguments(MissingNames(firstName, lastName)) && instances == old(instances)
      ensures r.Ok? ==> r.value.firstName == firstName.value && r.value.lastName == lastName.value
      ensures r.Ok? ==> TeacherRef(r.value) in instances
      ensures r.Ok? && Holds(old(instances), TeacherKind, firstName.value, lastName.value) ==>
                instances == old(instances) && !fresh(r.value)
                && forall i :: 0 <= i < |instances| && instances[i].TeacherRef?
                               && instances[i].FirstName() == firstName.value && instances[i].LastName() == lastName.value
                               ==> instances[i] == TeacherRef(r.value)
      ensures r.Ok? && !Holds(old(instances), TeacherKind, firstName.value, lastName.value) ==>
                fresh(r.value) && r.value.quizSet == [] && instances == old(instances) + [TeacherRef(r.value)]
    {
      if firstName.None? || lastName.None? {
        return Err(MissingArguments(MissingNames(firstName, lastName)));
      }
      var candidate := new Teacher(firstName.value, lastName.value);
      var stored := GetOrCreate(TeacherRef(candidate));
      r := Ok(stored.teacher);
    }

    /** Student(first_name, last_name): the same construct-or-fetch, with Student
        as the class, so a Student never matches a registered Teacher. */
    method NewStudent(firstName: Option<string>, lastName: Option<string>) returns (r: Result<Student>)
      requires Valid()
      modifies this
      ensures Valid()
      ensures r.Ok? <==> firstName.Some? && lastName.Some?
      ensures r.Err? ==> r.error == MissingArguments(MissingNames(firstName, lastName)) && instances == old(instances)
      ensures r.Ok? ==> r.value.firstName == firstName.value && r.value.lastName == lastName.value
      ensures r.Ok? ==> StudentRef(r.value) in instances
      ensures r.Ok? && Holds(old(instances), StudentKind, firstName.value, lastName.value) ==>
                instances == old(instances) && !fresh(r.value)
                && forall i :: 0 <= i < |instances| && instances[i].StudentRef?
                               && instances[i].FirstName() == firstName.value && instances[i].LastName() == lastName.value
                               ==> instances[i] == StudentRef(r.value)
      ensures r.Ok? && !Holds(old(instances), StudentKind, firstName.value, lastName.value) ==>
                fresh(r.value) && instances == old(instances) + [StudentRef(r.value)]
    {
      if firstName.None? || lastName.None? {
        return Err(MissingArguments(MissingNames(firstName, lastName)));
      }
      var candidate := new Student(firstName.value, lastName.value);
      var stored := GetOrCreate(StudentRef(candidate));
      r := Ok(stored.student);
    }
  }

  /** Two constructions with the same names give the same object, hence the
      same id, and leave one entry for it. */
  method SameNamesSameTeacher(registry: Registry, firstName: string, lastName: string) returns (t1: Teacher, t2: Teacher)
    requires registry.Valid()
    modifies registry
    ensures registry.Valid()
    ensures t1 == t2 && TeacherRef(t1).Id() == TeacherRef(t2).Id()
    ensures t1.firstName == firstName && t1.lastName == lastName
  {
    var r1 := registry.NewTeacher(Some(firstName), Some(lastName));
    var r2 := registry.NewTeacher(Some(firstName), Some(lastName));
    t1, t2 := r1.value, r2.value;
  }

  /** A Teacher and a Student with the same names are two entries of the shared
      list, so a get on both names is ambiguous. */
  method TeacherAndStudentNamesake(registry: Registry, firstName: string, lastName: string)
    returns (t: Teacher, s: Student)
    requires registry.Valid()
    modifies registry
    ensures registry.Valid()
    ensures TeacherRef(t) in registry.instances && StudentRef(s) in registry.instances
    ensures Get(registry.instances, [(FirstName, firstName), (LastName, lastName)]) == Err(AmbiguousQuery)
  {
    var rt := registry.NewTeacher(Some(firstName), Some(lastName));
    t := rt.value;
    ghost var before := registry.instances;
    var rs := registry.NewStudent(Some(firstName), Some(lastName));
    s := rs.value;
    ghost var after := registry.instances;
    assert before <= after;
    ghost var i :| 0 <= i < |before| && before[i] == TeacherRef(t);
    ghost var j :| 0 <= j < |after| && after[j] == StudentRef(s);
    ghost var criteria := [(FirstName, firstName), (LastName, lastName)];
    assert after[i] == TeacherRef(t) && Matches(after[i], criteria);
    assert Matches(after[j], criteria);
    if i < j {
      assert Get(after, criteria).Err?;
    } else {
      assert j < i;
      assert Get(after, criteria).Err?;
    }
  }
}
