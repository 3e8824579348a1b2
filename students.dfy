/**
 * The Student record: three stored strings behind validating setters and
 * title-casing getters. The source's Person base class only contributes the
 * two name fields, so the record is flattened into one class here.
 */
module Students {
  import opened Names

  /** The exceptions the record and its loaders raise. */
  datatype Failure = ValueError(message: string) | KeyError(key: string)

  const FirstNameMessage: string := "The first name cannot contain numbers!"
  const LastNameMessage: string := "The last name cannot contain numbers!"

  /** A setter either completes or raises before assigning. */
  datatype Outcome = Pass | Fail(error: Failure)

  datatype Option<T> = None | Some(value: T)

  datatype Result<T> = Ok(value: T) | Err(error: Failure)

  /** The three stored strings of a Student, as set (before title casing). */
  datatype Record = Record(firstName: string, lastName: string, courseName: string)

  /** The stored names a Student can hold: both pass the setter guard. */
  predicate ValidRecord(r: Record) {
    ValidName(r.firstName) && ValidName(r.lastName)
  }

  /** What the three getters return for a record. */
  function Shown(r: Record): Record {
    Record(Title(r.firstName), Title(r.lastName), Title(r.courseName))
  }

  /** Reading through the getters twice changes nothing, and keeps a record valid. */
  lemma ShownStable(r: Record)
    ensures Shown(Shown(r)) == Shown(r)
    ensures ValidRecord(Shown(r)) <==> ValidRecord(r)
  {
    TitleIdempotent(r.firstName);
    TitleIdempotent(r.lastName);
    TitleIdempotent(r.courseName);
    TitleKeepsNames(r.firstName);
    TitleKeepsNames(r.lastName);
  }

  class Student {
    var firstName: string
    var lastName: string
    var courseName: string

    /** Object invariant: the stored names passed the setter guard. */
    predicate Valid()
      reads this
    {
      ValidName(firstName) && ValidName(lastName)
    }

    /** The stored fields as a value. */
    function Value(): Record
      reads this
    {
      Record(firstName, lastName, courseName)
    }

    /** `Student()` with every argument left at its default, the empty string. */
    constructor ()
      ensures Valid()
      ensures Value() == Record("", "", "")
    {
      firstName, lastName, courseName := "", "", "";
    }

    /** The `first_name` getter: the title case of the stored first name. */
    function FirstName(): (r: string)
      reads this
      ensures |r| == |firstName| && Title(r) == r
      ensures ValidName(r) <==> ValidName(firstName)
      ensures IsAlpha(firstName) ==> r[0] == Upper(firstName[0])
    {
      TitleIdempotent(firstName);
      TitleKeepsNames(firstName);
      TitleOfWord(firstName);
      Title(firstName)
    }

    /** The `last_name` getter: the title case of the stored last name. */
    function LastName(): (r: string)
      reads this
      ensures |r| == |lastName| && Title(r) == r
      ensures ValidName(r) <==> ValidName(lastName)
      ensures IsAlpha(lastName) ==> r[0] == Upper(lastName[0])
    {
      TitleIdempotent(lastName);
      TitleKeepsNames(lastName);
      TitleOfWord(lastName);
      Title(lastName)
    }

    /** The `course_name` getter: the title case of the stored course name. */
    function CourseName(): (r: string)
      reads this
      ensures |r| == |courseName| && Title(r) == r
    {
      TitleIdempotent(courseName);
      Title(courseName)
    }

    /** The `first_name` setter: stores `name` only if it is all letters or empty. */
    method SetFirstName(name: string) returns (outcome: Outcome)
      modifies this
      ensures outcome == if ValidName(name) then Pass else Fail(ValueError(FirstNameMessage))
      ensures firstName == if ValidName(name) then name else old(firstName)
      ensures lastName == old(lastName) && courseName == old(courseName)
      ensures old(Valid()) ==> Valid()
    {
      if IsAlpha(name) || name == "" {
        firstName := name;
        outcome := Pass;
      } else {
        outcome := Fail(ValueError(FirstNameMessage));
      }
    }

    /** The `last_name` setter: stores `name` only if it is all letters or empty. */
    method SetLastName(name: string) returns (outcome: Outcome)
      modifies this
      ensures outcome == if ValidName(name) then Pass else Fail(ValueError(LastNameMessage))
      ensures lastName == if ValidName(name) then name else old(lastName)
      ensures firstName == old(firstName) && courseName == old(courseName)
      ensures old(Valid()) ==> Valid()
    {
      if IsAlpha(name) || name == "" {
        lastName := name;
        outcome := Pass;
      } else {
        outcome := Fail(ValueError(LastNameMessage));
      }
    }

    /** The `course_name` setter: any string is accepted. */
    method SetCourseName(name: string)
      modifies this
      ensures courseName == name
      ensures firstName == old(firstName) && lastName == old(lastName)
      ensures old(Valid()) ==> Valid()
    {
      courseName := name;
    }
  }

  /**
   * `Student(first_name, last_name, course_name)`: the constructor runs the
   * first-name setter, then the last-name setter, then the course setter, so
   * it raises the first name's error before looking at the last name.
   */
  method NewStudent(first: string, last: string, course: string) returns (r: Result<Student>)
    ensures r.Ok? <==> ValidName(first) && ValidName(last)
    ensures r.Ok? ==> fresh(r.value) && r.value.Valid() && r.value.Value() == Record(first, last, course)
    ensures !ValidName(first) ==> r == Err(ValueError(FirstNameMessage))
    ensures ValidName(first) && !ValidName(last) ==> r == Err(ValueError(LastNameMessage))
  {
    var s := new Student();
    var outcome := s.SetFirstName(first);
    if outcome.Fail? {
      return Err(outcome.error);
    }
    outcome := s.SetLastName(last);
    if outcome.Fail? {
      return Err(outcome.error);
    }
    s.SetCourseName(course);
    r := Ok(s);
  }

  /** The stored values of a list of students, in list order. */
  function Snapshot(students: seq<Student>): (rs: seq<Record>)
    reads students
    ensures |rs| == |students|
    ensures forall i :: 0 <= i < |students| ==> rs[i] == students[i].Value()
  {
    seq(|students|, i reads students requires 0 <= i < |students| => students[i].Value())
  }

  /** Appending a student appends its stored value. */
  lemma SnapshotAppend(students: seq<Student>, s: Student)
    ensures Snapshot(students + [s]) == Snapshot(students) + [s.Value()]
  {
  }

  /** Every student of the list keeps its object invariant. */
  ghost predicate AllValid(students: seq<Student>)
    reads students
  {
    forall i :: 0 <= i < |students| ==> students[i].Valid()
  }
}
