/**
 * FileProcessor: converting between the roster and the rows of the
 * enrollments file. The file holds a JSON array of objects; here it is the
 * sequence of those objects, each a map from key to string value, so that
 * opening, parsing and printing the file stay outside the model.
 */
module Persistence {
  import opened Names
  import opened Students

  /** One JSON object of the file. */
  type Row = map<string, string>

  const FirstNameKey: string := "FirstName"
  const LastNameKey: string := "LastName"
  const CourseNameKey: string := "CourseName"

  /** The row written for a student: its three getters under the three keys. */
  function RowOf(r: Record): Row {
    map[FirstNameKey := Title(r.firstName), LastNameKey := Title(r.lastName), CourseNameKey := Title(r.courseName)]
  }

  /** The file contents written for a roster: one row per student, in roster order. */
  function Rows(rs: seq<Record>): (rows: seq<Row>)
    ensures |rows| == |rs|
  {
    seq(|rs|, i requires 0 <= i < |rs| => RowOf(rs[i]))
  }

  /**
   * Building a Student from one row: the three keys are looked up in
   * argument order (a missing one raises KeyError), then the constructor's
   * setters check the first and then the last name.
   */
  function ParseRow(row: Row): (r: Result<Record>)
    ensures r.Ok? <==>
      FirstNameKey in row && LastNameKey in row && CourseNameKey in row &&
      ValidName(row[FirstNameKey]) && ValidName(row[LastNameKey])
    ensures r.Ok? ==> r.value == Record(row[FirstNameKey], row[LastNameKey], row[CourseNameKey])
    ensures r.Err? && r.error.KeyError? ==> r.error.key !in row
  {
    if FirstNameKey !in row then Err(KeyError(FirstNameKey))
    else if LastNameKey !in row then Err(KeyError(LastNameKey))
    else if CourseNameKey !in row then Err(KeyError(CourseNameKey))
    else if !ValidName(row[FirstNameKey]) then Err(ValueError(FirstNameMessage))
    else if !ValidName(row[LastNameKey]) then Err(ValueError(LastNameMessage))
    else Ok(Record(row[FirstNameKey], row[LastNameKey], row[CourseNameKey]))
  }

  /** A row written for a student with valid names reads back as that student's getters. */
  lemma ParseRowOf(r: Record)
    requires ValidRecord(r)
    ensures ParseRow(RowOf(r)) == Ok(Shown(r))
  {
    TitleKeepsNames(r.firstName);
    TitleKeepsNames(r.lastName);
  }

  /** The Students built from the file, and the exception that stopped the loading, if any. */
  datatype Loaded = Loaded(records: seq<Record>, error: Option<Failure>)

  /**
   * Loading the rows of the file: one Student per row, in file order, up to
   * the first row that raises; the rows before it are kept.
   */
  function LoadRows(rows: seq<Row>): Loaded {
    if rows == [] then Loaded([], None)
    else match ParseRow(rows[0])
      case Err(e) => Loaded([], Some(e))
      case Ok(r) =>
        var rest := LoadRows(rows[1..]);
        Loaded([r] + rest.records, rest.error)
  }

  /**
   * What loading yields: a prefix of the rows, each loaded record being its
   * row's parse; no error exactly when every row loaded, and otherwise the
   * error of the first row that was not loaded.
   */
  lemma {:induction false} LoadRowsSpec(rows: seq<Row>)
    ensures |LoadRows(rows).records| <= |rows|
    ensures forall i :: 0 <= i < |LoadRows(rows).records| ==> ParseRow(rows[i]) == Ok(LoadRows(rows).records[i])
    ensures LoadRows(rows).error.None? <==> |LoadRows(rows).records| == |rows|
    ensures LoadRows(rows).error.Some? ==>
      ParseRow(rows[|LoadRows(rows).records|]) == Err(LoadRows(rows).error.value)
  {
    if rows != [] && ParseRow(rows[0]).Ok? {
      LoadRowsSpec(rows[1..]);
      var l := LoadRows(rows);
      forall i | 1 <= i < |l.records|
        ensures ParseRow(rows[i]) == Ok(l.records[i])
      {
        assert rows[i] == rows[1..][i - 1];
      }
    }
  }

  /**
   * The body of the loading loop: the three key lookups, then the
   * constructor, which raises as `ParseRow` says.
   */
  method StudentFromRow(row: Row) returns (r: Result<Student>)
    ensures r.Ok? <==> ParseRow(row).Ok?
    ensures r.Ok? ==> fresh(r.value) && r.value.Valid() && r.value.Value() == ParseRow(row).value
    ensures r.Err? ==> r.error == ParseRow(row).error
  {
    if FirstNameKey !in row {
      return Err(KeyError(FirstNameKey));
    }
    if LastNameKey !in row {
      return Err(KeyError(LastNameKey));
    }
    if CourseNameKey !in row {
      return Err(KeyError(CourseNameKey));
    }
    r := NewStudent(row[FirstNameKey], row[LastNameKey], row[CourseNameKey]);
  }

  /**
   * `read_data_from_file` once the file is open and parsed: converts the
   * rows one by one and appends each Student to the list it was given,
   * stopping at the first row that raises; the students appended before that
   * row stay in the list.
   */
  method ReadDataFromFile(rows: seq<Row>, studentObjects: seq<Student>)
    returns (r: seq<Student>, error: Option<Failure>)
    ensures |r| >= |studentObjects| && r[..|studentObjects|] == studentObjects
    ensures Snapshot(r) == Snapshot(studentObjects) + LoadRows(rows).records
    ensures error == LoadRows(rows).error
    ensures forall i :: |studentObjects| <= i < |r| ==> r[i].Valid()
  {
    r, error := studentObjects, None;
    ghost var done: seq<Record> := [];
    var i := 0;
    while i < |rows|
      invariant i <= |rows|
      invariant |r| >= |studentObjects| && r[..|studentObjects|] == studentObjects
      invariant Snapshot(r) == Snapshot(studentObjects) + done
      invariant LoadRows(rows) == Loaded(done + LoadRows(rows[i..]).records, LoadRows(rows[i..]).error)
      invariant forall j :: |studentObjects| <= j < |r| ==> r[j].Valid()
      invariant error == None
    {
      assert rows[i..][1..] == rows[i + 1..];
      var made := StudentFromRow(rows[i]);
      if made.Err? {
        error := Some(made.error);
        break;
      }
      SnapshotAppend(r, made.value);
      r := r + [made.value];
      done := done + [made.value.Value()];
      i := i + 1;
    }
  }

  /**
   * The loop of `write_data_to_file`: one row per student, in list order,
   * built from the student's getters.
   */
  method WriteDataToFile(studentData: seq<Student>) returns (rows: seq<Row>)
    ensures rows == Rows(Snapshot(studentData))
  {
    rows := [];
    var i := 0;
    while i < |studentData|
      invariant i <= |studentData|
      invariant |rows| == i
      invariant forall j :: 0 <= j < i ==> rows[j] == RowOf(studentData[j].Value())
    {
      var student := studentData[i];
      var studentJson := map[
        FirstNameKey := student.FirstName(),
        LastNameKey := student.LastName(),
        CourseNameKey := student.CourseName()];
      rows := rows + [studentJson];
      i := i + 1;
    }
  }

  /**
   * Saving a roster and loading the file back gives, in the same order, one
   * Student per saved one, stored as that student's getters showed it.
   */
  lemma SaveThenLoad(rs: seq<Record>)
    requires forall i :: 0 <= i < |rs| ==> ValidRecord(rs[i])
    ensures LoadRows(Rows(rs)).error == None
    ensures |LoadRows(Rows(rs)).records| == |rs|
    ensures forall i :: 0 <= i < |rs| ==> LoadRows(Rows(rs)).records[i] == Shown(rs[i])
  {
    var rows := Rows(rs);
    LoadRowsSpec(rows);
    forall i | 0 <= i < |rs|
      ensures ParseRow(rows[i]) == Ok(Shown(rs[i]))
    {
      ParseRowOf(rs[i]);
    }
  }

  /** A saved file, loaded and saved again, is written back unchanged. */
  lemma SaveLoadSave(rs: seq<Record>)
    requires forall i :: 0 <= i < |rs| ==> ValidRecord(rs[i])
    ensures Rows(LoadRows(Rows(rs)).records) == Rows(rs)
  {
    var rows := Rows(rs);
    var back := LoadRows(rows).records;
    SaveThenLoad(rs);
    assert |back| == |rs|;
    assert forall i :: 0 <= i < |rs| ==> back[i] == Shown(rs[i]);
    RowsAgree(back, rs);
  }

  /** Two rosters whose getters agree everywhere are saved as the same rows. */
  lemma RowsAgree(back: seq<Record>, rs: seq<Record>)
    requires |back| == |rs|
    requires forall i :: 0 <= i < |rs| ==> back[i] == Shown(rs[i])
    ensures Rows(back) == Rows(rs)
  {
    forall i | 0 <= i < |rs|
      ensures Rows(back)[i] == Rows(rs)[i]
    {
      ShownStable(rs[i]);
    }
  }
}
