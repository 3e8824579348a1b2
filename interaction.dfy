/**
 * The console side of the program reduced to its effect on the data: the
 * menu-choice check, registering a student from three entered lines, and the
 * main loop as a state machine over the roster, whether the loop still runs,
 * and the contents of the enrollments file.
 */
module Interaction {
  import opened Names
  import opened Students
  import opened Persistence

  /** The choices the menu offers. */
  predicate IsValidChoice(choice: string) {
    choice in {"1", "2", "3", "4"}
  }

  /** The menu accepts exactly the single characters 1 to 4. */
  lemma ValidChoiceDigit(choice: string)
    ensures IsValidChoice(choice) <==> |choice| == 1 && '1' <= choice[0] <= '4'
  {
    if |choice| == 1 {
      assert choice == [choice[0]];
    }
  }

  /** The three lines typed at the registration prompts. */
  datatype Entry = Entry(first: string, last: string, course: string)

  /** The roster after registering `e`: one more record at the end, or unchanged when a name is rejected. */
  function Register(roster: seq<Record>, e: Entry): seq<Record> {
    if ValidName(e.first) && ValidName(e.last) then roster + [Record(e.first, e.last, e.course)] else roster
  }

  /**
   * `input_student_data`: builds a default Student, runs the three setters on
   * the entered lines, and appends the Student only if no setter raised.
   */
  method InputStudentData(studentData: seq<Student>, entry: Entry)
    returns (r: seq<Student>, error: Option<Failure>)
    ensures error.None? <==> ValidName(entry.first) && ValidName(entry.last)
    ensures error.None? ==>
      |r| == |studentData| + 1 && r[..|studentData|] == studentData &&
      r[|studentData|].Valid() && r[|studentData|].Value() == Record(entry.first, entry.last, entry.course)
    ensures error.Some? ==> r == studentData
    ensures !ValidName(entry.first) ==> error == Some(ValueError(FirstNameMessage))
    ensures ValidName(entry.first) && !ValidName(entry.last) ==> error == Some(ValueError(LastNameMessage))
    ensures Snapshot(r) == Register(Snapshot(studentData), entry)
  {
    var student := new Student();
    var outcome := student.SetFirstName(entry.first);
    if outcome.Fail? {
      return studentData, Some(outcome.error);
    }
    outcome := student.SetLastName(entry.last);
    if outcome.Fail? {
      return studentData, Some(outcome.error);
    }
    student.SetCourseName(entry.course);
    r, error := studentData + [student], None;
  }

  /** One pass of the main loop: the menu choice and the lines typed at the registration prompts. */
  datatype Command = Command(choice: string, entry: Entry)

  /** The program's data between two passes of the main loop. */
  datatype App = App(roster: seq<Record>, running: bool, file: seq<Row>)

  /** The program's data right after start-up, with `saved` in the enrollments file. */
  function Startup(saved: seq<Row>): App {
    App(LoadRows(saved).records, true, saved)
  }

  /** One pass of the main loop. */
  function StepSpec(s: App, c: Command): App {
    if c.choice == "1" then s.(roster := Register(s.roster, c.entry))
    else if c.choice == "2" then s
    else if c.choice == "3" then s.(file := Rows(s.roster))
    else if c.choice == "4" then s.(running := false)
    else s
  }

  /** The main loop over a script of commands: it runs until choice "4" or until the script ends. */
  function RunSpec(s: App, script: seq<Command>): App
    decreases |script|
  {
    if script == [] || !s.running then s else RunSpec(StepSpec(s, script[0]), script[1..])
  }

  /**
   * What one pass does: only "4" stops the loop, only "3" writes the file
   * (with the roster, unchanged), only "1" touches the roster, and a choice
   * outside the menu changes nothing.
   */
  lemma StepEffects(s: App, c: Command)
    ensures StepSpec(s, c).running <==> s.running && c.choice != "4"
    ensures StepSpec(s, c).roster == if c.choice == "1" then Register(s.roster, c.entry) else s.roster
    ensures StepSpec(s, c).file == if c.choice == "3" then Rows(s.roster) else s.file
    ensures !IsValidChoice(c.choice) ==> StepSpec(s, c) == s
  {
  }

  /**
   * Registering "john", "doe", "history" shows the student as John Doe in
   * History; registering "J0hn" leaves the roster as it was.
   */
  lemma RegisterScenarios()
    ensures Shown(StepSpec(App([], true, []), Command("1", Entry("john", "doe", "history"))).roster[0])
      == Record("John", "Doe", "History")
    ensures StepSpec(App([], true, []), Command("1", Entry("J0hn", "doe", "history"))).roster == []
  {
    assert !IsLetter("J0hn"[1]);
    TitleLiteral("john", "John");
    TitleLiteral("doe", "Doe");
    TitleLiteral("history", "History");
  }

  /** Every record the roster holds passes the name guard. */
  predicate RosterValid(roster: seq<Record>) {
    forall i :: 0 <= i < |roster| ==> ValidRecord(roster[i])
  }

  /**
   * Over a whole run the roster only grows at the end, by at most one record
   * per command, every added record is valid, and the loop has stopped
   * exactly when a "4" was reached.
   */
  lemma {:induction false} RunEffects(s: App, script: seq<Command>)
    requires RosterValid(s.roster)
    ensures |s.roster| <= |RunSpec(s, script).roster| <= |s.roster| + |script|
    ensures RunSpec(s, script).roster[..|s.roster|] == s.roster
    ensures RosterValid(RunSpec(s, script).roster)
    ensures !RunSpec(s, script).running <==>
      !s.running || exists i :: 0 <= i < |script| && script[i].choice == "4"
    decreases |script|
  {
    if script == [] || !s.running {
    } else {
      var t := StepSpec(s, script[0]);
      assert t.roster[..|s.roster|] == s.roster;
      RunEffects(t, script[1..]);
      if t.running {
        assert script[0].choice != "4";
        assert (exists i :: 0 <= i < |script[1..]| && script[1..][i].choice == "4") <==>
          (exists i :: 0 <= i < |script| && script[i].choice == "4") by {
          forall i | 0 <= i < |script| && script[i].choice == "4"
            ensures 1 <= i && script[1..][i - 1].choice == "4"
          {
          }
        }
      }
    }
  }

  /**
   * The program's state: the roster list, whether the main loop runs, and
   * the rows held in the enrollments file.
   */
  class Session {
    var students: seq<Student>
    var running: bool
    var file: seq<Row>

    ghost predicate Valid()
      reads this, students
    {
      AllValid(students)
    }

    function State(): App
      reads this, students
    {
      App(Snapshot(students), running, file)
    }

    /** Start-up: the roster is loaded from the file into an empty list. */
    constructor (saved: seq<Row>)
      ensures Valid()
      ensures State() == Startup(saved)
    {
      var loaded, _ := ReadDataFromFile(saved, []);
      students := loaded;
      running := true;
      file := saved;
    }

    /** One pass of the main loop, dispatching on the menu choice. */
    method Step(command: Command)
      requires Valid() && running
      modifies this
      ensures Valid()
      ensures State() == StepSpec(old(State()), command)
    {
      if command.choice == "1" {
        var r, _ := InputStudentData(students, command.entry);
        students := r;
      } else if command.choice == "2" {
        // the roster is displayed; nothing changes
      } else if command.choice == "3" {
        var rows := WriteDataToFile(students);
        file := rows;
      } else if command.choice == "4" {
        running := false;
      }
    }

    /** The main loop, fed the commands of `script` in order. */
    method Run(script: seq<Command>)
      requires Valid()
      modifies this
      ensures Valid()
      ensures State() == RunSpec(old(State()), script)
    {
      var i := 0;
      while i < |script| && running
        invariant i <= |script| && Valid()
        invariant RunSpec(old(State()), script) == RunSpec(State(), script[i..])
      {
        assert script[i..][1..] == script[i + 1..];
        Step(script[i]);
        i := i + 1;
      }
    }
  }
}
