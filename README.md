# Course registration roster, modelled in Dafny

The program is a console course-registration script. It keeps a roster of
Student records (first name, last name, course name), loads it from
`Enrollments.json` at start-up, registers new students from console input,
shows the roster and saves it back to the file. A menu loop drives it.

This project models the data side of the script:

- `names.dfy` (module `Names`) holds the string behaviour the record relies on,
  over ASCII. `IsAlpha` is `str.isalpha`. `ValidName` is the setter guard
  ("all letters or empty"). `Title` is `str.title`: a letter is upper-cased
  when the character before it is not a letter, and lower-cased otherwise.
- `students.dfy` (module `Students`) holds the Student record. It is one flat
  class with the three stored fields. Its setters either assign or raise
  before assigning. Its getters return the title case of the stored value.
  `NewStudent` is the three-argument constructor, which can raise.
  `Record` is the value of the stored fields, and `Shown` is what the getters
  return for it.
- `persistence.dfy` (module `Persistence`) holds the conversion between the
  roster and the file's rows. The file is modelled as the sequence of its JSON
  objects, each a `map<string, string>`. Loading keeps the rows before the
  first row that raises. Saving writes one row per student from the getters.
  The round trips between the two are proved.
- `interaction.dfy` (module `Interaction`) holds the menu-choice check and
  registration from entered lines. It also holds the main loop, as a state
  machine over the roster, whether the loop runs, and the file contents.
  `StepSpec` and `RunSpec` specify one pass and a whole run. The `Session`
  class holds the script's module-level state, and its `Step` and `Run`
  methods are proved against them.

Loading validates names. One might read the loader as trusting the file, but
`Student.__init__` assigns through the validating setters. So a row with a
non-alphabetic name raises `ValueError`, and a row without one of the three
keys raises `KeyError`. Either way the generic handler in the loader stops
the loop, and only the students appended before that row stay in the list.
The model follows the code here.

## Model

| member | source | states |
|---|---|---|
| `Names.ValidName` | Assignment07.py:49 | the setter guard `isalpha() or == ""` holds exactly when every character is a letter |
| `Names.TitleAt` | Assignment07.py:46 | the getter's title case keeps the length; a character is upper-cased when it starts a word (nothing or a non-letter before it) and lower-cased otherwise |
| `Names.TitleLetters` | Assignment07.py:46 | title casing keeps each character a letter exactly where it was one |
| `Names.TitleIdempotent` | Assignment07.py:46 | title casing twice is title casing once, so a read value stored back reads the same |
| `Names.TitleOfWord` | Assignment07.py:46 | for an all-letter name the getter gives the first letter upper-cased and the rest lower-cased |
| `Names.TitleKeepsNames` | Assignment07.py:44-52 | a value passes the name guard exactly when its title case does |
| `Students.ShownStable` | Assignment07.py:89-91 | reading all three getters of a record that was built from getters changes nothing, and keeps both names valid |
| `Students.Student.constructor` | Assignment07.py:83-86 | `Student()` with default arguments stores three empty strings and satisfies the name guard |
| `Students.Student.FirstName` | Assignment07.py:44-46 | the first-name getter keeps the length, is a fixed point of title casing, passes the guard exactly when the stored name does, and upper-cases the first letter of an all-letter name |
| `Students.Student.LastName` | Assignment07.py:55-57 | the same for the last name |
| `Students.Student.CourseName` | Assignment07.py:89-91 | the course getter keeps the length and is a fixed point of title casing |
| `Students.Student.SetFirstName` | Assignment07.py:47-52 | succeeds exactly when the value is all letters or empty; on success stores it, otherwise raises the first-name ValueError and keeps the old value; the other fields never change |
| `Students.Student.SetLastName` | Assignment07.py:58-63 | the same for the last name, with the last-name message |
| `Students.Student.SetCourseName` | Assignment07.py:92-94 | any string is stored, with no validation; the names never change |
| `Students.NewStudent` | Assignment07.py:83-86 | construction succeeds exactly when both names pass the guard, yielding a fresh valid student holding the three arguments; otherwise it raises the first name's error before the last name's |
| `Persistence.Rows` | Assignment07.py:162-170 | saving writes exactly one row per student |
| `Persistence.ParseRow` | Assignment07.py:131-133 | a row yields a student exactly when all three keys are present and both names pass the guard, holding the three values; a KeyError names a key the row lacks |
| `Persistence.ParseRowOf` | Assignment07.py:131-133 | a row written for a valid student parses back to that student's getters |
| `Persistence.LoadRowsSpec` | Assignment07.py:130-134 | loading converts rows in file order up to the first that raises: every loaded record is its row's parse, the error is absent exactly when every row loaded, and otherwise it is the error of the first row not loaded |
| `Persistence.StudentFromRow` | Assignment07.py:131-133 | converting one row looks up the three keys and runs the constructor: it yields a fresh valid student holding the row's values exactly when the row parses, and otherwise raises the parse's error |
| `Persistence.ReadDataFromFile` | Assignment07.py:124-145 | the list passed in is kept as a prefix; after it come the students of the loaded rows, in file order, each valid; the reported error is the loader's |
| `Persistence.WriteDataToFile` | Assignment07.py:162-170 | the rows written are, in roster order, the three getters of each student |
| `Persistence.SaveThenLoad` | Assignment07.py:124-170 | loading a saved roster raises nothing and gives the same number of students, in order, each stored as the saved student's getters showed it |
| `Persistence.SaveLoadSave` | Assignment07.py:124-170 | saving a roster, loading it and saving again writes the same rows |
| `Persistence.RowsAgree` | Assignment07.py:162-170 | two rosters whose getters agree are saved as the same rows |
| `Interaction.ValidChoiceDigit` | Assignment07.py:241 | the accepted menu choices are exactly the one-character strings "1" to "4" |
| `Interaction.InputStudentData` | Assignment07.py:280-295 | appends exactly one student with the entered values at the end when both names are valid; otherwise returns the list unchanged and reports the first failing setter's ValueError |
| `Interaction.StepEffects` | Assignment07.py:306-331 | in one pass only "4" stops the loop, only "3" writes the file (with the current roster), only "1" changes the roster (through registration), and an invalid choice changes nothing |
| `Interaction.RegisterScenarios` | Assignment07.py:280-288 | registering john/doe/history shows John Doe in History; registering J0hn leaves the roster unchanged |
| `Names.TitleLiteral` | Assignment07.py:46 | an all-letter string whose first letter is upper-cased and rest lower-cased is its own title case |
| `Interaction.RunEffects` | Assignment07.py:306-331 | over a run the old roster stays a prefix, at most one record is added per command, every record stays valid, and the loop has stopped exactly when a "4" was reached |
| `Interaction.Session.constructor` | Assignment07.py:302-303 | start-up loads the file's rows into an empty roster and the loop is running |
| `Interaction.Session.Step` | Assignment07.py:308-331 | one pass of the loop changes the program's data exactly as `StepSpec` says and keeps every student valid |
| `Interaction.Session.Run` | Assignment07.py:306-331 | the loop over a script of commands changes the program's data exactly as `RunSpec` says |

## Left out

- Opening and closing the file and the `finally` blocks (Assignment07.py:126, 135, 142-144, 172-174, 182-184) are operating-system I/O. When the file is missing, `file` is never bound, so the `finally` at Assignment07.py:143 raises instead of continuing with an empty roster. That path is not modelled.
- JSON text encoding and decoding (`json.load`, `json.dump`) is a foreign library. The file is modelled as the sequence of its objects, with string values. A malformed file, a top-level value that is not a list, or a non-string value is not modelled.
- Persistence.WriteDataToFile: a write failure (for example a locked file) is not modelled; saving always replaces the file contents.
- All console output is left out: `print`, the menu text, `output_error_messages`, the roster display and the confirmation lines. Errors are returned as values instead of being printed.
- Interaction.InputStudentData: the three entered lines are taken together. In the source a rejected first name ends the prompts, so the later lines are never read from the console. The model ignores them, but it does not model what the console would do with them next.
- `input_menu_choice` returns the typed line unchanged and only prints a message for an invalid one. The model takes the choice as given. Its fallback "0" when `input` itself raises is not modelled.
- Interaction.Session.Run: the source's `while True` loop reads the console forever. The model runs over a finite script of commands and also stops when the script ends.
- Interaction.Session.Step: choice "2" only displays the roster, so it is a no-op here.
- Full Unicode semantics of `str.isalpha` and `str.title` are not modelled. Only ASCII letters count as letters and as cased characters.
- The `Person` to `Student` inheritance is flattened into one class, since no polymorphism is used. The `__str__` methods (Assignment07.py:66-67, 97-98) are never called by the program and are not modelled.
- The loader appends to the caller's list in place and returns it. The model returns the extended sequence instead. The only caller assigns it back to the same variable, so no other alias can see the difference.
