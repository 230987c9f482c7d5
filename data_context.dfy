/**
 * The browser-side data provider: the student list and the attendance records it holds, the
 * operations that replace them with updated arrays, the per-class query and the CSV text of the
 * export.  Persistence to local storage and the file download are outside the model.
 */
module DataContext {
  import opened Wrappers

  datatype Student = Student(id: string, name: string, email: string, cgpa: real, advisor: string,
                             address: string, photoUrl: Option<string>, trainingImages: int)

  /** A `Partial<Student>`: each field the update object carries, or None where it has none. */
  datatype StudentPatch = StudentPatch(id: Option<string>, name: Option<string>, email: Option<string>,
                                       cgpa: Option<real>, advisor: Option<string>, address: Option<string>,
                                       photoUrl: Option<string>, trainingImages: Option<int>)

  datatype Status = Present | Absent

  datatype AttendanceRecord = AttendanceRecord(id: string, studentId: string, studentName: string,
                                               course: string, date: string, time: string, status: Status)

  /** The demo students shown when nothing is stored yet. */
  const DemoStudents: seq<Student> := [
    Student("1", "John Smith", "john.smith@university.edu", 3.8, "Dr. Johnson", "123 Campus Drive", None, 25),
    Student("2", "Emma Wilson", "emma.wilson@university.edu", 3.9, "Dr. Brown", "456 College Street", None, 30),
    Student("3", "Michael Chen", "michael.chen@university.edu", 3.7, "Dr. Davis", "789 University Avenue", None, 28)
  ]

  function Pick<T>(update: Option<T>, current: T): T {
    if update.Some? then update.value else current
  }

  /** `{ ...student, ...updates }`: every field the update carries replaces the student's. */
  function Merge(s: Student, patch: StudentPatch): Student {
    Student(Pick(patch.id, s.id), Pick(patch.name, s.name), Pick(patch.email, s.email),
            Pick(patch.cgpa, s.cgpa), Pick(patch.advisor, s.advisor), Pick(patch.address, s.address),
            if patch.photoUrl.Some? then patch.photoUrl else s.photoUrl,
            Pick(patch.trainingImages, s.trainingImages))
  }

  /** Merging the same update twice changes nothing more. */
  lemma MergeIdempotent(s: Student, patch: StudentPatch)
    ensures Merge(Merge(s, patch), patch) == Merge(s, patch)
  {
  }

  /** An update that carries no field leaves the student as it is. */
  lemma MergeEmpty(s: Student)
    ensures Merge(s, StudentPatch(None, None, None, None, None, None, None, None)) == s
  {
  }

  /**
   * `students.map(s => s.id === id ? { ...s, ...updates } : s)`: the length and the order are kept,
   * a student with another id is left as it is, a student with the id has the update merged over
   * its fields, and an id nobody has changes nothing.
   */
  function Updated(students: seq<Student>, id: string, patch: StudentPatch): (r: seq<Student>)
    ensures |r| == |students|
    ensures forall i :: 0 <= i < |students| ==> r[i] == if students[i].id == id then Merge(students[i], patch) else students[i]
    ensures (forall i :: 0 <= i < |students| ==> students[i].id != id) ==> r == students
  {
    seq(|students|, i requires 0 <= i < |students| =>
      if students[i].id == id then Merge(students[i], patch) else students[i])
  }

  /** When the update does not touch the id, applying it twice is applying it once. */
  lemma {:induction false} UpdatedIdempotent(students: seq<Student>, id: string, patch: StudentPatch)
    requires patch.id.None?
    ensures Updated(Updated(students, id, patch), id, patch) == Updated(students, id, patch)
  {
    var once := Updated(students, id, patch);
    forall i | 0 <= i < |students|
      ensures Updated(once, id, patch)[i] == once[i]
    {
      if students[i].id == id {
        MergeIdempotent(students[i], patch);
      }
    }
  }

  /** `records.filter(r => r.course === course && r.date === date)`. */
  function ByClass(records: seq<AttendanceRecord>, course: string, date: string): (r: seq<AttendanceRecord>)
    ensures |r| <= |records|
    ensures forall x :: x in r <==> x in records && x.course == course && x.date == date
  {
    if records == [] then []
    else
      var rest := ByClass(records[..|records| - 1], course, date);
      var last := records[|records| - 1];
      assert records == records[..|records| - 1] + [last];
      if last.course == course && last.date == date then rest + [last] else rest
  }

  /** Filtering keeps the order: the records of a concatenation are the records of each part, in turn. */
  lemma {:induction false} ByClassAppend(a: seq<AttendanceRecord>, b: seq<AttendanceRecord>, course: string, date: string)
    ensures ByClass(a + b, course, date) == ByClass(a, course, date) + ByClass(b, course, date)
  {
    if b == [] {
      assert a + b == a;
    } else {
      var front := b[..|b| - 1];
      var last := b[|b| - 1];
      ByClassAppend(a, front, course, date);
      assert (a + b)[..|a + b| - 1] == a + front;
      assert (a + b)[|a + b| - 1] == last;
      var keep := if last.course == course && last.date == date then [last] else [];
      assert ByClass(a + b, course, date) == ByClass(a + front, course, date) + keep;
      assert ByClass(b, course, date) == ByClass(front, course, date) + keep;
    }
  }

  // ---------------------------------------------------------------- the exported text

  /** `parts.join(sep)` for a one-character separator. */
  function Join(parts: seq<string>, sep: char): string {
    if parts == [] then []
    else if |parts| == 1 then parts[0]
    else Join(parts[..|parts| - 1], sep) + [sep] + parts[|parts| - 1]
  }

  /** `s.split(sep)`: the pieces between separators; the empty string is one empty piece. */
  function Split(s: string, sep: char): (r: seq<string>)
    ensures |r| >= 1
  {
    if s == [] then [[]]
    else
      var pieces := Split(s[..|s| - 1], sep);
      var c := s[|s| - 1];
      if c == sep then pieces + [[]]
      else pieces[..|pieces| - 1] + [pieces[|pieces| - 1] + [c]]
  }

  lemma {:induction false} SplitWithout(s: string, sep: char)
    requires sep !in s
    ensures Split(s, sep) == [s]
  {
    if s != [] {
      SplitWithout(s[..|s| - 1], sep);
      assert s[..|s| - 1] + [s[|s| - 1]] == s;
    }
  }

  /** One more character either starts a new piece or extends the last one. */
  lemma SplitSnoc(s: string, c: char, sep: char)
    ensures var p := Split(s, sep);
      Split(s + [c], sep) == if c == sep then p + [[]] else p[..|p| - 1] + [p[|p| - 1] + [c]]
  {
    assert (s + [c])[..|s|] == s;
  }

  /** A separator followed by a piece without separators adds that piece. */
  lemma {:induction false} SplitThenPiece(s: string, w: string, sep: char)
    requires sep !in w
    ensures Split(s + [sep] + w, sep) == Split(s, sep) + [w]
  {
    if w == [] {
      SplitSnoc(s, sep, sep);
      assert s + [sep] + w == s + [sep];
    } else {
      var front := w[..|w| - 1];
      var c := w[|w| - 1];
      SplitThenPiece(s, front, sep);
      SplitSnoc(s + [sep] + front, c, sep);
      assert s + [sep] + w == (s + [sep] + front) + [c];
      assert front + [c] == w;
    }
  }

  /** Joining pieces that contain no separator and splitting again gives the pieces back. */
  lemma {:induction false} SplitJoin(parts: seq<string>, sep: char)
    requires parts != []
    requires forall i :: 0 <= i < |parts| ==> sep !in parts[i]
    ensures Split(Join(parts, sep), sep) == parts
  {
    if |parts| == 1 {
      SplitWithout(parts[0], sep);
    } else {
      var front := parts[..|parts| - 1];
      SplitJoin(front, sep);
      SplitThenPiece(Join(front, sep), parts[|parts| - 1], sep);
      assert front + [parts[|parts| - 1]] == parts;
    }
  }

  const ExportHeader: seq<string> := ["Student Name", "Course", "Date", "Time", "Status"]

  function StatusText(s: Status): string {
    match s
    case Present => "present"
    case Absent => "absent"
  }

  /** The cells of a record's export line. */
  function Cells(r: AttendanceRecord): seq<string> {
    [r.studentName, r.course, r.date, r.time, StatusText(r.status)]
  }

  /** The header row, then one row per record. */
  function Table(records: seq<AttendanceRecord>): (t: seq<seq<string>>)
    ensures |t| == |records| + 1 && t[0] == ExportHeader
    ensures forall i :: 0 <= i < |records| ==> t[i + 1] == Cells(records[i])
  {
    [ExportHeader] + seq(|records|, i requires 0 <= i < |records| => Cells(records[i]))
  }

  /** `row.join(',')` for each row. */
  function Lines(table: seq<seq<string>>): (r: seq<string>)
    ensures |r| == |table|
    ensures forall i :: 0 <= i < |table| ==> r[i] == Join(table[i], ',')
  {
    seq(|table|, i requires 0 <= i < |table| => Join(table[i], ','))
  }

  /** `[header, ...records.map(cells)].map(row => row.join(',')).join('\n')`. */
  function Content(records: seq<AttendanceRecord>): string {
    Join(Lines(Table(records)), '\n')
  }

  /** A cell the separators leave whole: no comma and no line break. */
  predicate Plain(cell: string) {
    ',' !in cell && '\n' !in cell
  }

  predicate PlainRecord(r: AttendanceRecord) {
    Plain(r.studentName) && Plain(r.course) && Plain(r.date) && Plain(r.time)
  }

  /** A row of plain cells makes one line, which splits at the commas into that row. */
  lemma LineOfPlainCells(row: seq<string>)
    requires row != []
    requires forall k :: 0 <= k < |row| ==> Plain(row[k])
    ensures '\n' !in Join(row, ',')
    ensures Split(Join(row, ','), ',') == row
  {
    JoinHasNo(row, ',', '\n');
    SplitJoin(row, ',');
  }

  lemma HeaderPlain()
    ensures forall k :: 0 <= k < |ExportHeader| ==> Plain(ExportHeader[k])
  {
    assert Plain("Student Name") && Plain("Course") && Plain("Date") && Plain("Time") && Plain("Status");
  }

  lemma CellsPlain(r: AttendanceRecord)
    requires PlainRecord(r)
    ensures forall k :: 0 <= k < |Cells(r)| ==> Plain(Cells(r)[k])
  {
    assert Plain(StatusText(r.status)) by {
      assert Plain("present") && Plain("absent");
    }
  }

  lemma PlainCells(records: seq<AttendanceRecord>)
    requires forall i :: 0 <= i < |records| ==> PlainRecord(records[i])
    ensures forall i, k :: 0 <= i < |Table(records)| && 0 <= k < |Table(records)[i]| ==> Plain(Table(records)[i][k])
  {
    var t := Table(records);
    HeaderPlain();
    forall i, k | 0 <= i < |t| && 0 <= k < |t[i]|
      ensures Plain(t[i][k])
    {
      if i > 0 {
        CellsPlain(records[i - 1]);
        assert t[i] == Cells(records[i - 1]);
      }
    }
  }

  /** The header line of the export. */
  lemma HeaderLine()
    ensures Join(ExportHeader, ',') == "Student Name,Course,Date,Time,Status"
  {
    var h := ExportHeader;
    assert h[..2][..1] == h[..1] && h[..3][..2] == h[..2] && h[..4][..3] == h[..3] && h[..4] == h[..|h| - 1];
    assert Join(h[..1], ',') == "Student Name";
    assert Join(h[..2], ',') == "Student Name,Course";
    assert Join(h[..3], ',') == "Student Name,Course,Date";
    assert Join(h[..4], ',') == "Student Name,Course,Date,Time";
  }

  /**
   * When no cell contains a comma or a line break (the export does not quote), the text has one
   * line per record plus the header line "Student Name,Course,Date,Time,Status", in record order,
   * and each record line splits at the commas into that record's cells.
   */
  lemma ContentLines(records: seq<AttendanceRecord>)
    requires forall i :: 0 <= i < |records| ==> PlainRecord(records[i])
    ensures |Split(Content(records), '\n')| == |records| + 1
    ensures Split(Content(records), '\n')[0] == "Student Name,Course,Date,Time,Status"
    ensures forall i :: 0 <= i < |records| ==>
      Split(Split(Content(records), '\n')[i + 1], ',') == Cells(records[i])
  {
    var table := Table(records);
    var lines := Lines(table);
    PlainCells(records);
    forall i | 0 <= i < |table|
      ensures '\n' !in lines[i] && Split(lines[i], ',') == table[i]
    {
      LineOfPlainCells(table[i]);
    }
    SplitJoin(lines, '\n');
    HeaderLine();
  }

  /** Joining pieces without a character, by a separator other than it, leaves the character out. */
  lemma {:induction false} JoinHasNo(parts: seq<string>, sep: char, c: char)
    requires sep != c
    requires forall i :: 0 <= i < |parts| ==> c !in parts[i]
    ensures c !in Join(parts, sep)
  {
    if |parts| > 1 {
      JoinHasNo(parts[..|parts| - 1], sep, c);
    }
  }

  // ---------------------------------------------------------------- the provider state

  /**
   * What one render of the provider hands to its consumers: the two arrays as that render saw
   * them. Every callback created in that render reads these arrays, not the latest state.
   */
  datatype View = View(students: seq<Student>, attendanceRecords: seq<AttendanceRecord>)

  class DataStore {
    /** The arrays last passed to `setStudents` and `setAttendanceRecords`. */
    var students: seq<Student>
    var attendanceRecords: seq<AttendanceRecord>

    /**
     * The first render's effect: the stored students, or the demo students when none are stored;
     * the stored attendance records, or none.
     */
    constructor (savedStudents: Option<seq<Student>>, savedAttendance: Option<seq<AttendanceRecord>>)
      ensures students == if savedStudents.Some? then savedStudents.value else DemoStudents
      ensures attendanceRecords == if savedAttendance.Some? then savedAttendance.value else []
    {
      students := if savedStudents.Some? then savedStudents.value else DemoStudents;
      attendanceRecords := if savedAttendance.Some? then savedAttendance.value else [];
    }

    /**
     * `addStudent` of the render that showed `view`: that render's students with the new student,
     * given `Date.now()` as its id whatever it carried, at the end.
     */
    method AddStudent(view: View, student: Student, now: string)
      modifies this
      ensures |students| == |view.students| + 1
      ensures students[..|view.students|] == view.students
      ensures students[|view.students|] == student.(id := now)
      ensures attendanceRecords == old(attendanceRecords)
    {
      students := view.students + [student.(id := now)];
    }

    /**
     * `updateStudent` of the render that showed `view`: that render's students with the update
     * merged over every student with the id.
     */
    method UpdateStudent(view: View, id: string, patch: StudentPatch)
      modifies this
      ensures students == Updated(view.students, id, patch)
      ensures attendanceRecords == old(attendanceRecords)
    {
      students := Updated(view.students, id, patch);
    }

    /**
     * `addAttendanceRecord` of the render that showed `view`: that render's records with the
     * record, given `Date.now()` as its id, at the end.
     */
    method AddAttendanceRecord(view: View, record: AttendanceRecord, now: string)
      modifies this
      ensures |attendanceRecords| == |view.attendanceRecords| + 1
      ensures attendanceRecords[..|view.attendanceRecords|] == view.attendanceRecords
      ensures attendanceRecords[|view.attendanceRecords|] == record.(id := now)
      ensures students == old(students)
    {
      attendanceRecords := view.attendanceRecords + [record.(id := now)];
    }

    /**
     * The attendance screen's `recognized.forEach(... addAttendanceRecord(...))`: every call comes
     * from one render, so each replaces the records with that render's records plus its own, and
     * only the last record survives. `nows` are the `Date.now()` values of the calls.
     */
    method AddEachFromOneRender(view: View, records: seq<AttendanceRecord>, nows: seq<string>)
      requires |nows| == |records|
      modifies this
      ensures records == [] ==> attendanceRecords == old(attendanceRecords)
      ensures records != [] ==>
        attendanceRecords == view.attendanceRecords + [records[|records| - 1].(id := nows[|records| - 1])]
      ensures students == old(students)
    {
      var k := 0;
      while k < |records|
        invariant 0 <= k <= |records|
        invariant k == 0 ==> attendanceRecords == old(attendanceRecords)
        invariant k > 0 ==> attendanceRecords == view.attendanceRecords + [records[k - 1].(id := nows[k - 1])]
        invariant students == old(students)
      {
        AddAttendanceRecord(view, records[k], nows[k]);
        k := k + 1;
      }
    }

    /** `getAttendanceByClass` of the render that showed `view`: its records of the course on the date, in order. */
    function GetAttendanceByClass(view: View, course: string, date: string): (r: seq<AttendanceRecord>)
      ensures forall x :: x in r <==> x in view.attendanceRecords && x.course == course && x.date == date
    {
      ByClass(view.attendanceRecords, course, date)
    }

    /** The text `exportAttendanceCSV` of the render that showed `view` puts in the downloaded file. */
    function ExportContent(view: View, course: string, date: string): string {
      Content(GetAttendanceByClass(view, course, date))
    }
  }
}
