/**
 * `database/csv_storage.py`: the students and attendance tables kept as CSV files, with the
 * duplicate-rejecting insert, the next-id rule of the attendance table, the filtered, joined and
 * time-sorted attendance query and the export matrix.
 *
 * The two files are the `students` and `attendance` fields of a `Database`, each the list of rows
 * `csv.DictReader` reads back; a missing file and a header-only file both read as no rows. The
 * clock (`datetime.utcnow().isoformat()`) is the `now` parameter of the operations that stamp rows.
 */
module CsvStorage {
  import opened Wrappers
  import Text
  import Sorting

  const StudentHeaders: seq<string> := ["student_id", "name", "email", "cgpa", "advisor", "address", "created_at"]
  const AttendanceHeaders: seq<string> := ["id", "student_id", "course_name", "date", "time", "status", "created_at"]
  const ExportHeader: seq<string> := ["Student Name", "Student ID", "Course", "Date", "Time", "Status"]

  /** One row of `students.csv`. */
  datatype StudentRow = StudentRow(studentId: string, name: string, email: string, cgpa: string,
                                   advisor: string, address: string, createdAt: string)

  /** One row of `attendance.csv`. */
  datatype AttendanceRow = AttendanceRow(id: string, studentId: string, courseName: string, date: string,
                                         time: string, status: string, createdAt: string)

  /** A row `get_attendance` returns: the attendance row with its `student_name` key added. */
  datatype AttendanceView = AttendanceView(row: AttendanceRow, studentName: string)

  /** A `Dict[str, str]`. */
  type Record = map<string, string>

  /** `d.get(k, default)`. */
  function Get(d: Record, k: string, default: string): string {
    if k in d then d[k] else default
  }

  // ---------------------------------------------------------------- the file format

  /** The dictionary `_write_csv` hands to the writer: `{k: row.get(k, "") for k in headers}`. */
  function Projection(headers: seq<string>, row: Record): Record {
    map k | k in headers :: Get(row, k, "")
  }

  /**
   * `csv.DictWriter(fieldnames=headers).writerow(d)`: `ValueError` when `d` has a key that is not
   * a field name, otherwise the values of the fields in header order, "" for an absent one.
   */
  function WriteRecord(headers: seq<string>, d: Record): Result<seq<string>> {
    if exists k :: k in d && k !in headers then Err("ValueError")
    else Ok(seq(|headers|, i requires 0 <= i < |headers| => Get(d, headers[i], "")))
  }

  /** `csv.DictReader` on one line: the header paired with the values, a later field winning. */
  function ReadRecord(headers: seq<string>, values: seq<string>): (d: Record)
    requires |values| == |headers|
    ensures d.Keys == set k | k in headers
  {
    if headers == [] then map[]
    else
      var n := |headers| - 1;
      ReadRecord(headers[..n], values[..n])[headers[n] := values[n]]
  }

  /**
   * The projection never makes the writer raise, and reading the written line back gives the
   * projection again: every header field with the row's value, or "" where the row had none.
   */
  lemma ProjectionRoundTrip(headers: seq<string>, row: Record)
    ensures WriteRecord(headers, Projection(headers, row)).Ok?
    ensures ReadRecord(headers, WriteRecord(headers, Projection(headers, row)).value) == Projection(headers, row)
  {
    var d := Projection(headers, row);
    assert WriteRecord(headers, d).Ok?;
    var values := WriteRecord(headers, d).value;
    ReadBackAt(headers, values, d);
  }

  lemma {:induction false} ReadBackAt(headers: seq<string>, values: seq<string>, d: Record)
    requires |values| == |headers|
    requires d.Keys == set k | k in headers
    requires forall i :: 0 <= i < |headers| ==> values[i] == Get(d, headers[i], "")
    ensures ReadRecord(headers, values) == d
  {
    if headers == [] {
      assert d.Keys == {};
    } else {
      var n := |headers| - 1;
      var front := headers[..n];
      var d' := map k | k in front :: d[k];
      ReadBackAt(front, values[..n], d');
      assert ReadRecord(headers, values) == d'[headers[n] := values[n]];
    }
  }

  // ---------------------------------------------------------------- Python's int()

  /**
   * The value of decimal digits in groups joined by single underscores ("1_000"), as `int()`
   * accepts them; None for anything else (an empty string, a leading, trailing or doubled
   * underscore, any other character).
   */
  function DigitGroups(s: string): Option<nat>
    decreases |s|
  {
    if s == [] || !Text.IsDigit(s[|s| - 1]) then None
    else
      var d := (s[|s| - 1] as int - '0' as int) as nat;
      var front := s[..|s| - 1];
      if front == [] then Some(d)
      else
        var head := if front[|front| - 1] == '_' then front[..|front| - 1] else front;
        match DigitGroups(head)
        case None => None
        case Some(v) => Some(v * 10 + d)
  }

  /**
   * `int(s)` on a `str`: surrounding whitespace, an optional sign, then digit groups; anything
   * else raises `ValueError`, which is `None` here.
   */
  function ParsePyInt(s: string): Option<int> {
    var t := Text.Strip(s);
    var signed := t != [] && (t[0] == '+' || t[0] == '-');
    var body := if signed then t[1..] else t;
    match DigitGroups(body)
    case None => None
    case Some(n) => Some(if signed && t[0] == '-' then 0 - n else n as int)
  }

  /** The decimal rendering of a number reads back as that number. */
  lemma {:induction false} DigitGroupsOfNatToString(n: nat)
    ensures DigitGroups(Text.NatToString(n)) == Some(n)
  {
    if n >= 10 {
      DigitGroupsOfNatToString(n / 10);
      var s := Text.NatToString(n);
      var front := Text.NatToString(n / 10);
      assert s[..|s| - 1] == front;
      assert Text.IsDigit(front[|front| - 1]);
    }
  }

  /** `int(str(n))` gives `n` back for every id this module writes. */
  lemma ParseRendered(n: nat)
    ensures ParsePyInt(Text.NatToString(n)) == Some(n)
  {
    var s := Text.NatToString(n);
    assert Text.IsDigit(s[0]) && Text.IsDigit(s[|s| - 1]);
    Text.StripNoSpace(s);
    assert !(s[0] == '+' || s[0] == '-');
    DigitGroupsOfNatToString(n);
  }

  // ---------------------------------------------------------------- the next attendance id

  /** `int(row.get("id", "0"))` for each row, None where it raises. */
  function ParsedIds(rows: seq<AttendanceRow>): (r: seq<Option<int>>)
    ensures |r| == |rows|
  {
    if rows == [] then [] else ParsedIds(rows[..|rows| - 1]) + [ParsePyInt(rows[|rows| - 1].id)]
  }

  lemma {:induction false} ParsedIdsAt(rows: seq<AttendanceRow>)
    ensures forall i :: 0 <= i < |rows| ==> ParsedIds(rows)[i] == ParsePyInt(rows[i].id)
  {
    if rows != [] {
      var front := rows[..|rows| - 1];
      ParsedIdsAt(front);
      assert forall i :: 0 <= i < |front| ==> front[i] == rows[i];
    }
  }

  /** The running maximum of `_get_next_attendance_id`: from 0, over the values that parsed. */
  function MaxParsed(values: seq<Option<int>>): nat {
    if values == [] then 0
    else
      var m := MaxParsed(values[..|values| - 1]);
      match values[|values| - 1]
      case None => m
      case Some(v) => if v > m then v else m
  }

  /** The running maximum bounds every parsed value, and is 0 or one of them. */
  lemma {:induction false} MaxParsedMeaning(values: seq<Option<int>>)
    ensures forall i :: 0 <= i < |values| && values[i].Some? ==> values[i].value <= MaxParsed(values)
    ensures MaxParsed(values) == 0 || exists i :: 0 <= i < |values| && values[i] == Some(MaxParsed(values) as int)
  {
    if values != [] {
      var front := values[..|values| - 1];
      MaxParsedMeaning(front);
      forall i | 0 <= i < |front| ensures front[i] == values[i] { }
    }
  }

  function NextId(rows: seq<AttendanceRow>): nat {
    MaxParsed(ParsedIds(rows)) + 1
  }

  /**
   * The next id is 1 + the largest parseable id, or 1 when there is none (or only negative
   * ones): it exceeds every id that parses, and it is 1 or one more than an id that parses.
   */
  lemma NextIdMeaning(rows: seq<AttendanceRow>)
    ensures NextId(rows) >= 1
    ensures forall i :: 0 <= i < |rows| && ParsePyInt(rows[i].id).Some? ==> ParsePyInt(rows[i].id).value < NextId(rows)
    ensures NextId(rows) == 1 || exists i :: 0 <= i < |rows| && ParsePyInt(rows[i].id) == Some(NextId(rows) - 1)
  {
    var values := ParsedIds(rows);
    MaxParsedMeaning(values);
    ParsedIdsAt(rows);
    if NextId(rows) != 1 {
      var i :| 0 <= i < |values| && values[i] == Some(MaxParsed(values) as int);
      assert ParsePyInt(rows[i].id) == Some(NextId(rows) - 1);
    }
  }

  /** A row stamped with the next id moves the next id on by exactly one. */
  lemma NextIdAdvances(rows: seq<AttendanceRow>, row: AttendanceRow)
    requires row.id == Text.NatToString(NextId(rows))
    ensures NextId(rows + [row]) == NextId(rows) + 1
  {
    ParseRendered(NextId(rows));
    assert (rows + [row])[..|rows|] == rows;
    var values := ParsedIds(rows);
    assert ParsedIds(rows + [row]) == values + [Some(NextId(rows) as int)];
    assert (values + [Some(NextId(rows) as int)])[..|values|] == values;
  }

  /** The stamped id differs from every id already in the table that parses. */
  lemma NextIdFresh(rows: seq<AttendanceRow>)
    ensures forall i :: 0 <= i < |rows| && ParsePyInt(rows[i].id).Some? ==> rows[i].id != Text.NatToString(NextId(rows))
  {
    NextIdMeaning(rows);
    ParseRendered(NextId(rows));
  }

  /** `_get_next_attendance_id`: one pass keeping the largest parseable id, unparsable ones skipped. */
  method NextAttendanceId(rows: seq<AttendanceRow>) returns (next: int)
    ensures next == NextId(rows)
  {
    var maxId: int := 0;
    var k := 0;
    while k < |rows|
      invariant 0 <= k <= |rows|
      invariant maxId == MaxParsed(ParsedIds(rows[..k]))
    {
      assert rows[..k + 1][..k] == rows[..k];
      assert ParsedIds(rows[..k + 1]) == ParsedIds(rows[..k]) + [ParsePyInt(rows[k].id)];
      var parsed := ParsePyInt(rows[k].id);
      if parsed.Some? {
        maxId := if maxId < parsed.value then parsed.value else maxId;
      }
      k := k + 1;
    }
    assert rows[..k] == rows;
    next := maxId + 1;
  }

  // ---------------------------------------------------------------- lookups

  predicate UniqueIds(rows: seq<StudentRow>) {
    forall i, j :: 0 <= i < j < |rows| ==> rows[i].studentId != rows[j].studentId
  }

  /** Where the loop of `get_student` stops: the first row with the id, or the end. */
  function FirstIndex(rows: seq<StudentRow>, id: string): (k: nat)
    ensures k <= |rows|
    ensures k < |rows| ==> rows[k].studentId == id
    ensures forall j :: 0 <= j < k ==> rows[j].studentId != id
  {
    if rows == [] || rows[0].studentId == id then 0
    else FirstIndex(rows[1..], id) + 1
  }

  /** `get_student`'s result: the first row with the id, or None. */
  function FirstWithId(rows: seq<StudentRow>, id: string): (r: Option<StudentRow>)
    ensures r.None? <==> forall i :: 0 <= i < |rows| ==> rows[i].studentId != id
    ensures r.Some? ==> r.value == rows[FirstIndex(rows, id)]
  {
    var k := FirstIndex(rows, id);
    if k < |rows| then Some(rows[k]) else None
  }

  /** `{s["student_id"]: s for s in students}`: every id mapped to its last row. */
  function NameIndex(rows: seq<StudentRow>): map<string, StudentRow> {
    if rows == [] then map[]
    else
      var last := rows[|rows| - 1];
      NameIndex(rows[..|rows| - 1])[last.studentId := last]
  }

  /** The index holds exactly the ids of the table, each with the last row carrying it. */
  lemma {:induction false} NameIndexLastWins(rows: seq<StudentRow>, id: string)
    ensures id in NameIndex(rows) <==> exists i :: 0 <= i < |rows| && rows[i].studentId == id
    ensures id in NameIndex(rows) ==>
      exists i :: (0 <= i < |rows| && rows[i] == NameIndex(rows)[id]
        && rows[i].studentId == id && forall j :: i < j < |rows| ==> rows[j].studentId != id)
  {
    if rows != [] {
      var n := |rows| - 1;
      var front := rows[..n];
      NameIndexLastWins(front, id);
      forall i | 0 <= i < n ensures front[i] == rows[i] { }
      if rows[n].studentId != id && id in NameIndex(front) {
        var i :| 0 <= i < |front| && front[i] == NameIndex(front)[id]
          && front[i].studentId == id && forall j :: i < j < |front| ==> front[j].studentId != id;
        assert rows[i] == NameIndex(rows)[id];
      }
    }
  }

  /** With unique ids the last-wins index and the first-wins search find the same row. */
  lemma IndexAgreesWithSearch(rows: seq<StudentRow>, id: string)
    requires UniqueIds(rows)
    ensures id in NameIndex(rows) <==> FirstWithId(rows, id).Some?
    ensures id in NameIndex(rows) ==> NameIndex(rows)[id] == FirstWithId(rows, id).value
  {
    NameIndexLastWins(rows, id);
  }

  /** The `student_name` `get_attendance` attaches: the indexed row's name, or "" when unknown. */
  function StudentName(students: seq<StudentRow>, id: string): string {
    var index := NameIndex(students);
    if id in index then index[id].name else ""
  }

  // ---------------------------------------------------------------- the attendance query

  /** `[r for r in rows if r.get("course_name") == course and r.get("date") == date]`. */
  function Matching(rows: seq<AttendanceRow>, courseName: string, date: string): (r: seq<AttendanceRow>)
    ensures |r| <= |rows|
    ensures forall a :: a in r <==> a in rows && a.courseName == courseName && a.date == date
  {
    if rows == [] then []
    else
      var last := rows[|rows| - 1];
      assert rows == rows[..|rows| - 1] + [last];
      Matching(rows[..|rows| - 1], courseName, date)
        + (if last.courseName == courseName && last.date == date then [last] else [])
  }

  /** The rows after the name loop: each with the name of its student from the index. */
  function Joined(rows: seq<AttendanceRow>, students: seq<StudentRow>): (r: seq<AttendanceView>)
    ensures |r| == |rows|
    ensures forall v :: v in r <==> v.row in rows && v.studentName == StudentName(students, v.row.studentId)
    ensures forall k :: 0 <= k < |rows| ==> r[k] == AttendanceView(rows[k], StudentName(students, rows[k].studentId))
  {
    if rows == [] then []
    else
      var last := rows[|rows| - 1];
      assert rows == rows[..|rows| - 1] + [last];
      Joined(rows[..|rows| - 1], students) + [AttendanceView(last, StudentName(students, last.studentId))]
  }

  /** One more row extends the joined rows by that row with its name. */
  lemma JoinedSnoc(rows: seq<AttendanceRow>, students: seq<StudentRow>, k: nat)
    requires k < |rows|
    ensures Joined(rows[..k + 1], students) ==
      Joined(rows[..k], students) + [AttendanceView(rows[k], StudentName(students, rows[k].studentId))]
  {
    assert rows[..k + 1][..k] == rows[..k];
  }

  function TimeKey(v: AttendanceView): string { v.row.time }

  /** What `get_attendance(course, date)` returns on the two tables. */
  function AttendanceOf(attendance: seq<AttendanceRow>, students: seq<StudentRow>, courseName: string, date: string): seq<AttendanceView> {
    Sorting.SortBy(Joined(Matching(attendance, courseName, date), students), TimeKey)
  }

  /**
   * The query returns one entry per matching row and nothing else, each with its student's
   * name or "" for an unknown student, in non-decreasing time order. It is a permutation of the
   * named matching rows, and rows with the same time keep their file order (`list.sort` is stable).
   */
  lemma AttendanceOfMeaning(attendance: seq<AttendanceRow>, students: seq<StudentRow>, courseName: string, date: string)
    ensures |AttendanceOf(attendance, students, courseName, date)| == |Matching(attendance, courseName, date)|
    ensures multiset(AttendanceOf(attendance, students, courseName, date))
         == multiset(Joined(Matching(attendance, courseName, date), students))
    ensures forall t ::
      Sorting.WithKey(AttendanceOf(attendance, students, courseName, date), TimeKey, t)
      == Sorting.WithKey(Joined(Matching(attendance, courseName, date), students), TimeKey, t)
    ensures Sorting.SortedBy(AttendanceOf(attendance, students, courseName, date), TimeKey)
    ensures forall v :: v in AttendanceOf(attendance, students, courseName, date) <==>
      && v.row in attendance && v.row.courseName == courseName && v.row.date == date
      && v.studentName == StudentName(students, v.row.studentId)
  {
    var joined := Joined(Matching(attendance, courseName, date), students);
    var r := AttendanceOf(attendance, students, courseName, date);
    Sorting.SortByStableAll(joined, TimeKey);
    assert |r| == |multiset(r)| == |multiset(joined)| == |joined|;
    forall v ensures v in r <==> v in joined {
      assert v in r <==> v in multiset(r);
      assert v in joined <==> v in multiset(joined);
    }
  }

  /** One line of the export matrix. */
  function ExportRow(v: AttendanceView): (line: seq<string>)
    ensures |line| == |ExportHeader|
  {
    [v.studentName, v.row.studentId, v.row.courseName, v.row.date, v.row.time, v.row.status]
  }

  // ---------------------------------------------------------------- the row operations

  /** A stored field: no whitespace at either end. */
  predicate Trimmed(f: string) {
    f != [] ==> !Text.IsSpace(f[0]) && !Text.IsSpace(f[|f| - 1])
  }

  /**
   * The row `add_student` stores for a request dictionary: every text field stripped, so none
   * carries surrounding whitespace; `cgpa` is stored as given.
   */
  function NewStudent(student: Record, now: string): (r: StudentRow)
    ensures Trimmed(r.studentId) && Trimmed(r.name) && Trimmed(r.email) && Trimmed(r.advisor) && Trimmed(r.address)
  {
    StudentRow(Text.Strip(Get(student, "student_id", "")), Text.Strip(Get(student, "name", "")),
               Text.Strip(Get(student, "email", "")), Get(student, "cgpa", ""),
               Text.Strip(Get(student, "advisor", "")), Text.Strip(Get(student, "address", "")), now)
  }

  /** An appended row whose id no earlier row has keeps the ids unique. */
  lemma AppendKeepsUnique(rows: seq<StudentRow>, r: StudentRow)
    requires forall i :: 0 <= i < |rows| ==> rows[i].studentId != r.studentId
    ensures UniqueIds(rows) ==> UniqueIds(rows + [r])
  {
  }

  class Database {
    var students: seq<StudentRow>
    var attendance: seq<AttendanceRow>

    /** The tables as they are on disk (`ensure_csv_files_exist` adds only header lines). */
    constructor (students: seq<StudentRow>, attendance: seq<AttendanceRow>)
      ensures this.students == students && this.attendance == attendance
    {
      this.students := students;
      this.attendance := attendance;
    }

    /** `get_all_students`: every row once, ordered by the lower-cased name, ties in file order. */
    function GetAllStudents(): (r: seq<StudentRow>)
      reads this
      ensures multiset(r) == multiset(students)
      ensures Sorting.SortedBy(r, NameKey)
      ensures forall k :: Sorting.WithKey(r, NameKey, k) == Sorting.WithKey(students, NameKey, k)
    {
      Sorting.SortByStableAll(students, NameKey);
      Sorting.SortBy(students, NameKey)
    }

    /** `get_student`: the first row with the id, or None. */
    function GetStudent(id: string): (r: Option<StudentRow>)
      reads this
      ensures r.None? <==> forall i :: 0 <= i < |students| ==> students[i].studentId != id
      ensures r.Some? ==> r.value in students && r.value.studentId == id
      ensures r.Some? ==> exists i ::
        && 0 <= i < |students| && students[i] == r.value
        && forall j :: 0 <= j < i ==> students[j].studentId != id
    {
      FirstWithId(students, id)
    }

    /**
     * `add_student`: False without a change for an id that is empty after stripping or already
     * present; otherwise the new row is appended at the end and True returned.
     */
    method AddStudent(student: Record, now: string) returns (ok: bool)
      modifies this
      ensures var id := Text.Strip(Get(student, "student_id", ""));
        ok <==> id != "" && forall i :: 0 <= i < |old(students)| ==> old(students)[i].studentId != id
      ensures !ok ==> students == old(students)
      ensures ok ==> students == old(students) + [NewStudent(student, now)]
      ensures UniqueIds(old(students)) ==> UniqueIds(students)
      ensures attendance == old(attendance)
    {
      var studentId := Text.Strip(Get(student, "student_id", ""));
      if studentId == "" {
        return false;
      }
      var rows := students;
      var k := 0;
      while k < |rows|
        invariant 0 <= k <= |rows|
        invariant forall i :: 0 <= i < k ==> rows[i].studentId != studentId
      {
        if rows[k].studentId == studentId {
          return false;
        }
        k := k + 1;
      }
      var newRow := NewStudent(student, now);
      assert newRow.studentId == studentId;
      AppendKeepsUnique(rows, newRow);
      students := rows + [newRow];
      ok := true;
    }

    /**
     * `record_attendance`: appends one row stamped with the next id, the given fields and the
     * status ("present" unless given), and returns it.
     */
    method RecordAttendance(studentId: string, courseName: string, date: string, time: string, now: string,
                            status: string := "present") returns (row: AttendanceRow)
      modifies this
      ensures row == AttendanceRow(Text.NatToString(NextId(old(attendance))), studentId, courseName, date, time, status, now)
      ensures attendance == old(attendance) + [row]
      ensures students == old(students)
    {
      var rows := attendance;
      var nextId := NextAttendanceId(rows);
      row := AttendanceRow(Text.NatToString(nextId), studentId, courseName, date, time, status, now);
      attendance := rows + [row];
    }

    /** `get_attendance`: the matching rows, each given its student's name, sorted by time. */
    method GetAttendance(courseName: string, date: string) returns (rows: seq<AttendanceView>)
      ensures rows == AttendanceOf(attendance, students, courseName, date)
    {
      var attendanceRows := Matching(attendance, courseName, date);
      var joined: seq<AttendanceView> := [];
      var k := 0;
      while k < |attendanceRows|
        invariant 0 <= k <= |attendanceRows|
        invariant joined == Joined(attendanceRows[..k], students)
      {
        JoinedSnoc(attendanceRows, students, k);
        var row := attendanceRows[k];
        joined := joined + [AttendanceView(row, StudentName(students, row.studentId))];
        k := k + 1;
      }
      assert attendanceRows[..k] == attendanceRows;
      rows := Sorting.SortBy(joined, TimeKey);
    }

    /** `export_attendance_csv`: the fixed header, then one six-column line per record, in order. */
    method ExportAttendanceCsv(courseName: string, date: string) returns (matrix: seq<seq<string>>)
      ensures var records := AttendanceOf(attendance, students, courseName, date);
        && |matrix| == |records| + 1 && matrix[0] == ExportHeader
        && forall i :: 0 <= i < |records| ==> matrix[i + 1] == ExportRow(records[i])
    {
      var records := GetAttendance(courseName, date);
      matrix := [ExportHeader];
      var k := 0;
      while k < |records|
        invariant 0 <= k <= |records|
        invariant |matrix| == k + 1 && matrix[0] == ExportHeader
        invariant forall i :: 0 <= i < k ==> matrix[i + 1] == ExportRow(records[i])
      {
        var r := records[k];
        matrix := matrix + [[r.studentName, r.row.studentId, r.row.courseName, r.row.date, r.row.time, r.row.status]];
        k := k + 1;
      }
    }
  }

  /** `sorted`'s key in `get_all_students`: `r.get("name", "").lower()`. */
  function NameKey(r: StudentRow): string { Text.Lower(r.name) }
}
