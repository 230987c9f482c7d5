/**
 * The Flask back end: the endpoints that validate a request and then drive the recognizer, the
 * trainer and the CSV tables.  Requests and replies are values; the objects are the module-level
 * singletons the application creates at start-up.
 */
module App {
  import opened Wrappers
  import Text
  import FD = FaceDetector
  import TM = TrainingManager
  import CS = CsvStorage

  const MissingFields: string := "Missing required fields"
  const DuplicateId: string := "student_id already exists"
  const CourseAndDateRequired: string := "course and date are required"
  const ImageRequired: string := "image file is required"

  /** One element of the `recognized` reply list. */
  datatype Entry = Entry(studentId: string, studentName: string, confidence: real, box: FD.Box)

  /** The JSON bodies the endpoints reply with. */
  datatype Body =
    | Failure(error: string)               // {"error": ...}
    | Done                                 // {"ok": true}
    | Recognized(recognized: seq<Entry>)   // {"recognized": [...]}
    | Trained(ok: bool, message: string)   // {"ok": ..., "message": ...}

  datatype Response = Response(body: Body, status: int)

  /** `form.get(name) or ""`: an absent field reads as the empty string. */
  function OrEmpty(field: Option<string>): string {
    if field.Some? then field.value else ""
  }

  /** `data.get(key)` is truthy: the key is present with a non-empty value. */
  predicate Provided(data: CS.Record, key: string) {
    key in data && data[key] != ""
  }

  /** `all(data.get(k) for k in ["student_id", "name", "email"])`. */
  predicate HasRequired(data: CS.Record) {
    Provided(data, "student_id") && Provided(data, "name") && Provided(data, "email")
  }

  // ---------------------------------------------------------------- the recognition loop

  /** The ids of a list of recognitions. */
  function IdsOf(rs: seq<FD.Recognition>): set<string> {
    if rs == [] then {} else IdsOf(rs[..|rs| - 1]) + {rs[|rs| - 1].studentId}
  }

  lemma {:induction false} IdsOfMembers(rs: seq<FD.Recognition>, id: string)
    ensures id in IdsOf(rs) <==> exists i :: 0 <= i < |rs| && rs[i].studentId == id
  {
    if rs != [] {
      var front := rs[..|rs| - 1];
      IdsOfMembers(front, id);
      if id in IdsOf(front) {
        var i :| 0 <= i < |front| && front[i].studentId == id;
        assert rs[i].studentId == id;
      }
      if exists i :: 0 <= i < |rs| && rs[i].studentId == id {
        var i :| 0 <= i < |rs| && rs[i].studentId == id;
        if i < |front| {
          assert front[i].studentId == id;
        }
      }
    }
  }

  /**
   * What the loop over `recognized` keeps: an entry whose id is non-empty and not among the ids
   * already kept (the `seen_ids` set) is kept; every other entry is skipped.
   */
  function Dedup(rs: seq<FD.Recognition>): seq<FD.Recognition> {
    if rs == [] then []
    else
      var kept := Dedup(rs[..|rs| - 1]);
      var r := rs[|rs| - 1];
      if r.studentId != "" && r.studentId !in IdsOf(kept) then kept + [r] else kept
  }

  /** Position `j` holds the first entry with its id, and that id is non-empty. */
  predicate FirstOccurrence(rs: seq<FD.Recognition>, j: int)
    requires 0 <= j < |rs|
  {
    rs[j].studentId != "" && forall l :: 0 <= l < j ==> rs[l].studentId != rs[j].studentId
  }

  /** The positions of first occurrences, in increasing order: a definition independent of the loop. */
  function FirstPositions(rs: seq<FD.Recognition>): (p: seq<nat>)
    ensures forall i :: 0 <= i < |p| ==> p[i] < |rs|
  {
    if rs == [] then []
    else FirstPositions(rs[..|rs| - 1]) + (if FirstOccurrence(rs, |rs| - 1) then [|rs| - 1] else [])
  }

  /** Below the length of a prefix, a first occurrence in the prefix is one in the whole. */
  lemma FirstOccurrencePrefix(rs: seq<FD.Recognition>, n: nat, j: nat)
    requires j < n <= |rs|
    ensures FirstOccurrence(rs[..n], j) <==> FirstOccurrence(rs, j)
  {
    assert forall l :: 0 <= l <= j ==> rs[..n][l] == rs[l];
  }

  /** The kept ids are all the non-empty ids of the input. */
  lemma {:induction false} DedupIds(rs: seq<FD.Recognition>)
    ensures forall id :: id in IdsOf(Dedup(rs)) <==> id != "" && id in IdsOf(rs)
  {
    if rs != [] {
      var front := rs[..|rs| - 1];
      var r := rs[|rs| - 1];
      var kept := Dedup(front);
      DedupIds(front);
      assert IdsOf(rs) == IdsOf(front) + {r.studentId};
      if r.studentId != "" && r.studentId !in IdsOf(kept) {
        assert (kept + [r])[..|kept|] == kept;
        assert IdsOf(Dedup(rs)) == IdsOf(kept) + {r.studentId};
      }
    }
  }

  /** One more entry is kept exactly when it is the first with its non-empty id. */
  lemma DedupStep(rs: seq<FD.Recognition>)
    requires rs != []
    ensures Dedup(rs) == Dedup(rs[..|rs| - 1]) + (if FirstOccurrence(rs, |rs| - 1) then [rs[|rs| - 1]] else [])
  {
    var n := |rs| - 1;
    var front := rs[..n];
    var r := rs[n];
    var kept := Dedup(front);
    DedupIds(front);
    IdsOfMembers(front, r.studentId);
    var isNew := r.studentId != "" && r.studentId !in IdsOf(kept);
    assert Dedup(rs) == if isNew then kept + [r] else kept;
    if FirstOccurrence(rs, n) {
      if r.studentId in IdsOf(front) {
        assert false;
      }
      assert isNew;
    } else if r.studentId != "" {
      var l :| 0 <= l < n && rs[l].studentId == r.studentId;
      assert front[l].studentId == r.studentId;
      assert !isNew;
    }
  }

  /** The positions are increasing, each holds a first occurrence, and none is missed. */
  lemma {:induction false} FirstPositionsMeaning(rs: seq<FD.Recognition>)
    ensures forall i :: 0 <= i < |FirstPositions(rs)| ==> FirstOccurrence(rs, FirstPositions(rs)[i])
    ensures forall i, j :: 0 <= i < j < |FirstPositions(rs)| ==> FirstPositions(rs)[i] < FirstPositions(rs)[j]
    ensures forall j :: 0 <= j < |rs| && FirstOccurrence(rs, j) ==> j in FirstPositions(rs)
  {
    if rs != [] {
      var n := |rs| - 1;
      var front := rs[..n];
      FirstPositionsMeaning(front);
      var p0 := FirstPositions(front);
      var p := FirstPositions(rs);
      assert p == p0 + (if FirstOccurrence(rs, n) then [n] else []);
      assert forall i :: 0 <= i < |p0| ==> p0[i] < n;
      forall i | 0 <= i < |p0|
        ensures FirstOccurrence(rs, p0[i])
      {
        assert FirstOccurrence(front, p0[i]);
        FirstOccurrencePrefix(rs, n, p0[i]);
      }
      forall j | 0 <= j < n && FirstOccurrence(rs, j)
        ensures j in p0
      {
        FirstOccurrencePrefix(rs, n, j);
      }
    }
  }

  /** The k-th kept entry is the entry at the k-th first-occurrence position. */
  lemma {:induction false} DedupAtFirstPositions(rs: seq<FD.Recognition>)
    ensures |Dedup(rs)| == |FirstPositions(rs)|
    ensures forall i :: 0 <= i < |FirstPositions(rs)| ==> Dedup(rs)[i] == rs[FirstPositions(rs)[i]]
  {
    if rs != [] {
      var n := |rs| - 1;
      var front := rs[..n];
      DedupAtFirstPositions(front);
      DedupStep(rs);
      var d0, p0 := Dedup(front), FirstPositions(front);
      assert FirstPositions(rs) == p0 + (if FirstOccurrence(rs, n) then [n] else []);
      assert forall i :: 0 <= i < |p0| ==> front[p0[i]] == rs[p0[i]];
    }
  }

  /**
   * The kept entries are exactly the first occurrences of the non-empty ids, taken in the order
   * they occur.
   */
  lemma DedupIsFirstOccurrences(rs: seq<FD.Recognition>)
    ensures |Dedup(rs)| == |FirstPositions(rs)|
    ensures forall i :: 0 <= i < |FirstPositions(rs)| ==>
      FirstOccurrence(rs, FirstPositions(rs)[i]) && Dedup(rs)[i] == rs[FirstPositions(rs)[i]]
    ensures forall i, j :: 0 <= i < j < |FirstPositions(rs)| ==> FirstPositions(rs)[i] < FirstPositions(rs)[j]
    ensures forall j :: 0 <= j < |rs| && FirstOccurrence(rs, j) ==> j in FirstPositions(rs)
  {
    FirstPositionsMeaning(rs);
    DedupAtFirstPositions(rs);
  }

  /** The kept ids are non-empty and pairwise distinct. */
  lemma DedupDistinct(rs: seq<FD.Recognition>)
    ensures forall i, j :: 0 <= i < j < |Dedup(rs)| ==>
      Dedup(rs)[i].studentId != "" && Dedup(rs)[i].studentId != Dedup(rs)[j].studentId
  {
    DedupIsFirstOccurrences(rs);
    var d := Dedup(rs);
    var p := FirstPositions(rs);
    forall i, j | 0 <= i < j < |d|
      ensures d[i].studentId != "" && d[i].studentId != d[j].studentId
    {
      assert FirstOccurrence(rs, p[i]) && FirstOccurrence(rs, p[j]) && p[i] < p[j];
    }
  }

  /** The reply entry for a kept recognition, named from the student table ("" for an unknown id). */
  function EntryFor(students: seq<CS.StudentRow>, r: FD.Recognition): Entry {
    var student := CS.FirstWithId(students, r.studentId);
    Entry(r.studentId, if student.Some? then student.value.name else "", r.confidence, r.box)
  }

  /** The reply entries for the kept recognitions, one each, in order. */
  function Entries(students: seq<CS.StudentRow>, kept: seq<FD.Recognition>): (r: seq<Entry>)
    ensures |r| == |kept|
    ensures forall i :: 0 <= i < |kept| ==>
      r[i].studentId == kept[i].studentId && r[i].confidence == kept[i].confidence && r[i].box == kept[i].box
  {
    if kept == [] then [] else Entries(students, kept[..|kept| - 1]) + [EntryFor(students, kept[|kept| - 1])]
  }

  /** A reply entry names the student when the table has the id, and is "" otherwise. */
  lemma {:induction false} EntriesNamed(students: seq<CS.StudentRow>, kept: seq<FD.Recognition>, i: nat)
    requires i < |kept|
    ensures var e := Entries(students, kept)[i];
      && ((forall s :: 0 <= s < |students| ==> students[s].studentId != e.studentId) ==> e.studentName == "")
      && (CS.FirstWithId(students, e.studentId).Some? ==>
            e.studentName == CS.FirstWithId(students, e.studentId).value.name)
  {
    if i < |kept| - 1 {
      EntriesNamed(students, kept[..|kept| - 1], i);
    }
  }

  /**
   * The attendance table after one `record_attendance(id, course, date, time, status="present")`
   * per kept entry, when `first` is the next free attendance id of `rows`.
   */
  function Recorded(rows: seq<CS.AttendanceRow>, kept: seq<FD.Recognition>, first: nat,
                    courseName: string, date: string, time: string, now: string): (r: seq<CS.AttendanceRow>)
    ensures |r| == |rows| + |kept|
  {
    if kept == [] then rows
    else
      Recorded(rows, kept[..|kept| - 1], first, courseName, date, time, now) +
      [CS.AttendanceRow(Text.NatToString(first + |kept| - 1), kept[|kept| - 1].studentId,
                        courseName, date, time, "present", now)]
  }

  /**
   * Recording keeps the earlier rows and appends one row per kept entry, in order: the entry's
   * id, the request's course, date and time, status "present", and the attendance ids counting
   * up from the first free one.
   */
  lemma {:induction false} RecordedRows(rows: seq<CS.AttendanceRow>, kept: seq<FD.Recognition>, first: nat,
                                        courseName: string, date: string, time: string, now: string)
    ensures Recorded(rows, kept, first, courseName, date, time, now)[..|rows|] == rows
    ensures forall k :: 0 <= k < |kept| ==>
      Recorded(rows, kept, first, courseName, date, time, now)[|rows| + k] ==
        CS.AttendanceRow(Text.NatToString(first + k), kept[k].studentId, courseName, date, time, "present", now)
  {
    if kept != [] {
      var front := kept[..|kept| - 1];
      RecordedRows(rows, front, first, courseName, date, time, now);
      var before := Recorded(rows, front, first, courseName, date, time, now);
      assert forall k :: 0 <= k < |front| ==> kept[k] == front[k];
    }
  }

  // Each step of the loop, one lemma per accumulated value.

  lemma DedupPrefixStep(rs: seq<FD.Recognition>, k: nat)
    requires k < |rs|
    ensures Dedup(rs[..k + 1]) ==
      if rs[k].studentId != "" && rs[k].studentId !in IdsOf(Dedup(rs[..k])) then Dedup(rs[..k]) + [rs[k]]
      else Dedup(rs[..k])
  {
    assert rs[..k + 1][..k] == rs[..k];
  }

  lemma IdsOfSnoc(kept: seq<FD.Recognition>, r: FD.Recognition)
    ensures IdsOf(kept + [r]) == IdsOf(kept) + {r.studentId}
  {
    assert (kept + [r])[..|kept|] == kept;
  }

  lemma EntriesSnoc(students: seq<CS.StudentRow>, kept: seq<FD.Recognition>, r: FD.Recognition)
    ensures Entries(students, kept + [r]) == Entries(students, kept) + [EntryFor(students, r)]
  {
    assert (kept + [r])[..|kept|] == kept;
  }

  lemma RecordedSnoc(rows: seq<CS.AttendanceRow>, kept: seq<FD.Recognition>, r: FD.Recognition, first: nat,
                     courseName: string, date: string, time: string, now: string)
    ensures Recorded(rows, kept + [r], first, courseName, date, time, now) ==
      Recorded(rows, kept, first, courseName, date, time, now) +
      [CS.AttendanceRow(Text.NatToString(first + |kept|), r.studentId, courseName, date, time, "present", now)]
  {
    assert (kept + [r])[..|kept|] == kept;
  }

  /** `request.form.get("time") or <clock>`. */
  function TimeOf(time: Option<string>, clock: string): string {
    if time.Some? && time.value != "" then time.value else clock
  }

  // ---------------------------------------------------------------- the application

  class Application {
    const recognizer: FD.FaceRecognitionSystem
    const trainer: TM.TrainingManager
    const db: CS.Database

    /** The trainer trains its own recognizer, not the one the endpoints recognize with. */
    predicate Separate() {
      recognizer != trainer.recognizer
    }

    /**
     * Start-up: `FaceRecognitionSystem()`, `TrainingManager()` (which builds a second recognizer)
     * and `ensure_csv_files_exist()` over the tables as they are.
     */
    constructor (backend: FD.Backend, storedClassifier: Option<FD.Svc>, storedEncoder: Option<seq<string>>,
                 trainingDataPath: string, imread: string -> Option<FD.Image>, root: TM.Root,
                 students: seq<CS.StudentRow>, attendance: seq<CS.AttendanceRow>)
      ensures Separate()
      ensures recognizer.backend == backend
      ensures recognizer.classifier == storedClassifier && recognizer.labelEncoder == storedEncoder
      ensures trainer.trainingDataPath == trainingDataPath
      ensures db.students == students && db.attendance == attendance
    {
      recognizer := new FD.FaceRecognitionSystem(backend, storedClassifier, storedEncoder);
      trainer := new TM.TrainingManager(trainingDataPath, backend, storedClassifier, storedEncoder, imread, root);
      db := new CS.Database(students, attendance);
    }

    /**
     * `api_add_student`: 400 unless student_id, name and email are all given and non-empty; 409
     * when `add_student` refuses the row (an id that is blank after stripping, or already present);
     * otherwise the row is appended and `{"ok": true}` returned.
     */
    method ApiAddStudent(data: Option<CS.Record>, now: string) returns (resp: Response)
      modifies db
      ensures var d := if data.Some? then data.value else map[];
        var id := Text.Strip(CS.Get(d, "student_id", ""));
        var added := HasRequired(d) && id != "" &&
                     forall i :: 0 <= i < |old(db.students)| ==> old(db.students)[i].studentId != id;
        && (!HasRequired(d) ==> resp == Response(Failure(MissingFields), 400))
        && (HasRequired(d) && !added ==> resp == Response(Failure(DuplicateId), 409))
        && (added ==> resp == Response(Done, 200))
        && db.students == (if added then old(db.students) + [CS.NewStudent(d, now)] else old(db.students))
        && db.attendance == old(db.attendance)
    {
      var d := if data.Some? then data.value else map[];
      if !HasRequired(d) {
        return Response(Failure(MissingFields), 400);
      }
      var ok := db.AddStudent(d, now);
      if !ok {
        return Response(Failure(DuplicateId), 409);
      }
      return Response(Done, 200);
    }

    /**
     * One pass of the recording loop for a recognition it keeps: the attendance row is appended
     * with the next id, and the entry carries the student's name (empty when unknown).
     */
    method RecordKept(r: FD.Recognition, courseName: string, date: string, time: string, now: string,
                      ghost rows: seq<CS.AttendanceRow>, ghost kept: seq<FD.Recognition>, ghost first: nat)
      returns (entry: Entry)
      requires db.attendance == Recorded(rows, kept, first, courseName, date, time, now)
      requires CS.NextId(db.attendance) == first + |kept|
      modifies db
      ensures entry == EntryFor(db.students, r)
      ensures db.attendance == Recorded(rows, kept + [r], first, courseName, date, time, now)
      ensures CS.NextId(db.attendance) == first + |kept| + 1
      ensures db.students == old(db.students)
    {
      ghost var before := db.attendance;
      var row := db.RecordAttendance(r.studentId, courseName, date, time, now, "present");
      CS.NextIdAdvances(before, row);
      RecordedSnoc(rows, kept, r, first, courseName, date, time, now);
      var student := db.GetStudent(r.studentId);
      entry := Entry(r.studentId, if student.Some? then student.value.name else "", r.confidence, r.box);
    }

    /**
     * The loop of `api_recognize_and_record`: each kept recognition is recorded as present and
     * answered with the student's name; a student id seen before or empty is skipped.
     */
    method RecordRecognized(recognized: seq<FD.Recognition>, courseName: string, date: string,
                            time: string, now: string) returns (results: seq<Entry>)
      modifies db
      ensures results == Entries(old(db.students), Dedup(recognized))
      ensures db.attendance == Recorded(old(db.attendance), Dedup(recognized), CS.NextId(old(db.attendance)), courseName, date, time, now)
      ensures db.students == old(db.students)
    {
      results := [];
      var seenIds: set<string> := {};
      ghost var kept: seq<FD.Recognition> := [];
      ghost var students, rows := db.students, db.attendance;
      ghost var first := CS.NextId(rows);
      var k := 0;
      while k < |recognized|
        invariant 0 <= k <= |recognized|
        invariant kept == Dedup(recognized[..k])
        invariant seenIds == IdsOf(kept)
        invariant results == Entries(students, kept)
        invariant db.students == students
        invariant db.attendance == Recorded(rows, kept, first, courseName, date, time, now)
        invariant CS.NextId(db.attendance) == first + |kept|
      {
        var r := recognized[k];
        DedupPrefixStep(recognized, k);
        var studentId := r.studentId;
        if studentId != "" && studentId !in seenIds {
          seenIds := seenIds + {studentId};
          var entry := RecordKept(r, courseName, date, time, now, rows, kept, first);
          results := results + [entry];
          IdsOfSnoc(kept, r);
          EntriesSnoc(students, kept, r);
          kept := kept + [r];
        }
        k := k + 1;
      }
      assert recognized[..k] == recognized;
    }

    /**
     * `api_recognize_and_record`: 400 without a course or a date, then 400 without an uploaded
     * image, in both cases before anything is recognized or recorded; otherwise the recognized
     * faces of the upload go through the recording loop and the entries are returned.
     * `upload` is the uploaded file as `cv2.imread` decodes it once saved (None: no file part).
     */
    method ApiRecognizeAndRecord(course: Option<string>, date: Option<string>, time: Option<string>,
                                 clock: string, upload: Option<Option<FD.Image>>, now: string)
      returns (resp: Response)
      modifies db
      ensures var c := OrEmpty(course);
        var d := OrEmpty(date);
        && ((c == "" || d == "") ==>
              resp == Response(Failure(CourseAndDateRequired), 400) && unchanged(db))
        && (c != "" && d != "" && upload.None? ==>
              resp == Response(Failure(ImageRequired), 400) && unchanged(db))
        && (c != "" && d != "" && upload.Some? ==>
              var kept := Dedup(recognizer.Accepted(recognizer.Detections(upload.value)));
              && resp == Response(Recognized(Entries(old(db.students), kept)), 200)
              && db.attendance == Recorded(old(db.attendance), kept, CS.NextId(old(db.attendance)), c, d, TimeOf(time, clock), now)
              && db.students == old(db.students))
    {
      var courseName := OrEmpty(course);
      var day := OrEmpty(date);
      var timeStr := TimeOf(time, clock);
      if courseName == "" || day == "" {
        return Response(Failure(CourseAndDateRequired), 400);
      }
      if upload.None? {
        return Response(Failure(ImageRequired), 400);
      }
      var recognized := recognizer.ProcessImageForAttendance(upload.value);
      var results := RecordRecognized(recognized, courseName, day, timeStr, now);
      return Response(Recognized(results), 200);
    }

    /**
     * `api_train`: trains with a progress callback that ignores its calls; 200 when training
     * reports success and 500 otherwise, with the trainer's flag and message as the body.  The
     * recognizer the endpoints use is not the one trained.
     */
    method ApiTrain(saved: bool) returns (resp: Response)
      modifies trainer.recognizer
      ensures resp.body.Trained?
      ensures resp.status == (if resp.body.ok then 200 else 500)
      ensures trainer.root.Absent? ==>
        !resp.body.ok && resp.body.message == TM.TrainingFailed + TM.MissingDirectory(trainer.trainingDataPath)
      ensures trainer.root.Present? ==>
        var g := TM.Gathered(TM.RootFolders(trainer.root), trainer.EncodingsIn(trainer.root));
        && (g.Err? ==> !resp.body.ok && resp.body.message == TM.TrainingFailed + g.error)
        && (g.Ok? && g.value.0 == [] ==> !resp.body.ok && resp.body.message == TM.NoTrainingData)
        && (g.Ok? && g.value.0 != [] ==>
              var fit := trainer.recognizer.backend.fit(g.value.0, FD.EncodeLabels(g.value.1));
              && resp.body.ok == (fit.Some? && saved)
              && resp.body.message ==
                   if fit.Some? && saved then TM.SuccessMessage(|g.value.0|, |TM.RootFolders(trainer.root)|)
                   else TM.FitFailed)
      ensures Separate() ==> unchanged(recognizer)
    {
      var ok, message, progress := trainer.TrainSystem(true, saved);
      var status := if ok then 200 else 500;
      return Response(Trained(ok, message), status);
    }
  }
}
