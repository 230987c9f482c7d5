# EduFace attendance core, modelled in Dafny

EduFace takes attendance from a photograph of a class. Its Flask back end does the following:

- detects faces with a Haar cascade;
- encodes each face as a handcrafted 128-value vector (50 grey-histogram bins, then per-patch mean and standard deviation over 20x20 patches);
- classifies the vector with a linear SVM trained on per-student image folders;
- accepts a face only with a non-empty label and a confidence strictly above 0.7;
- records each accepted student once per request in a CSV attendance table.

A React front end keeps its own student list and attendance records, exports them as comma-separated text, and logs in against two fixed demo credentials.

The project has one module per core file, plus three small shared modules:

| module | file | what it holds |
|---|---|---|
| `FaceDetector` | face_detector.dfy | the recognizer object: detection with box clamping, the encoding and its layout, the label codec, training and the acceptance decision |
| `TrainingManager` | training_manager.dfy | the training-data directory as a value; image loading, encoding aggregation, `train_system` with its progress reports, statistics and deletion |
| `CsvStorage` | csv_storage.dfy | the two CSV tables as fields of a `Database` object; the writer projection and its read-back, Python's `int()`, the next attendance id, the duplicate-rejecting insert, the attendance query and the export matrix |
| `App` | app.dfy | the endpoints `api_add_student`, `api_recognize_and_record` (with its first-seen-wins loop) and `api_train`, over the three singletons the application creates at start-up |
| `DataContext` | data_context.dfy | the browser data provider as a `DataStore` object; the merge of updates, the per-class filter and the text of the CSV export |
| `AuthContext` | auth_context.dfy | the login state machine as an `AuthState` object |
| `Wrappers`, `Text`, `Sorting` | wrappers.dfy, text.dfy, sorting.dfy | `Option`/`Result`; ASCII `lower`/`strip`/`str(n)`; Python's `str` order and a stable sort by key |

## How foreign code is modelled

Foreign code is a set of parameters:

- OpenCV's cascade, the resize-and-grey conversion, the patch standard deviation and the SVM fit are the arrow fields of a `FaceDetector.Backend` value, fixed when the recognizer is built.
- `cv2.imread` is an arrow of the training manager.
- Whether the two `joblib.dump` calls succeed is the `saved` flag.
- Clocks are string parameters (`now`, `clock`).
- What local storage held on the first render is a parameter.

An exception that the source catches becomes that handler's sentinel value. One that propagates becomes `Result.Err` carrying the exception's name.

## Behaviours of the source the model keeps

- **Blank student id.** `api_add_student` answers 409 "student_id already exists" when the id is given but is only whitespace. The presence check sees a non-empty string; the insert then strips the id to nothing and refuses it.
- **Separate recognizers.** The trainer builds its own `FaceRecognitionSystem`, so `api_train` does not change the recognizer the endpoints use. `App.Application.Separate` states this, and `ApiTrain` proves the serving recognizer unchanged.
- **Empty corpus.** Training with no encodings fails with "No training data found" and never reaches the classifier.
- **Success message.** When training succeeds, the message counts every student folder, including folders that gave no encoding.
- **Deleting the empty id.** `delete_student_data("")` removes the whole training-data directory, because `os.path.join(root, "")` names the root itself.
- **Deleting ".".** `delete_student_data(".")` joins to `<root>/.`, which exists. `shutil.rmtree` deletes everything inside it, then its final `rmdir` fails, because POSIX `rmdir(2)` refuses a path whose last component is "." (EINVAL). The `OSError` propagates and the emptied directory stays.
- **Render snapshots.** Each callback of the data provider reads the arrays of the render that created it, not the latest state. `DataStore` methods take that render's `View`. So the attendance screen's `forEach`, which calls `addAttendanceRecord` once per recognized student from one render, keeps only the last new record (`DataStore.AddEachFromOneRender`). A delayed `updateStudent`, such as the training screen's timer, also works on the students of the render that started it.
- **Two lookup rules.** `get_student` returns the first row with an id. `get_attendance` builds a dictionary, so the last row with an id wins. `CsvStorage.IndexAgreesWithSearch` proves the two agree while ids are unique, and `Database.AddStudent` keeps ids unique.

## Model

| member | source | states |
|---|---|---|
| FaceDetector.ClampBox | face_recognition/face_detector.py:45-49 | the box has x, y >= 0 and w, h >= 1; a box whose corner lies inside the image ends within it; a corner at or past the edge gets width or height 1; a rectangle already inside the image is kept unchanged |
| FaceDetector.Slice | face_recognition/face_detector.py:50 | for non-negative bounds, Python's `s[lo:hi]` has length min(hi, len) - lo when it starts inside, and is empty otherwise |
| FaceDetector.Crop | face_recognition/face_detector.py:50 | `rgb_image[y:y+h, x:x+w]`: the row slice, then the same column slice of each row; `CropShape` proves its h-by-w shape |
| FaceDetector.CropShape | face_recognition/face_detector.py:46-50 | the crop of a clamped box whose corner is inside the image is exactly h by w; any other clamped box crops an empty array |
| FaceDetector.ToRgb | face_recognition/face_detector.py:35-40 | a colour image has its channels reversed (BGR to RGB) pixel by pixel; a grey image has each level copied into all three channels |
| FaceDetector.Histogram | face_recognition/face_detector.py:86 | `calcHist` with 256 bins gives a 256-entry histogram (the sum over the bins is `HistogramSumsToPixelCount`) |
| FaceDetector.HistogramSumsToPixelCount | face_recognition/face_detector.py:86 | the 256 bins of an H x W grid sum to H * W, so every pixel is counted exactly once |
| FaceDetector.Mean | face_recognition/face_detector.py:93 | `patch.mean()` is the pixel sum divided by the pixel count; `PatchNonEmpty` shows the count is never 0 where it is used |
| FaceDetector.StepsIsCeiling | face_recognition/face_detector.py:89-90 | `range(0, n, 20)` takes ceil(n / 20) steps |
| FaceDetector.PatchNonEmpty | face_recognition/face_detector.py:91-92 | every patch the scan visits inside a rectangular grid has pixels, so the `size > 0` guard never skips one |
| FaceDetector.ScanRowLength | face_recognition/face_detector.py:90-93 | one band of the inner loop emits two values per 20-column step |
| FaceDetector.ScanLength | face_recognition/face_detector.py:89-93 | the nested loops emit ceil(H/20) bands of 2 * ceil(W/20) values each |
| FaceDetector.ScanRowAt | face_recognition/face_detector.py:90-93 | within a band, positions 2k and 2k+1 hold the mean and the standard deviation of the k-th patch |
| FaceDetector.ScanAt | face_recognition/face_detector.py:89-93 | band bi starts after bi whole bands: the pair at band offset 2bj is the scan's pair at bi * band + 2bj |
| FaceDetector.PatchScanLayout | face_recognition/face_detector.py:88-93 | an H x W grid gives 2 * ceil(H/20) * ceil(W/20) values in row-major patch order; the pair for patch (bi, bj) is at 2 * (bi * ceil(W/20) + bj) |
| FaceDetector.FeatureVector | face_recognition/face_detector.py:84-95 | the first 50 histogram bins, then the first 78 patch statistics; its 128-value layout is `FeatureVectorLayout` |
| FaceDetector.FeatureVectorLayout | face_recognition/face_detector.py:84-95 | on the 160x160 face the vector has exactly 128 values: histogram bins 0..49 in order, then the first 78 patch values in scan order |
| FaceDetector.MaxOf | face_recognition/face_detector.py:122 | `np.max` is an element of the probabilities and bounds every one of them |
| FaceDetector.InsertLabel | face_recognition/face_detector.py:102-103 | adding a label keeps the classes distinct, and adds the label to the multiset exactly when it was absent |
| FaceDetector.Classes | face_recognition/face_detector.py:102-103 | `classes_` holds exactly the training labels, each once, in ascending order |
| FaceDetector.InsertLabelKeeps | face_recognition/face_detector.py:102-103 | inserting into sorted distinct classes keeps them sorted and distinct, with the label added |
| FaceDetector.IndexOf | face_recognition/face_detector.py:103 | the code of a label is the position of its first occurrence |
| FaceDetector.EncodeLabels | face_recognition/face_detector.py:103 | `fit_transform` gives one code per label |
| FaceDetector.LabelCodecRoundTrip | face_recognition/face_detector.py:103 | each code indexes the classes, and decoding it there gives the training label back, which is what `inverse_transform` at line 121 undoes |
| FaceDetector.FaceRecognitionSystem.constructor | face_recognition/face_detector.py:10-17 | after start-up each field holds the stored artifact, or nothing when there is none |
| FaceDetector.FaceRecognitionSystem.LoadModels | face_recognition/face_detector.py:19-27 | each stored artifact replaces its field; a missing one leaves the field as it was |
| FaceDetector.FaceRecognitionSystem.DetectFaces | face_recognition/face_detector.py:29-59 | no faces for a missing image or a failing cascade; otherwise exactly one face per cascade rectangle, in order, each with the clamped box, its crop and confidence 1.0 |
| FaceDetector.FaceRecognitionSystem.PreprocessFace | face_recognition/face_detector.py:61-69 | preprocessing fails exactly for an empty crop |
| FaceDetector.FaceRecognitionSystem.SimpleFeatureExtraction | face_recognition/face_detector.py:82-96 | the nested loops compute the feature vector whose layout `FeatureVectorLayout` states |
| FaceDetector.FaceRecognitionSystem.ExtractFaceEncoding | face_recognition/face_detector.py:71-80 | there is no encoding exactly for an empty crop; otherwise the encoding has 128 values |
| FaceDetector.FaceRecognitionSystem.EncodeShape | face_recognition/face_detector.py:71-80 | the encoding exists exactly for a crop with pixels, and then has 128 values |
| FaceDetector.FaceRecognitionSystem.TrainClassifier | face_recognition/face_detector.py:98-111 | the label encoder becomes the sorted classes; a failed fit leaves an unfitted SVC and returns false; a fit installs the fitted model and reports success exactly when both artifacts were saved |
| FaceDetector.FaceRecognitionSystem.RecognizeFace | face_recognition/face_detector.py:113-126 | a label comes out exactly when the classifier is fitted, an encoder is loaded, the prediction is a valid class index and there are probabilities; the label is then the encoder's class at the predicted index and the confidence is `MaxOf` the probabilities, an element bounding them all; otherwise `(None, 0.0)`, which covers every exception the handler catches |
| FaceDetector.FaceRecognitionSystem.Decide | face_recognition/face_detector.py:137-147 | a face's entry: none without an encoding, otherwise the recognized label, confidence and box when the label is non-empty and the confidence above 0.7; `AcceptedOne` states this |
| FaceDetector.FaceRecognitionSystem.Accepted | face_recognition/face_detector.py:136-148 | at most one entry per face, each with a non-empty label and a confidence above 0.7 |
| FaceDetector.FaceRecognitionSystem.AcceptedAppend | face_recognition/face_detector.py:136-148 | the filter works face by face: the accepted list of a concatenation is the concatenation of the accepted lists, so detection order is kept |
| FaceDetector.FaceRecognitionSystem.AcceptedSnoc | face_recognition/face_detector.py:136-147 | one more face adds that face's own decision at the end |
| FaceDetector.FaceRecognitionSystem.AcceptedOne | face_recognition/face_detector.py:136-147 | a face is kept exactly when its encoding exists, its label is non-empty and its confidence is strictly above 0.7; it is then kept with that label, that confidence and its own box |
| FaceDetector.FaceRecognitionSystem.DecideFace | face_recognition/face_detector.py:137-147 | the loop body's verdict on a face is the decision `AcceptedOne` characterises |
| FaceDetector.FaceRecognitionSystem.AcceptFaces | face_recognition/face_detector.py:136-148 | the loop keeps exactly the accepted faces, in order |
| FaceDetector.FaceRecognitionSystem.ProcessImageForAttendance | face_recognition/face_detector.py:128-151 | nothing for an unreadable image; otherwise the accepted faces among the detections |
| Text.Lower | training/training_manager.py:86 | lower-casing keeps the length |
| Text.LowerChars | training/training_manager.py:86 | each ASCII capital becomes its small letter, 32 code points up, and every other character is kept |
| Text.LowerIdempotent | training/training_manager.py:86 | lowering a lowered string changes nothing |
| Text.StripStart | database/csv_storage.py:86 | `lstrip` removes a prefix of whitespace and leaves a non-space first character |
| Text.StripEnd | database/csv_storage.py:86 | `rstrip` removes a suffix of whitespace and leaves a non-space last character |
| Text.Strip | database/csv_storage.py:86 | the stripped string has no whitespace at either end |
| Text.StripIsBothEnds | database/csv_storage.py:86 | `strip()` is `lstrip()` followed by `rstrip()` |
| Text.StripEmptyIffBlank | database/csv_storage.py:86-88 | a stripped id is empty exactly when the id is all whitespace |
| Text.StripNoSpace | database/csv_storage.py:86 | a string without whitespace at its ends is left as it is |
| Text.NatToString | database/csv_storage.py:129 | `str(n)` is a non-empty digit string without a leading zero |
| Sorting.InsertBy | database/csv_storage.py:72 | insertion adds exactly the one element |
| Sorting.InsertBySorted | database/csv_storage.py:72 | insertion keeps a key-sorted list sorted |
| Sorting.SortBy | database/csv_storage.py:72 | `sorted(rows, key=...)` is a permutation of the rows, in non-decreasing key order |
| Sorting.InsertByWithKey | database/csv_storage.py:72 | inserting an element puts it before the others with its key and keeps their order |
| Sorting.SortByStable | database/csv_storage.py:72 | the sort is stable: for every key, the elements with that key come out in their input order |
| TrainingManager.JoinShape | training/training_manager.py:80 | `os.path.join` ends with the name; an absolute name replaces the directory; any other name goes under it with one separator |
| TrainingManager.Join | training/training_manager.py:80 | POSIX `os.path.join` of two parts: an absolute second part replaces the first, otherwise one "/" is inserted unless the first is empty or ends with one; `JoinShape` states this |
| TrainingManager.StudentNode | training/training_manager.py:80-81 | what `os.path.join(root, id)` names in the directory: the root itself for "" and ".", the listed entry of that name, or nothing |
| TrainingManager.ImageNames | training/training_manager.py:86 | the filter keeps exactly the names with an image extension |
| TrainingManager.ImageNameIgnoresCase | training/training_manager.py:86 | the extension test ignores case |
| TrainingManager.Folders | training/training_manager.py:115-116 | the student folders are exactly the listed entries that are directories, each once |
| TrainingManager.FolderNode | training/training_manager.py:115-116 | each student folder, joined under the root, names that directory |
| TrainingManager.AnnouncedAt | training/training_manager.py:120-122 | report k names folder k, with a percentage in [0, 100) |
| TrainingManager.AnnouncementsBounded | training/training_manager.py:120-122 | there is one report per folder, in folder order, each "Processing <id>..." with a percentage in [0, 100) |
| TrainingManager.FractionBounded | training/training_manager.py:122 | (i / total) * 100 lies in [0, 100) for i < total |
| TrainingManager.FaceEncodings | training/training_manager.py:101-104 | a list of faces gives at most one encoding per face |
| TrainingManager.FaceContribution | training/training_manager.py:99-104 | a face contributes its encoding exactly when it has one; an image without faces contributes nothing |
| TrainingManager.Repeat | training/training_manager.py:126-128 | every label appended for a folder is the folder's name |
| TrainingManager.AppendLabelled | training/training_manager.py:126-128 | the inner loop appends the folder's encodings and as many copies of its name |
| TrainingManager.Gathered | training/training_manager.py:120-128 | encodings and labels have equal length, and every label is a folder |
| TrainingManager.GatheredOk | training/training_manager.py:120-128 | with no failing folder, gathering succeeds |
| TrainingManager.GatheredErrorStops | training/training_manager.py:124 | the first failing folder's error is the outcome of the whole gathering |
| TrainingManager.GatheredInFolderOrder | training/training_manager.py:115-128 | labels follow the listing order of the folders, so each folder's encodings are contiguous |
| TrainingManager.DistinctLabelsAtMostFolders | training/training_manager.py:118-143 | the distinct labels are at most the folders the message counts |
| TrainingManager.GatheredStep | training/training_manager.py:124-128 | a clean folder extends the training set by its encodings, each labelled with the folder |
| TrainingManager.Without | training/training_manager.py:184 | removing a folder takes exactly its name out of the listing |
| TrainingManager.SuccessMessage | training/training_manager.py:143 | "Training completed successfully with <encodings> face encodings from <students> students", the counts written by `str` (`NatToString`) |
| TrainingManager.TrainingManager.constructor | training/training_manager.py:9-17 | the manager has a fresh recognizer, and a missing directory is created empty |
| TrainingManager.TrainingManager.Images | training/training_manager.py:85-90 | every loaded image comes from a listed image-named file that decodes |
| TrainingManager.TrainingManager.ImagesStep | training/training_manager.py:85-90 | one more listed name adds its image exactly when it is an image file that decodes |
| TrainingManager.TrainingManager.Load | training/training_manager.py:78-92 | images of the node the id names: none when missing, `NotADirectoryError` for a file, the listing's decodable image files (`Images`, `ImagesStep`) for a folder |
| TrainingManager.TrainingManager.LoadTrainingImages | training/training_manager.py:78-92 | no images for a missing folder, an error for a plain file, otherwise the decodable image files in listing order; the ids "" and "." load from the training directory itself |
| TrainingManager.TrainingManager.ImageEncodingsShape | training/training_manager.py:99-104 | every encoding of a student's images has 128 values |
| TrainingManager.TrainingManager.FaceEncodingsShape | training/training_manager.py:101-104 | every encoding of a list of faces has 128 values |
| TrainingManager.TrainingManager.EncodeImage | training/training_manager.py:100-104 | one image gives the encodings of its detected faces, in detection order |
| TrainingManager.TrainingManager.ExtractFaceEncodingsForStudent | training/training_manager.py:94-106 | a student's encodings are those of each image's faces, image by image, or the loading error |
| TrainingManager.TrainingManager.RootFoldersOk | training/training_manager.py:115-128 | over the folders of an existing directory, no folder fails |
| TrainingManager.TrainingManager.GatherEncodings | training/training_manager.py:120-128 | the folder loop computes the gathered training set, and when it succeeds it makes one progress report per folder |
| TrainingManager.TrainingManager.TrainSystem | training/training_manager.py:108-148 | a missing directory fails with its error; no encodings fails with "No training data found" and leaves the classifier untouched; otherwise the classifier is trained on the set, the message counts the encodings and every folder, and the callback sees the per-folder reports, then 90, then 100 |
| TrainingManager.TrainingManager.StudentsDataShape | training/training_manager.py:166-176 | there is one `students_data` entry per folder, with its image count and path |
| TrainingManager.TrainingManager.GetTrainingStatistics | training/training_manager.py:150-178 | all zeros without a directory; otherwise the folder count, one entry per folder, and the total of the image counts |
| TrainingManager.TrainingManager.DeleteStudentData | training/training_manager.py:180-186 | false with no change for a missing folder; an error for a plain file; "" removes the whole directory and answers true; "." empties the directory and then fails with `OSError`; any other folder is removed with true, and every other entry is unchanged |
| CsvStorage.ReadRecord | database/csv_storage.py:51-56 | a read line has exactly the header fields as keys |
| CsvStorage.Projection | database/csv_storage.py:65 | `{k: row.get(k, "") for k in headers}`: exactly the header keys, each with the row's value or "" |
| CsvStorage.WriteRecord | database/csv_storage.py:62-65 | `DictWriter.writerow`: `ValueError` for a key outside the header, otherwise the values in header order with "" for a missing one; `ProjectionRoundTrip` shows the projection never raises |
| CsvStorage.ProjectionRoundTrip | database/csv_storage.py:59-65 | the projected row never makes the writer raise, and reading the written line back gives the projection |
| CsvStorage.DigitGroupsOfNatToString | database/csv_storage.py:115 | the digits of `str(n)` read back as n |
| CsvStorage.ParsePyInt | database/csv_storage.py:115 | Python's `int()` on a string: surrounding whitespace, an optional sign and the digit groups, or None for the `ValueError` the loop skips; `ParseRendered` is its round trip |
| CsvStorage.ParseRendered | database/csv_storage.py:115 | `int(str(n)) == n` for every id the module writes |
| CsvStorage.ParsedIds | database/csv_storage.py:113-115 | one parse result per row |
| CsvStorage.MaxParsedMeaning | database/csv_storage.py:112-118 | the running maximum bounds every parsed id, and is 0 or one of them |
| CsvStorage.NextId | database/csv_storage.py:111-118 | one more than the largest parseable id, or 1; `NextIdMeaning` states this |
| CsvStorage.NextIdMeaning | database/csv_storage.py:111-118 | the next id is at least 1 and exceeds every parseable id; it is 1, or one more than a parseable id |
| CsvStorage.NextIdAdvances | database/csv_storage.py:126-138 | appending the row stamped with the next id moves the next id on by exactly one |
| CsvStorage.NextIdFresh | database/csv_storage.py:126-129 | the stamped id differs from every parseable id in the table |
| CsvStorage.NextAttendanceId | database/csv_storage.py:111-118 | the loop computes the next id |
| CsvStorage.FirstIndex | database/csv_storage.py:77-79 | the search stops at the first row with the id, or at the end |
| CsvStorage.FirstWithId | database/csv_storage.py:75-80 | None exactly when no row has the id; otherwise the first row with it |
| CsvStorage.NameIndex | database/csv_storage.py:148 | the dictionary comprehension, a later row replacing an earlier one with the same id; `NameIndexLastWins` states this |
| CsvStorage.NameIndexLastWins | database/csv_storage.py:148 | the index holds exactly the table's ids, each with the last row carrying it |
| CsvStorage.IndexAgreesWithSearch | database/csv_storage.py:148 | with unique ids the index and `get_student` find the same row |
| CsvStorage.Matching | database/csv_storage.py:145 | the filter keeps exactly the rows of the course on the date |
| CsvStorage.Joined | database/csv_storage.py:149-151 | each row gets its student's name, or "" when the student is unknown |
| CsvStorage.AttendanceOf | database/csv_storage.py:143-154 | `get_attendance` on the two tables: the matching rows, named, sorted by time; `AttendanceOfMeaning` states this |
| CsvStorage.AttendanceOfMeaning | database/csv_storage.py:143-154 | the query returns one entry per matching row and nothing else, named, in non-decreasing time order, as a permutation (multiset equality) of the named matching rows, with rows of equal time in file order |
| CsvStorage.ExportRow | database/csv_storage.py:163-170 | each export line has the header's six columns |
| CsvStorage.NewStudent | database/csv_storage.py:95-104 | the stored row carries no surrounding whitespace in its text fields |
| CsvStorage.AppendKeepsUnique | database/csv_storage.py:90-106 | appending a row with a new id keeps ids unique |
| CsvStorage.Database.constructor | database/csv_storage.py:36-48 | the tables are as stored; creating a missing file adds no row |
| CsvStorage.Database.GetAllStudents | database/csv_storage.py:68-72 | every row once, in non-decreasing lower-cased name order, rows with the same lower-cased name in file order |
| CsvStorage.Database.GetStudent | database/csv_storage.py:75-80 | None exactly when no row has the id; otherwise the first row of the table with that id |
| CsvStorage.Database.AddStudent | database/csv_storage.py:83-108 | false with no change for an id that is blank after stripping or already present; otherwise the trimmed row is appended at the end, the earlier rows are kept and ids stay unique |
| CsvStorage.Database.RecordAttendance | database/csv_storage.py:121-140 | exactly one row is appended, stamped with the next id and the given fields; the earlier rows are unchanged |
| CsvStorage.Database.GetAttendance | database/csv_storage.py:143-154 | the method computes the query `AttendanceOfMeaning` characterises |
| CsvStorage.Database.ExportAttendanceCsv | database/csv_storage.py:157-171 | the fixed six-column header, then one line per query record, in order |
| App.IdsOfMembers | app.py:88-93 | the `seen_ids` set holds exactly the ids of the entries kept so far |
| App.FirstPositions | app.py:89-92 | the first-occurrence positions lie inside the input |
| App.Dedup | app.py:87-93 | the `seen_ids` loop: an entry is kept when its id is non-empty and no kept entry has it; `DedupIsFirstOccurrences` states the result |
| App.DedupIds | app.py:88-93 | the kept ids are exactly the non-empty ids of the input |
| App.DedupStep | app.py:89-93 | an entry is kept exactly when it is the first with its non-empty id |
| App.FirstPositionsMeaning | app.py:89-92 | the first-occurrence positions increase, each holds one, and none is missed |
| App.DedupAtFirstPositions | app.py:89-101 | the k-th kept entry is the entry at the k-th first-occurrence position |
| App.DedupIsFirstOccurrences | app.py:87-101 | the kept entries are exactly the first occurrences of the non-empty ids, in their input order |
| App.DedupDistinct | app.py:88-93 | the kept ids are non-empty and pairwise distinct |
| App.Entries | app.py:96-101 | there is one reply entry per kept recognition, carrying its id, confidence and box |
| App.EntryFor | app.py:95-101 | the reply entry for one kept recognition: its id, the first-wins name or "", its confidence and its box |
| App.EntriesNamed | app.py:95-98 | a reply entry has the student's name, or "" for an unknown id |
| App.Recorded | app.py:94 | one attendance row is added per kept recognition |
| App.RecordedRows | app.py:94 | recording keeps the earlier rows and appends, per kept entry in order, its id with the request's course, date and time, status "present" and ids counting up from the next free one |
| App.Application.constructor | app.py:28-30 | the serving recognizer and the trainer's recognizer are distinct objects; the tables are as stored |
| App.Application.ApiAddStudent | app.py:48-57 | 400 unless student_id, name and email are all non-empty; 409 when the insert refuses; otherwise 200; the students table changes exactly on success |
| App.Application.RecordKept | app.py:92-101 | one kept recognition appends its attendance row and yields its named entry |
| App.Application.RecordRecognized | app.py:87-103 | the reply is the entries of the deduplicated recognitions, and the attendance table gains exactly their rows |
| App.Application.ApiRecognizeAndRecord | app.py:69-103 | 400 without a course or a date, then 400 without an image, both with no table change; otherwise the reply and the new rows of the deduplicated accepted faces |
| App.Application.ApiTrain | app.py:129-136 | the status is 200 exactly when training reports ok and 500 otherwise; with training data, ok holds exactly when the fit succeeds and the artifacts are saved, and the message is then the success message, else "Failed to train classifier"; without data or directory, or with a failing folder, ok is false with the trainer's message; the serving recognizer is unchanged |
| DataContext.MergeIdempotent | src/context/DataContext.tsx:96 | merging the same update twice is merging it once |
| DataContext.MergeEmpty | src/context/DataContext.tsx:96 | an update with no field leaves the student as it is |
| DataContext.Merge | src/context/DataContext.tsx:96 | `{ ...student, ...updates }`: each field the update carries replaces the student's, the rest are kept; `MergeIdempotent` and `MergeEmpty` are its laws |
| DataContext.Updated | src/context/DataContext.tsx:94-97 | length and order are kept; students with another id are unchanged; those with the id get the update merged; an unknown id changes nothing |
| DataContext.UpdatedIdempotent | src/context/DataContext.tsx:94-97 | an update that does not touch the id, applied twice, is applied once |
| DataContext.ByClass | src/context/DataContext.tsx:109-113 | the filter keeps exactly the records of the course on the date |
| DataContext.ByClassAppend | src/context/DataContext.tsx:109-113 | the filter keeps the order: it works part by part over a concatenation |
| DataContext.Join | src/context/DataContext.tsx:126 | `parts.join(sep)`: the pieces with one separator between neighbours; `SplitJoin` inverts it |
| DataContext.Split | src/context/DataContext.tsx:126 | the reference inverse of `join`: the pieces between separators, at least one |
| DataContext.SplitJoin | src/context/DataContext.tsx:126 | splitting a join of separator-free pieces gives the pieces back |
| DataContext.JoinHasNo | src/context/DataContext.tsx:126 | joining leaves out any character that neither the pieces nor the separator contain |
| DataContext.Table | src/context/DataContext.tsx:117-125 | the header row, then one five-cell row per record, in order |
| DataContext.Lines | src/context/DataContext.tsx:126 | each row is joined by commas into one line |
| DataContext.LineOfPlainCells | src/context/DataContext.tsx:126 | a row of cells without ',' or '\n' becomes one line that splits back into the row |
| DataContext.HeaderLine | src/context/DataContext.tsx:118 | the header line is "Student Name,Course,Date,Time,Status" |
| DataContext.Content | src/context/DataContext.tsx:115-126 | the export text: the table's rows joined by commas, the lines joined by line breaks; `ContentLines` states its lines |
| DataContext.ContentLines | src/context/DataContext.tsx:115-126 | with cells free of ',' and '\n', the export has one line per record plus the header, in order, each line splitting back into its record's cells |
| DataContext.DataStore.constructor | src/context/DataContext.tsx:40-85 | the stored students, or the demo students; the stored records, or none |
| DataContext.DataStore.AddStudent | src/context/DataContext.tsx:87-92 | the students become those of the calling render with one student appended, with the fresh id; the records are unchanged |
| DataContext.DataStore.UpdateStudent | src/context/DataContext.tsx:94-100 | the students become the calling render's students merged as `Updated` characterises, even when a later render has changed them; the records are unchanged |
| DataContext.DataStore.AddAttendanceRecord | src/context/DataContext.tsx:102-107 | the records become those of the calling render with one record appended, with the fresh id; the students are unchanged |
| DataContext.DataStore.AddEachFromOneRender | src/components/AttendanceSystem.tsx:35-44 | several `addAttendanceRecord` calls from one render leave that render's records plus only the last new record |
| DataContext.DataStore.GetAttendanceByClass | src/context/DataContext.tsx:109-113 | exactly the calling render's records of the course on the date |
| AuthContext.Find | src/context/AuthContext.tsx:32-34 | None exactly when no credential matches; otherwise the first matching credential |
| AuthContext.FindValid | src/context/AuthContext.tsx:27-35 | exactly the two demo pairs match, admin as Administrator and lecturer as Lecturer |
| AuthContext.AuthState.constructor | src/context/AuthContext.tsx:13-14 | the state starts signed out with no user, which satisfies the invariant |
| AuthContext.AuthState.Restore | src/context/AuthContext.tsx:16-23 | a stored session signs in with its user; without one nothing changes |
| AuthContext.AuthState.Login | src/context/AuthContext.tsx:25-44 | true exactly for a demo pair, which signs in as that username with its role; otherwise false with the state unchanged; the invariant is kept |
| AuthContext.AuthState.Logout | src/context/AuthContext.tsx:46-50 | from any state, signed out with no user |

## Left out

- OpenCV is not modelled. That covers `CascadeClassifier` loading, `detectMultiScale` and its parameters, `cv2.resize`, the colour conversions to grey, `cv2.imread` decoding and the float32 normalisation with its `* 255` round trip. They exist only as the `Backend` fields and the `imread` arrow, because they are foreign code.
- scikit-learn's `SVC` and `LabelEncoder` internals, and `joblib` persistence, are not modelled. The fit is a `Backend` field, the classes are the sorted distinct labels, and dump success is the `saved` flag.
- Floating-point arithmetic is real arithmetic. Confidences and probabilities are `real`. The patch mean is the exact pixel average; the patch standard deviation is an opaque `Backend` field.
- Exception messages are reduced to the exception's name (`"NotADirectoryError"`). `MissingDirectory` simplifies the quoting of the path.
- The `print` calls in the exception handlers are left out, because they are console output only.
- `TrainingManager.StudentNode` resolves only one path level below the training directory, plus "" and "." for the directory itself. An id containing `/` (a nested directory, or an absolute path, which `os.path.join` puts in place of the root) and the id ".." (the directory's parent) name paths outside the modelled directory, and are treated as missing.
- TrainingManager.TrainingManager.LoadTrainingImages: for the id "..", an absolute id or an id containing `/`, the model answers no images. The source lists whatever directory the joined path names, which is outside the model.
- TrainingManager.TrainingManager.DeleteStudentData: for the id "..", an absolute id or an id containing `/`, the model answers false with no change. The source removes whatever directory the joined path names, such as the training directory's parent for "..", which is outside the model.
- `capture_training_images` and `create_student_folder` are left out, because they are webcam capture, GUI and filesystem side effects. `ensure_directories` appears only as the constructor creating a missing training directory.
- These endpoints are not modelled: `api_list_students`, `api_get_attendance`, `api_export_attendance_csv`, `api_train_stats`, `root` and `healthz`. They are Flask plumbing around `get_all_students`, `get_attendance`, `export_attendance_csv` and `get_training_statistics`, which are modelled.
- Saving the upload to disk, `secure_filename` and the file name clash between uploads are left out. The upload is the decoded image, or None when there is no file part.
- The JSON and form values are taken to be strings. A non-string value in `request.json` (which would make `strip` raise, or `str()` format it) is not modelled.
- The `str(...)` and `float(...)` conversions in the recognition loop are left out, because the model's recognitions already carry those types.
- CSV file I/O is not modelled. The tables are the row lists `csv.DictReader` reads back, so short and long lines and the csv module's quoting are outside the model. `ProjectionRoundTrip` covers the per-row projection.
- Python's `int()`, `str.strip` and `str.lower` are modelled for ASCII only. Unicode digits, Unicode whitespace and case folding are not.
- Local storage reads and writes, the `Blob` download and `Date.now()` are not modelled. Stored values and the fresh id are parameters, because they are browser I/O and a clock.
- React's scheduling is not modelled. Which render a callback comes from is the `View` argument. When a render happens is left to the caller.
- The attendance screen's random choice of students and its timer are not modelled. `DataStore.AddEachFromOneRender` takes the chosen records and one `Date.now()` value per call.
- DataContext.DataStore.ExportContent has no contract of its own. `DataContext.ContentLines` states its line structure only for cells without ',' or '\n'. The source does not quote cells, so a record with a comma would split into extra columns.
- AuthContext.AuthState.Restore: keeps the signed-in-iff-user invariant only when the stored session carries a user. The source sets `isAuthenticated` even when the stored object has none.
- TrainingManager.TrainingManager.GatherEncodings: states the progress reports only when gathering succeeds. After a failing folder the reports made so far are not stated.
- TrainingManager.TrainingManager.TrainSystem: states the progress reports only when gathering succeeds, for the same reason.
- These helper methods exist only to split a loop body, and their contracts are the loop invariants they maintain: `App.Application.RecordKept`, `FaceDetector.FaceRecognitionSystem.DecideFace` and `AcceptFaces`, and `TrainingManager.TrainingManager.EncodeImage` and `GatherEncodings`.
