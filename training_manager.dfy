/**
 * The training side of `training/training_manager.py`: loading a student's images from the
 * training-data directory, turning them into encodings with the recognizer, aggregating every
 * student folder into one labelled training set, the statistics inventory and folder deletion.
 *
 * The directory is a `Root` value: absent, or its `os.listdir` order with one entry per name.
 * Decoding an image file (`cv2.imread`) is the `imread` arrow of the manager; the webcam capture
 * loop is not modelled.
 */
module TrainingManager {
  import opened Wrappers
  import Text
  import FD = FaceDetector

  /** An entry of the training-data directory: a folder with its file names in listing order, or a file. */
  datatype Node = Folder(names: seq<string>) | File

  /** The training-data directory: absent, or its listing order and the entry behind every listed name. */
  datatype Tree = Absent | Present(listing: seq<string>, entries: map<string, Node>)

  predicate NoDuplicates(s: seq<string>) {
    forall i, j :: 0 <= i < j < |s| ==> s[i] != s[j]
  }

  /** The ids that `os.path.join` resolves to the training-data directory itself. */
  predicate NamesRoot(id: string) {
    id == "" || id == "."
  }

  /**
   * A directory lists every entry exactly once, and, as `os.listdir` does, never the empty name,
   * "." or "..".
   */
  predicate WellFormed(t: Tree) {
    t.Present? ==>
      && NoDuplicates(t.listing) && "" !in t.listing && "." !in t.listing && ".." !in t.listing
      && t.entries.Keys == set n | n in t.listing
  }

  type Root = t: Tree | WellFormed(t) witness Absent

  /** A progress callback invocation: `progress_callback(message, percent)`. */
  datatype Progress = Progress(message: string, percent: real)

  /** One entry of `students_data`. */
  datatype StudentStats = StudentStats(imageCount: nat, folderPath: string)

  /** The dictionary `get_training_statistics` returns. */
  datatype Stats = Stats(totalStudents: nat, totalImages: nat, studentsData: map<string, StudentStats>)

  const NoTrainingData: string := "No training data found"
  const FitFailed: string := "Failed to train classifier"
  const TrainingFailed: string := "Training failed: "

  /** `os.path.join(a, b)` on POSIX. */
  function Join(a: string, b: string): string {
    if |b| > 0 && b[0] == '/' then b
    else if a == [] || a[|a| - 1] == '/' then a + b
    else a + "/" + b
  }

  /**
   * A joined path ends with the name joined on; an absolute name replaces the directory, and
   * any other name is joined under it with exactly one separator in between.
   */
  lemma JoinShape(a: string, b: string)
    ensures Text.EndsWith(Join(a, b), b)
    ensures |b| > 0 && b[0] == '/' ==> Join(a, b) == b
    ensures !(|b| > 0 && b[0] == '/') ==>
      && |a| <= |Join(a, b)| && Join(a, b)[..|a|] == a
      && (a != [] && a[|a| - 1] != '/' ==> Join(a, b)[|a|] == '/' && |Join(a, b)| == |a| + 1 + |b|)
  {
    var r := Join(a, b);
    if !(|b| > 0 && b[0] == '/') {
      if a == [] || a[|a| - 1] == '/' {
        assert r[|r| - |b|..] == b;
        assert r[..|a|] == a;
      } else {
        assert r == a + ("/" + b);
        assert r[|r| - |b|..] == b;
        assert r[..|a|] == a;
      }
    }
  }

  /** `str(FileNotFoundError)` for a missing directory, the quoting of `repr` simplified. */
  function MissingDirectory(path: string): string {
    "[Errno 2] No such file or directory: '" + path + "'"
  }

  /** `filename.lower().endswith(('.jpg', '.jpeg', '.png'))`. */
  predicate IsImageName(name: string) {
    var l := Text.Lower(name);
    Text.EndsWith(l, ".jpg") || Text.EndsWith(l, ".jpeg") || Text.EndsWith(l, ".png")
  }

  /** The names of a listing that pass the extension filter, in listing order. */
  function ImageNames(names: seq<string>): (r: seq<string>)
    ensures |r| <= |names|
    ensures forall n :: n in r <==> n in names && IsImageName(n)
  {
    if names == [] then []
    else
      var last := names[|names| - 1];
      assert names == names[..|names| - 1] + [last];
      ImageNames(names[..|names| - 1]) + (if IsImageName(last) then [last] else [])
  }

  /** The filter looks at the lowered name only, so it ignores the case of the extension. */
  lemma {:induction false} ImageNameIgnoresCase(name: string)
    ensures IsImageName(Text.Lower(name)) <==> IsImageName(name)
  {
    Text.LowerIdempotent(name);
  }

  /** The student folders of a listing: `[d for d in os.listdir(root) if os.path.isdir(...)]`. */
  function Folders(listing: seq<string>, entries: map<string, Node>): (r: seq<string>)
    requires forall n :: n in listing ==> n in entries
    ensures |r| <= |listing|
    ensures forall n :: n in r <==> n in listing && entries[n].Folder?
    ensures NoDuplicates(listing) ==> NoDuplicates(r)
  {
    if listing == [] then []
    else
      var last := listing[|listing| - 1];
      var front := listing[..|listing| - 1];
      assert listing == front + [last];
      assert NoDuplicates(listing) ==> last !in front;
      Folders(front, entries) + (if entries[last].Folder? then [last] else [])
  }

  /** The node `os.path.join(root, id)` names; the ids "" and "." name the root itself. */
  function StudentNode(t: Root, id: string): Option<Node> {
    match t
    case Absent => None
    case Present(listing, entries) =>
      if NamesRoot(id) then Some(Folder(listing))
      else if id in entries then Some(entries[id])
      else None
  }

  /** The folders of a present root. */
  function RootFolders(t: Root): seq<string>
    requires t.Present?
  {
    Folders(t.listing, t.entries)
  }

  /** Each listed folder is a folder under its own name. */
  lemma FolderNode(t: Root, f: string)
    requires t.Present? && f in RootFolders(t)
    ensures StudentNode(t, f) == Some(t.entries[f])
    ensures t.entries[f].Folder?
  {
  }

  /** The report made before folder `i` of `total` is processed: `(i / total) * 100`. */
  function Announcement(id: string, i: nat, total: nat): Progress
    requires i < total
  {
    Progress("Processing " + id + "...", (i as real / total as real) * 100.0)
  }

  /** The reports made before each of the first `n` folders. */
  function Announced(folders: seq<string>, n: nat): (r: seq<Progress>)
    requires n <= |folders|
    ensures |r| == n
  {
    if n == 0 then [] else Announced(folders, n - 1) + [Announcement(folders[n - 1], n - 1, |folders|)]
  }

  /** The reports made before each folder, one per folder. */
  function Announcements(folders: seq<string>): seq<Progress> {
    Announced(folders, |folders|)
  }

  /** Report `k` names folder `k` and carries a percentage in [0, 100). */
  lemma {:induction false} AnnouncedAt(folders: seq<string>, n: nat, k: nat)
    requires k < n <= |folders|
    ensures Announced(folders, n)[k] == Announcement(folders[k], k, |folders|)
    ensures 0.0 <= Announced(folders, n)[k].percent < 100.0
  {
    if k < n - 1 {
      AnnouncedAt(folders, n - 1, k);
    } else {
      FractionBounded(k, |folders|);
    }
  }

  /** Every per-folder report names its folder, in folder order, with a percentage in [0, 100). */
  lemma AnnouncementsBounded(folders: seq<string>)
    ensures |Announcements(folders)| == |folders|
    ensures forall k :: 0 <= k < |folders| ==>
      && Announcements(folders)[k].message == "Processing " + folders[k] + "..."
      && 0.0 <= Announcements(folders)[k].percent < 100.0
  {
    forall k | 0 <= k < |folders|
      ensures Announcements(folders)[k].message == "Processing " + folders[k] + "..."
      ensures 0.0 <= Announcements(folders)[k].percent < 100.0
    {
      AnnouncedAt(folders, |folders|, k);
    }
  }

  lemma FractionBounded(i: nat, n: nat)
    requires i < n
    ensures 0.0 <= (i as real / n as real) * 100.0 < 100.0
  {
    var q := i as real / n as real;
    assert q * n as real == i as real;
    assert q < 1.0;
  }

  /** A set of labels drawn from a list of folders has at most as many elements as the list. */
  lemma {:induction false} DistinctAtMost(labels: seq<string>, folders: seq<string>)
    requires forall l :: l in labels ==> l in folders
    ensures |set l | l in labels| <= |folders|
  {
    var a := set l | l in labels;
    var b := set f | f in folders;
    SubsetCardinality(a, b);
    SeqSetCardinality(folders);
  }

  lemma {:induction false} SubsetCardinality(a: set<string>, b: set<string>)
    requires a <= b
    ensures |a| <= |b|
    decreases |a|
  {
    if a != {} {
      var x :| x in a;
      SubsetCardinality(a - {x}, b - {x});
    }
  }

  lemma {:induction false} SeqSetCardinality(s: seq<string>)
    ensures |set x | x in s| <= |s|
  {
    if s != [] {
      var front := s[..|s| - 1];
      SeqSetCardinality(front);
      assert s == front + [s[|s| - 1]];
      assert (set x | x in s) == (set x | x in front) + {s[|s| - 1]};
    }
  }

  // ---------------------------------------------------------------- aggregation

  /** The encodings of the faces whose encoding exists, in face order. */
  function FaceEncodings(faces: seq<FD.DetectedFace>, encode: FD.Grid<FD.Triple> -> Option<seq<real>>): (r: seq<seq<real>>)
    ensures |r| <= |faces|
  {
    if faces == [] then []
    else
      var e := encode(faces[|faces| - 1].face);
      FaceEncodings(faces[..|faces| - 1], encode) + (if e.Some? then [e.value] else [])
  }

  /** The encodings of every detected face of every image, image by image. */
  function ImageEncodings(images: seq<FD.Image>, detect: Option<FD.Image> -> seq<FD.DetectedFace>,
                          encode: FD.Grid<FD.Triple> -> Option<seq<real>>): seq<seq<real>>
  {
    if images == [] then []
    else
      ImageEncodings(images[..|images| - 1], detect, encode)
        + FaceEncodings(detect(Some(images[|images| - 1])), encode)
  }

  lemma FaceEncodingsStep(faces: seq<FD.DetectedFace>, m: nat, encode: FD.Grid<FD.Triple> -> Option<seq<real>>)
    requires m < |faces|
    ensures var e := encode(faces[m].face);
      FaceEncodings(faces[..m + 1], encode) == FaceEncodings(faces[..m], encode) + (if e.Some? then [e.value] else [])
  {
    assert faces[..m + 1][..m] == faces[..m];
  }

  lemma ImageEncodingsStep(images: seq<FD.Image>, k: nat, detect: Option<FD.Image> -> seq<FD.DetectedFace>,
                           encode: FD.Grid<FD.Triple> -> Option<seq<real>>)
    requires k < |images|
    ensures ImageEncodings(images[..k + 1], detect, encode)
      == ImageEncodings(images[..k], detect, encode) + FaceEncodings(detect(Some(images[k])), encode)
  {
    assert images[..k + 1][..k] == images[..k];
  }

  /** A face contributes its encoding when it has one; an image without faces contributes nothing. */
  lemma FaceContribution(face: FD.DetectedFace, image: FD.Image, detect: Option<FD.Image> -> seq<FD.DetectedFace>,
                         encode: FD.Grid<FD.Triple> -> Option<seq<real>>)
    ensures FaceEncodings([face], encode) == if encode(face.face).Some? then [encode(face.face).value] else []
    ensures detect(Some(image)) == [] ==> ImageEncodings([image], detect, encode) == []
  {
    assert [face][..0] == [];
    assert [image][..0] == [];
  }

  /** `n` copies of a label. */
  function Repeat(x: string, n: nat): (r: seq<string>)
    ensures |r| == n && forall j :: 0 <= j < n ==> r[j] == x
  {
    if n == 0 then [] else Repeat(x, n - 1) + [x]
  }

  /** The inner loop of `train_system`: each encoding of a folder appended, labelled with the folder. */
  method AppendLabelled(encodings: seq<seq<real>>, labels: seq<string>, found: seq<seq<real>>, folder: string)
    returns (encodings': seq<seq<real>>, labels': seq<string>)
    ensures encodings' == encodings + found
    ensures labels' == labels + Repeat(folder, |found|)
  {
    encodings', labels' := encodings, labels;
    var k := 0;
    while k < |found|
      invariant 0 <= k <= |found|
      invariant encodings' == encodings + found[..k]
      invariant labels' == labels + Repeat(folder, k)
    {
      encodings' := encodings' + [found[k]];
      labels' := labels' + [folder];
      assert found[..k + 1] == found[..k] + [found[k]];
      k := k + 1;
    }
    assert found[..k] == found;
  }

  /**
   * The training set `train_system` accumulates over `folders`: the encodings of each folder,
   * each labelled with the folder's name, folder by folder; the first error stops it.
   */
  function Gathered(folders: seq<string>, encodings: string -> Result<seq<seq<real>>>): (r: Result<(seq<seq<real>>, seq<string>)>)
    ensures r.Ok? ==> |r.value.0| == |r.value.1|
    ensures r.Ok? ==> forall l :: l in r.value.1 ==> l in folders
  {
    if folders == [] then Ok(([], []))
    else
      var front := folders[..|folders| - 1];
      var last := folders[|folders| - 1];
      var prefix := Gathered(front, encodings);
      if prefix.Err? then prefix
      else
        match encodings(last)
        case Err(e) => Err(e)
        case Ok(es) => Ok((prefix.value.0 + es, prefix.value.1 + Repeat(last, |es|)))
  }

  /** Without an error on any folder the gathering succeeds. */
  lemma {:induction false} GatheredOk(folders: seq<string>, encodings: string -> Result<seq<seq<real>>>)
    requires forall f :: f in folders ==> encodings(f).Ok?
    ensures Gathered(folders, encodings).Ok?
  {
    if folders != [] {
      GatheredOk(folders[..|folders| - 1], encodings);
      assert folders[|folders| - 1] in folders;
    }
  }

  /** An error at folder `n - 1`, after a clean prefix, is the error of the whole gathering. */
  lemma {:induction false} GatheredErrorStops(folders: seq<string>, encodings: string -> Result<seq<seq<real>>>, n: nat)
    requires 0 < n <= |folders|
    requires Gathered(folders[..n - 1], encodings).Ok? && encodings(folders[n - 1]).Err?
    ensures Gathered(folders, encodings) == Err(encodings(folders[n - 1]).error)
    decreases |folders| - n
  {
    if n < |folders| {
      var front := folders[..|folders| - 1];
      assert front[..n - 1] == folders[..n - 1];
      GatheredErrorStops(front, encodings, n);
    } else {
      assert folders[..n - 1] == folders[..|folders| - 1];
    }
  }

  /**
   * Labels follow the listing order of the folders: a later label never belongs to an earlier
   * folder, so each folder's encodings form one contiguous run.
   */
  lemma {:induction false} GatheredInFolderOrder(folders: seq<string>, encodings: string -> Result<seq<seq<real>>>)
    requires NoDuplicates(folders) && Gathered(folders, encodings).Ok?
    ensures var labels := Gathered(folders, encodings).value.1;
      forall a, b :: 0 <= a < b < |labels| ==>
        FD.IndexOf(folders, labels[a]) <= FD.IndexOf(folders, labels[b])
  {
    if folders != [] {
      var front := folders[..|folders| - 1];
      var last := folders[|folders| - 1];
      assert folders == front + [last];
      var prefix := Gathered(front, encodings);
      GatheredInFolderOrder(front, encodings);
      var labels := Gathered(folders, encodings).value.1;
      var earlier := prefix.value.1;
      var es := encodings(last).value;
      assert labels == earlier + Repeat(last, |es|);
      forall l | l in front
        ensures FD.IndexOf(folders, l) == FD.IndexOf(front, l)
      {
        IndexOfPrefix(front, last, l);
      }
      IndexOfLast(folders);
      forall a, b | 0 <= a < b < |labels|
        ensures FD.IndexOf(folders, labels[a]) <= FD.IndexOf(folders, labels[b])
      {
        if b < |earlier| {
          assert labels[a] == earlier[a] && labels[b] == earlier[b];
        } else {
          assert labels[b] == last;
          if a < |earlier| {
            assert labels[a] in front;
          }
        }
      }
    }
  }

  /** The number of distinct labels is at most the number of folders: empty folders count too. */
  lemma DistinctLabelsAtMostFolders(folders: seq<string>, encodings: string -> Result<seq<seq<real>>>)
    requires Gathered(folders, encodings).Ok?
    ensures |set l | l in Gathered(folders, encodings).value.1| <= |folders|
  {
    DistinctAtMost(Gathered(folders, encodings).value.1, folders);
  }

  /** An element is found at the same place in any extension of the list. */
  lemma IndexOfPrefix(front: seq<string>, last: string, l: string)
    requires l in front
    ensures FD.IndexOf(front + [last], l) == FD.IndexOf(front, l)
  {
    var k := FD.IndexOf(front, l);
    var s := front + [last];
    assert s[k] == l;
    var j := FD.IndexOf(s, l);
    assert j <= k;
    assert front[j] == l;
  }

  lemma IndexOfLast(s: seq<string>)
    requires NoDuplicates(s) && s != []
    ensures FD.IndexOf(s, s[|s| - 1]) == |s| - 1
  {
  }

  /** The listing once `id` is removed. */
  function Without(s: seq<string>, id: string): (r: seq<string>)
    ensures forall n :: n in r <==> n in s && n != id
    ensures NoDuplicates(s) ==> NoDuplicates(r)
  {
    if s == [] then []
    else
      var front := s[..|s| - 1];
      var last := s[|s| - 1];
      assert s == front + [last];
      assert NoDuplicates(s) ==> last !in front;
      Without(front, id) + (if last == id then [] else [last])
  }

  /** The success message: the encodings counted, and every student folder counted. */
  function SuccessMessage(encodings: nat, students: nat): string {
    "Training completed successfully with " + Text.NatToString(encodings)
      + " face encodings from " + Text.NatToString(students) + " students"
  }

  // ---------------------------------------------------------------- the manager object

  class TrainingManager {
    const trainingDataPath: string
    const recognizer: FD.FaceRecognitionSystem
    /** `cv2.imread(path)`: the decoded image, or None when the file does not decode. */
    const imread: string -> Option<FD.Image>
    var root: Root

    /**
     * `__init__`: a fresh recognizer, then `ensure_directories`, which creates the training-data
     * directory when it is missing and leaves an existing one as it is.
     */
    constructor (trainingDataPath: string, backend: FD.Backend, storedClassifier: Option<FD.Svc>,
                 storedEncoder: Option<seq<string>>, imread: string -> Option<FD.Image>, root: Root)
      ensures this.trainingDataPath == trainingDataPath && this.imread == imread
      ensures fresh(recognizer) && recognizer.backend == backend
      ensures recognizer.classifier == storedClassifier && recognizer.labelEncoder == storedEncoder
      ensures this.root == if root.Absent? then Present([], map[]) else root
    {
      this.trainingDataPath := trainingDataPath;
      this.imread := imread;
      recognizer := new FD.FaceRecognitionSystem(backend, storedClassifier, storedEncoder);
      this.root := if root.Absent? then Present([], map[]) else root;
    }

    /** The images of a folder's listing that pass the extension filter and decode, in listing order. */
    function Images(folderPath: string, names: seq<string>): (r: seq<FD.Image>)
      ensures |r| <= |ImageNames(names)|
      ensures forall img :: img in r ==>
        exists n :: n in names && IsImageName(n) && imread(Join(folderPath, n)) == Some(img)
    {
      if names == [] then []
      else
        var front := names[..|names| - 1];
        var last := names[|names| - 1];
        assert names == front + [last];
        var file := imread(Join(folderPath, last));
        Images(folderPath, front) + (if IsImageName(last) && file.Some? then [file.value] else [])
    }

    /** One more listed name adds its decoded image when it is an image file that decodes. */
    lemma ImagesStep(folderPath: string, names: seq<string>, k: nat)
      requires k < |names|
      ensures Images(folderPath, names[..k + 1]) == Images(folderPath, names[..k]) +
        (if IsImageName(names[k]) && imread(Join(folderPath, names[k])).Some?
         then [imread(Join(folderPath, names[k])).value] else [])
    {
      assert names[..k + 1][..k] == names[..k];
    }

    /**
     * What `load_training_images(id)` gives on directory `t`: no images for a missing folder, the
     * decodable image files of an existing one, and `NotADirectoryError` from `os.listdir` when
     * the name is a file.
     */
    function Load(t: Root, id: string): Result<seq<FD.Image>> {
      match StudentNode(t, id)
      case None => Ok([])
      case Some(File) => Err("NotADirectoryError")
      case Some(Folder(names)) => Ok(Images(Join(trainingDataPath, id), names))
    }

    method LoadTrainingImages(id: string) returns (r: Result<seq<FD.Image>>)
      ensures StudentNode(root, id).None? ==> r == Ok([])
      ensures StudentNode(root, id) == Some(File) ==> r.Err?
      ensures r == Load(root, id)
    {
      var node := StudentNode(root, id);
      if node.None? {
        return Ok([]);
      }
      if node.value.File? {
        return Err("NotADirectoryError");
      }
      var folder := Join(trainingDataPath, id);
      var names := node.value.names;
      var images: seq<FD.Image> := [];
      var k := 0;
      while k < |names|
        invariant 0 <= k <= |names|
        invariant images == Images(folder, names[..k])
      {
        ImagesStep(folder, names, k);
        var filename := names[k];
        if IsImageName(filename) {
          var image := imread(Join(folder, filename));
          if image.Some? {
            images := images + [image.value];
          }
        }
        k := k + 1;
      }
      assert names[..k] == names;
      r := Ok(images);
    }

    /** What `extract_face_encodings_for_student(id)` gives on directory `t`. */
    function StudentEncodings(t: Root, id: string): Result<seq<seq<real>>> {
      match Load(t, id)
      case Err(e) => Err(e)
      case Ok(images) => Ok(ImageEncodings(images, recognizer.Detections, recognizer.Encode))
    }

    /** `StudentEncodings` on directory `t`, as a value. */
    function EncodingsIn(t: Root): string -> Result<seq<seq<real>>> {
      id => StudentEncodings(t, id)
    }

    /** Every encoding the recognizer yields for a set of images has 128 values. */
    lemma {:induction false} ImageEncodingsShape(images: seq<FD.Image>)
      ensures forall e :: e in ImageEncodings(images, recognizer.Detections, recognizer.Encode) ==> |e| == 128
    {
      if images != [] {
        ImageEncodingsShape(images[..|images| - 1]);
        FaceEncodingsShape(recognizer.Detections(Some(images[|images| - 1])));
      }
    }

    lemma {:induction false} FaceEncodingsShape(faces: seq<FD.DetectedFace>)
      ensures forall e :: e in FaceEncodings(faces, recognizer.Encode) ==> |e| == 128
    {
      if faces != [] {
        FaceEncodingsShape(faces[..|faces| - 1]);
        recognizer.EncodeShape(faces[|faces| - 1].face);
      }
    }

    /** The encodings of one image's detected faces, in detection order. */
    method EncodeImage(image: FD.Image) returns (found: seq<seq<real>>)
      ensures found == FaceEncodings(recognizer.Detections(Some(image)), recognizer.Encode)
    {
      var faces := recognizer.DetectFaces(Some(image));
      var encode := recognizer.Encode;
      found := [];
      var m := 0;
      while m < |faces|
        invariant 0 <= m <= |faces|
        invariant found == FaceEncodings(faces[..m], encode)
      {
        var encoding := recognizer.ExtractFaceEncoding(faces[m].face);
        FaceEncodingsStep(faces, m, encode);
        if encoding.Some? {
          found := found + [encoding.value];
        }
        m := m + 1;
      }
      assert faces[..m] == faces;
    }

    method ExtractFaceEncodingsForStudent(id: string) returns (r: Result<seq<seq<real>>>)
      ensures r == StudentEncodings(root, id)
    {
      var loaded := LoadTrainingImages(id);
      if loaded.Err? {
        return Err(loaded.error);
      }
      var images := loaded.value;
      var detect, encode := recognizer.Detections, recognizer.Encode;
      var encodings: seq<seq<real>> := [];
      var k := 0;
      while k < |images|
        invariant 0 <= k <= |images|
        invariant encodings == ImageEncodings(images[..k], detect, encode)
      {
        var found := EncodeImage(images[k]);
        ImageEncodingsStep(images, k, detect, encode);
        encodings := encodings + found;
        k := k + 1;
      }
      assert images[..k] == images;
      r := Ok(encodings);
    }

    /** Over the folders of a directory nothing fails: each of them lists as a folder. */
    lemma RootFoldersOk(t: Root)
      requires t.Present?
      ensures Gathered(RootFolders(t), EncodingsIn(t)).Ok?
    {
      forall f | f in RootFolders(t)
        ensures EncodingsIn(t)(f).Ok?
      {
        FolderNode(t, f);
      }
      GatheredOk(RootFolders(t), EncodingsIn(t));
    }

    /**
     * The folder loop of `train_system`: for each folder in turn a progress report when a callback
     * is given, then the folder's encodings, appended with the folder's name as their label; the
     * first error stops the loop.
     */
    method GatherEncodings(folders: seq<string>, observe: bool)
      returns (r: Result<(seq<seq<real>>, seq<string>)>, progress: seq<Progress>)
      ensures r == Gathered(folders, EncodingsIn(root))
      ensures r.Ok? ==> progress == if observe then Announcements(folders) else []
    {
      progress := [];
      var encodingsOf := EncodingsIn(root);
      var total := |folders|;
      var allEncodings: seq<seq<real>> := [];
      var allLabels: seq<string> := [];
      var i := 0;
      while i < total
        invariant 0 <= i <= total
        invariant Gathered(folders[..i], encodingsOf) == Ok((allEncodings, allLabels))
        invariant progress == if observe then Announced(folders, i) else []
      {
        var studentId := folders[i];
        if observe {
          progress := progress + [Announcement(studentId, i, total)];
        }
        var encodings := ExtractFaceEncodingsForStudent(studentId);
        assert encodings == encodingsOf(studentId);
        if encodings.Err? {
          assert folders[..i + 1][..i] == folders[..i];
          GatheredErrorStops(folders, encodingsOf, i + 1);
          return Err(encodings.error), progress;
        }
        GatheredStep(folders, encodingsOf, i);
        allEncodings, allLabels := AppendLabelled(allEncodings, allLabels, encodings.value, studentId);
        i := i + 1;
      }
      assert folders[..i] == folders;
      r := Ok((allEncodings, allLabels));
    }

    /**
     * `train_system`: without a training directory the listing raises and the failure is reported;
     * otherwise the folders' encodings are gathered and labelled, and with none at all the call
     * fails without training. Otherwise the classifier is trained on them and the message counts
     * the encodings and every folder. With `observe` the progress callback sees one report per
     * folder, then 90 and 100 around the training.
     */
    method TrainSystem(observe: bool, saved: bool) returns (ok: bool, message: string, progress: seq<Progress>)
      modifies recognizer
      ensures root.Absent? ==>
        && !ok && message == TrainingFailed + MissingDirectory(trainingDataPath)
        && progress == [] && unchanged(recognizer)
      ensures root.Present? ==>
        var folders := RootFolders(root);
        var g := old(Gathered(folders, EncodingsIn(root)));
        && (g.Err? ==> !ok && message == TrainingFailed + g.error && unchanged(recognizer))
        && (g.Ok? && g.value.0 == [] ==>
             && !ok && message == NoTrainingData && unchanged(recognizer)
             && progress == (if observe then Announcements(folders) else []))
        && (g.Ok? && g.value.0 != [] ==>
             var fit := recognizer.backend.fit(g.value.0, FD.EncodeLabels(g.value.1));
             && recognizer.labelEncoder == Some(FD.Classes(g.value.1))
             && (fit.None? ==> recognizer.classifier == Some(FD.Unfitted) && !ok && message == FitFailed)
             && (fit.Some? ==>
                   && recognizer.classifier == Some(FD.Fitted(fit.value)) && ok == saved
                   && message == if saved then SuccessMessage(|g.value.0|, |folders|) else FitFailed)
             && progress == (if observe then Announcements(folders)
                  + [Progress("Training classifier...", 90.0), Progress("Training completed!", 100.0)] else []))
    {
      progress := [];
      if root.Absent? {
        return false, TrainingFailed + MissingDirectory(trainingDataPath), progress;
      }
      var folders := RootFolders(root);
      var gathered, reports := GatherEncodings(folders, observe);
      progress := reports;
      if gathered.Err? {
        return false, TrainingFailed + gathered.error, progress;
      }
      var allEncodings, allLabels := gathered.value.0, gathered.value.1;
      var total := |folders|;
      if |allEncodings| == 0 {
        return false, NoTrainingData, progress;
      }
      if observe {
        progress := progress + [Progress("Training classifier...", 90.0)];
      }
      var success := recognizer.TrainClassifier(allEncodings, allLabels, saved);
      if observe {
        progress := progress + [Progress("Training completed!", 100.0)];
      }
      if success {
        ok, message := true, SuccessMessage(|allEncodings|, total);
      } else {
        ok, message := false, FitFailed;
      }
    }

    /** How many image files folder `f` of directory `t` holds, by name. */
    function FolderImageCount(t: Root, f: string): nat {
      match StudentNode(t, f)
      case Some(Folder(names)) => |ImageNames(names)|
      case _ => 0
    }

    /** The image files over a list of folders. */
    function TotalImages(t: Root, folders: seq<string>): nat {
      if folders == [] then 0
      else TotalImages(t, folders[..|folders| - 1]) + FolderImageCount(t, folders[|folders| - 1])
    }

    /** The `students_data` entries for a list of folders, a later entry replacing an earlier one. */
    function StudentsData(t: Root, folders: seq<string>): map<string, StudentStats> {
      if folders == [] then map[]
      else
        var f := folders[|folders| - 1];
        StudentsData(t, folders[..|folders| - 1])[f := StudentStats(FolderImageCount(t, f), Join(trainingDataPath, f))]
    }

    /** There is one entry per listed folder, holding its image count and its path. */
    lemma {:induction false} StudentsDataShape(t: Root, folders: seq<string>)
      ensures StudentsData(t, folders).Keys == set f | f in folders
      ensures forall f :: f in StudentsData(t, folders) ==>
        StudentsData(t, folders)[f] == StudentStats(FolderImageCount(t, f), Join(trainingDataPath, f))
    {
      if folders != [] {
        var front := folders[..|folders| - 1];
        StudentsDataShape(t, front);
        assert folders == front + [folders[|folders| - 1]];
        assert (set f | f in folders) == (set f | f in front) + {folders[|folders| - 1]};
      }
    }

    /**
     * `get_training_statistics`: all zeros without a training directory; otherwise one entry per
     * student folder with its image count and path, the folder count, and the sum of the counts.
     */
    method GetTrainingStatistics() returns (stats: Stats)
      ensures root.Absent? ==> stats == Stats(0, 0, map[])
      ensures root.Present? ==>
        var folders := RootFolders(root);
        && stats.totalStudents == |folders|
        && stats.studentsData.Keys == set f | f in folders
        && (forall f :: f in stats.studentsData ==>
              stats.studentsData[f] == StudentStats(FolderImageCount(root, f), Join(trainingDataPath, f)))
        && stats.totalImages == TotalImages(root, folders)
    {
      if root.Absent? {
        return Stats(0, 0, map[]);
      }
      var folders := RootFolders(root);
      stats := Stats(|folders|, 0, map[]);
      var k := 0;
      while k < |folders|
        invariant 0 <= k <= |folders|
        invariant stats == Stats(|folders|, TotalImages(root, folders[..k]), StudentsData(root, folders[..k]))
      {
        var studentId := folders[k];
        var studentFolder := Join(trainingDataPath, studentId);
        FolderNode(root, studentId);
        var imageCount := |ImageNames(root.entries[studentId].names)|;
        assert folders[..k + 1][..k] == folders[..k];
        stats := stats.(totalImages := stats.totalImages + imageCount,
                        studentsData := stats.studentsData[studentId := StudentStats(imageCount, studentFolder)]);
        k := k + 1;
      }
      assert folders[..k] == folders;
      StudentsDataShape(root, folders);
    }

    /**
     * `delete_student_data`: a missing folder gives False and changes nothing; a plain file makes
     * `shutil.rmtree` raise; a folder is removed with everything in it and True returned, after
     * which the name no longer exists. Other entries stay as they were.
     *
     * The id "" joins to the directory with a trailing "/", which `rmtree` removes whole. The id
     * "." joins to `<root>/.`: `rmtree` empties the directory, and its final `rmdir` fails, since
     * POSIX `rmdir(2)` refuses a path whose last component is "." (EINVAL), so an `OSError`
     * propagates and the emptied directory stays.
     */
    method DeleteStudentData(id: string) returns (r: Result<bool>)
      modifies this
      ensures StudentNode(old(root), id).None? ==> r == Ok(false) && root == old(root)
      ensures StudentNode(old(root), id) == Some(File) ==> r == Err("NotADirectoryError") && root == old(root)
      ensures id == "" && old(root).Present? ==> r == Ok(true) && root.Absent?
      ensures id == "." && old(root).Present? ==> r == Err("OSError") && root == Present([], map[])
      ensures !NamesRoot(id) && StudentNode(old(root), id).Some? && StudentNode(old(root), id).value.Folder? ==>
        && r == Ok(true) && StudentNode(root, id).None?
        && forall n :: n != id && !NamesRoot(n) ==> StudentNode(root, n) == StudentNode(old(root), n)
    {
      var node := StudentNode(root, id);
      if node.None? {
        return Ok(false);
      }
      if node.value.File? {
        return Err("NotADirectoryError");
      }
      if id == "" {
        root := Absent;
      } else if id == "." {
        root := Present([], map[]);
        return Err("OSError");
      } else {
        var listing := Without(root.listing, id);
        assert "" !in listing && "." !in listing && ".." !in listing;
        root := Present(listing, root.entries - {id});
      }
      r := Ok(true);
    }
  }

  /** One clean folder extends the gathering by its encodings, each labelled with the folder. */
  lemma GatheredStep(folders: seq<string>, encodings: string -> Result<seq<seq<real>>>, i: nat)
    requires i < |folders| && Gathered(folders[..i], encodings).Ok? && encodings(folders[i]).Ok?
    ensures var g := Gathered(folders[..i], encodings).value;
      var es := encodings(folders[i]).value;
      Gathered(folders[..i + 1], encodings) == Ok((g.0 + es, g.1 + Repeat(folders[i], |es|)))
  {
    assert folders[..i + 1][..i] == folders[..i];
  }
}
