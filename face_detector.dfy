/**
 * The recognition pipeline of `face_recognition/face_detector.py`: Haar-cascade detection with
 * box clamping, the handcrafted 128-value encoding (grey histogram and 20x20 patch statistics),
 * the label codec and linear SVM of the classifier store, and the confidence-gated decision.
 *
 * OpenCV and scikit-learn are not modelled: the cascade, the resize-and-grey conversion, the
 * patch standard deviation and the SVM are the fields of a `Backend` value fixed at construction.
 */
module FaceDetector {
  import opened Wrappers
  import Sorting

  /** A `numpy.uint8` grey level or channel value. */
  type uint8 = x: int | 0 <= x < 256

  /** A 2-D pixel array, row-major: `g[row][column]`. */
  type Grid<T> = seq<seq<T>>

  predicate IsGrid<T>(g: Grid<T>, rows: nat, cols: nat) {
    |g| == rows && forall i :: 0 <= i < rows ==> |g[i]| == cols
  }

  /** `shape[0]` and `shape[1]` of a 2-D array. */
  function Rows<T>(g: Grid<T>): nat { |g| }
  function Cols<T>(g: Grid<T>): nat { if g == [] then 0 else |g[0]| }

  /** A numpy array of this shape has no elements (`size == 0`). */
  predicate EmptyGrid<T>(g: Grid<T>) { g == [] || g[0] == [] }

  /** What `cv2.resize(face, (160, 160))` and the grey conversion deliver: exactly 160x160. */
  type Gray160 = g: Grid<uint8> | IsGrid(g, 160, 160)
    witness seq(160, _ => seq(160, _ => 0 as uint8))

  /** Three channels; a colour image holds them in OpenCV's B, G, R order. */
  datatype Triple = Triple(first: uint8, second: uint8, third: uint8)

  /** A decoded image: 3-channel BGR or single-channel grey. */
  datatype Image = Color(bgr: Grid<Triple>) | Gray(levels: Grid<uint8>)

  /** A raw `detectMultiScale` rectangle. */
  datatype Rect = Rect(x: int, y: int, w: int, h: int)

  /** The `(x, y, w, h)` box reported for a face. */
  datatype Box = Box(x: int, y: int, w: int, h: int)

  datatype DetectedFace = DetectedFace(face: Grid<Triple>, box: Box, confidence: real)

  /** One accepted face of `process_image_for_attendance`. */
  datatype Recognition = Recognition(studentId: string, confidence: real, box: Box)

  /** A fitted SVC: `predict` (None when it raises) and the `predict_proba` row. */
  datatype Model = Model(predict: seq<real> -> Option<int>, proba: seq<real> -> seq<real>)

  /** `self.classifier`: an SVC that was constructed, and fitted or not. */
  datatype Svc = Unfitted | Fitted(model: Model)

  /** The foreign code the pipeline calls. `None` stands for a raised exception. */
  datatype Backend = Backend(
    cascade: Image -> Option<seq<Rect>>,
    toGray160: Grid<Triple> -> Gray160,
    patchStd: Grid<uint8> -> real,
    fit: (seq<seq<real>>, seq<nat>) -> Option<Model>)

  /** The acceptance threshold: a face is kept only with a confidence strictly above it. */
  const Threshold: real := 0.7

  function Max(a: int, b: int): int { if a < b then b else a }
  function Min(a: int, b: int): int { if a < b then a else b }

  // ---------------------------------------------------------------- detection

  /**
   * The clamping of `detect_faces`: corner moved to non-negative coordinates, width and height
   * cut at the image edge but never below 1. Boxes already inside the image are kept as they are.
   */
  function ClampBox(r: Rect, cols: int, rows: int): (b: Box)
    ensures b.x >= 0 && b.y >= 0 && b.w >= 1 && b.h >= 1
    ensures b.x < cols ==> b.x + b.w <= cols
    ensures b.y < rows ==> b.y + b.h <= rows
    ensures b.x >= cols ==> b.w == 1
    ensures b.y >= rows ==> b.h == 1
    ensures 0 <= r.x && 1 <= r.w && r.x + r.w <= cols ==> b.x == r.x && b.w == r.w
    ensures 0 <= r.y && 1 <= r.h && r.y + r.h <= rows ==> b.y == r.y && b.h == r.h
  {
    var x := Max(0, r.x);
    var y := Max(0, r.y);
    Box(x, y, Max(1, Min(r.w, cols - x)), Max(1, Min(r.h, rows - y)))
  }

  /** Python's `s[lo:hi]` for non-negative bounds. */
  function Slice<T>(s: seq<T>, lo: nat, hi: nat): (r: seq<T>)
    ensures lo < |s| && lo < hi ==> |r| == Min(hi, |s|) - lo
    ensures lo >= |s| || hi <= lo ==> r == []
  {
    if lo >= |s| || hi <= lo then [] else s[lo..Min(hi, |s|)]
  }

  /** `g[y:y+h, x:x+w]`. */
  function Crop<T>(g: Grid<T>, b: Box): Grid<T>
    requires b.x >= 0 && b.y >= 0 && b.w >= 0 && b.h >= 0
  {
    var rs := Slice(g, b.y, b.y + b.h);
    seq(|rs|, i requires 0 <= i < |rs| => Slice(rs[i], b.x, b.x + b.w))
  }

  /**
   * A clamped box that starts inside the image crops exactly a `h` by `w` region; one that starts
   * at or past the right or bottom edge crops an empty array.
   */
  lemma CropShape<T>(g: Grid<T>, rows: nat, cols: nat, r: Rect)
    requires IsGrid(g, rows, cols)
    ensures var b := ClampBox(r, cols, rows);
      && (b.x < cols && b.y < rows ==> IsGrid(Crop(g, b), b.h, b.w))
      && (!(b.x < cols && b.y < rows) ==> EmptyGrid(Crop(g, b)))
  {
    var b := ClampBox(r, cols, rows);
    var c := Crop(g, b);
    if b.y < rows && b.x >= cols {
      assert |Slice(g, b.y, b.y + b.h)| > 0;
      assert c[0] == Slice(g[b.y], b.x, b.x + b.w);
    }
  }

  /** `cv2.cvtColor(image, COLOR_BGR2RGB)` and `COLOR_GRAY2RGB`. */
  function ToRgb(image: Image): Grid<Triple> {
    match image
    case Color(bgr) =>
      seq(|bgr|, i requires 0 <= i < |bgr| =>
        seq(|bgr[i]|, j requires 0 <= j < |bgr[i]| =>
          Triple(bgr[i][j].third, bgr[i][j].second, bgr[i][j].first)))
    case Gray(levels) =>
      seq(|levels|, i requires 0 <= i < |levels| =>
        seq(|levels[i]|, j requires 0 <= j < |levels[i]| =>
          Triple(levels[i][j], levels[i][j], levels[i][j])))
  }

  /** The entry `detect_faces` appends for one cascade rectangle. */
  function FaceAt(rgb: Grid<Triple>, r: Rect): DetectedFace {
    var b := ClampBox(r, Cols(rgb), Rows(rgb));
    DetectedFace(Crop(rgb, b), b, 1.0)
  }

  // ---------------------------------------------------------------- encoding

  function CountOf(s: seq<uint8>, k: int): nat {
    if s == [] then 0 else CountOf(s[..|s| - 1], k) + (if s[|s| - 1] == k then 1 else 0)
  }

  function SumOf(s: seq<uint8>): nat {
    if s == [] then 0 else SumOf(s[..|s| - 1]) + s[|s| - 1]
  }

  /** The pixels of a grid, row after row. */
  function Pixels(g: Grid<uint8>): seq<uint8> {
    if g == [] then [] else Pixels(g[..|g| - 1]) + g[|g| - 1]
  }

  /** `cv2.calcHist([gray], [0], None, [256], [0, 256])`: bin k counts the pixels of level k. */
  function Histogram(g: Grid<uint8>): (h: seq<nat>)
    ensures |h| == 256
  {
    seq(256, k requires 0 <= k < 256 => CountOf(Pixels(g), k))
  }

  function SumNats(s: seq<nat>): nat {
    if s == [] then 0 else SumNats(s[..|s| - 1]) + s[|s| - 1]
  }

  /** Sum of bins 0 .. n-1. */
  function SumBins(s: seq<uint8>, n: nat): nat {
    if n == 0 then 0 else SumBins(s, n - 1) + CountOf(s, n - 1)
  }

  lemma {:induction false} SumBinsSnoc(s: seq<uint8>, p: uint8, n: nat)
    ensures SumBins(s + [p], n) == SumBins(s, n) + (if p < n then 1 else 0)
  {
    if n > 0 {
      SumBinsSnoc(s, p, n - 1);
      assert (s + [p])[..|s + [p]| - 1] == s;
    }
  }

  lemma {:induction false} SumBinsEmpty(n: nat)
    ensures SumBins([], n) == 0
  {
    if n > 0 {
      SumBinsEmpty(n - 1);
    }
  }

  lemma {:induction false} SumBinsAll(s: seq<uint8>)
    ensures SumBins(s, 256) == |s|
  {
    if s == [] {
      SumBinsEmpty(256);
    } else {
      var s' := s[..|s| - 1];
      SumBinsAll(s');
      assert s == s' + [s[|s| - 1]];
      SumBinsSnoc(s', s[|s| - 1], 256);
    }
  }

  lemma {:induction false} SumNatsPrefix(g: Grid<uint8>, n: nat)
    requires n <= 256
    ensures SumNats(Histogram(g)[..n]) == SumBins(Pixels(g), n)
  {
    if n > 0 {
      SumNatsPrefix(g, n - 1);
      assert Histogram(g)[..n][..n - 1] == Histogram(g)[..n - 1];
    }
  }

  lemma {:induction false} PixelsCount(g: Grid<uint8>, rows: nat, cols: nat)
    requires IsGrid(g, rows, cols)
    ensures |Pixels(g)| == rows * cols
  {
    if g != [] {
      var front := g[..|g| - 1];
      assert IsGrid(front, rows - 1, cols) by {
        forall i | 0 <= i < rows - 1 ensures |front[i]| == cols {
          assert front[i] == g[i];
        }
      }
      PixelsCount(front, rows - 1, cols);
      assert |g[|g| - 1]| == cols;
      assert (rows - 1) * cols + cols == rows * cols;
    }
  }

  /** The 256 histogram bins together count every pixel of the grid exactly once. */
  lemma HistogramSumsToPixelCount(g: Grid<uint8>, rows: nat, cols: nat)
    requires IsGrid(g, rows, cols)
    ensures SumNats(Histogram(g)) == rows * cols
  {
    SumNatsPrefix(g, 256);
    assert Histogram(g)[..256] == Histogram(g);
    SumBinsAll(Pixels(g));
    PixelsCount(g, rows, cols);
  }

  /** `float(patch.mean())`: the pixel sum over `patch.size`. */
  function Mean(p: Grid<uint8>): real {
    var pixels := Pixels(p);
    if pixels == [] then 0.0 else SumOf(pixels) as real / |pixels| as real
  }

  /** `gray[i:i+20, j:j+20]`. */
  function Patch(g: Grid<uint8>, i: nat, j: nat): Grid<uint8> {
    Crop(g, Box(j, i, 20, 20))
  }

  /** The values the inner scan loop emits for row band `i` from column `j` on. */
  function ScanRow(g: Grid<uint8>, i: nat, j: nat, mean: Grid<uint8> -> real, std: Grid<uint8> -> real): seq<real>
    decreases Cols(g) - j
  {
    if j >= Cols(g) then []
    else
      var p := Patch(g, i, j);
      (if !EmptyGrid(p) then [mean(p), std(p)] else []) + ScanRow(g, i, j + 20, mean, std)
  }

  /** The values the nested scan loops emit from row band `i` on. */
  function Scan(g: Grid<uint8>, i: nat, mean: Grid<uint8> -> real, std: Grid<uint8> -> real): seq<real>
    decreases Rows(g) - i
  {
    if i >= Rows(g) then [] else ScanRow(g, i, 0, mean, std) + Scan(g, i + 20, mean, std)
  }

  /** `features`: mean and standard deviation of every 20x20 patch, rows of patches first. */
  function PatchScan(g: Grid<uint8>, mean: Grid<uint8> -> real, std: Grid<uint8> -> real): seq<real> {
    Scan(g, 0, mean, std)
  }

  /** Python's `s[:n]`. */
  function Take<T>(s: seq<T>, n: nat): seq<T> {
    if |s| <= n then s else s[..n]
  }

  /** `np.concatenate([hist[:50], features[:78]])`. */
  function FeatureVector(g: Grid<uint8>, std: Grid<uint8> -> real): seq<real> {
    seq(50, k requires 0 <= k < 50 => Histogram(g)[k] as real) + Take(PatchScan(g, Mean, std), 78)
  }

  /** Number of 20-wide steps `range(0, n, 20)` takes. */
  function Steps(n: int): nat
    decreases n
  {
    if n <= 0 then 0 else 1 + Steps(n - 20)
  }

  lemma {:induction false} StepsIsCeiling(n: nat)
    ensures Steps(n) == (n + 19) / 20
  {
    if n > 20 {
      StepsIsCeiling(n - 20);
    } else if n > 0 {
      assert Steps(n - 20) == 0;
    }
  }

  /** Every patch the scan visits inside a rectangular grid holds at least one pixel. */
  lemma PatchNonEmpty(g: Grid<uint8>, rows: nat, cols: nat, i: nat, j: nat)
    requires IsGrid(g, rows, cols) && i < rows && j < cols
    ensures !EmptyGrid(Patch(g, i, j))
  {
    var p := Patch(g, i, j);
    assert |p| > 0;
    assert p[0] == Slice(g[i], j, j + 20);
  }

  lemma {:induction false} ScanRowLength(g: Grid<uint8>, rows: nat, cols: nat, i: nat, j: nat, mean: Grid<uint8> -> real, std: Grid<uint8> -> real)
    requires IsGrid(g, rows, cols) && i < rows
    ensures |ScanRow(g, i, j, mean, std)| == 2 * Steps(cols - j)
    decreases cols - j
  {
    if j < cols {
      PatchNonEmpty(g, rows, cols, i, j);
      ScanRowLength(g, rows, cols, i, j + 20, mean, std);
    }
  }

  /** One step of `s * band` when `s` is a successor. */
  lemma MulStep(s: nat, a: nat, band: nat)
    requires s == 1 + a
    ensures s * band == band + a * band
  {
  }

  lemma {:induction false} ScanLength(g: Grid<uint8>, rows: nat, cols: nat, i: nat, mean: Grid<uint8> -> real, std: Grid<uint8> -> real)
    requires IsGrid(g, rows, cols)
    ensures |Scan(g, i, mean, std)| == Times(Steps(rows - i), 2 * Steps(cols))
    decreases rows - i
  {
    if i < rows {
      var rest := Scan(g, i + 20, mean, std);
      ScanLength(g, rows, cols, i + 20, mean, std);
      BandLength(g, rows, cols, i, mean, std);
      assert Scan(g, i, mean, std) == ScanRow(g, i, 0, mean, std) + rest;
      assert Steps(rows - i) == 1 + Steps(rows - (i + 20));
    }
  }

  /** One step of the inner scan loop inside the image: the patch at `j` contributes a pair. */
  lemma ScanRowStep(g: Grid<uint8>, rows: nat, cols: nat, i: nat, j: nat, mean: Grid<uint8> -> real, std: Grid<uint8> -> real)
    requires IsGrid(g, rows, cols) && i < rows && j < cols
    ensures ScanRow(g, i, j, mean, std) == [mean(Patch(g, i, j)), std(Patch(g, i, j))] + ScanRow(g, i, j + 20, mean, std)
  {
    PatchNonEmpty(g, rows, cols, i, j);
  }

  lemma {:induction false} ScanRowAt(g: Grid<uint8>, rows: nat, cols: nat, i: nat, j: nat, mean: Grid<uint8> -> real, std: Grid<uint8> -> real, k: nat, c: nat)
    requires IsGrid(g, rows, cols) && i < rows && k < Steps(cols - j) && c == j + 20 * k
    ensures 2 * k + 1 < |ScanRow(g, i, j, mean, std)|
    ensures ScanRow(g, i, j, mean, std)[2 * k] == mean(Patch(g, i, c))
    ensures ScanRow(g, i, j, mean, std)[2 * k + 1] == std(Patch(g, i, c))
    decreases k
  {
    ScanRowLength(g, rows, cols, i, j, mean, std);
    assert Steps(cols - j) == 1 + Steps(cols - (j + 20));
    ScanRowStep(g, rows, cols, i, j, mean, std);
    var pair := [mean(Patch(g, i, j)), std(Patch(g, i, j))];
    var rest := ScanRow(g, i, j + 20, mean, std);
    if k > 0 {
      ScanRowAt(g, rows, cols, i, j + 20, mean, std, k - 1, c);
      PairAfter(pair, rest, 2 * (k - 1));
    }
  }

  /** A whole band: `2 * Steps(cols)` values, the pair for patch column `k` at `2 * k`. */
  lemma BandLength(g: Grid<uint8>, rows: nat, cols: nat, i: nat, mean: Grid<uint8> -> real, std: Grid<uint8> -> real)
    requires IsGrid(g, rows, cols) && i < rows
    ensures |ScanRow(g, i, 0, mean, std)| == 2 * Steps(cols)
  {
    ScanRowLength(g, rows, cols, i, 0, mean, std);
  }

  lemma BandAt(g: Grid<uint8>, rows: nat, cols: nat, i: nat, mean: Grid<uint8> -> real, std: Grid<uint8> -> real, k: nat)
    requires IsGrid(g, rows, cols) && i < rows && k < Steps(cols)
    ensures 2 * k + 1 < |ScanRow(g, i, 0, mean, std)|
    ensures ScanRow(g, i, 0, mean, std)[2 * k] == mean(Patch(g, i, 20 * k))
    ensures ScanRow(g, i, 0, mean, std)[2 * k + 1] == std(Patch(g, i, 20 * k))
  {
    assert Steps(cols - 0) == Steps(cols);
    ScanRowAt(g, rows, cols, i, 0, mean, std, k, 20 * k);
  }

  lemma AppendAssoc<T>(a: seq<T>, b: seq<T>, c: seq<T>)
    ensures (a + b) + c == a + (b + c)
  {
  }

  /** Where the outer scan loop enters row band `i`, the values still due are that band's, then the rest. */
  lemma ScanEnterBand(g: Grid<uint8>, i: nat, mean: Grid<uint8> -> real, std: Grid<uint8> -> real, features: seq<real>)
    requires i < Rows(g)
    ensures features + Scan(g, i, mean, std) == features + ScanRow(g, i, 0, mean, std) + Scan(g, i + 20, mean, std)
  {
    AppendAssoc(features, ScanRow(g, i, 0, mean, std), Scan(g, i + 20, mean, std));
  }

  /** One inner-loop step: the patch at column `j`, when it has pixels, moves its pair into `features`. */
  lemma ScanRowEmit(g: Grid<uint8>, i: nat, j: nat, mean: Grid<uint8> -> real, std: Grid<uint8> -> real, features: seq<real>)
    requires j < Cols(g)
    ensures var p := Patch(g, i, j);
      features + ScanRow(g, i, j, mean, std) + Scan(g, i + 20, mean, std)
      == (if EmptyGrid(p) then features else features + [mean(p), std(p)])
         + ScanRow(g, i, j + 20, mean, std) + Scan(g, i + 20, mean, std)
  {
    var p := Patch(g, i, j);
    var piece := if EmptyGrid(p) then [] else [mean(p), std(p)];
    var row', rest := ScanRow(g, i, j + 20, mean, std), Scan(g, i + 20, mean, std);
    assert ScanRow(g, i, j, mean, std) == piece + row';
    AppendAssoc(features, piece + row', rest);
    AppendAssoc(piece, row', rest);
    AppendAssoc(features, piece, row' + rest);
    AppendAssoc(features + piece, row', rest);
    assert EmptyGrid(p) ==> features + piece == features;
  }

  /** `a * b` as repeated addition, which keeps the index arithmetic below linear. */
  function Times(a: nat, b: nat): nat
  {
    if a == 0 then 0 else b + Times(a - 1, b)
  }

  lemma {:induction false} TimesIsProduct(a: nat, b: nat)
    ensures Times(a, b) == a * b
  {
    if a > 0 {
      TimesIsProduct(a - 1, b);
      MulStep(a, a - 1, b);
    }
  }

  lemma ConcatAt<T>(a: seq<T>, b: seq<T>, n: nat)
    requires |a| <= n < |a| + |b|
    ensures (a + b)[n] == b[n - |a|]
  {
  }

  lemma PairAfter<T>(a: seq<T>, b: seq<T>, m: nat)
    requires m + 1 < |b|
    ensures (a + b)[|a| + m] == b[m] && (a + b)[|a| + m + 1] == b[m + 1]
  {
  }

  /** Index `n` of the scan from band `i` on falls in band `r`, at position `2 * bj` of that band. */
  lemma {:induction false} ScanAt(g: Grid<uint8>, rows: nat, cols: nat, i: nat, mean: Grid<uint8> -> real, std: Grid<uint8> -> real, bi: nat, bj: nat, r: nat, n: nat)
    requires IsGrid(g, rows, cols) && bi < Steps(rows - i) && bj < Steps(cols)
    requires r == i + 20 * bi && n == Times(bi, 2 * Steps(cols)) + 2 * bj
    ensures r < rows && 2 * bj + 1 < |ScanRow(g, r, 0, mean, std)|
    ensures n + 1 < |Scan(g, i, mean, std)|
    ensures Scan(g, i, mean, std)[n] == ScanRow(g, r, 0, mean, std)[2 * bj]
    ensures Scan(g, i, mean, std)[n + 1] == ScanRow(g, r, 0, mean, std)[2 * bj + 1]
    decreases bi
  {
    var band := 2 * Steps(cols);
    assert i < rows;
    var row := ScanRow(g, i, 0, mean, std);
    var rest := Scan(g, i + 20, mean, std);
    BandLength(g, rows, cols, i, mean, std);
    assert Scan(g, i, mean, std) == row + rest;
    if bi == 0 {
      assert r == i && n == 2 * bj && n + 1 < |row|;
      assert Scan(g, i, mean, std)[n] == row[n] && Scan(g, i, mean, std)[n + 1] == row[n + 1];
    } else {
      assert Steps(rows - i) == 1 + Steps(rows - (i + 20));
      assert Times(bi, band) == band + Times(bi - 1, band);
      var m := n - band;
      ScanAt(g, rows, cols, i + 20, mean, std, bi - 1, bj, r, m);
      PairAfter(row, rest, m);
    }
  }

  /**
   * For an H x W grid the patch scan emits 2 * ceil(H/20) * ceil(W/20) values, and the pair for
   * patch row `bi`, patch column `bj` sits at index 2 * (bi * ceil(W/20) + bj): row-major order.
   */
  lemma PatchScanLayout(g: Grid<uint8>, rows: nat, cols: nat, mean: Grid<uint8> -> real, std: Grid<uint8> -> real, bi: nat, bj: nat)
    requires IsGrid(g, rows, cols)
    ensures |PatchScan(g, mean, std)| == 2 * ((rows + 19) / 20) * ((cols + 19) / 20)
    ensures bi < (rows + 19) / 20 && bj < (cols + 19) / 20 ==>
      var k := 2 * (bi * ((cols + 19) / 20) + bj);
      var p := Patch(g, 20 * bi, 20 * bj);
      && k + 1 < |PatchScan(g, mean, std)|
      && PatchScan(g, mean, std)[k] == mean(p) && PatchScan(g, mean, std)[k + 1] == std(p)
  {
    var nr, nc := Steps(rows), Steps(cols);
    ScanLength(g, rows, cols, 0, mean, std);
    assert |PatchScan(g, mean, std)| == Times(nr, 2 * nc);
    TimesIsProduct(nr, 2 * nc);
    StepsIsCeiling(rows);
    StepsIsCeiling(cols);
    Rearrange(nr, nc, bi, bj);
    if bi < nr && bj < nc {
      TimesIsProduct(bi, 2 * nc);
      ScanAt(g, rows, cols, 0, mean, std, bi, bj, 20 * bi, Times(bi, 2 * nc) + 2 * bj);
      BandAt(g, rows, cols, 20 * bi, mean, std, bj);
    }
  }

  lemma Rearrange(nr: nat, nc: nat, bi: nat, bj: nat)
    ensures nr * (2 * nc) == 2 * nr * nc
    ensures bi * (2 * nc) + 2 * bj == 2 * (bi * nc + bj)
  {
  }

  /**
   * On the 160x160 grey face every encoding has exactly 128 values: the first 50 histogram bins
   * in bin order, then the first 78 patch values (the first 39 patches in scan order).
   */
  lemma FeatureVectorLayout(g: Gray160, std: Grid<uint8> -> real)
    ensures |FeatureVector(g, std)| == 128
    ensures forall k :: 0 <= k < 50 ==> FeatureVector(g, std)[k] == Histogram(g)[k] as real
    ensures forall t :: 0 <= t < 78 ==> FeatureVector(g, std)[50 + t] == PatchScan(g, Mean, std)[t]
  {
    PatchScanLayout(g, 160, 160, Mean, std, 0, 0);
    assert |PatchScan(g, Mean, std)| == 128;
  }

  // ---------------------------------------------------------------- label codec and decision

  /** `np.max(probabilities)`. */
  function MaxOf(s: seq<real>): (m: real)
    requires |s| > 0
    ensures m in s
    ensures forall i :: 0 <= i < |s| ==> s[i] <= m
  {
    if |s| == 1 then s[0]
    else
      var m := MaxOf(s[..|s| - 1]);
      assert forall i :: 0 <= i < |s| - 1 ==> s[..|s| - 1][i] == s[i];
      if m < s[|s| - 1] then s[|s| - 1] else m
  }

  predicate Distinct(s: seq<string>) {
    forall i, j :: 0 <= i < j < |s| ==> s[i] != s[j]
  }

  /** Labels are ordered by themselves. */
  function Itself(t: string): string {
    t
  }

  function InsertLabel(x: string, s: seq<string>): (r: seq<string>)
    ensures Distinct(s) ==> Distinct(r)
    ensures multiset(r) == if x in s then multiset(s) else multiset(s) + multiset{x}
  {
    if x in s then s
    else
      InsertDistinct(x, s);
      Sorting.InsertBy(x, s, Itself)
  }

  lemma {:induction false} InsertDistinct(x: string, s: seq<string>)
    requires x !in s
    ensures Distinct(s) ==> Distinct(Sorting.InsertBy(x, s, Itself))
  {
    var key := Itself;
    var r := Sorting.InsertBy(x, s, key);
    if Distinct(s) && !(s == [] || Sorting.StrLe(key(x), key(s[0]))) {
      InsertDistinct(x, s[1..]);
      var t := Sorting.InsertBy(x, s[1..], key);
      assert r == [s[0]] + t;
      assert s[0] !in multiset(t);
    }
  }

  /** `LabelEncoder().fit(labels).classes_`: the distinct labels in ascending order. */
  function Classes(labels: seq<string>): (c: seq<string>)
    ensures forall l :: l in c <==> l in labels
    ensures Distinct(c)
    ensures Sorting.SortedBy(c, Itself)
  {
    if labels == [] then []
    else
      var front, last := labels[..|labels| - 1], labels[|labels| - 1];
      assert labels == front + [last];
      var rest := Classes(front);
      InsertLabelKeeps(last, rest);
      InsertLabel(last, rest)
  }

  /** Adding a label to a sorted distinct list keeps it sorted and distinct, with the label added. */
  lemma InsertLabelKeeps(x: string, s: seq<string>)
    requires Distinct(s) && Sorting.SortedBy(s, Itself)
    ensures forall l :: l in InsertLabel(x, s) <==> l in s || l == x
    ensures Distinct(InsertLabel(x, s))
    ensures Sorting.SortedBy(InsertLabel(x, s), Itself)
  {
    var c := InsertLabel(x, s);
    Sorting.InsertBySorted(x, s, Itself);
    assert forall l :: l in c <==> l in multiset(c);
  }

  function IndexOf(s: seq<string>, x: string): (k: nat)
    requires x in s
    ensures k < |s| && s[k] == x
    ensures forall i :: 0 <= i < k ==> s[i] != x
  {
    if s[0] == x then 0 else 1 + IndexOf(s[1..], x)
  }

  /** `fit_transform(labels)`: each label's index among the classes. */
  function EncodeLabels(labels: seq<string>): (codes: seq<nat>)
    ensures |codes| == |labels|
  {
    var c := Classes(labels);
    seq(|labels|, k requires 0 <= k < |labels| => IndexOf(c, labels[k]))
  }

  /** Decoding the codes of the training labels with the fitted classes gives the labels back. */
  lemma LabelCodecRoundTrip(labels: seq<string>, k: nat)
    requires k < |labels|
    ensures EncodeLabels(labels)[k] < |Classes(labels)|
    ensures Classes(labels)[EncodeLabels(labels)[k]] == labels[k]
  {
    assert labels[k] in Classes(labels);
  }

  // ---------------------------------------------------------------- the recognizer object

  class FaceRecognitionSystem {
    const backend: Backend
    var classifier: Option<Svc>
    var labelEncoder: Option<seq<string>>

    /** `__init__`: nothing trained, then `load_models` with the two stored artifacts (None: no file). */
    constructor (backend: Backend, storedClassifier: Option<Svc>, storedEncoder: Option<seq<string>>)
      ensures this.backend == backend
      ensures classifier == storedClassifier && labelEncoder == storedEncoder
    {
      this.backend := backend;
      classifier := None;
      labelEncoder := None;
      new;
      LoadModels(storedClassifier, storedEncoder);
    }

    /** `load_models`: each artifact that exists replaces its field; a missing one leaves it. */
    method LoadModels(storedClassifier: Option<Svc>, storedEncoder: Option<seq<string>>)
      modifies this
      ensures classifier == if storedClassifier.Some? then storedClassifier else old(classifier)
      ensures labelEncoder == if storedEncoder.Some? then storedEncoder else old(labelEncoder)
    {
      if storedClassifier.Some? {
        classifier := storedClassifier;
      }
      if storedEncoder.Some? {
        labelEncoder := storedEncoder;
      }
    }

    /** What `detect_faces` returns for a (possibly unreadable) image. */
    function Detections(image: Option<Image>): seq<DetectedFace> {
      if image.None? then []
      else
        var rgb := ToRgb(image.value);
        match backend.cascade(image.value)
        case None => []
        case Some(rects) => seq(|rects|, i requires 0 <= i < |rects| => FaceAt(rgb, rects[i]))
    }

    /**
     * `detect_faces`: one entry per cascade rectangle, in rectangle order, with the clamped box,
     * its crop and confidence 1.0; nothing for a missing image or when detection raises.
     */
    method DetectFaces(image: Option<Image>) returns (faces: seq<DetectedFace>)
      ensures image.None? || backend.cascade(image.value).None? ==> faces == []
      ensures image.Some? && backend.cascade(image.value).Some? ==>
        var rgb := ToRgb(image.value);
        var rects := backend.cascade(image.value).value;
        && |faces| == |rects|
        && forall i :: 0 <= i < |faces| ==>
             && faces[i].box == ClampBox(rects[i], Cols(rgb), Rows(rgb))
             && faces[i].face == Crop(rgb, faces[i].box)
             && faces[i].confidence == 1.0
      ensures faces == Detections(image)
    {
      if image.None? {
        return [];
      }
      var rgb := ToRgb(image.value);
      var found := backend.cascade(image.value);
      if found.None? {
        return [];
      }
      var rects := found.value;
      faces := [];
      var k := 0;
      while k < |rects|
        invariant 0 <= k <= |rects|
        invariant |faces| == k
        invariant forall i :: 0 <= i < k ==> faces[i] == FaceAt(rgb, rects[i])
      {
        var b := ClampBox(rects[k], Cols(rgb), Rows(rgb));
        faces := faces + [DetectedFace(Crop(rgb, b), b, 1.0)];
        k := k + 1;
      }
    }

    /** `preprocess_face`: the 160x160 grey face, or None when `cv2.resize` rejects an empty crop. */
    function PreprocessFace(face: Grid<Triple>): (r: Option<Gray160>)
      ensures r.None? <==> EmptyGrid(face)
    {
      if EmptyGrid(face) then None else Some(backend.toGray160(face))
    }

    /** `simple_feature_extraction`: histogram bins and patch statistics of the grey face. */
    method SimpleFeatureExtraction(gray: Grid<uint8>) returns (combined: seq<real>)
      ensures combined == FeatureVector(gray, backend.patchStd)
    {
      var mean, std := Mean, backend.patchStd;
      var features: seq<real> := [];
      var i: nat := 0;
      while i < Rows(gray)
        invariant features + Scan(gray, i, mean, std) == Scan(gray, 0, mean, std)
        decreases Rows(gray) - i
      {
        ScanEnterBand(gray, i, mean, std, features);
        var j: nat := 0;
        while j < Cols(gray)
          invariant features + ScanRow(gray, i, j, mean, std) + Scan(gray, i + 20, mean, std) == Scan(gray, 0, mean, std)
          decreases Cols(gray) - j
        {
          var patch := Patch(gray, i, j);
          ScanRowEmit(gray, i, j, mean, std, features);
          if !EmptyGrid(patch) {
            features := features + [mean(patch), std(patch)];
          }
          j := j + 20;
        }
        assert ScanRow(gray, i, j, mean, std) == [];
        assert features + [] == features;
        i := i + 20;
      }
      var hist := Histogram(gray);
      combined := seq(50, k requires 0 <= k < 50 => hist[k] as real) + Take(features, 78);
    }

    /** What `extract_face_encoding` returns for a crop. */
    function Encode(face: Grid<Triple>): Option<seq<real>> {
      match PreprocessFace(face)
      case None => None
      case Some(gray) => Some(FeatureVector(gray, backend.patchStd))
    }

    /** `extract_face_encoding`: None for an empty crop, otherwise a 128-value encoding. */
    method ExtractFaceEncoding(face: Grid<Triple>) returns (encoding: Option<seq<real>>)
      ensures encoding.None? <==> EmptyGrid(face)
      ensures encoding.Some? ==> |encoding.value| == 128
      ensures encoding == Encode(face)
    {
      var preprocessed := PreprocessFace(face);
      if preprocessed.None? {
        return None;
      }
      var combined := SimpleFeatureExtraction(preprocessed.value);
      FeatureVectorLayout(preprocessed.value, backend.patchStd);
      encoding := Some(combined);
    }

    /** The encoding of a crop exists exactly when the crop has pixels, and then has 128 values. */
    lemma EncodeShape(face: Grid<Triple>)
      ensures Encode(face).None? <==> EmptyGrid(face)
      ensures Encode(face).Some? ==> |Encode(face).value| == 128
    {
      if !EmptyGrid(face) {
        FeatureVectorLayout(backend.toGray160(face), backend.patchStd);
      }
    }

    /**
     * `train_classifier`: the label encoder is refitted first and an unfitted SVC installed; a
     * successful fit replaces it with the fitted model. The call reports success only when the
     * fit succeeded and both artifacts were written (`saved`).
     */
    method TrainClassifier(encodings: seq<seq<real>>, labels: seq<string>, saved: bool) returns (ok: bool)
      modifies this
      ensures labelEncoder == Some(Classes(labels))
      ensures backend.fit(encodings, EncodeLabels(labels)).None? ==> classifier == Some(Unfitted) && !ok
      ensures backend.fit(encodings, EncodeLabels(labels)).Some? ==>
        classifier == Some(Fitted(backend.fit(encodings, EncodeLabels(labels)).value)) && ok == saved
    {
      labelEncoder := Some(Classes(labels));
      var encodedLabels := EncodeLabels(labels);
      classifier := Some(Unfitted);
      var fitted := backend.fit(encodings, encodedLabels);
      if fitted.None? {
        return false;
      }
      classifier := Some(Fitted(fitted.value));
      ok := saved;
    }

    /**
     * `recognize_face`: `(None, 0.0)` without a classifier or a label encoder, or when any step
     * raises; otherwise the decoded predicted label and the largest class probability.
     */
    function RecognizeFace(encoding: seq<real>): (r: (Option<string>, real))
      reads this
      ensures classifier.None? || labelEncoder.None? ==> r == (None, 0.0)
      ensures r.0.None? ==> r.1 == 0.0
      ensures r.0.Some? <==>
        && classifier.Some? && classifier.value.Fitted? && labelEncoder.Some?
        && var m := classifier.value.model;
           m.predict(encoding).Some? && 0 <= m.predict(encoding).value < |labelEncoder.value|
           && |m.proba(encoding)| > 0
      ensures r.0.Some? ==>
        && var m := classifier.value.model;
           r.0.value == labelEncoder.value[m.predict(encoding).value]
           && r.1 == MaxOf(m.proba(encoding))
      ensures r.0.Some? ==>
        && r.0.value in labelEncoder.value
        && var probs := classifier.value.model.proba(encoding);
           r.1 in probs && forall i :: 0 <= i < |probs| ==> probs[i] <= r.1
    {
      if classifier.None? || labelEncoder.None? then (None, 0.0)
      else
        match classifier.value
        case Unfitted => (None, 0.0)
        case Fitted(m) =>
          var classes := labelEncoder.value;
          match m.predict(encoding)
          case None => (None, 0.0)
          case Some(p) =>
            var probs := m.proba(encoding);
            if 0 <= p < |classes| && |probs| > 0 then (Some(classes[p]), MaxOf(probs)) else (None, 0.0)
    }

    /** The entry `process_image_for_attendance` keeps for one detected face, if any. */
    function Decide(f: DetectedFace): (r: Option<Recognition>)
      reads this
    {
      match Encode(f.face)
      case None => None
      case Some(e) =>
        var decision := RecognizeFace(e);
        if decision.0.Some? && decision.0.value != "" && decision.1 > Threshold
        then Some(Recognition(decision.0.value, decision.1, f.box))
        else None
    }

    /** The accepted faces among `faces`, in detection order. */
    function Accepted(faces: seq<DetectedFace>): (r: seq<Recognition>)
      reads this
      ensures |r| <= |faces|
      ensures forall k :: 0 <= k < |r| ==> r[k].studentId != "" && r[k].confidence > Threshold
    {
      if faces == [] then []
      else
        var last := faces[|faces| - 1];
        Accepted(faces[..|faces| - 1]) + (if Decide(last).Some? then [Decide(last).value] else [])
    }

    /** The accepted list of a concatenation is the concatenation of the accepted lists. */
    lemma {:induction false} AcceptedAppend(a: seq<DetectedFace>, b: seq<DetectedFace>)
      ensures Accepted(a + b) == Accepted(a) + Accepted(b)
      decreases |b|
    {
      if b != [] {
        var front, last := b[..|b| - 1], b[|b| - 1];
        assert b == front + [last];
        assert a + b == (a + front) + [last];
        AcceptedSnoc(a + front, last);
        AcceptedSnoc(front, last);
        AcceptedAppend(a, front);
      } else {
        assert a + b == a;
      }
    }

    /** Appending one face appends that face's own decision. */
    lemma AcceptedSnoc(faces: seq<DetectedFace>, f: DetectedFace)
      ensures Accepted(faces + [f]) == Accepted(faces) + (if Decide(f).Some? then [Decide(f).value] else [])
    {
      assert (faces + [f])[..|faces|] == faces;
    }

    /**
     * A face is kept exactly when its encoding exists, its label is non-empty and its confidence is
     * strictly above 0.7, and then with that label, that confidence and the face's own box.
     */
    lemma AcceptedOne(f: DetectedFace)
      ensures Accepted([f]) != [] <==>
        && Encode(f.face).Some?
        && var d := RecognizeFace(Encode(f.face).value);
           d.0.Some? && d.0.value != "" && d.1 > Threshold
      ensures Accepted([f]) != [] ==>
        var d := RecognizeFace(Encode(f.face).value);
        Accepted([f]) == [Recognition(d.0.value, d.1, f.box)]
    {
      assert [f][..0] == [];
    }

    /** One more face extends the accepted list by that face's own decision. */
    lemma AcceptedStep(faces: seq<DetectedFace>, k: nat)
      requires k < |faces|
      ensures Accepted(faces[..k + 1]) ==
        Accepted(faces[..k]) + (if Decide(faces[k]).Some? then [Decide(faces[k]).value] else [])
    {
      assert faces[..k + 1][..k] == faces[..k];
    }

    /** The loop body's verdict on one face: Decide, computed by extraction and recognition. */
    method DecideFace(f: DetectedFace) returns (kept: Option<Recognition>)
      ensures kept == Decide(f)
    {
      var encoding := ExtractFaceEncoding(f.face);
      kept := None;
      if encoding.Some? {
        var (studentId, confidence) := RecognizeFace(encoding.value);
        if studentId.Some? && studentId.value != "" && confidence > Threshold {
          kept := Some(Recognition(studentId.value, confidence, f.box));
        }
      }
    }

    /**
     * `process_image_for_attendance`: the faces of the image that pass the decision, each with its
     * label, confidence and box, in detection order; nothing for an unreadable image.
     */
    method ProcessImageForAttendance(image: Option<Image>) returns (recognized: seq<Recognition>)
      ensures image.None? ==> recognized == []
      ensures recognized == Accepted(Detections(image))
    {
      if image.None? {
        return [];
      }
      var faces := DetectFaces(image);
      recognized := AcceptFaces(faces);
    }

    /** The loop of `process_image_for_attendance` over the detected faces. */
    method AcceptFaces(faces: seq<DetectedFace>) returns (recognized: seq<Recognition>)
      ensures recognized == Accepted(faces)
    {
      recognized := [];
      var k := 0;
      while k < |faces|
        invariant 0 <= k <= |faces|
        invariant recognized == Accepted(faces[..k])
      {
        AcceptedStep(faces, k);
        var kept := DecideFace(faces[k]);
        if kept.Some? {
          recognized := recognized + [kept.value];
        }
        k := k + 1;
      }
      assert faces[..k] == faces;
    }
  }
}
