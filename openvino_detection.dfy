/**
 * The OpenVINO detector SSDMobileNetV2 (nnio/zoo/openvino/detection.py):
 * the choice of model files, the label list, and the parsing of the
 * model's [1, 1, N, 7] output in forward.
 *
 * The model call is outside the model: its rows are the parameter `rows`.
 */
module OpenVinoDetection {
  import opened Wrappers
  import opened Builtins
  import opened Detection

  /** Where the repository keeps its OpenVINO models, one path segment at a time. */
  const ModelDir: string := "https://github.com/FastSense/nnio/raw/" + "development/" + "models/" + "openvino/"
  /** The network the two files hold. */
  const ModelName: string := "ssd_mobilenet_v2_coco"
  const UrlModelBin: string := ModelDir + ModelName + "/" + ModelName + "_fp16.bin"
  const UrlModelXml: string := ModelDir + ModelName + "/" + ModelName + "_fp16.xml"
  /** The lighter network that lite selects, and its two files. */
  const LiteName: string := "ssdlite_mobilenet_v2_coco"
  const LiteUrlBin: string := ModelDir + LiteName + "/" + LiteName + "_fp16.bin"
  const LiteUrlXml: string := ModelDir + LiteName + "/" + LiteName + "_fp16.xml"

  /**
   * The path the constructor loads for one of the two URLs: with lite set,
   * every 'ssd' becomes 'ssdlite', so a URL that names ssd grows by at least
   * the four letters of 'lite'.  Nothing is lost: turning 'ssdlite' back
   * into 'ssd' gives the URL again.
   */
  function ModelPath(url: string, lite: bool): (path: string)
    ensures !lite ==> path == url
    ensures lite ==> ReplaceAll(path, "ssdlite", "ssd") == url
    ensures lite && Contains(url, "ssd") ==> |path| >= |url| + 4
  {
    ReplaceAllUndone(url, "ssd", "lite");
    assert "ssd" + "lite" == "ssdlite";
    ReplaceAllGrows(url, "ssd", "lite");
    if lite then ReplaceAll(url, "ssd", "ssdlite") else url
  }

  /** Both model URLs name the ssd network, right after the model directory. */
  lemma UrlsNameSsd()
    ensures Contains(UrlModelBin, "ssd") && Contains(UrlModelXml, "ssd")
  {
    var k := |ModelDir|;
    assert ModelName[..3] == "ssd";
    assert UrlModelBin[k..k + 3] == ModelName[..3];
    assert UrlModelXml[k..k + 3] == ModelName[..3];
    ContainsAt(UrlModelBin, "ssd", k);
    ContainsAt(UrlModelXml, "ssd", k);
  }

  /** The model directory holds no 'ssd', so replacing leaves it alone. */
  lemma DirUnchanged()
    ensures ReplaceAll(ModelDir, "ssd", "ssdlite") == ModelDir
  {
    var p, r := "ssd", "ssdlite";
    var host, dev, mo, els, ov := "https://github.com/FastSense/nnio/raw/", "development/", "mod", "els/", "openvino/";
    DirPieces();
    ShortDirPieces();
    ReplaceAllMissing(host, p, r, 'd');
    ReplaceAllMissing(dev, p, r, 's');
    ReplaceAllMissing(mo, p, r, 's');
    ReplaceAllMissing(els, p, r, 'd');
    ReplaceAllMissing(ov, p, r, 's');
    ReplaceAllJoin(mo, els, p, r);
    ReplaceAllJoin(host, dev, p, r);
    ReplaceAllJoin(host + dev, mo + els, p, r);
    ReplaceAllJoin(host + dev + (mo + els), ov, p, r);
  }

  /** The pattern's two letters, the host part without a 'd', and "models/" cut where no 'ssd' can straddle. */
  lemma DirPieces()
    ensures 'd' in "ssd" && 's' in "ssd"
    ensures 'd' !in "https://github.com/FastSense/nnio/raw/"
    ensures "models/" == "mod" + "els/"
  {
  }

  /** The remaining segments of the model directory each lack an 's' or a 'd'. */
  lemma ShortDirPieces()
    ensures 's' !in "development/" && 's' !in "mod" && 'd' !in "els/" && 's' !in "openvino/"
  {
  }

  /** The network name starts with its only 'ssd', which becomes 'ssdlite'. */
  lemma NameBecomesLite()
    ensures ReplaceAll(ModelName, "ssd", "ssdlite") == LiteName
  {
    var tail := "_mobilenet_v2_coco";
    NamePieces();
    TailPieces();
    ReplaceAllMissing(tail, "ssd", "ssdlite", 's');
  }

  /** The ssd network's name is 'ssd' followed by a tail. */
  lemma NamePieces()
    ensures ModelName[..3] == "ssd" && ModelName[3..] == "_mobilenet_v2_coco"
  {
  }

  /** The tail has no 's', and the ssdlite network's name is 'ssdlite' followed by the same tail. */
  lemma TailPieces()
    ensures 's' !in "_mobilenet_v2_coco" && 's' in "ssd"
    ensures LiteName == "ssdlite" + "_mobilenet_v2_coco"
  {
  }

  /** A model file URL with lite set: only the two copies of the network name change. */
  lemma LiteUrl(ext: string)
    requires 's' !in ext
    ensures ReplaceAll(ModelDir + ModelName + "/" + ModelName + ext, "ssd", "ssdlite")
         == ModelDir + LiteName + "/" + LiteName + ext
  {
    var p, r := "ssd", "ssdlite";
    DirUnchanged();
    NameBecomesLite();
    ReplaceAllMissing("/", p, r, 's');
    ReplaceAllMissing(ext, p, r, 's');
    ReplaceAllJoin(ModelDir, ModelName, p, r);
    ReplaceAllJoin(ModelDir + ModelName, "/", p, r);
    ReplaceAllJoin(ModelDir + ModelName + "/", ModelName, p, r);
    ReplaceAllJoin(ModelDir + ModelName + "/" + ModelName, ext, p, r);
  }

  /**
   * The (bin, xml) pair the constructor passes to OpenVINOModel: the two
   * URLs as they are, or, with lite set, the two files of the ssdlite
   * network, which map back to the URLs.
   */
  function ModelPaths(lite: bool): (paths: (string, string))
    ensures !lite ==> paths == (UrlModelBin, UrlModelXml)
    ensures lite ==> paths == (LiteUrlBin, LiteUrlXml)
    ensures lite ==> ReplaceAll(paths.0, "ssdlite", "ssd") == UrlModelBin &&
                     ReplaceAll(paths.1, "ssdlite", "ssd") == UrlModelXml
    ensures lite ==> |paths.0| >= |UrlModelBin| + 4 && |paths.1| >= |UrlModelXml| + 4
    ensures lite ==> paths.0 != UrlModelBin && paths.1 != UrlModelXml
  {
    UrlsNameSsd();
    LiteUrl("_fp16.bin");
    LiteUrl("_fp16.xml");
    (ModelPath(UrlModelBin, lite), ModelPath(UrlModelXml, lite))
  }

  /**
   * [line.strip() for line in open(labels_path)]: one label per line, in
   * file order, without surrounding whitespace; a blank line gives ''.
   */
  function Labels(lines: seq<string>): (labels: seq<string>)
    ensures |labels| == |lines|
    ensures forall i :: 0 <= i < |lines| ==> |labels[i]| <= |lines[i]|
    ensures forall i :: 0 <= i < |lines| ==> (labels[i] == [] <==> AllSpace(lines[i]))
    ensures forall i :: 0 <= i < |lines| ==> Trimmed(lines[i], labels[i]) && EdgesClean(labels[i])
  {
    seq(|lines|, i requires 0 <= i < |lines| => Strip(lines[i]))
  }

  /** One output row: _, label, score, x_min, y_min, x_max, y_max (`label` is a Dafny keyword, so the class id is classId). */
  datatype Row = Row(imageId: real, classId: real, score: real, xMin: real, yMin: real, xMax: real, yMax: real)

  function Scores(rows: seq<Row>): (scores: seq<real>)
    ensures |scores| == |rows|
    ensures forall i :: 0 <= i < |rows| ==> scores[i] == rows[i].score
  {
    seq(|rows|, i requires 0 <= i < |rows| => rows[i].score)
  }

  /**
   * self.labels[int(label) - 1]: class ids count from 1; the
   * index may be negative, and Python then counts from the end.
   */
  function LabelOf(labels: seq<string>, classId: real): (r: Result<string, LabelError>)
    ensures r.Failure? <==> !(-|labels| <= Trunc(classId) - 1 < |labels|)
    ensures r.Failure? ==> r.error == LabelIndexOutOfRange(Trunc(classId) - 1)
    ensures r.Success? ==> |labels| > 0 && r.value == labels[(Trunc(classId) - 1) % |labels|]
  {
    var index := Trunc(classId) - 1;
    match PyIndex(labels, index)
    case Some(name) => Success(name)
    case None => Failure(LabelIndexOutOfRange(index))
  }

  /** Class id k in 1..|labels| names line k of the label file. */
  lemma LabelOfInRange(labels: seq<string>, classId: real)
    requires 1.0 <= classId < |labels| as real + 1.0
    ensures LabelOf(labels, classId) == Success(labels[Trunc(classId) - 1])
  {
  }

  /** Class id 0 (any classId in [0, 1)) gives index -1: the last label, with no error. */
  lemma LabelOfZero(labels: seq<string>, classId: real)
    requires 0.0 <= classId < 1.0 && |labels| > 0
    ensures LabelOf(labels, classId) == Success(labels[|labels| - 1])
  {
  }

  /** The box built from one row: the coordinates in the row's order, the score copied. */
  function RowBox(row: Row, name: string): (b: DetectionBox)
    ensures b.xMin == row.xMin && b.yMin == row.yMin && b.xMax == row.xMax && b.yMax == row.yMax
    ensures b.labelName == name && b.score == row.score
  {
    DetectionBox(row.xMin, row.yMin, row.xMax, row.yMax, name, row.score)
  }

  /** Every kept row among the first n has a label index inside the list. */
  ghost predicate LabelsInRange(rows: seq<Row>, labels: seq<string>, threshold: real, n: nat)
    requires n <= |rows|
  {
    forall i :: 0 <= i < n && Kept(Scores(rows), threshold, i) ==> LabelOf(labels, rows[i].classId).Success?
  }

  /** out holds one box per kept row among the first n, in row order. */
  ghost predicate RowBoxes(rows: seq<Row>, labels: seq<string>, threshold: real, n: nat, out: seq<DetectionBox>)
    requires n <= |rows|
  {
    var ks := KeptIndices(Scores(rows), threshold, n);
    && |out| == |ks|
    && forall k :: 0 <= k < |ks| ==>
         LabelOf(labels, rows[ks[k]].classId).Success? &&
         out[k] == RowBox(rows[ks[k]], LabelOf(labels, rows[ks[k]].classId).value)
  }

  /**
   * forward after the model call: rows scoring below the threshold are
   * skipped; the others become boxes in row order; the first kept row whose
   * label index is outside the list raises IndexError.
   */
  method ParseRows(rows: seq<Row>, labels: seq<string>, threshold: real) returns (r: Result<seq<DetectionBox>, LabelError>)
    ensures r.Success? <==> LabelsInRange(rows, labels, threshold, |rows|)
    ensures r.Success? ==> RowBoxes(rows, labels, threshold, |rows|, r.value)
    ensures r.Failure? ==>
      exists i :: (0 <= i < |rows| && Kept(Scores(rows), threshold, i) &&
        LabelsInRange(rows, labels, threshold, i) && !LabelOf(labels, rows[i].classId).Success? &&
        r.error == LabelIndexOutOfRange(Trunc(rows[i].classId) - 1))
  {
    ghost var scores := Scores(rows);
    var out: seq<DetectionBox> := [];
    for i := 0 to |rows|
      invariant LabelsInRange(rows, labels, threshold, i)
      invariant RowBoxes(rows, labels, threshold, i, out)
    {
      var row := rows[i];
      if row.score < threshold {
        RowBoxesSkip(rows, labels, threshold, i, out);
        continue;
      }
      var name := LabelOf(labels, row.classId);
      if name.Failure? {
        return Failure(name.error);
      }
      RowBoxesKeep(rows, labels, threshold, i, out);
      out := out + [RowBox(row, name.value)];
    }
    return Success(out);
  }

  /** A row below the threshold adds no box. */
  lemma RowBoxesSkip(rows: seq<Row>, labels: seq<string>, threshold: real, i: nat, out: seq<DetectionBox>)
    requires i < |rows| && !Kept(Scores(rows), threshold, i) && RowBoxes(rows, labels, threshold, i, out)
    ensures RowBoxes(rows, labels, threshold, i + 1, out)
  {
    KeptIndicesStep(Scores(rows), threshold, i);
  }

  /** A kept row with a valid label adds its box at the end. */
  lemma RowBoxesKeep(rows: seq<Row>, labels: seq<string>, threshold: real, i: nat, out: seq<DetectionBox>)
    requires i < |rows| && Kept(Scores(rows), threshold, i) && RowBoxes(rows, labels, threshold, i, out)
    requires LabelOf(labels, rows[i].classId).Success?
    ensures RowBoxes(rows, labels, threshold, i + 1, out + [RowBox(rows[i], LabelOf(labels, rows[i].classId).value)])
  {
    KeptIndicesStep(Scores(rows), threshold, i);
  }
}
