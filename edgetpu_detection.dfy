/**
 * The EdgeTPU detectors (nnio/zoo/edgetpu/detection.py): the label file of
 * SSDMobileNet, read into a dict from class id to name, and the output
 * parsing in SSDMobileNet.forward and SSDMobileNetFace.forward.
 *
 * The model call is outside the model: its four output tensors, with the
 * batch axis dropped, are the parameters `boxes`, `classes` and `scores`.
 */
module EdgeTpuDetection {
  import opened Wrappers
  import opened Builtins
  import opened Detection

  // ----- The label file -----

  /** The exception a label-file line raises. */
  datatype LabelFileError =
    | NoFields      // line.split()[0] on a blank line: IndexError
    | NotAnInteger  // int(line.split()[0]): ValueError
    | NoName        // line.strip().split()[1] on a one-word line: IndexError

  /** int(line.split()[0]): line.strip().split()[1] for one line; the key is evaluated first. */
  function ParseLabelLine(line: string): Result<(int, string), LabelFileError> {
    var words := Words(line);
    if |words| == 0 then Failure(NoFields)
    else
      var id := ParseInt(words[0]);
      if id.None? then Failure(NotAnInteger)
      else
        var fields := Words(Strip(line));
        if |fields| < 2 then Failure(NoName) else Success((id.value, fields[1]))
  }

  type Entry = Result<(int, string), LabelFileError>

  /** The dict comprehension over a file's lines, as the entries they parse to. */
  function LabelMap(lines: seq<string>): Result<map<int, string>, LabelFileError> {
    Collect(Entries(lines))
  }

  /** Each line parsed on its own, in file order. */
  function Entries(lines: seq<string>): (entries: seq<Entry>)
    ensures |entries| == |lines|
    ensures forall i :: 0 <= i < |lines| ==> entries[i] == ParseLabelLine(lines[i])
  {
    seq(|lines|, i requires 0 <= i < |lines| => ParseLabelLine(lines[i]))
  }

  /** Entries inserted in order: the first failing entry raises; a later id overwrites an earlier one. */
  function Collect(entries: seq<Entry>): Result<map<int, string>, LabelFileError>
    decreases |entries|
  {
    if |entries| == 0 then Success(map[])
    else
      var init := Collect(entries[..|entries| - 1]);
      var last := entries[|entries| - 1];
      if init.Failure? then init
      else if last.Failure? then Failure(last.error)
      else Success(init.value[last.value.0 := last.value.1])
  }

  ghost predicate AllOk(entries: seq<Entry>) {
    forall i :: 0 <= i < |entries| ==> entries[i].Success?
  }

  lemma {:induction false} CollectSucceeds(entries: seq<Entry>)
    ensures Collect(entries).Success? <==> AllOk(entries)
  {
    if |entries| > 0 {
      var init := entries[..|entries| - 1];
      CollectSucceeds(init);
      if AllOk(entries) {
        assert AllOk(init) by {
          forall i | 0 <= i < |init| ensures init[i].Success? {
            assert init[i] == entries[i];
          }
        }
      } else if AllOk(init) {
        var i :| 0 <= i < |entries| && entries[i].Failure?;
      } else {
        var i :| 0 <= i < |init| && init[i].Failure?;
        assert entries[i] == init[i];
      }
    }
  }

  lemma {:induction false} CollectKeys(entries: seq<Entry>)
    requires AllOk(entries)
    ensures Collect(entries).Success?
    ensures forall id :: id in Collect(entries).value <==>
      exists i :: 0 <= i < |entries| && entries[i].value.0 == id
  {
    CollectSucceeds(entries);
    if |entries| > 0 {
      var init := entries[..|entries| - 1];
      assert forall i :: 0 <= i < |init| ==> init[i] == entries[i];
      CollectKeys(init);
      var m := Collect(entries).value;
      forall id ensures id in m <==> exists i :: 0 <= i < |entries| && entries[i].value.0 == id {
        if id in Collect(init).value {
          var i :| 0 <= i < |init| && init[i].value.0 == id;
          assert entries[i].value.0 == id;
        }
        if exists i :: 0 <= i < |entries| && entries[i].value.0 == id {
          var i :| 0 <= i < |entries| && entries[i].value.0 == id;
          if i < |entries| - 1 {
            assert init[i].value.0 == id;
          }
        }
      }
    }
  }

  /** Entry i holds the last occurrence of its id. */
  ghost predicate Last(entries: seq<Entry>, i: int)
    requires AllOk(entries) && 0 <= i < |entries|
  {
    forall j :: i < j < |entries| ==> entries[j].value.0 != entries[i].value.0
  }

  lemma {:induction false} CollectLastWins(entries: seq<Entry>)
    requires AllOk(entries)
    ensures Collect(entries).Success?
    ensures forall i :: 0 <= i < |entries| && Last(entries, i) ==>
      entries[i].value.0 in Collect(entries).value &&
      Collect(entries).value[entries[i].value.0] == entries[i].value.1
  {
    CollectSucceeds(entries);
    if |entries| > 0 {
      var init := entries[..|entries| - 1];
      assert forall i :: 0 <= i < |init| ==> init[i] == entries[i];
      CollectLastWins(init);
      var m := Collect(entries).value;
      forall i | 0 <= i < |entries| && Last(entries, i)
        ensures entries[i].value.0 in m && m[entries[i].value.0] == entries[i].value.1
      {
        if i < |entries| - 1 {
          assert Last(init, i);
        }
      }
    }
  }

  ghost predicate AllParse(lines: seq<string>) {
    forall i :: 0 <= i < |lines| ==> ParseLabelLine(lines[i]).Success?
  }

  /** The id of a line that parses. */
  function LineId(line: string): int
    requires ParseLabelLine(line).Success?
  {
    ParseLabelLine(line).value.0
  }

  /** The name of a line that parses. */
  function LineName(line: string): string
    requires ParseLabelLine(line).Success?
  {
    ParseLabelLine(line).value.1
  }

  /** Line i holds the last occurrence of its id. */
  ghost predicate LastWithId(lines: seq<string>, i: int)
    requires AllParse(lines) && 0 <= i < |lines|
  {
    forall j :: i < j < |lines| ==> LineId(lines[j]) != LineId(lines[i])
  }

  /** The comprehension succeeds exactly when every line parses. */
  lemma LabelMapSucceeds(lines: seq<string>)
    ensures LabelMap(lines).Success? <==> AllParse(lines)
  {
    var entries := Entries(lines);
    CollectSucceeds(entries);
    assert AllOk(entries) <==> AllParse(lines);
  }

  /** Its keys are the ids of all lines. */
  lemma LabelMapKeys(lines: seq<string>)
    requires AllParse(lines)
    ensures LabelMap(lines).Success?
    ensures forall id :: id in LabelMap(lines).value <==> exists i :: 0 <= i < |lines| && LineId(lines[i]) == id
  {
    var entries := Entries(lines);
    assert AllOk(entries);
    CollectKeys(entries);
    forall id ensures id in LabelMap(lines).value <==> exists i :: 0 <= i < |lines| && LineId(lines[i]) == id {
      if exists i :: 0 <= i < |entries| && entries[i].value.0 == id {
        var i :| 0 <= i < |entries| && entries[i].value.0 == id;
        assert LineId(lines[i]) == id;
      }
    }
  }

  /** Each id names the second word of the last line that carries it. */
  lemma LabelMapLastWins(lines: seq<string>)
    requires AllParse(lines)
    ensures LabelMap(lines).Success?
    ensures forall i :: 0 <= i < |lines| && LastWithId(lines, i) ==>
      LineId(lines[i]) in LabelMap(lines).value && LabelMap(lines).value[LineId(lines[i])] == LineName(lines[i])
  {
    var entries := Entries(lines);
    assert AllOk(entries);
    CollectLastWins(entries);
    forall i | 0 <= i < |lines| && LastWithId(lines, i)
      ensures LineId(lines[i]) in LabelMap(lines).value && LabelMap(lines).value[LineId(lines[i])] == LineName(lines[i])
    {
      assert Last(entries, i);
    }
  }

  // ----- SSDMobileNet.forward -----

  /** labels[int(classes[0, i])] */
  function LookUp(labels: map<int, string>, cls: real): Result<string, LabelError> {
    var id := Trunc(cls);
    if id in labels then Success(labels[id]) else Failure(UnknownClass(id))
  }

  /** out holds one box per kept row among the first n, in row order. */
  ghost predicate SsdBoxes(boxes: seq<Corners>, classes: seq<real>, scores: seq<real>, labels: map<int, string>,
                           threshold: real, n: nat, out: seq<DetectionBox>)
    requires n <= |boxes| <= |classes| && |boxes| <= |scores|
  {
    var ks := KeptIndices(scores, threshold, n);
    && |out| == |ks|
    && forall k :: 0 <= k < |ks| ==>
         LookUp(labels, classes[ks[k]]).Success? &&
         out[k] == BoxOf(boxes[ks[k]], LookUp(labels, classes[ks[k]]).value, scores[ks[k]])
  }

  /** Every kept row among the first n has a class id in the label dict. */
  ghost predicate LabelsKnown(classes: seq<real>, scores: seq<real>, labels: map<int, string>, threshold: real, n: nat)
    requires n <= |classes| && n <= |scores|
  {
    forall i :: 0 <= i < n && Kept(scores, threshold, i) ==> LookUp(labels, classes[i]).Success?
  }

  /**
   * SSDMobileNet.forward after the model call: row i is kept exactly when
   * scores[i] >= threshold; kept rows become boxes in row order; the first
   * kept row whose class id is not in the label dict raises KeyError.
   */
  method ParseSsd(boxes: seq<Corners>, classes: seq<real>, scores: seq<real>, labels: map<int, string>, threshold: real)
    returns (r: Result<seq<DetectionBox>, LabelError>)
    requires |boxes| <= |classes| && |boxes| <= |scores|
    ensures r.Success? <==> LabelsKnown(classes, scores, labels, threshold, |boxes|)
    ensures r.Success? ==> SsdBoxes(boxes, classes, scores, labels, threshold, |boxes|, r.value)
    ensures r.Failure? ==>
      exists i :: (0 <= i < |boxes| && Kept(scores, threshold, i) &&
        LabelsKnown(classes, scores, labels, threshold, i) && !LookUp(labels, classes[i]).Success? &&
        r.error == UnknownClass(Trunc(classes[i])))
  {
    var out: seq<DetectionBox> := [];
    for i := 0 to |boxes|
      invariant LabelsKnown(classes, scores, labels, threshold, i)
      invariant SsdBoxes(boxes, classes, scores, labels, threshold, i, out)
    {
      KeptIndicesStep(scores, threshold, i);
      if scores[i] < threshold {
        continue;
      }
      var name := LookUp(labels, classes[i]);
      if name.Failure? {
        return Failure(name.error);
      }
      out := out + [BoxOf(boxes[i], name.value, scores[i])];
    }
    return Success(out);
  }

  // ----- SSDMobileNetFace.forward -----

  /** out holds one 'face' box per kept row among the first n, in row order. */
  ghost predicate FaceBoxes(boxes: seq<Corners>, scores: seq<real>, threshold: real, n: nat, out: seq<DetectionBox>)
    requires n <= |boxes| <= |scores|
  {
    var ks := KeptIndices(scores, threshold, n);
    && |out| == |ks|
    && forall k :: 0 <= k < |ks| ==> out[k] == BoxOf(boxes[ks[k]], "face", scores[ks[k]])
  }

  /**
   * SSDMobileNetFace.forward after the model call: the same filter and
   * order as ParseSsd, the classes tensor ignored and every label 'face'.
   */
  method ParseFaces(boxes: seq<Corners>, scores: seq<real>, threshold: real) returns (out: seq<DetectionBox>)
    requires |boxes| <= |scores|
    ensures FaceBoxes(boxes, scores, threshold, |boxes|, out)
    ensures |out| <= |boxes|
  {
    out := [];
    for i := 0 to |boxes|
      invariant FaceBoxes(boxes, scores, threshold, i, out)
    {
      KeptIndicesStep(scores, threshold, i);
      if scores[i] < threshold {
        continue;
      }
      out := out + [BoxOf(boxes[i], "face", scores[i])];
    }
  }

  /** With every label known, ParseSsd and ParseFaces keep the same rows and boxes, apart from the label. */
  lemma SsdAndFaceAgree(boxes: seq<Corners>, classes: seq<real>, scores: seq<real>, labels: map<int, string>,
                        threshold: real, ssd: seq<DetectionBox>, faces: seq<DetectionBox>)
    requires |boxes| <= |classes| && |boxes| <= |scores|
    requires SsdBoxes(boxes, classes, scores, labels, threshold, |boxes|, ssd)
    requires FaceBoxes(boxes, scores, threshold, |boxes|, faces)
    ensures |ssd| == |faces|
    ensures forall k :: 0 <= k < |ssd| ==> ssd[k].(labelName := "face") == faces[k]
  {
  }
}
