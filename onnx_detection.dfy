/**
 * The ONNX detector SSDMobileNetV1 (nnio/zoo/onnx/detection.py): the
 * parsing of the model's four outputs in forward.  There is no score
 * filter: the model reports how many rows are valid.
 *
 * The model call is outside the model: its outputs, with the batch axis
 * dropped, are the parameters `boxes`, `classes`, `scores` and
 * `numDetections` (one row per detection slot in each of the first three).
 */
module OnnxDetection {
  import opened Wrappers
  import opened Builtins
  import opened Detection

  /** The exception forward raises: IndexError on the label list or on the boxes tensor. */
  datatype ForwardError = BadLabel(cause: LabelError) | RowOutOfRange(row: nat)

  /** range(int(num_detections[0])): empty when the count truncates to a negative number. */
  function RowCount(numDetections: seq<real>): (n: nat)
    requires |numDetections| > 0
    ensures Trunc(numDetections[0]) >= 0 ==> n == Trunc(numDetections[0])
    ensures Trunc(numDetections[0]) < 0 ==> n == 0
  {
    var k := Trunc(numDetections[0]);
    if k < 0 then 0 else k
  }

  /**
   * self.labels[int(classes[0, i])] after classes = classes - 1: the one is
   * subtracted before int() truncates.
   */
  function LabelOf(labels: seq<string>, cls: real): (r: Result<string, LabelError>)
    ensures r.Failure? <==> !(-|labels| <= Trunc(cls - 1.0) < |labels|)
    ensures r.Failure? ==> r.error == LabelIndexOutOfRange(Trunc(cls - 1.0))
    ensures r.Success? ==> |labels| > 0 && r.value == labels[(Trunc(cls - 1.0)) % |labels|]
  {
    var index := Trunc(cls - 1.0);
    match PyIndex(labels, index)
    case Some(name) => Success(name)
    case None => Failure(LabelIndexOutOfRange(index))
  }

  /**
   * For class ids of at least 1 this is the OpenVINO detector's
   * labels[int(label) - 1]; the two differ exactly on ids strictly between
   * 0 and 1, where this one gives the first label and the other the last.
   */
  lemma LabelOfAsShiftedTrunc(labels: seq<string>, cls: real)
    ensures !(0.0 < cls < 1.0) ==> Trunc(cls - 1.0) == Trunc(cls) - 1
    ensures 0.0 < cls < 1.0 ==> Trunc(cls - 1.0) == 0 && Trunc(cls) - 1 == -1
    ensures 0.0 < cls < 1.0 && |labels| > 0 ==> LabelOf(labels, cls) == Success(labels[0])
  {
    TruncShift(cls);
  }

  /** Every row before n exists and has a label index inside the list. */
  ghost predicate RowsValid(boxes: seq<Corners>, classes: seq<real>, labels: seq<string>, n: nat)
    requires |boxes| == |classes|
  {
    n <= |boxes| && forall i :: 0 <= i < n ==> LabelOf(labels, classes[i]).Success?
  }

  /** out[i] is the box of row i, for every row before n. */
  ghost predicate OnnxBoxes(boxes: seq<Corners>, classes: seq<real>, scores: seq<real>, labels: seq<string>,
                            n: nat, out: seq<DetectionBox>)
    requires |boxes| == |classes| == |scores|
    requires RowsValid(boxes, classes, labels, n)
  {
    && |out| == n
    && forall i :: 0 <= i < n ==> out[i] == BoxOf(boxes[i], LabelOf(labels, classes[i]).value, scores[i])
  }

  /**
   * forward after the model call: the first int(num_detections[0]) rows
   * become boxes, one per row and in row order, whatever their score; a
   * row past the end of the tensors, or a label index outside the list,
   * raises IndexError at the first row where it happens.
   */
  method ParseDetections(boxes: seq<Corners>, classes: seq<real>, scores: seq<real>, numDetections: seq<real>,
                         labels: seq<string>)
    returns (r: Result<seq<DetectionBox>, ForwardError>)
    requires |boxes| == |classes| == |scores| && |numDetections| > 0
    ensures r.Success? <==> RowsValid(boxes, classes, labels, RowCount(numDetections))
    ensures r.Success? ==> OnnxBoxes(boxes, classes, scores, labels, RowCount(numDetections), r.value)
    ensures r.Failure? ==>
      exists i :: (0 <= i < RowCount(numDetections) && RowsValid(boxes, classes, labels, i) &&
        (if i == |boxes| then r.error == RowOutOfRange(i)
         else !LabelOf(labels, classes[i]).Success? &&
              r.error == BadLabel(LabelIndexOutOfRange(Trunc(classes[i] - 1.0)))))
  {
    var n := RowCount(numDetections);
    var out: seq<DetectionBox> := [];
    for i := 0 to n
      invariant RowsValid(boxes, classes, labels, i)
      invariant OnnxBoxes(boxes, classes, scores, labels, i, out)
    {
      if i >= |boxes| {
        return Failure(RowOutOfRange(i));
      }
      var name := LabelOf(labels, classes[i]);
      if name.Failure? {
        return Failure(BadLabel(name.error));
      }
      out := out + [BoxOf(boxes[i], name.value, scores[i])];
    }
    return Success(out);
  }
}
