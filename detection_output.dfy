/**
 * What the detector zoo's forward methods produce: nnio.DetectionBox
 * (nnio/output.py) and the score filter they share, "skip row i when
 * scores[i] < threshold".
 */
module Detection {
  /** DetectionBox(x_min, y_min, x_max, y_max, label, score) */
  // `label` is a Dafny keyword, so the field is called labelName.
  datatype DetectionBox = DetectionBox(xMin: real, yMin: real, xMax: real, yMax: real, labelName: string, score: real)

  /** A box row as the SSD models emit it: (y_min, x_min, y_max, x_max). */
  datatype Corners = Corners(yMin: real, xMin: real, yMax: real, xMax: real)

  /** The box built from a row: the corners reordered to (x_min, y_min, x_max, y_max), the score copied. */
  function BoxOf(c: Corners, name: string, score: real): (b: DetectionBox)
    ensures b.xMin == c.xMin && b.yMin == c.yMin && b.xMax == c.xMax && b.yMax == c.yMax
    ensures b.labelName == name && b.score == score
  {
    DetectionBox(c.xMin, c.yMin, c.xMax, c.yMax, name, score)
  }

  /** Why a label lookup fails: a KeyError on the label dict, or an IndexError on the label list. */
  datatype LabelError = UnknownClass(id: int) | LabelIndexOutOfRange(index: int)

  /** Row i survives `if scores[i] < threshold: continue`. */
  predicate Kept(scores: seq<real>, threshold: real, i: int)
    requires 0 <= i < |scores|
  {
    !(scores[i] < threshold)
  }

  /** The rows among the first n that the filter keeps, in row order. */
  function KeptIndices(scores: seq<real>, threshold: real, n: nat): (ks: seq<nat>)
    requires n <= |scores|
    ensures |ks| <= n
    ensures forall k :: 0 <= k < |ks| ==> ks[k] < n && Kept(scores, threshold, ks[k])
    ensures forall k, l :: 0 <= k < l < |ks| ==> ks[k] < ks[l]
    ensures forall i :: 0 <= i < n && Kept(scores, threshold, i) ==> i in ks
  {
    if n == 0 then []
    else KeptIndices(scores, threshold, n - 1) + (if Kept(scores, threshold, n - 1) then [n - 1] else [])
  }

  /** One more row: its index is appended exactly when the filter keeps it. */
  lemma KeptIndicesStep(scores: seq<real>, threshold: real, n: nat)
    requires n < |scores|
    ensures KeptIndices(scores, threshold, n + 1) ==
      KeptIndices(scores, threshold, n) + (if Kept(scores, threshold, n) then [n] else [])
  {
  }
}
