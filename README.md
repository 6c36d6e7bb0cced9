# nnio core, modelled in Dafny

This project models the logic at the core of the Python library nnio. It
has three parts, and the model then proves what each part promises.

- **The re-identification store `HumanDataBase`** (`nnio/utils.py`). It is
  an online greedy clustering of embedding vectors. `find_closest` assigns a
  vector to the nearest stored centroid or creates a new entry. `optimize`
  merges the closest pair of centroids. There is also the `is_url` predicate.
- **`Preprocessing`** (`nnio/preprocessing.py`). This covers:
  - the constructor's validation, its defaults, and the folding of
    `divide_by_255`, `means`, `stds` and `scales` into one shift and one
    factor;
  - the uint8 check and the shift-then-scale step of `forward`;
  - the padded branch of `_resize_image`;
  - `__str__` and `__eq__`.
- **The detector output parsers** of the EdgeTPU, OpenVINO and ONNX model
  zoos. Each turns the raw output tensors into an ordered list of
  `DetectionBox` records. The model also covers the label-file parsing and
  the OpenVINO model-URL rewrite.

Layout, one module per file:

| file | module | models |
|---|---|---|
| `wrappers.dfy` | `Wrappers` | `Option` and `Result` |
| `builtins.dfy` | `Builtins` | the Python built-ins the core relies on: `str.split`, `str.strip`, `str.startswith`, `in` on strings, `str.replace`, `int()` of a float and of a string, negative list indexing |
| `urls.dfy` | `Urls` | `is_url` |
| `argmin.dfy` | `Search` | `np.argmin` (first minimum) |
| `vectors.dfy` | `Vectors` | vectors as `seq<real>`; `normalize` and `distance` |
| `identity_store.dfy` | `IdentityStore` | the store as a value: `Assign` is `find_closest`, `Consolidate` is `optimize`; the lemmas about them |
| `human_database.dfy` | `HumanDatabase` | `class HumanDataBase`, whose fields the methods update in place, each method proved to follow `IdentityStore` |
| `preprocessing.dfy` | `ImagePreprocessing` | `Preprocessing.__init__`, `forward` (uint8 check, shift and scale), `__str__`/`__eq__` |
| `padding.dfy` | `Padding` | the padded branch of `_resize_image` on a 2-D `array2` |
| `detection_output.dfy` | `Detection` | `DetectionBox` and the shared score filter |
| `edgetpu_detection.dfy` | `EdgeTpuDetection` | the label-map comprehension, `SSDMobileNet.forward`, `SSDMobileNetFace.forward` |
| `openvino_detection.dfy` | `OpenVinoDetection` | `SSDMobileNetV2`: the URL rewrite, the label list, `forward` |
| `onnx_detection.dfy` | `OnnxDetection` | `SSDMobileNetV1.forward` |

## Modelling choices

**Vectors and distances.**
- Vectors are `seq<real>`.
- `distance(a, b)` is `1 - a @ b`.
- `np.sqrt` cannot be written in Dafny. `normalize(v)` is therefore
  `v * rsqrt(|v|²)`, where `rsqrt: real -> real` is a parameter of the
  store and stands for `x ↦ 1/sqrt(x)`.
- The lemmas about unit length assume `IsRsqrt(rsqrt)`. The store's
  operations hold for any `rsqrt`.
- `UnitCentroids` says every stored centroid has squared norm 1. The
  unit lemmas also assume a non-zero input vector and thresholds below 2,
  because otherwise `normalize` divides by zero.

**Store keys and state.**
- A key is `str(n)`. Because `n ↦ str(n)` is injective, the model uses `n`
  itself.
- The dictionaries `vectors` and `counts` are always written together, so
  they share one insertion order. The model keeps that order as the field
  `order`.
- Re-inserting a live key keeps its position, as a Python dict does.
- A created key is `len(self.vectors)`. After a merge this can be the key of
  a live entry. That entry is then overwritten in place, exactly as the
  source does (`IdentityStore.CreateAfterMergeOverwrites`).

**Comparing vectors of different lengths.** `vec @ centroid` on vectors of
different lengths raises in numpy before `find_closest` changes anything.
The model returns `Failure(DimensionMismatch)` and leaves the state
unchanged.

**Python built-ins.**
- `int(x)` of a float truncates toward zero (`Builtins.Trunc`).
- `labels[k]` with a negative `k` wraps around (`Builtins.PyIndex`).
- `str.split`, `str.strip` and `str.startswith` use the whitespace set of
  Python's `str.isspace`.

**Detector parsers.**
- The detector's output tensors are parameters of the parsers. Calling the
  vendor runtime is outside the model.
- An unknown class id (`KeyError`) or an out-of-range label index
  (`IndexError`) is an error result. The row it names is identified in the
  contract.

## Model

| member | source | states |
|---|---|---|
| `Urls.IsUrl` | nnio/utils.py:18-29 | `is_url` as written: `s.split()` has exactly one word, and it starts with `http://` or `https://`; `IsUrlMeaning` states the same without `split` |
| `Urls.IsUrlMeaning` | nnio/utils.py:18-29 | `is_url(s)` holds exactly when `s` starts with `http://` or `https://` and all its whitespace is trailing, so that `s.split()` is one word |
| `Search.ArgMinIsFirstMin` | nnio/utils.py:130 | `np.argmin` returns an index of a minimum, and every earlier entry is strictly larger |
| `Search.FirstMinUnique` | nnio/utils.py:130 | the first minimum is unique, so `ArgMin` is determined by that property alone |
| `Vectors.Normalize` | nnio/utils.py:173-175 | `normalize`: the vector times `rsqrt` of its squared norm; `NormalizeIsUnit`, `NormalizeScaleInvariant` and `NormalizeUnit` state what it gives |
| `Vectors.Distance` | nnio/utils.py:177-179 | `distance`: one minus the dot product; `DistanceSymmetric` and the unit lemmas below state its properties |
| `Vectors.NormalizeIsUnit` | nnio/utils.py:173-175 | `normalize` keeps the length, gives squared norm 1 and distance 0 to itself, and is a positive multiple of the input |
| `Vectors.NormalizeScaleInvariant` | nnio/utils.py:173-175 | `normalize(c * v) == normalize(v)` for every `c > 0` |
| `Vectors.NormalizeUnit` | nnio/utils.py:173-175 | a unit vector is a fixed point of `normalize` |
| `Vectors.DistanceSymmetric` | nnio/utils.py:177-179 | `distance(a, b) == distance(b, a)` |
| `Vectors.DotScaleLeft` | nnio/utils.py:179 | the dot product is linear in its first argument: `(c a) @ b == c (a @ b)` |
| `Vectors.SquaredNormScale` | nnio/utils.py:175 | `sum((c v)**2) == c² sum(v**2)` |
| `Vectors.DotAddLeft` | nnio/utils.py:179 | the dot product is additive in its first argument |
| `Vectors.SquaredNormAdd` | nnio/utils.py:175 | `sum((a + b)**2) == sum(a**2) + 2 (a @ b) + sum(b**2)` |
| `Vectors.WeightedSumNormalizes` | nnio/utils.py:141-142 | for unit `c` and `v` at distance below 2 and a count `n >= 1`, `normalize(c * n + v)` is a unit vector: the running mean is never the zero vector |
| `Vectors.SumNormalizes` | nnio/utils.py:168 | for unit `a` and `b` at distance below 2, `normalize(a + b)` is a unit vector |
| `IdentityStore.Assign` | nnio/utils.py:120-145 | `find_closest` on the store as a value: normalize, fail on a length mismatch, create when the store is empty or the first nearest centroid is farther than the threshold, and update it otherwise; the lemmas below state what each branch does |
| `IdentityStore.Create` | nnio/utils.py:132-138 | the create branch under key `len(vectors)`; `CreateEffect` and `CreateValid` state its effect |
| `IdentityStore.Update` | nnio/utils.py:140-145 | the update branch; `UpdateEffect` states its effect |
| `IdentityStore.AssignKeepsValid` | nnio/utils.py:120-145 | `find_closest` fails exactly when the normalized input does not match the dimension of the stored centroids; on success the invariant holds afterwards, no key disappears, at most one key is added, and the returned key is live |
| `IdentityStore.AssignEmpty` | nnio/utils.py:127-138 | on an empty store, `find_closest` adds key 0 holding the normalized input with count 1, and returns 0 |
| `IdentityStore.AssignCreatesWhenAllFar` | nnio/utils.py:127-138 | when every centroid is strictly farther than `new_entity_threshold`, a new entry is created |
| `IdentityStore.AssignUpdatesFirstNearest` | nnio/utils.py:121-145 | when the first nearest centroid, in insertion order, is within the threshold (equality included), that entry is updated |
| `IdentityStore.CreateEffect` | nnio/utils.py:132-138 | the created key is the number of live entries and gets the normalized input with count 1; a key that is already live is overwritten where it stands, otherwise exactly one entry is appended; every other entry is unchanged |
| `IdentityStore.CreateValid` | nnio/utils.py:136-137 | creating keeps the invariant: the keys are distinct, both dictionaries have the key set of `order`, every count is at least 1, and all centroids have one length |
| `IdentityStore.CreateAfterMergeOverwrites` | nnio/utils.py:132-137 | after entry 1 of the entries 0, 1, 2 is merged away, the next created key is 2, which overwrites the live entry 2 and leaves two entries |
| `IdentityStore.UpdateEffect` | nnio/utils.py:140-145 | on a match, the entry becomes `normalize(old * count + v)`, its count grows by exactly one, its key is returned, the order and key set are unchanged, and every other entry is unchanged |
| `IdentityStore.UpdateValid` | nnio/utils.py:141-143 | an update keeps the invariant |
| `IdentityStore.LiveCount` | nnio/utils.py:132 | `len(self.vectors)` equals the number of keys in insertion order |
| `IdentityStore.RowPairsSound` | nnio/utils.py:154-160 | every pair the inner loop records has distance strictly below `merging_threshold` and its recorded `dst` is that distance |
| `IdentityStore.RowPairsComplete` | nnio/utils.py:154-160 | every pair of the row below the threshold is recorded |
| `IdentityStore.RowPairsOrdered` | nnio/utils.py:154-160 | the pairs of a row are recorded with increasing `j` |
| `IdentityStore.ScanPairsSpec` | nnio/utils.py:152-160 | after the double loop, `distances` lists exactly the qualifying pairs `i < j`, in `(i, j)` scan order |
| `IdentityStore.ScanPairsSound` | nnio/utils.py:152-160 | every entry of `distances` is a qualifying pair |
| `IdentityStore.ScanPairsComplete` | nnio/utils.py:152-160 | every qualifying pair is in `distances` |
| `IdentityStore.ScanPairsOrdered` | nnio/utils.py:152-160 | `distances` is in strict `(i, j)` scan order |
| `IdentityStore.Consolidate` | nnio/utils.py:147-170 | `optimize` on the store as a value: with two entries or more and a non-empty `distances`, merge the pair that `np.argmin` picks; `ConsolidateNoOp`, `ConsolidateShrinks` and `ConsolidateMergesBest` state what it does |
| `IdentityStore.ChosenIsBest` | nnio/utils.py:162-164 | the pair chosen by `np.argmin` over the `dst` column qualifies, no qualifying pair is closer, and every qualifying pair scanned before it is strictly farther |
| `IdentityStore.BestPairUnique` | nnio/utils.py:162-164 | at most one pair has that property, so `optimize` merges at most one pair |
| `IdentityStore.BestPairExists` | nnio/utils.py:162-164 | whenever some pair qualifies, a best pair exists |
| `IdentityStore.ConsolidateNoOp` | nnio/utils.py:147-162 | `optimize` changes nothing exactly when there are fewer than 2 entries or no pair is strictly below `merging_threshold` |
| `IdentityStore.ConsolidateShrinks` | nnio/utils.py:162-170 | when some pair qualifies, `optimize` removes exactly one entry |
| `IdentityStore.ConsolidateMergesBest` | nnio/utils.py:162-170 | `optimize` is the merge of the best pair |
| `IdentityStore.Merge` | nnio/utils.py:166-170 | the merge of `keys[j]` into `keys[i]`; `MergeEffect` and `MergeValid` state its effect |
| `IdentityStore.MergeEffect` | nnio/utils.py:166-170 | the merge gives `keys[i]` the value `normalize(v_i + v_j)` and count 1 in its old position, removes `keys[j]` from both dictionaries and from the order, and leaves every other entry unchanged |
| `IdentityStore.MergeValid` | nnio/utils.py:166-170 | a merge keeps the invariant |
| `IdentityStore.RemoveAtEffect` | nnio/utils.py:169-170 | deleting `keys[j]` keeps the others distinct and in order |
| `IdentityStore.EmptyIsUnit` | nnio/utils.py:110-118 | the new store satisfies the invariant and trivially holds only unit centroids |
| `IdentityStore.AssignKeepsUnit` | nnio/utils.py:120-145 | for an `rsqrt` that is exact, a non-zero input and a threshold below 2, `find_closest` keeps every stored centroid a unit vector |
| `IdentityStore.CreateKeepsUnit` | nnio/utils.py:132-138 | storing a unit vector keeps every centroid a unit vector |
| `IdentityStore.UpdateKeepsUnit` | nnio/utils.py:140-143 | renormalizing the running mean with a unit input closer than 2 keeps every centroid a unit vector |
| `IdentityStore.ConsolidateKeepsUnit` | nnio/utils.py:147-170 | for an exact `rsqrt` and a merging threshold of at most 2, `optimize` keeps every centroid a unit vector |
| `IdentityStore.MergeKeepsUnit` | nnio/utils.py:166-170 | merging two unit centroids closer than 2 keeps every centroid a unit vector |
| `HumanDatabase.HumanDataBase.constructor` | nnio/utils.py:110-118 | the new store is empty and satisfies the invariant; the thresholds are the arguments |
| `HumanDatabase.HumanDataBase.Default` | nnio/utils.py:110-118 | with no arguments, the thresholds are 0.25 and 0.2 |
| `HumanDatabase.HumanDataBase.DistancesTo` | nnio/utils.py:123-126 | the comprehension `distances` in insertion order, or no value exactly when some centroid's length differs |
| `HumanDatabase.HumanDataBase.FindClosest` | nnio/utils.py:120-145 | on failure the state is unchanged; on success the new state and returned key are those of `IdentityStore.Assign`; the invariant is kept |
| `HumanDatabase.HumanDataBase.AddEntry` | nnio/utils.py:132-138 | the create branch, in place: the state becomes `Create`'s |
| `HumanDatabase.HumanDataBase.MoveEntry` | nnio/utils.py:140-143 | the update branch, in place: the state becomes `Update`'s |
| `HumanDatabase.HumanDataBase.CloseCandidates` | nnio/utils.py:152-160 | the double loop builds exactly `ScanPairs` of the centroids |
| `HumanDatabase.HumanDataBase.CloseInRow` | nnio/utils.py:154-160 | the inner loop for row `i` builds exactly `RowPairs` |
| `HumanDatabase.HumanDataBase.Optimize` | nnio/utils.py:147-170 | the new state is `IdentityStore.Consolidate` of the old one; the invariant is kept |
| `HumanDatabase.HumanDataBase.MergeEntries` | nnio/utils.py:166-170 | the merge, in place: the state becomes `Merge`'s |
| `ImagePreprocessing.InitFailure` | nnio/preprocessing.py:78-114 | the first error the constructor raises, in the source's order; `InitSucceedsIff` and the rejection lemmas below state each condition |
| `ImagePreprocessing.Init` | nnio/preprocessing.py:78-127 | the constructor on values: that error, or the configured object; `InitDefaults`, `ImagenetSettings` and the folding lemmas state the object |
| `ImagePreprocessing.New` | nnio/preprocessing.py:78-127 | the constructor returns the object or the first error `Init` names, in the order the source raises them |
| `ImagePreprocessing.InitSucceedsIff` | nnio/preprocessing.py:81-114 | construction succeeds exactly when none of the error conditions holds |
| `ImagePreprocessing.StdsWithScalesRejected` | nnio/preprocessing.py:85-86 | giving both `stds` and `scales` is an error |
| `ImagePreprocessing.ToGrayChannelsFirstRejected` | nnio/preprocessing.py:91-92 | `to_gray <= 0` with `channels_first` is an error |
| `ImagePreprocessing.ImagenetRejectsScaling` | nnio/preprocessing.py:98-108 | `imagenet_scaling` with any of `divide_by_255`, `means`, `stds` or `scales` given is an error |
| `ImagePreprocessing.ImagenetSettings` | nnio/preprocessing.py:109-114 | `imagenet_scaling` sets the ImageNet means and stds, no scales and no division, and dtype `float32` when none is given |
| `ImagePreprocessing.InitDefaults` | nnio/preprocessing.py:78-96 | dtype defaults to `uint8`, or `float32` under `imagenet_scaling`; `divide_by_255` defaults to false; the other fields are copied |
| `ImagePreprocessing.DefaultInit` | nnio/preprocessing.py:78-127 | with every argument at its default, the object has dtype `uint8` and no shift or scale |
| `ImagePreprocessing.FoldingKeepsDocumentedOrder` | nnio/preprocessing.py:116-127 | `(x - _means) * _scales` equals the documented order: divide by 255 if asked, then subtract `means`, then divide by `stds` or multiply by `scales` |
| `ImagePreprocessing.ImagenetMatchesDocumentation` | nnio/preprocessing.py:98-127 | under `imagenet_scaling`, each channel is mapped to `(x/255 - m) / s` with the documented constants 0.485, 0.456, 0.406 and 0.229, 0.224, 0.225 |
| `ImagePreprocessing.Forward` | nnio/preprocessing.py:144-159 | `forward` limited to the dtype check and the shift and scale; `ForwardRejectsNonUint8` and `ForwardIsDocumentedOrder` state what it returns |
| `ImagePreprocessing.ForwardRejectsNonUint8` | nnio/preprocessing.py:144-145 | `forward` raises its dtype error exactly when the image is not uint8 |
| `ImagePreprocessing.ForwardIsDocumentedOrder` | nnio/preprocessing.py:156-159 | on a uint8 image whose channel count the coefficients fit, shift and scale succeed and give every channel of every pixel its documented value |
| `ImagePreprocessing.ShiftScaleAllValue` | nnio/preprocessing.py:156-159 | shift then scale, broadcast along the channel axis, give every channel `(x - _means) * _scales` |
| `ImagePreprocessing.Broadcast` | nnio/preprocessing.py:156-159 | numpy broadcasting of a scalar, a one-element list or a per-channel list along the channel axis, and the shape error otherwise |
| `ImagePreprocessing.Describe` | nnio/preprocessing.py:240-259 | `__str__` as the tuple of its eleven fields in the printed order |
| `ImagePreprocessing.Equal` | nnio/preprocessing.py:261-263 | `__eq__`: equal descriptions; `EqualIffSame` states what that means |
| `ImagePreprocessing.EqualIffSame` | nnio/preprocessing.py:240-262 | two constructed objects are `==` (same description) exactly when they are identical, so equal objects preprocess every image identically |
| `Padding.Ratio` | nnio/preprocessing.py:219-221 | the ratio is the larger of the two side ratios |
| `Padding.FittedSize` | nnio/preprocessing.py:219-225 | the scaled size is computed, or `ZeroDivisionError` exactly when a target side is 0 or the image is empty |
| `Padding.FittedSizeFits` | nnio/preprocessing.py:219-225 | the scaled image fits the target, and the side that set the ratio fills it |
| `Padding.Offset` | nnio/preprocessing.py:231-232 | `(H - h) // 2` is non-negative and centres the block to within one pixel |
| `Padding.PasteCentered` | nnio/preprocessing.py:229-237 | the canvas is exactly `resize[1] × resize[0]`, holds the scaled image at the offsets and is zero elsewhere |
| `Padding.ThinImageVanishes` | nnio/preprocessing.py:219-225 | a 1000 × 1 image fitted into 10 × 10 gets the size 10 × 0 |
| `Padding.ResizeWithPadding` | nnio/preprocessing.py:214-238 | the padded branch fails with `ZeroDivisionError` exactly when `FittedSize` does, with the `cv2.error` of an empty size exactly when the fitted size has a zero side, and otherwise yields that canvas |
| `Detection.KeptIndices` | nnio/zoo/edgetpu/detection.py:72-73 | the kept rows are exactly those with `score >= threshold`, in increasing row order |
| `EdgeTpuDetection.ParseLabelLine` | nnio/zoo/edgetpu/detection.py:51-54 | one line of the label file: `int()` of its first word and its second word, or the `IndexError`/`ValueError` the comprehension raises |
| `EdgeTpuDetection.LabelMap` | nnio/zoo/edgetpu/detection.py:51-54 | the dictionary comprehension over the lines in file order; `LabelMapSucceeds`, `LabelMapKeys` and `LabelMapLastWins` state what it builds |
| `EdgeTpuDetection.LabelMapSucceeds` | nnio/zoo/edgetpu/detection.py:51-54 | the label map is built exactly when every line has an integer first token and a second token |
| `EdgeTpuDetection.LabelMapKeys` | nnio/zoo/edgetpu/detection.py:51-54 | its keys are exactly the integer first tokens |
| `EdgeTpuDetection.LabelMapLastWins` | nnio/zoo/edgetpu/detection.py:51-54 | each id maps to the second token of the last line carrying it |
| `EdgeTpuDetection.LookUp` | nnio/zoo/edgetpu/detection.py:75 | `self.labels[int(classes[0, i])]`, or `KeyError` for an id not in the map |
| `EdgeTpuDetection.ParseSsd` | nnio/zoo/edgetpu/detection.py:70-79 | the boxes of the kept rows in row order, each labelled `labels[int(class)]`; `KeyError` exactly when a kept row's class is unknown, naming the first such row |
| `EdgeTpuDetection.ParseFaces` | nnio/zoo/edgetpu/detection.py:149-158 | the boxes of the kept rows in row order, each labelled `face`; never longer than the input |
| `EdgeTpuDetection.SsdAndFaceAgree` | nnio/zoo/edgetpu/detection.py:70-79 | both detectors keep the same rows; relabelling the SSD boxes `face` gives the face boxes |
| `OpenVinoDetection.ModelPath` | nnio/zoo/openvino/detection.py:43-47 | without `lite` the URL is unchanged; with `lite`, a URL containing `ssd` grows by at least four characters, and replacing `ssdlite` back by `ssd` recovers it |
| `OpenVinoDetection.UrlsNameSsd` | nnio/zoo/openvino/detection.py:18-19 | both model URLs contain `ssd` |
| `OpenVinoDetection.ModelPaths` | nnio/zoo/openvino/detection.py:18-47 | without `lite` the pair is the two URLs; with `lite` it is exactly the two files of the `ssdlite_mobilenet_v2_coco` network, which differ from the URLs, are longer by at least four characters, and map back to them |
| `OpenVinoDetection.LiteUrl` | nnio/zoo/openvino/detection.py:46-47 | `replace('ssd', 'ssdlite')` on a model file URL turns both copies of `ssd_mobilenet_v2_coco` into `ssdlite_mobilenet_v2_coco` and leaves the directory and the extension alone |
| `OpenVinoDetection.Labels` | nnio/zoo/openvino/detection.py:54-57 | one label per line, each the line with leading and trailing whitespace cut off and no whitespace left at either end, empty exactly for blank lines |
| `OpenVinoDetection.LabelOf` | nnio/zoo/openvino/detection.py:76 | `labels[int(label) - 1]`, with a negative index counted from the end, or `IndexError` exactly when the index is out of Python's range |
| `OpenVinoDetection.LabelOfInRange` | nnio/zoo/openvino/detection.py:76 | one-based class ids `1..len(labels)` name the labels in order |
| `OpenVinoDetection.LabelOfZero` | nnio/zoo/openvino/detection.py:76 | class id 0 wraps around to the last label |
| `OpenVinoDetection.ParseRows` | nnio/zoo/openvino/detection.py:72-79 | the boxes of the rows with `score >= threshold`, in row order; `IndexError` exactly when a kept row's label index is out of range, naming the first such row |
| `OnnxDetection.LabelOf` | nnio/zoo/onnx/detection.py:49-53 | `labels[int(classes - 1)]`, with a negative index counted from the end, or `IndexError` exactly when that index is out of range |
| `OnnxDetection.LabelOfAsShiftedTrunc` | nnio/zoo/onnx/detection.py:49-53 | `int(c - 1) == int(c) - 1` except for `0 < c < 1`, where the ONNX detector takes `labels[0]` |
| `OnnxDetection.ParseDetections` | nnio/zoo/onnx/detection.py:47-57 | exactly `int(num_detections[0])` boxes, the i-th from row i, with no score filter; otherwise the first failing row: past the tensor or with an out-of-range label |
| `Builtins.Strip` | nnio/zoo/openvino/detection.py:55 | `str.strip`: the result is the input with some whitespace cut from each end, has no whitespace at either end, and is empty exactly for all-whitespace input |
| `Builtins.StripUnique` | nnio/zoo/openvino/detection.py:55 | any cut of whitespace from the ends that leaves clean edges is `strip()`'s result |
| `Builtins.Words` | nnio/utils.py:23 | `str.split()`: the maximal runs of non-whitespace in order; `WordsEmpty` and `SingleWord` state what it gives |
| `Builtins.SingleWord` | nnio/utils.py:23 | for a string that does not start with whitespace, `split()` gives one word exactly when all its whitespace is trailing |
| `Builtins.WordsEmpty` | nnio/utils.py:23 | `s.split()` is empty exactly when `s` is all whitespace |
| `Builtins.ReplaceAll` | nnio/zoo/openvino/detection.py:46-47 | `str.replace`: every non-overlapping occurrence, left to right; `ReplaceAllUndone` and `ReplaceAllGrows` state its properties |
| `Builtins.ContainsAt` | nnio/zoo/openvino/detection.py:46-47 | an occurrence at some position means `p in s` |
| `Builtins.ReplaceAllGrows` | nnio/zoo/openvino/detection.py:46-47 | when `p` occurs in `s`, replacing `p` by `p + q` adds at least `len(q)` characters |
| `Builtins.ReplaceAllUndone` | nnio/zoo/openvino/detection.py:46-47 | `s.replace(p, p + q).replace(p + q, p) == s` |
| `Builtins.ReplaceAllMissing` | nnio/zoo/openvino/detection.py:46-47 | a string lacking some character of `p` is left unchanged by `replace(p, r)` |
| `Builtins.ReplaceAllJoin` | nnio/zoo/openvino/detection.py:46-47 | `(a + b).replace(p, r) == a.replace(p, r) + b.replace(p, r)` when the character just before the join or just after it is not in `p`, so no occurrence straddles it |
| `Builtins.Trunc` | nnio/zoo/edgetpu/detection.py:75 | `int()` of a float truncates toward zero |
| `Builtins.TruncShift` | nnio/zoo/onnx/detection.py:49-53 | `int(x - 1) == int(x) - 1` exactly when `x` is not strictly between 0 and 1 |
| `Builtins.ParseInt` | nnio/zoo/edgetpu/detection.py:52 | `int()` of a string: an optional sign and ASCII digits, or `ValueError`; `ParseIntDecimal` states that it inverts `str` |
| `Builtins.Decimal` | nnio/utils.py:132 | `str(n)`: a non-empty string of decimal digits; `ParseIntDecimal` shows `int()` recovers `n`, so distinct numbers give distinct keys |
| `Builtins.ParseIntDecimal` | nnio/zoo/edgetpu/detection.py:52 | `int()` reads back `str(n)`, `'-' + str(n)` and `'+' + str(n)` as `n`, `-n` and `n` |
| `Builtins.PyIndex` | nnio/zoo/openvino/detection.py:76 | a list index is valid from `-len` to `len - 1`, and a negative index counts from the end |

## Left out

- I/O is outside the model: `file_from_url`, the temperature logging, `open` of the label files (the lines are a parameter), `cv2.imread` and `os.remove` in `_read_image`, and the `print` calls in `find_closest` and `optimize`.
- The model backends (EdgeTPU, OpenVINO, ONNX runtimes) and device selection are outside the model. Their output tensors are parameters of the parsers.
- Floating point is modelled as exact reals: IEEE rounding, NaN from normalizing a zero vector, and `inf` from a zero std are not modelled.
- `Vectors.Normalize`: `np.sqrt` is a parameter `rsqrt` standing for `1/sqrt`. The unit-length lemmas assume it is exact.
- `ImagePreprocessing.Init`: zero entries in `stds` are excluded by a precondition, because `1 / stds` would give `inf` in numpy.
- `ImagePreprocessing.Forward`: the `bgr` channel flip, the resize call, `to_gray`, `channels_first`, the batch dimension and the final `astype` are not modelled. The model covers the dtype check and the shift-and-scale step on a list of pixels.
- `ImagePreprocessing.Describe`: `__str__` is modelled as the tuple of the eleven printed fields, not as formatted text. Two different float lists that print alike are therefore not identified. In the other direction, the model identifies values that Python prints differently: `[1]` and `[1.0]` (both the real 1), and a list and a tuple with the same entries (both a `seq`). For such arguments the model calls two objects equal where `__eq__` does not.
- The `to_gray` type assertion (`isinstance(to_gray, int)`) is enforced by the type `Option<int>`, and `dtype` is a string only (not an `np.dtype`).
- `Padding`: `cv2.resize` itself is a parameter (its output array), and the non-padding branch `cv2.resize(image, resize)` is only that call. Pixels are three-channel `Rgb` values.
- `Builtins.ParseInt` accepts an optional sign and ASCII digits. `int()` also accepts underscores between digits and non-ASCII decimal digits, which are not modelled.
- The parsers require the tensors to have matching lengths (the shape contract of the backends); the rows are the first batch element `boxes[0]`.
- The EdgeTPU and OpenVINO constructors' choice of model URL by device, and the `return_info` flag, are not modelled.
- `OpenVinoDetection.ModelPath`: for an arbitrary URL the contract does not pin how many occurrences of `ssd` become `ssdlite` (a path rewriting only some of them also meets it); for the two URLs the constructor uses, `ModelPaths` and `LiteUrl` give the exact paths.
- The classification, segmentation and re-identification model wrappers and `nnio/output.py`'s drawing and printing are not part of this model.
