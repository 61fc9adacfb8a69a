# Combined emotion and facial-expression detector: a Dafny model

This project models the decision logic of `CombinedDetector` in `main.py`: the script reads a
few webcam frames, finds a face in each with a landmark model, classifies the face's
expression from its landmarks and its emotion from a crop of the image, and summarises the
session by its most frequent emotion and expression.

It has four modules, one per component of `CombinedDetector`, plus `Wrappers` (an `Option` type):

- `RegionExtractor` (`region_extractor.dfy`) covers the face box of `process_frame`
  (main.py:78-97). `TightBox` takes the min/max box of the landmarks, and `FaceBox` pads it by
  20 pixels and clamps it to the frame. `CropSize` is the size of the numpy crop
  `frame[y_min:y_max, x_min:x_max]`. It follows Python's slice rules exactly (`SliceBound`,
  `SliceLength`), including counting a negative bound from the end.
- `FrameFusion` (`frame_fusion.dfy`) holds `ProcessFrame`, which is `process_frame`
  (main.py:44-114) as a pure function. `EmotionField` is its emotion branch (main.py:97-105).
  The landmark model, `classify_face` and `EmotionDetector.detect_emotions` are foreign code.
  A `Frame` therefore carries its shape and what each of them answers for it (a value, or an
  exception). `emotion_available` is a parameter.
- `FrequencyTable` (`frequency_table.dfy`) holds the insertion-ordered label counts, stored as a
  sequence of `(label, count)` entries. `Frequencies` is the table that the counting loops of
  main.py:164-171 build. `CountLabels` is that loop, updating the table in place, and is proved
  to yield `Frequencies`. `MaxIndex` is Python's `max(d.items(), key=...)`, which keeps the first
  maximal entry, and `MostCommon` is main.py:173-174. `Confidence` is main.py:182 and 187.
- `SessionAggregator` (`session_aggregator.dfy`) is `process_video_stream` (main.py:116-199).
  `ProcessVideoStream` is a method with the frame loop, proved equal to the specification
  function `Session`. Within `Session`, `Scan` is the frame loop of main.py:138-154. `Window` is
  the number of reads that loop attempts. `TruthyLabels` is the filter of main.py:160-161.
  `Summarize` is the aggregation of main.py:159-199.
  The camera is a `Capture`: either it does not open, or it serves a finite sequence of reads,
  each a frame or an exception. After the last read, `read()` reports no frame.

Integer pixel coordinates stand for `int(landmark.x * w)`. Truncation is monotone, so
`int(min(xs))` equals the minimum of the truncated coordinates. Confidence is an exact `real`
(see "## Left out").

Points where the code's behaviour is easy to misread:

- A face whose crop is empty, with a detector available, leaves `emotion` absent. It does not get
  the "not available" sentinel.
- Without a detector, frames with no face have no emotion. They do not carry the sentinel.
- The tallies skip falsy labels (`None` and `""`). They do not count them as labels of their own.
- Because of the padding, landmarks inside a non-empty frame never give an empty crop, not even a
  single landmark (`CropNonEmpty`).
- The clamp bounds `x_max` only from above, so landmarks more than 20 pixels left of the frame
  make `x_max` negative. When `-w < x_max < 0`, numpy counts that stop from the right edge, so the
  column range is non-empty. If the row range is non-empty too, the crop is non-empty
  (`CropWrapsAround`), and a detector, if available, is called on a region without the face.
  When `x_max <= -w`, the columns and the crop are empty (`CropEmptyFarLeft`).
- A frame whose `read()` raises ends the session with status "failed" and that message.
  Per-frame errors are kept on the frame's result and are not tallied in any other way.

## Model

| member | source | states |
|---|---|---|
| `RegionExtractor.SeqMin` | main.py:82-85 | `min` of a non-empty list is an element of it and no element is smaller |
| `RegionExtractor.SeqMax` | main.py:82-85 | `max` of a non-empty list is an element of it and no element is larger |
| `RegionExtractor.TightBox` | main.py:79-85 | the tight box holds every landmark, and each of its four edges lies on some landmark |
| `RegionExtractor.FaceBox` | main.py:88-92 | for any landmarks the padded, clamped box has `x_min >= 0`, `y_min >= 0`, `x_max <= w`, `y_max <= h` |
| `RegionExtractor.SliceBound` | main.py:95 | a slice bound inside `[0,n]` is kept, a negative one counts from the end, and anything else is clamped to `0` or `n` |
| `RegionExtractor.SliceLengthInRange` | main.py:95 | with both bounds in `[0,n]`, a slice has `max(0, stop - start)` elements |
| `RegionExtractor.FaceBoxOrdered` | main.py:82-92 | landmarks inside the frame give `x_min <= x_max`, `y_min <= y_max`, and a padded box that still holds every landmark |
| `RegionExtractor.FaceBoxUnclamped` | main.py:88-92 | where clamping does not bite, each edge moves out by exactly 20, so width and height grow by 40 over the tight span |
| `RegionExtractor.CropSize` | main.py:95-97 | no contract of its own: `face_roi.size` under numpy slicing; its properties are `CropIsBoxArea`, `CropNonEmpty`, `CropWrapsAround` and `CropEmptyFarLeft` |
| `RegionExtractor.CropIsBoxArea` | main.py:95-97 | for landmarks inside the frame, `face_roi.size` is the box's area times the channel count |
| `RegionExtractor.CropNonEmpty` | main.py:88-97 | landmarks inside a frame with positive width, height and channels always give a non-empty crop |
| `RegionExtractor.CropWrapsAround` | main.py:91-97 | a landmark at x = -50 in a 100-pixel frame gives `x_max = -30`, yet the crop has 30 x 70 x 3 elements |
| `RegionExtractor.CropEmptyFarLeft` | main.py:91-97 | a landmark at x = -200 in a 100-pixel frame gives `x_max = -180`, at or below `-w`, and an empty crop |
| `FrameFusion.ProcessFrame` | main.py:44-114 | no contract of its own: `process_frame`; its properties are the FrameFusion lemmas |
| `FrameFusion.NoFaceResult` | main.py:54-108 | (the record of lines 54-59 and the else branch of lines 106-108) with no landmarks the result is `face_detected = false`, expression "Face Not Detected", no emotion and no error, whatever the two classifiers would answer |
| `FrameFusion.FaceDetectedIffLandmarks` | main.py:72-73 | `face_detected` is true exactly when the landmark model found a face |
| `FrameFusion.EmotionField` | main.py:97-105 | no contract of its own: the emotion branch; its properties are `EmotionDecision` and `EmotionDetectorConsultedOnlyWhenCalled` |
| `FrameFusion.EmotionDecision` | main.py:97-105 | when the box is computed: non-empty crop with a detector gives the detector's label, or "Unknown" if it raises; no detector gives "Emotion model not available"; an empty crop with a detector leaves the emotion absent |
| `FrameFusion.EmotionDetectorConsultedOnlyWhenCalled` | main.py:97-100 | on a frame where line 97's condition fails, the emotion detector's answer does not affect the result |
| `FrameFusion.InFrameFaceReachesDetector` | main.py:88-103 | with a detector, in-frame landmarks on a non-empty frame always reach it: the emotion is its label, or "Unknown" |
| `FrameFusion.UnavailableEmotion` | main.py:97-108 | without a detector the emotion is absent or "Emotion model not available", and it is the sentinel on every face frame without an error |
| `FrameFusion.ErrorKeepsAssignedFields` | main.py:61-114 | an exception is caught at the frame boundary: `error` is present exactly when a step raised, and every field assigned before that step is kept |
| `FrameFusion.FieldsFilledInOrder` | main.py:72-105 | an emotion implies a detected face, an expression and no error; an expression implies a face or the "Face Not Detected" sentinel |
| `FrequencyTable.KeyIndex` | main.py:168-171 | the dict lookup: the position of the key, or the table length when the label is absent; no earlier entry has that key |
| `FrequencyTable.Frequencies` | main.py:164-171 | no contract of its own: the counting loops' table; its properties are `FrequenciesCount`, `FrequenciesKeys`, `TableEntries` and `FrequenciesOrder` |
| `FrequencyTable.FrequenciesCount` | main.py:167-171 | `counts.get(l, 0)` after the counting loop equals the number of occurrences of `l` in the list, for every `l` |
| `FrequencyTable.FrequenciesKeys` | main.py:167-171 | the table's keys are distinct and are exactly the labels of the list |
| `FrequencyTable.TableEntries` | main.py:167-171 | every entry's count is positive and equals its label's number of occurrences |
| `FrequencyTable.FrequenciesOrder` | main.py:164-171 | the keys stand in the order of their labels' first occurrences, as a dict keeps insertion order |
| `FrequencyTable.MaxIndex` | main.py:173-174 | `max` over the items: an entry whose count no entry exceeds, and every earlier entry has a strictly smaller count |
| `FrequencyTable.MostCommon` | main.py:173-174 | no contract of its own: the key of the `max` entry; its property is `MostCommonIsEarliestMode` |
| `FrequencyTable.MostCommonIsEarliestMode` | main.py:173-174 | the dominant label occurs in the list, no label occurs more often, ties go to the label that occurs first; an empty list gives "No Detection" |
| `FrequencyTable.Confidence` | main.py:182-187 | no contract of its own: count / total; its property is `ConfidenceBounds` |
| `FrequencyTable.ConfidenceBounds` | main.py:182-187 | the confidence is count(dominant) / total, in (0, 1] for a non-empty list, and 0 for an empty one |
| `FrequencyTable.CountLabels` | main.py:164-171 | the in-place counting loop yields exactly the table `Frequencies(labels)` |
| `SessionAggregator.Scan` | main.py:138-154 | no contract of its own: the frame loop; its properties are `AbortPersists`, `ScanAborts`, `ScanRetains`, `ScanAppend` and `SingleFrame` |
| `SessionAggregator.AbortPersists` | main.py:150-154 | once a read has raised, later reads do not change the outcome |
| `SessionAggregator.ScanAborts` | main.py:138-154 | the frame loop fails exactly when some read raised, and then carries the message of the first such read |
| `SessionAggregator.ScanRetains` | main.py:138-148 | without an exception, the loop keeps exactly as many results as there are reads that found a face, never more than the reads; each kept result has `face_detected` and is the result of some read frame; `ScanAppend` and `SingleFrame` give the kept list itself |
| `SessionAggregator.ScanAppend` | main.py:138-148 | without an exception, the results kept from reads `p` then `q` are those kept from `p` followed by those kept from `q`: the loop appends in frame order, each result once |
| `SessionAggregator.SingleFrame` | main.py:143-145 | one frame contributes its result exactly when the landmark model found a face on it, and nothing otherwise |
| `SessionAggregator.TruthyLabels` | main.py:160-161 | no contract of its own: the truthiness filter; its properties are `TruthyLabelsCount`, `TruthyAppend` and `SingleLabel` |
| `SessionAggregator.TruthyLabelsCount` | main.py:160-161 | the comprehension counts a label `l != ""` as often as `Some(l)` occurs; it never yields `""` and is no longer than its input; `TruthyAppend` and `SingleLabel` give its order |
| `SessionAggregator.TruthyAppend` | main.py:160-161 | the comprehension keeps the input order: filtering `a + b` gives the labels kept from `a` followed by those kept from `b` |
| `SessionAggregator.SingleLabel` | main.py:160-161 | one optional label is kept exactly when it is present and not the empty string |
| `SessionAggregator.TalliedLabels` | main.py:160-161 | each truthy emotion or expression is counted as often as retained results carry it; `None` and `""` are not counted |
| `SessionAggregator.Session` | main.py:116-199 | no contract of its own: `process_video_stream`; its properties are `CannotOpenFails`, `SessionCounts` and `CompletedSessionReports`, and `ProcessVideoStream` is proved equal to it |
| `SessionAggregator.CannotOpenFails` | main.py:128-132 | a camera that does not open gives status "failed" with "Cannot open camera", and no frame is processed |
| `SessionAggregator.SessionCounts` | main.py:138-148 | an opened session fails exactly when a read in the window raised; otherwise it is "completed", `frames_processed` is `min(num_frames, frames available)` (0 for `num_frames <= 0`), ending early only when the camera runs out, and `detections_found` is the number of face frames, at most `frames_processed`, and 0 exactly in the no-face summary |
| `SessionAggregator.Summarize` | main.py:159-199 | no contract of its own: the aggregation; its properties are `SummaryShape`, `ReportProperties` and `CompletedSessionReports` |
| `SessionAggregator.SummaryShape` | main.py:159-199 | with no retained results the summary is "completed", 0 detections, the no-face message and no reports; otherwise it has both reports |
| `SessionAggregator.ExhaustedExample` | main.py:138-141 | a camera with four face-less frames ends a ten-frame session after four frames, without error |
| `SessionAggregator.ReportProperties` | main.py:164-189 | a report's table counts all occurrences, its label is the earliest mode with confidence count / total in (0, 1], and an empty list gives "No Detection" with confidence 0 |
| `SessionAggregator.CompletedSessionReports` | main.py:159-189 | a completed session's two reports are tallies of the truthy labels of the retained results, taken over `detections_found` results |
| `SessionAggregator.UnavailableScan` | main.py:97-148 | (the emotion branch of lines 97-108 under the loop of lines 138-148) without a detector, every retained result's emotion is absent or the unavailable sentinel |
| `SessionAggregator.UnavailableSessionEmotions` | main.py:160-173 | without a detector a completed session tallies only "Emotion model not available", which is then the dominant emotion if any result carries it |
| `SessionAggregator.DominantExample` | main.py:164-182 | counts A:3, B:5, C:2 over ten results give "B" with confidence 0.5 |
| `SessionAggregator.TieExample` | main.py:173-174 | a tie A:2, B:2 goes to "A", which occurs first |
| `SessionAggregator.ProcessVideoStream` | main.py:116-199 | the loop method returns exactly the summary `Session` specifies for the capture, `num_frames` and detector availability |

## Left out

- Camera I/O (`cv2.VideoCapture`, `cap.read`, `cap.release`): the camera is the `Capture` input. Releasing it in `finally` is not modelled.
- Conversion from BGR to RGB, MediaPipe Holistic, `classify_face` and `EmotionDetector`: these are foreign models whose code is not shown. They are modelled only by what they answer for a frame. The image pixels are not modelled; only the frame's shape is.
- The landmark scaling `landmark.x * w` in floating point, and its truncation: the model takes integer pixel coordinates as input.
- The expression and emotion label sets: labels are opaque strings.
- Timestamps (`datetime.now()`) in the frame results and summaries.
- Messages printed to standard error, and the text of each exception: an exception's `str(e)` is an opaque message in the input. The message for `min` of an empty list is a fixed constant, whose exact wording depends on the Python version.
- `CombinedDetector.__init__`: whether `EmotionDetector()` could be constructed is the `available` parameter.
- `main()` with its JSON printing, the module-level imports with `sys.exit`, `server.py`, `server.js` and `process_video.py`: output, HTTP and placeholder code without decision logic.
- A frame whose shape does not unpack into height, width and channels: the `Frame` type always has three dimensions.
- Confidence: Python's float division `count / len(all_results)` becomes exact real division; float rounding is not modelled.
