/**
 * The session (main.py, `CombinedDetector.process_video_stream`, lines
 * 116-199): read up to `num_frames` frames, keep the results that found a
 * face, and summarise them by their dominant emotion and expression.
 *
 * The camera is modelled by whether it opens and, if it does, the finite
 * sequence of answers its `read()` gives; after the last one `read()`
 * reports failure, which ends the loop.
 */
module SessionAggregator {
  import opened Wrappers
  import opened FrameFusion
  import opened FrequencyTable

  /** One successful `cap.read()`: a frame, or an exception from the camera. */
  datatype Read = Grabbed(frame: Frame) | ReadRaised(message: string)

  /** `cv2.VideoCapture(0)`: not opened, or opened with the reads it will serve. */
  datatype Capture = CannotOpen | Opened(stream: seq<Read>)

  /** The `emotion_detection` / `facial_expression` part of a summary. */
  datatype LabelReport = LabelReport(detected: string, confidence: real, all: seq<string>)

  /** The dictionary `process_video_stream` returns (timestamps left out). */
  datatype Summary =
    | Failed(error: string)
    | NoFaceDetected(framesProcessed: nat)
    | Completed(framesProcessed: nat, detectionsFound: nat,
                emotions: LabelReport, expressions: LabelReport)
  {
    function Status(): string
    {
      if Failed? then "failed" else "completed"
    }

    /** `detections_found`, which a failed summary does not carry. */
    function Detections(): Option<nat>
    {
      match this
      case Failed(_) => None
      case NoFaceDetected(_) => Some(0)
      case Completed(_, n, _, _) => Some(n)
    }

    /** The human-readable `message` or `error` of the summary, if it has one. */
    function Message(): Option<string>
    {
      match this
      case Failed(e) => Some(e)
      case NoFaceDetected(_) => Some(NoFaceMessage)
      case Completed(_, _, _, _) => None
    }

    /** `frames_processed`, which a failed summary does not carry. */
    function Processed(): Option<nat>
    {
      match this
      case Failed(_) => None
      case NoFaceDetected(n) => Some(n)
      case Completed(n, _, _, _) => Some(n)
    }
  }

  const DefaultNumFrames: int := 10
  const CannotOpenCamera: string := "Cannot open camera"
  const NoFaceMessage: string := "No face detected in video stream"

  /** The state of the frame loop: the retained results, or the exception that ended it. */
  datatype Scanned = Aborted(message: string) | Retained(results: seq<FrameResult>)

  /** Lines 138-148 over the reads `rs`, in order. */
  function Scan(available: bool, rs: seq<Read>): Scanned
  {
    if |rs| == 0 then Retained([])
    else
      match Scan(available, rs[..|rs| - 1])
      case Aborted(m) => Aborted(m)
      case Retained(kept) =>
        match rs[|rs| - 1]
        case ReadRaised(m) => Aborted(m)
        case Grabbed(f) =>
          var r := ProcessFrame(available, f);
          Retained(if r.faceDetected then kept + [r] else kept)
  }

  /** The number of reads the loop attempts when the camera has `n` of them. */
  function Window(numFrames: int, n: nat): nat
  {
    if numFrames <= 0 then 0 else if numFrames < n then numFrames else n
  }

  /** The truthy values of a list of optional labels: neither `None` nor the empty string. */
  function TruthyLabels(labels: seq<Option<string>>): (r: seq<string>)
  {
    if |labels| == 0 then []
    else
      var rest := TruthyLabels(labels[..|labels| - 1]);
      var last := labels[|labels| - 1];
      if last.Some? && last.value != "" then rest + [last.value] else rest
  }

  /** Line 160: the truthy emotions of the retained results. */
  function EmotionLabels(results: seq<FrameResult>): seq<string>
  {
    TruthyLabels(Emotions(results))
  }

  /** Line 161: the truthy expressions of the retained results. */
  function ExpressionLabels(results: seq<FrameResult>): seq<string>
  {
    TruthyLabels(Expressions(results))
  }

  /** Lines 164-189 for one label axis. */
  function Report(labels: seq<string>, total: nat): LabelReport
  {
    var t := Frequencies(labels);
    var d := MostCommon(t);
    LabelReport(d, Confidence(t, d, total), labels)
  }

  /** Lines 159-199: the summary of a loop that read `frameCount` frames and kept `results`. */
  function Summarize(frameCount: nat, results: seq<FrameResult>): Summary
  {
    if |results| == 0 then NoFaceDetected(frameCount)
    else Completed(frameCount, |results|,
                   Report(EmotionLabels(results), |results|),
                   Report(ExpressionLabels(results), |results|))
  }

  /** The whole of `process_video_stream` as a function of its inputs. */
  function Session(available: bool, capture: Capture, numFrames: int): Summary
  {
    match capture
    case CannotOpen => Failed(CannotOpenCamera)
    case Opened(stream) =>
      var n := Window(numFrames, |stream|);
      match Scan(available, stream[..n])
      case Aborted(m) => Failed(m)
      case Retained(results) => Summarize(n, results)
  }

  /** Whether a read is a frame on which the landmark model found a face. */
  predicate Detects(r: Read)
  {
    r.Grabbed? && r.frame.landmarks.FaceLandmarks?
  }

  /** The number of reads on which the landmark model found a face. */
  function DetectionCount(rs: seq<Read>): nat
  {
    if |rs| == 0 then 0
    else DetectionCount(rs[..|rs| - 1]) + (if Detects(rs[|rs| - 1]) then 1 else 0)
  }

  /** Once the loop has been aborted by an exception, further reads do not matter. */
  lemma {:induction false} AbortPersists(available: bool, rs: seq<Read>, k: nat, m: string)
    requires k <= |rs| && Scan(available, rs[..k]) == Aborted(m)
    ensures Scan(available, rs) == Aborted(m)
  {
    if k < |rs| {
      assert rs[..|rs| - 1][..k] == rs[..k];
      AbortPersists(available, rs[..|rs| - 1], k, m);
    } else {
      assert rs[..k] == rs;
    }
  }

  /**
   * The loop fails exactly when some read raised, with the message of the
   * first such read.
   */
  lemma {:induction false} ScanAborts(available: bool, rs: seq<Read>)
    ensures Scan(available, rs).Aborted? <==> exists i :: 0 <= i < |rs| && rs[i].ReadRaised?
    ensures Scan(available, rs).Aborted? ==>
      exists i :: 0 <= i < |rs| && rs[i] == ReadRaised(Scan(available, rs).message) &&
        forall j :: 0 <= j < i ==> rs[j].Grabbed?
  {
    if |rs| > 0 {
      var p := rs[..|rs| - 1];
      ScanAborts(available, p);
      assert forall i :: 0 <= i < |p| ==> p[i] == rs[i];
    }
  }

  /**
   * Without an exception the loop keeps one result per frame that found a
   * face: each kept result found a face and is the result of some frame.
   */
  lemma {:induction false} ScanRetains(available: bool, rs: seq<Read>)
    requires Scan(available, rs).Retained?
    ensures var kept := Scan(available, rs).results;
      && |kept| == DetectionCount(rs) <= |rs|
      && (forall i :: 0 <= i < |kept| ==> kept[i].faceDetected)
      && (forall i :: 0 <= i < |kept| ==>
            exists j :: 0 <= j < |rs| && rs[j].Grabbed? && kept[i] == ProcessFrame(available, rs[j].frame))
  {
    if |rs| > 0 {
      var p := rs[..|rs| - 1];
      ScanRetains(available, p);
      assert forall j :: 0 <= j < |p| ==> p[j] == rs[j];
      var last := rs[|rs| - 1];
      if last.Grabbed? {
        FaceDetectedIffLandmarks(available, last.frame);
      }
    }
  }

  /**
   * The loop is a left-to-right filter: the results kept from two runs of
   * reads, one after the other, are those of the first run followed by those
   * of the second, so kept results stand in frame order, each once.
   */
  lemma {:induction false} ScanAppend(available: bool, p: seq<Read>, q: seq<Read>)
    requires Scan(available, p).Retained? && Scan(available, q).Retained?
    ensures Scan(available, p + q) == Retained(Scan(available, p).results + Scan(available, q).results)
  {
    if |q| == 0 {
      assert p + q == p;
    } else {
      var q' := q[..|q| - 1];
      ScanAppend(available, p, q');
      assert (p + q)[..|p + q| - 1] == p + q';
      assert (p + q)[|p + q| - 1] == q[|q| - 1];
      var last := q[|q| - 1];
      if last.Grabbed? {
        var r := ProcessFrame(available, last.frame);
        var a := Scan(available, p).results;
        var b := Scan(available, q').results;
        assert a + b + [r] == a + (b + [r]);
      }
    }
  }

  /** A single frame is kept exactly when a face was found on it. */
  lemma SingleFrame(available: bool, f: Frame)
    ensures Scan(available, [Grabbed(f)]) ==
      Retained(if f.landmarks.FaceLandmarks? then [ProcessFrame(available, f)] else [])
  {
    assert [Grabbed(f)][..0] == [];
    FaceDetectedIffLandmarks(available, f);
  }

  /** The filter of lines 160-161 keeps the input order: it distributes over concatenation. */
  lemma {:induction false} TruthyAppend(a: seq<Option<string>>, b: seq<Option<string>>)
    ensures TruthyLabels(a + b) == TruthyLabels(a) + TruthyLabels(b)
  {
    if |b| == 0 {
      assert a + b == a;
    } else {
      var b' := b[..|b| - 1];
      TruthyAppend(a, b');
      assert (a + b)[..|a + b| - 1] == a + b';
      assert (a + b)[|a + b| - 1] == b[|b| - 1];
      var last := b[|b| - 1];
      if last.Some? && last.value != "" {
        assert TruthyLabels(a) + TruthyLabels(b') + [last.value] ==
               TruthyLabels(a) + (TruthyLabels(b') + [last.value]);
      }
    }
  }

  /** A single label is kept exactly when it is present and not empty. */
  lemma SingleLabel(o: Option<string>)
    ensures TruthyLabels([o]) == if o.Some? && o.value != "" then [o.value] else []
  {
    assert [o][..0] == [];
  }

  /** The truthy labels are exactly the present, non-empty ones, in order. */
  lemma {:induction false} TruthyLabelsCount(labels: seq<Option<string>>, l: string)
    requires l != ""
    ensures Occurrences(TruthyLabels(labels), l) == Occurrences(labels, Some(l))
    ensures "" !in TruthyLabels(labels)
    ensures |TruthyLabels(labels)| <= |labels|
  {
    var n := |labels|;
    if n > 0 {
      var p := labels[..n - 1];
      TruthyLabelsCount(p, l);
      var rest := TruthyLabels(p);
      if labels[n - 1].Some? && labels[n - 1].value != "" {
        assert (rest + [labels[n - 1].value])[..|rest|] == rest;
      }
    }
  }

  /** A camera that does not open fails the session before any frame is read. */
  lemma CannotOpenFails(available: bool, numFrames: int)
    ensures Session(available, CannotOpen, numFrames) == Failed(CannotOpenCamera)
    ensures Session(available, CannotOpen, numFrames).Status() == "failed"
  {
  }

  /**
   * The frame counts of a session that completes: it reads `num_frames`
   * frames, or every frame when the camera runs out first; it fails only
   * when the camera does not open or a read raised; and it reports as
   * detections exactly the frames on which a face was found.
   */
  lemma SessionCounts(available: bool, stream: seq<Read>, numFrames: int)
    ensures var s := Session(available, Opened(stream), numFrames);
      var n := Window(numFrames, |stream|);
      && (s.Failed? <==> exists i :: 0 <= i < n && stream[i].ReadRaised?)
      && (!s.Failed? ==>
            && s.Status() == "completed"
            && s.Processed() == Some(n)
            && n <= |stream|
            && (numFrames <= 0 ==> n == 0)
            && (0 < numFrames ==> n <= numFrames)
            && (n < numFrames ==> n == |stream|)
            && s.Detections() == Some(DetectionCount(stream[..n]))
            && DetectionCount(stream[..n]) <= n
            && (s.NoFaceDetected? <==> DetectionCount(stream[..n]) == 0))
  {
    var n := Window(numFrames, |stream|);
    var w := stream[..n];
    ScanAborts(available, w);
    assert forall i :: 0 <= i < n ==> w[i] == stream[i];
    if Scan(available, w).Retained? {
      ScanRetains(available, w);
    }
  }

  /**
   * Without retained results the summary is "completed" with no detections,
   * the no-face message and no dominant label; with some it carries both
   * reports.
   */
  lemma SummaryShape(frameCount: nat, results: seq<FrameResult>)
    ensures var s := Summarize(frameCount, results);
      && s.Status() == "completed"
      && s.Processed() == Some(frameCount)
      && s.Detections() == Some(|results|)
      && (|results| == 0 <==> s.NoFaceDetected?)
      && (|results| == 0 ==> s.Message() == Some(NoFaceMessage))
      && (|results| > 0 ==> s.Completed? && s.Message() == None)
  {
  }

  /** A camera that runs out after four frames ends a ten-frame session early, without error. */
  lemma ExhaustedExample(available: bool, f: Frame)
    requires f.landmarks.NoFace?
    ensures Session(available, Opened([Grabbed(f), Grabbed(f), Grabbed(f), Grabbed(f)]), DefaultNumFrames)
      == NoFaceDetected(4)
  {
    var rs := [Grabbed(f), Grabbed(f), Grabbed(f), Grabbed(f)];
    NoFaceResult(available, f);
    assert Window(DefaultNumFrames, |rs|) == 4 && rs[..4] == rs;
    assert rs[..3] == [Grabbed(f), Grabbed(f), Grabbed(f)];
    assert rs[..2] == rs[..3][..2] == [Grabbed(f), Grabbed(f)];
    assert rs[..1] == rs[..2][..1] == [Grabbed(f)];
    assert rs[..1][..0] == [];
    assert Scan(available, rs[..1]) == Retained([]);
    assert Scan(available, rs[..2]) == Retained([]);
    assert Scan(available, rs[..3]) == Retained([]);
    assert Scan(available, rs) == Retained([]);
  }

  /**
   * Each report of a completed session: every table count is the number of
   * retained results carrying that truthy label, the dominant label is the
   * earliest most frequent one, and its confidence is its count over the
   * number of retained results, in (0, 1].  Without truthy labels the
   * report is "No Detection" with confidence 0.
   */
  lemma ReportProperties(labels: seq<string>, total: nat)
    requires |labels| <= total && total > 0
    ensures var r := Report(labels, total);
      && r.all == labels
      && (forall l :: Get(Frequencies(labels), l) == Occurrences(labels, l))
      && (|labels| == 0 ==> r.detected == NoDetection && r.confidence == 0.0)
      && (|labels| > 0 ==>
            && IsEarliestMode(labels, r.detected)
            && r.confidence == (Occurrences(labels, r.detected) as real) / (total as real)
            && 0.0 < r.confidence <= 1.0)
  {
    forall l ensures Get(Frequencies(labels), l) == Occurrences(labels, l) {
      FrequenciesCount(labels, l);
    }
    MostCommonIsEarliestMode(labels);
    ConfidenceBounds(labels, total);
  }

  /** The `emotion` field of each retained result. */
  function Emotions(results: seq<FrameResult>): (column: seq<Option<string>>)
    ensures |column| == |results| && forall i :: 0 <= i < |results| ==> column[i] == results[i].emotion
  {
    seq(|results|, i requires 0 <= i < |results| => results[i].emotion)
  }

  /** The `facial_expression` field of each retained result. */
  function Expressions(results: seq<FrameResult>): (column: seq<Option<string>>)
    ensures |column| == |results| &&
      forall i :: 0 <= i < |results| ==> column[i] == results[i].facialExpression
  {
    seq(|results|, i requires 0 <= i < |results| => results[i].facialExpression)
  }

  /**
   * Each truthy label is counted as often as retained results carry it;
   * `None` and the empty label are not counted at all.
   */
  lemma TalliedLabels(results: seq<FrameResult>, l: string)
    requires l != ""
    ensures Occurrences(EmotionLabels(results), l) == Occurrences(Emotions(results), Some(l))
    ensures Occurrences(ExpressionLabels(results), l) == Occurrences(Expressions(results), Some(l))
    ensures "" !in EmotionLabels(results) && "" !in ExpressionLabels(results)
    ensures |EmotionLabels(results)| <= |results| && |ExpressionLabels(results)| <= |results|
  {
    TruthyLabelsCount(Emotions(results), l);
    TruthyLabelsCount(Expressions(results), l);
  }

  /**
   * A completed session reports, for each axis, the tally of the truthy
   * labels of the results that found a face: the earliest most frequent
   * label with its count over `detections_found` as confidence, or
   * "No Detection" with confidence 0 when no result carries a label.
   */
  lemma CompletedSessionReports(available: bool, stream: seq<Read>, numFrames: int)
    requires Session(available, Opened(stream), numFrames).Completed?
    ensures var s := Session(available, Opened(stream), numFrames);
      var kept := Scan(available, stream[..Window(numFrames, |stream|)]).results;
      && s.detectionsFound == |kept| > 0
      && s.emotions.all == EmotionLabels(kept)
      && s.expressions.all == ExpressionLabels(kept)
      && ReportIsTally(s.emotions, s.detectionsFound)
      && ReportIsTally(s.expressions, s.detectionsFound)
  {
    var kept := Scan(available, stream[..Window(numFrames, |stream|)]).results;
    TalliedLabels(kept, "x");
    ReportProperties(EmotionLabels(kept), |kept|);
    ReportProperties(ExpressionLabels(kept), |kept|);
  }

  /** A report's label and confidence are those of the tally of its own label list. */
  predicate ReportIsTally(r: LabelReport, total: nat)
  {
    && total > 0
    && (|r.all| == 0 ==> r.detected == NoDetection && r.confidence == 0.0)
    && (|r.all| > 0 ==>
          && IsEarliestMode(r.all, r.detected)
          && r.confidence == (Occurrences(r.all, r.detected) as real) / (total as real)
          && 0.0 < r.confidence <= 1.0)
  }

  /** Without an emotion detector, every retained emotion is absent or the unavailable sentinel. */
  lemma {:induction false} UnavailableScan(rs: seq<Read>)
    requires Scan(false, rs).Retained?
    ensures forall r :: r in Scan(false, rs).results ==>
      r.emotion == None || r.emotion == Some(EmotionModelNotAvailable)
  {
    if |rs| > 0 {
      UnavailableScan(rs[..|rs| - 1]);
      var last := rs[|rs| - 1];
      if last.Grabbed? {
        UnavailableEmotion(last.frame);
      }
    }
  }

  /**
   * Without an emotion detector a completed session tallies only the
   * unavailable sentinel, which is then the dominant emotion whenever some
   * result carries it.
   */
  lemma UnavailableSessionEmotions(stream: seq<Read>, numFrames: int)
    requires Session(false, Opened(stream), numFrames).Completed?
    ensures var e := Session(false, Opened(stream), numFrames).emotions;
      && (forall l :: l in e.all ==> l == EmotionModelNotAvailable)
      && (|e.all| > 0 ==> e.detected == EmotionModelNotAvailable)
  {
    var w := stream[..Window(numFrames, |stream|)];
    var kept := Scan(false, w).results;
    UnavailableScan(w);
    var e := Session(false, Opened(stream), numFrames).emotions;
    forall l | l in e.all ensures l == EmotionModelNotAvailable {
      TalliedLabels(kept, EmotionModelNotAvailable);
      assert l != "";
      TruthyLabelsCount(Emotions(kept), l);
      OccurrencesPositive(EmotionLabels(kept), l);
      OccurrencesPositive(Emotions(kept), Some(l));
      var i :| 0 <= i < |kept| && Emotions(kept)[i] == Some(l);
      assert kept[i] in kept;
    }
    if |e.all| > 0 {
      CompletedSessionReports(false, stream, numFrames);
    }
  }

  /** Counts A:3, B:5, C:2 over ten retained results: "B", with confidence 0.5. */
  lemma DominantExample()
    ensures var s := ["A", "B", "B", "C", "A", "B", "B", "C", "A", "B"];
      Report(s, 10) == LabelReport("B", 0.5, s)
  {
    var s := ["A", "B", "B", "C", "A", "B", "B", "C", "A", "B"];
    DominantExamplePrefix();
    assert ["A", "B", "B", "C", "A", "B"][..5] == ["A", "B", "B", "C", "A"];
    assert Frequencies(["A", "B", "B", "C", "A", "B"]) == [("A", 2), ("B", 3), ("C", 1)];
    KeysABC(2, 3, 1);
    assert ["A", "B", "B", "C", "A", "B", "B"][..6] == ["A", "B", "B", "C", "A", "B"];
    assert Frequencies(["A", "B", "B", "C", "A", "B", "B"]) == [("A", 2), ("B", 4), ("C", 1)];
    KeysABC(2, 4, 1);
    assert ["A", "B", "B", "C", "A", "B", "B", "C"][..7] == ["A", "B", "B", "C", "A", "B", "B"];
    assert Frequencies(["A", "B", "B", "C", "A", "B", "B", "C"]) == [("A", 2), ("B", 4), ("C", 2)];
    KeysABC(2, 4, 2);
    assert ["A", "B", "B", "C", "A", "B", "B", "C", "A"][..8] == ["A", "B", "B", "C", "A", "B", "B", "C"];
    assert Frequencies(["A", "B", "B", "C", "A", "B", "B", "C", "A"]) == [("A", 3), ("B", 4), ("C", 2)];
    KeysABC(3, 4, 2);
    assert ["A", "B", "B", "C", "A", "B", "B", "C", "A", "B"][..9] == ["A", "B", "B", "C", "A", "B", "B", "C", "A"];
    assert Frequencies(["A", "B", "B", "C", "A", "B", "B", "C", "A", "B"]) == [("A", 3), ("B", 5), ("C", 2)];
    assert s == ["A", "B", "B", "C", "A", "B", "B", "C", "A", "B"];
  }

  /** Lookups in a table with the key "A". */
  lemma KeysA(a: nat)
    ensures var t := [("A", a)];
      KeyIndex(t, "A") == 0 && KeyIndex(t, "B") == 1 && KeyIndex(t, "C") == 1
  {
    assert "A"[0] != "B"[0] && "A"[0] != "C"[0];
  }

  /** Lookups in a table with keys "A", "B". */
  lemma KeysAB(a: nat, b: nat)
    ensures var t := [("A", a), ("B", b)];
      KeyIndex(t, "A") == 0 && KeyIndex(t, "B") == 1 && KeyIndex(t, "C") == 2
  {
    var t := [("A", a), ("B", b)];
    assert t[1..] == [("B", b)];
    assert "A"[0] != "B"[0] && "A"[0] != "C"[0] && "B"[0] != "C"[0];
    assert KeyIndex(t[1..], "C") == 1;
  }

  /** Lookups in a table with keys "A", "B", "C". */
  lemma KeysABC(a: nat, b: nat, c: nat)
    ensures var t := [("A", a), ("B", b), ("C", c)];
      KeyIndex(t, "A") == 0 && KeyIndex(t, "B") == 1 && KeyIndex(t, "C") == 2
  {
    var t := [("A", a), ("B", b), ("C", c)];
    assert t[1..] == [("B", b), ("C", c)] && t[2..] == [("C", c)];
    assert "A"[0] != "C"[0] && "B"[0] != "C"[0];
    assert KeyIndex(t[2..], "C") == 0;
    assert KeyIndex(t[1..], "C") == 1;
  }

  /** The table after the first five labels of `DominantExample`. */
  lemma DominantExamplePrefix()
    ensures Frequencies(["A", "B", "B", "C", "A"]) == [("A", 2), ("B", 2), ("C", 1)]
  {
    assert Frequencies(["A"]) == [("A", 1)];
    KeysA(1);
    assert ["A", "B"][..1] == ["A"];
    assert Frequencies(["A", "B"]) == [("A", 1), ("B", 1)];
    KeysAB(1, 1);
    assert ["A", "B", "B"][..2] == ["A", "B"];
    assert Frequencies(["A", "B", "B"]) == [("A", 1), ("B", 2)];
    KeysAB(1, 2);
    assert ["A", "B", "B", "C"][..3] == ["A", "B", "B"];
    assert Frequencies(["A", "B", "B", "C"]) == [("A", 1), ("B", 2), ("C", 1)];
    KeysABC(1, 2, 1);
    assert ["A", "B", "B", "C", "A"][..4] == ["A", "B", "B", "C"];
    assert Frequencies(["A", "B", "B", "C", "A"]) == [("A", 2), ("B", 2), ("C", 1)];
  }

  /** A tie A:2, B:2 goes to "A", which occurs first. */
  lemma TieExample()
    ensures var s := ["A", "B", "B", "A"];
      Report(s, 4) == LabelReport("A", 0.5, s)
  {
    var s := ["A", "B", "B", "A"];
    assert Frequencies(["A"]) == [("A", 1)];
    KeysA(1);
    assert ["A", "B"][..1] == ["A"];
    assert Frequencies(["A", "B"]) == [("A", 1), ("B", 1)];
    KeysAB(1, 1);
    assert ["A", "B", "B"][..2] == ["A", "B"];
    assert Frequencies(["A", "B", "B"]) == [("A", 1), ("B", 2)];
    KeysAB(1, 2);
    assert ["A", "B", "B", "A"][..3] == ["A", "B", "B"];
    assert Frequencies(["A", "B", "B", "A"]) == [("A", 2), ("B", 2)];
  }

  /**
   * Lines 116-199.  The frame loop keeps the results that found a face;
   * the tables are then built in place by `CountLabels`.
   */
  method ProcessVideoStream(available: bool, capture: Capture, numFrames: int) returns (summary: Summary)
    ensures summary == Session(available, capture, numFrames)
  {
    if capture.CannotOpen? {
      return Failed(CannotOpenCamera);
    }
    var stream := capture.stream;
    var allResults: seq<FrameResult> := [];
    var frameCount: nat := 0;
    while frameCount < numFrames
      invariant frameCount <= |stream|
      invariant frameCount == 0 || frameCount <= numFrames
      invariant Scan(available, stream[..frameCount]) == Retained(allResults)
      decreases |stream| - frameCount
    {
      if frameCount == |stream| {
        break;  // `cap.read()` reported no frame
      }
      assert stream[..frameCount + 1][..frameCount] == stream[..frameCount];
      match stream[frameCount]
      case ReadRaised(m) =>
        var w := stream[..Window(numFrames, |stream|)];
        assert frameCount + 1 <= |w| && w[..frameCount + 1] == stream[..frameCount + 1];
        assert Scan(available, stream[..frameCount + 1]) == Aborted(m);
        AbortPersists(available, stream[..Window(numFrames, |stream|)], frameCount + 1, m);
        return Failed(m);
      case Grabbed(frame) =>
        var frameResult := ProcessFrame(available, frame);
        if frameResult.faceDetected {
          allResults := allResults + [frameResult];
        }
        frameCount := frameCount + 1;
    }
    assert frameCount == Window(numFrames, |stream|);
    if |allResults| == 0 {
      return NoFaceDetected(frameCount);
    }
    var emotions := EmotionLabels(allResults);
    var expressions := ExpressionLabels(allResults);
    var emotionCounts := CountLabels(emotions);
    var expressionCounts := CountLabels(expressions);
    var mostCommonEmotion := MostCommon(emotionCounts);
    var mostCommonExpression := MostCommon(expressionCounts);
    summary := Completed(frameCount, |allResults|,
      LabelReport(mostCommonEmotion, Confidence(emotionCounts, mostCommonEmotion, |allResults|), emotions),
      LabelReport(mostCommonExpression, Confidence(expressionCounts, mostCommonExpression, |allResults|), expressions));
  }
}
