/**
 * Per-frame fusion (main.py, `CombinedDetector.process_frame`, lines 44-114).
 *
 * The landmark model, the expression classifier and the emotion detector
 * are foreign code; a frame is modelled by its shape together with what
 * each of them answers for it.  Whether the emotion detector could be
 * constructed (`emotion_available`, lines 28-36) is a parameter.
 */
module FrameFusion {
  import opened Wrappers
  import opened RegionExtractor

  /** What BGR-to-RGB conversion and `mp_holistic.process` yield for a frame. */
  datatype LandmarkOutcome =
    | LandmarksRaised(message: string)   // an exception in conversion or landmark detection
    | NoFace                             // `face_landmarks` is falsy
    | FaceLandmarks(points: seq<Point>)  // the face landmarks, already in pixels

  /** What `classify_face` yields for the landmarks. */
  datatype ExpressionOutcome = ExpressionRaised(message: string) | ExpressionLabel(name: string)

  /** What `detect_emotions` yields for the crop, if it is called. */
  datatype EmotionOutcome = EmotionRaised | EmotionLabel(name: string)

  /** A frame of shape (height, width, channels) and the providers' answers for it. */
  datatype Frame = Frame(
    height: nat, width: nat, channels: nat,
    landmarks: LandmarkOutcome, expression: ExpressionOutcome, emotion: EmotionOutcome)

  /** The per-frame result dictionary; `error` is present only after an exception. */
  datatype FrameResult = FrameResult(
    faceDetected: bool,
    facialExpression: Option<string>,
    emotion: Option<string>,
    error: Option<string>)

  const FaceNotDetected: string := "Face Not Detected"
  const UnknownEmotion: string := "Unknown"
  const EmotionModelNotAvailable: string := "Emotion model not available"
  /** The message of the exception `min` raises on an empty landmark list. */
  const EmptySequenceError: string := "min() arg is an empty sequence"

  /** Lines 54-59: the dictionary before the `try` block. */
  function Initial(): FrameResult
  {
    FrameResult(false, None, None, None)
  }

  /** Lines 97-105: the emotion field once the crop size is known. */
  function EmotionField(available: bool, cropSize: nat, outcome: EmotionOutcome): Option<string>
  {
    if cropSize > 0 && available then
      match outcome
      case EmotionLabel(name) => Some(name)
      case EmotionRaised => Some(UnknownEmotion)
    else if !available then Some(EmotionModelNotAvailable)
    else None
  }

  /** Whether the emotion detector is called on this frame (line 97). */
  predicate CallsEmotionDetector(available: bool, f: Frame)
  {
    && f.landmarks.FaceLandmarks?
    && f.expression.ExpressionLabel?
    && |f.landmarks.points| > 0
    && available
    && CropSize(f.height, f.width, f.channels, FaceBox(f.landmarks.points, f.width, f.height)) > 0
  }

  /**
   * Lines 44-114.  Each exception of the `try` block is caught at line 110:
   * the dictionary keeps what was assigned before it and gains `error`.
   */
  function ProcessFrame(available: bool, f: Frame): FrameResult
  {
    match f.landmarks
    case LandmarksRaised(m) => Initial().(error := Some(m))
    case NoFace => Initial().(faceDetected := false, facialExpression := Some(FaceNotDetected))
    case FaceLandmarks(ps) =>
      var detected := Initial().(faceDetected := true);
      match f.expression
      case ExpressionRaised(m) => detected.(error := Some(m))
      case ExpressionLabel(name) =>
        var classified := detected.(facialExpression := Some(name));
        if |ps| == 0 then classified.(error := Some(EmptySequenceError))
        else
          var size := CropSize(f.height, f.width, f.channels, FaceBox(ps, f.width, f.height));
          classified.(emotion := EmotionField(available, size, f.emotion))
  }

  /**
   * Without face landmarks the result is the "Face Not Detected" record,
   * and neither classifier is consulted: their answers do not matter.
   */
  lemma NoFaceResult(available: bool, f: Frame)
    requires f.landmarks.NoFace?
    ensures ProcessFrame(available, f) == FrameResult(false, Some(FaceNotDetected), None, None)
    ensures forall x: ExpressionOutcome, e: EmotionOutcome ::
      ProcessFrame(available, f.(expression := x, emotion := e)) == ProcessFrame(available, f)
  {
  }

  /** `face_detected` is true exactly when landmarks were found. */
  lemma FaceDetectedIffLandmarks(available: bool, f: Frame)
    ensures ProcessFrame(available, f).faceDetected <==> f.landmarks.FaceLandmarks?
  {
  }

  /**
   * The emotion decision on a face whose box was computed (lines 97-105):
   * the detector's label, "Unknown" when it raises, the unavailable
   * sentinel without a detector, and nothing at all for an empty crop.
   */
  lemma EmotionDecision(available: bool, f: Frame)
    requires f.landmarks.FaceLandmarks? && |f.landmarks.points| > 0
    requires f.expression.ExpressionLabel?
    ensures var r := ProcessFrame(available, f);
      var size := CropSize(f.height, f.width, f.channels, FaceBox(f.landmarks.points, f.width, f.height));
      && r.faceDetected && r.facialExpression == Some(f.expression.name) && r.error == None
      && (size > 0 && available && f.emotion.EmotionLabel? ==> r.emotion == Some(f.emotion.name))
      && (size > 0 && available && f.emotion.EmotionRaised? ==> r.emotion == Some(UnknownEmotion))
      && (!available ==> r.emotion == Some(EmotionModelNotAvailable))
      && (size == 0 && available ==> r.emotion == None)
  {
  }

  /** The emotion detector's answer matters only on frames where it is called. */
  lemma EmotionDetectorConsultedOnlyWhenCalled(available: bool, f: Frame, e: EmotionOutcome)
    requires !CallsEmotionDetector(available, f)
    ensures ProcessFrame(available, f.(emotion := e)) == ProcessFrame(available, f)
  {
  }

  /**
   * With a detector, landmarks inside a non-empty frame always reach it:
   * the emotion is its label, or "Unknown" when it raises.
   */
  lemma InFrameFaceReachesDetector(f: Frame)
    requires f.landmarks.FaceLandmarks? && |f.landmarks.points| > 0
    requires InFrame(f.landmarks.points, f.width, f.height)
    requires f.width > 0 && f.height > 0 && f.channels > 0
    requires f.expression.ExpressionLabel?
    ensures CallsEmotionDetector(true, f)
    ensures ProcessFrame(true, f).emotion ==
      match f.emotion
      case EmotionLabel(name) => Some(name)
      case EmotionRaised => Some(UnknownEmotion)
  {
    CropNonEmpty(f.landmarks.points, f.width, f.height, f.channels);
  }

  /**
   * Without a detector no frame carries a detector label: the emotion is
   * the unavailable sentinel, or absent when no face was found or an
   * exception came first.
   */
  lemma UnavailableEmotion(f: Frame)
    ensures var r := ProcessFrame(false, f);
      (r.emotion == None || r.emotion == Some(EmotionModelNotAvailable)) &&
      (r.faceDetected && r.error == None ==> r.emotion == Some(EmotionModelNotAvailable))
  {
  }

  /**
   * Every exception is caught at the frame boundary (lines 110-112): the
   * result carries `error` exactly when a step raised, and keeps every field
   * assigned before that step.
   */
  lemma ErrorKeepsAssignedFields(available: bool, f: Frame)
    ensures var r := ProcessFrame(available, f);
      && (f.landmarks.LandmarksRaised? ==>
            r == FrameResult(false, None, None, Some(f.landmarks.message)))
      && (f.landmarks.FaceLandmarks? && f.expression.ExpressionRaised? ==>
            r == FrameResult(true, None, None, Some(f.expression.message)))
      && (f.landmarks.FaceLandmarks? && f.expression.ExpressionLabel? && |f.landmarks.points| == 0 ==>
            r == FrameResult(true, Some(f.expression.name), None, Some(EmptySequenceError)))
      && (r.error.Some? <==>
            || f.landmarks.LandmarksRaised?
            || (f.landmarks.FaceLandmarks? &&
                (f.expression.ExpressionRaised? || |f.landmarks.points| == 0)))
  {
  }

  /** Fields are filled in order: an emotion implies an expression, which implies a face or its absence. */
  lemma FieldsFilledInOrder(available: bool, f: Frame)
    ensures var r := ProcessFrame(available, f);
      (r.emotion.Some? ==> r.faceDetected && r.facialExpression.Some? && r.error == None) &&
      (r.facialExpression.Some? ==>
        r.faceDetected || r.facialExpression == Some(FaceNotDetected))
  {
  }
}
