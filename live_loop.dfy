/** The detection loop of camera.py (lines 47-117) and the start-up steps
    before it. The camera, detector, display and clock are replaced by a
    sequence of cycle outcomes; what is modelled is which frames are drawn
    and shown, which rate samples reach the buffer, and which average is
    finally reported. */
module LiveLoop {
  import opened Wrappers
  import opened Annotate
  import opened RateWindow
  import opened Startup

  /** What one pass through the loop meets. `GrabFailed` is `ret == False` at
      line 53. `Grabbed` carries the detector's output for the frame, the
      answer of `cv2.waitKey(1)` (line 99; -1 when no key was pressed) and
      the rate sample that lines 104-105 would compute for this cycle. */
  datatype Cycle =
    | GrabFailed
    | Grabbed(detections: seq<Detection>, key: int, fps: real)

  /** Line 100: `ord('q')` is 113 and `ord('Q')` is 81; `cv2.waitKey`
      answers -1 when no key was pressed, which never quits. */
  predicate IsQuitKey(key: int): (quit: bool)
    ensures quit <==> key == 113 || key == 81
    ensures key == -1 ==> !quit
  {
    key == 'q' as int || key == 'Q' as int
  }

  /** A cycle after which the loop goes round again. */
  predicate Continues(c: Cycle)
  {
    c.Grabbed? && !IsQuitKey(c.key)
  }

  /** One displayed frame: its object count and what was drawn on it. */
  datatype Displayed = Displayed(count: nat, commands: seq<DrawCommand>)

  /** The samples recorded: one per cycle, up to (not including) the first
      failed grab or quit key. */
  function Samples(cycles: seq<Cycle>): (s: seq<real>)
    ensures |s| <= |cycles|
  {
    if cycles == [] then []
    else match cycles[0]
      case GrabFailed => []
      case Grabbed(_, key, fps) => if IsQuitKey(key) then [] else [fps] + Samples(cycles[1..])
  }

  /** What lines 68-95 draw on one grabbed frame, and its object count. */
  function Frame(dets: seq<Detection>, threshold: real, labels: int -> string, measure: string -> TextSize): Displayed
  {
    Displayed(|Kept(dets, threshold)|, FrameCommands(dets, threshold, labels, measure))
  }

  /** Lines 68-96 for one grabbed frame: draw it and show it with its count. */
  method ShowFrame(dets: seq<Detection>, threshold: real, labels: int -> string, measure: string -> TextSize)
    returns (frame: Displayed)
    ensures frame == Frame(dets, threshold, labels, measure)
  {
    var count, cmds := RenderDetections(dets, threshold, labels, measure);
    frame := Displayed(count, cmds);
  }

  /** The frames shown: every grabbed frame up to the first failed grab, the
      frame on which quit is pressed included. */
  function Displays(cycles: seq<Cycle>, threshold: real, labels: int -> string, measure: string -> TextSize): (shown: seq<Displayed>)
    ensures |shown| <= |cycles|
  {
    if cycles == [] then []
    else match cycles[0]
      case GrabFailed => []
      case Grabbed(dets, key, _) =>
        var frame := Frame(dets, threshold, labels, measure);
        if IsQuitKey(key) then [frame] else [frame] + Displays(cycles[1..], threshold, labels, measure)
  }

  /** Lines 47-117 over a finite run of outcomes (the loop also ends when the
      outcomes run out): the frames shown and the average printed at line 117. */
  method Run(cycles: seq<Cycle>, threshold: real, labels: int -> string, measure: string -> TextSize)
    returns (shown: seq<Displayed>, avg: real)
    ensures shown == Displays(cycles, threshold, labels, measure)
    ensures avg == Mean(Window(Samples(cycles), FPS_AVG_LEN))
  {
    avg := 0.0;
    var buffer := new RateBuffer(FPS_AVG_LEN);
    shown := [];
    // every sample recorded so far, oldest first
    ghost var recorded: seq<real> := [];
    var i := 0;
    while i < |cycles|
      invariant 0 <= i <= |cycles|
      invariant fresh(buffer) && buffer.Valid() && buffer.capacity == FPS_AVG_LEN && buffer.history == recorded
      invariant avg == buffer.Average()
      invariant Samples(cycles) == recorded + Samples(cycles[i..])
      invariant Displays(cycles, threshold, labels, measure) == shown + Displays(cycles[i..], threshold, labels, measure)
    {
      var c := cycles[i];
      if c.GrabFailed? {
        StopSteps(cycles, i, threshold, labels, measure);
        break;
      }
      var frame := ShowFrame(c.detections, threshold, labels, measure);
      ghost var shownBefore := shown;
      shown := shown + [frame];
      if IsQuitKey(c.key) {
        StopSteps(cycles, i, threshold, labels, measure);
        break;
      }
      buffer.Record(c.fps);
      avg := buffer.Average();
      ContinueStep(cycles, i, threshold, labels, measure, recorded, shownBefore);
      recorded := recorded + [c.fps];
      i := i + 1;
    }
    assert Samples(cycles) == recorded;
  }

  lemma StopSteps(cycles: seq<Cycle>, i: nat, threshold: real, labels: int -> string, measure: string -> TextSize)
    requires i < |cycles| && !Continues(cycles[i])
    ensures Samples(cycles[i..]) == []
    ensures cycles[i].GrabFailed? ==> Displays(cycles[i..], threshold, labels, measure) == []
    ensures cycles[i].Grabbed? ==>
              Displays(cycles[i..], threshold, labels, measure) == [Frame(cycles[i].detections, threshold, labels, measure)]
  {
    assert cycles[i..][0] == cycles[i];
  }

  lemma ContinueStep(cycles: seq<Cycle>, i: nat, threshold: real, labels: int -> string, measure: string -> TextSize,
                     recorded: seq<real>, shown: seq<Displayed>)
    requires i < |cycles| && Continues(cycles[i])
    requires Samples(cycles) == recorded + Samples(cycles[i..])
    requires Displays(cycles, threshold, labels, measure) == shown + Displays(cycles[i..], threshold, labels, measure)
    ensures Samples(cycles) == (recorded + [cycles[i].fps]) + Samples(cycles[i + 1..])
    ensures Displays(cycles, threshold, labels, measure) ==
              (shown + [Frame(cycles[i].detections, threshold, labels, measure)]) + Displays(cycles[i + 1..], threshold, labels, measure)
  {
    SamplesStep(cycles, i, recorded);
    DisplaysStep(cycles, i, threshold, labels, measure, shown);
  }

  lemma SamplesStep(cycles: seq<Cycle>, i: nat, recorded: seq<real>)
    requires i < |cycles| && Continues(cycles[i])
    requires Samples(cycles) == recorded + Samples(cycles[i..])
    ensures Samples(cycles) == (recorded + [cycles[i].fps]) + Samples(cycles[i + 1..])
  {
    assert cycles[i..][0] == cycles[i];
    assert cycles[i..][1..] == cycles[i + 1..];
  }

  lemma DisplaysStep(cycles: seq<Cycle>, i: nat, threshold: real, labels: int -> string, measure: string -> TextSize, shown: seq<Displayed>)
    requires i < |cycles| && Continues(cycles[i])
    requires Displays(cycles, threshold, labels, measure) == shown + Displays(cycles[i..], threshold, labels, measure)
    ensures Displays(cycles, threshold, labels, measure) ==
              (shown + [Frame(cycles[i].detections, threshold, labels, measure)]) + Displays(cycles[i + 1..], threshold, labels, measure)
  {
    assert cycles[i..][0] == cycles[i];
    assert cycles[i..][1..] == cycles[i + 1..];
  }

  /** The start-up steps, in the order lines 14-36 take them, then the loop. */
  datatype RunConfig = RunConfig(modelPath: string, minThresh: real, userRes: Option<string>)

  datatype SessionEnd =
    | CameraNotOpened                          // lines 28-30: exit before the loop
    | BadResolution(error: ResolutionError)    // line 34 raises
    | Finished(resolution: Option<Resolution>, shown: seq<Displayed>, average: real)

  /** `pathExists` stands for `os.path.exists`, `labelsOf` for the class
      names of the model loaded from a path, `cameraOpened` for
      `cap.isOpened()`. */
  method Session(config: RunConfig, pathExists: string -> bool, labelsOf: string -> (int -> string),
                 cameraOpened: bool, cycles: seq<Cycle>, measure: string -> TextSize)
    returns (modelPath: string, outcome: SessionEnd)
    ensures modelPath == ChooseModel(config.modelPath, pathExists).Path()
    ensures !cameraOpened ==> outcome == CameraNotOpened
    ensures cameraOpened && TargetResolution(config.userRes).Failure? ==>
              outcome == BadResolution(TargetResolution(config.userRes).error)
    ensures cameraOpened && TargetResolution(config.userRes).Success? ==>
              outcome == Finished(TargetResolution(config.userRes).value,
                                  Displays(cycles, config.minThresh, labelsOf(modelPath), measure),
                                  Mean(Window(Samples(cycles), FPS_AVG_LEN)))
  {
    modelPath := ChooseModel(config.modelPath, pathExists).Path();
    var labels := labelsOf(modelPath);
    if !cameraOpened {
      return modelPath, CameraNotOpened;
    }
    match TargetResolution(config.userRes)
    case Failure(e) =>
      outcome := BadResolution(e);
    case Success(resolution) =>
      var shown, avg := Run(cycles, config.minThresh, labels, measure);
      outcome := Finished(resolution, shown, avg);
  }

  /** The rate samples carried by the cycles that grabbed a frame, in order. */
  function Rates(cycles: seq<Cycle>): (r: seq<real>)
    ensures |r| <= |cycles|
  {
    if cycles == [] then []
    else (if cycles[0].Grabbed? then [cycles[0].fps] else []) + Rates(cycles[1..])
  }

  /** If the first `k` cycles go round and cycle `k` fails or quits, exactly
      the first `k` rate samples are recorded, and `k` frames are shown on
      a failed grab, `k + 1` on a quit. */
  lemma {:induction false} StopAt(cycles: seq<Cycle>, k: nat, threshold: real, labels: int -> string, measure: string -> TextSize)
    requires k < |cycles| && !Continues(cycles[k])
    requires forall i :: 0 <= i < k ==> Continues(cycles[i])
    ensures Samples(cycles) == Rates(cycles[..k]) && |Samples(cycles)| == k
    ensures |Displays(cycles, threshold, labels, measure)| == if cycles[k].GrabFailed? then k else k + 1
  {
    SamplesStopAt(cycles, k);
    DisplaysStopAt(cycles, k, threshold, labels, measure);
  }

  lemma {:induction false} SamplesStopAt(cycles: seq<Cycle>, k: nat)
    requires k < |cycles| && !Continues(cycles[k])
    requires forall i :: 0 <= i < k ==> Continues(cycles[i])
    ensures Samples(cycles) == Rates(cycles[..k]) && |Samples(cycles)| == k
  {
    if k > 0 {
      var tail := cycles[1..];
      assert forall i :: 0 <= i < k - 1 ==> tail[i] == cycles[i + 1];
      SamplesStopAt(tail, k - 1);
      assert cycles[..k][1..] == tail[..k - 1];
    }
  }

  lemma {:induction false} DisplaysStopAt(cycles: seq<Cycle>, k: nat, threshold: real, labels: int -> string, measure: string -> TextSize)
    requires k < |cycles| && !Continues(cycles[k])
    requires forall i :: 0 <= i < k ==> Continues(cycles[i])
    ensures |Displays(cycles, threshold, labels, measure)| == if cycles[k].GrabFailed? then k else k + 1
  {
    if k > 0 {
      var tail := cycles[1..];
      assert forall i :: 0 <= i < k - 1 ==> tail[i] == cycles[i + 1];
      DisplaysStopAt(tail, k - 1, threshold, labels, measure);
    }
  }

  /** A failed grab on cycle `k + 1` after `k` normal cycles reports the mean
      of those `k` samples only (for `k` within the window). */
  lemma FailureAfterNormalCycles(cycles: seq<Cycle>, k: nat, threshold: real, labels: int -> string, measure: string -> TextSize)
    requires k < |cycles| && cycles[k].GrabFailed? && k <= FPS_AVG_LEN
    requires forall i :: 0 <= i < k ==> Continues(cycles[i])
    ensures Mean(Window(Samples(cycles), FPS_AVG_LEN)) == Mean(Rates(cycles[..k]))
    ensures |Displays(cycles, threshold, labels, measure)| == k
  {
    StopAt(cycles, k, threshold, labels, measure);
    assert Window(Samples(cycles), FPS_AVG_LEN) == Samples(cycles);
  }

  /** When the very first grab fails nothing is shown and the reported
      average keeps its initial value 0. */
  lemma FirstGrabFails(cycles: seq<Cycle>, threshold: real, labels: int -> string, measure: string -> TextSize)
    requires cycles != [] && cycles[0].GrabFailed?
    ensures Displays(cycles, threshold, labels, measure) == []
    ensures Mean(Window(Samples(cycles), FPS_AVG_LEN)) == 0.0
  {
  }

  /** The frame on which quit is pressed is drawn and shown last, but its
      rate sample is never recorded: only the first `k` cycles' samples are. */
  lemma {:induction false} QuitSkipsSample(cycles: seq<Cycle>, k: nat, threshold: real, labels: int -> string, measure: string -> TextSize)
    requires k < |cycles| && cycles[k].Grabbed? && IsQuitKey(cycles[k].key)
    requires forall i :: 0 <= i < k ==> Continues(cycles[i])
    ensures Samples(cycles) == Rates(cycles[..k]) && |Samples(cycles)| == k
    ensures var shown := Displays(cycles, threshold, labels, measure);
            |shown| == k + 1 && shown[k] == Frame(cycles[k].detections, threshold, labels, measure)
  {
    StopAt(cycles, k, threshold, labels, measure);
    if k > 0 {
      var tail := cycles[1..];
      assert forall i :: 0 <= i < k - 1 ==> tail[i] == cycles[i + 1];
      QuitSkipsSample(tail, k - 1, threshold, labels, measure);
    }
  }
}
