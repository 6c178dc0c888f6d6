# Live YOLO detection loop, modelled in Dafny

This project models the live-detection script `mur/my_model/camera.py`. The
script grabs camera frames in a loop and runs a YOLO detector on each one.
It draws every detection whose confidence is strictly above `min_thresh`:
a box in one of ten class colours, plus a label on a filled background that
is kept from running off the top of the frame. It then writes
"Objects detected: N" on the frame and shows it. Finally it records the
cycle's frame rate in a rolling buffer of at most 200 samples. It prints the
buffer's mean when a grab fails or the user presses `q`/`Q`.

The camera, the detector, OpenCV's drawing and text measuring, the key poll
and the clock are treated as inputs:

- A run is a sequence of cycle outcomes. Each is either `GrabFailed` or
  `Grabbed(detections, key, fps)`: the detector's output for the frame, what
  `cv2.waitKey(1)` answered, and the rate sample this cycle would produce.
- `cv2.getTextSize` is a function `measure` from label text to its size.
- `model.names` (the loaded model's class names) is a function from class
  index to name. `labelsOf` gives it for each model path.
- `os.path.exists` is a predicate `pathExists`.
- `cap.isOpened()` is a boolean.

Drawing produces abstract commands (`Rectangle`, `PutText`), not pixels.

Modules:

- `Numerals` (numerals.dfy): decimal text. It covers `str(int)` as the
  f-strings use it, `int(str)` as line 34 uses it, and `int(float)`
  truncation toward zero.
- `Startup` (startup.dfy): the model-path fallback, Python's
  `str.split('x')`, and the "WxH" resolution parse with its two exceptions.
- `Annotate` (annotate.dfy): the palette, the threshold filter, the label
  geometry, the draw commands of one frame, and the rendering loop
  `RenderDetections`.
- `RateWindow` (rate_window.dfy): the class `RateBuffer`. It has a
  `seq<real>` field, a capacity and a `Record` method. It is specified
  against `Window`, the last `capacity` samples of everything recorded.
- `LiveLoop` (live_loop.dfy): the `while True` loop as the method `Run`, its
  reference functions `Samples` (which samples reach the buffer) and
  `Displays` (which frames are shown), and the start-up sequence `Session`.
- `Seqs` and `Wrappers`: generic helpers (`FlatMap`, `Option`, `Result`).

The label shows `int(conf * 100)`, which truncates toward zero, not a
rounded percentage. A failed camera open exits before the loop, so no
average is printed then. Detector failures are not turned into empty
detection lists: the detector's output is simply an input of each cycle.

## Model

| member | source | states |
|---|---|---|
| `Startup.ChooseModel` | mur/my_model/camera.py:14-17 | the configured path is kept exactly when it exists; otherwise the fallback is chosen |
| `Startup.ModelPathFallback` | mur/my_model/camera.py:14-17 | the path handed to the loader is the configured one when it exists, and `yolov8s.pt` when it does not; either way it exists or is the default |
| `Startup.JoinSplit` | mur/my_model/camera.py:34 | `split('x')` loses nothing: joining the parts with 'x' gives back the input |
| `Startup.SplitPartsFree` | mur/my_model/camera.py:34 | no part produced by `split('x')` contains an 'x' |
| `Startup.SplitWithFreeParts` | mur/my_model/camera.py:34 | the text contains 'x' exactly when it splits into at least two parts, so index 1 exists |
| `Startup.Split` | mur/my_model/camera.py:34 | `split('x')` gives one more part than there are separators in the text |
| `Startup.ParseResolution` | mur/my_model/camera.py:34 | success implies the text contained 'x'; the missing-height error (IndexError) arises only when there is no 'x' and the part before it parsed as a width |
| `Startup.TargetResolution` | mur/my_model/camera.py:32-34 | `None` and the empty string both mean "do not resize"; any other text gives the parse result or its error |
| `Startup.ParseFormatResolution` | mur/my_model/camera.py:34 | round trip: every resolution written as "WxH" parses back to itself (the model has no digit limit; see Left out) |
| `Startup.ResolutionPlain` | mur/my_model/camera.py:34 | "640x480" gives 640 by 480 |
| `Startup.ResolutionExtraPart` | mur/my_model/camera.py:34 | parts after the second are ignored: "640x480x3" gives 640 by 480 |
| `Startup.ResolutionNoSeparator` | mur/my_model/camera.py:34 | "640" raises the missing-height error |
| `Startup.ResolutionUpperCaseX` | mur/my_model/camera.py:34 | "640X480" is not split and fails as a bad integer |
| `Numerals.ParseInt` | mur/my_model/camera.py:34 | `int()` of text: a failure (ValueError) carries the text that was rejected |
| `Numerals.ParseIntOfIntToString` | mur/my_model/camera.py:34 | `int(str(i)) == i` for every integer (the model has no digit limit; see Left out) |
| `Numerals.ParseIntSkipsLeadingSpace` | mur/my_model/camera.py:34 | a leading space changes neither whether `int()` accepts the text nor the value it reads |
| `Numerals.ParseIntRejectsSeparatorControl` | mur/my_model/camera.py:34 | a file separator (0x1C) before "640" is not skipped as whitespace: `int()` rejects the text |
| `Numerals.ParseIntRejectsNonDigit` | mur/my_model/camera.py:34 | unsigned text with no surrounding whitespace and a character other than a digit is rejected |
| `Numerals.NatToString` | mur/my_model/camera.py:95 | `str()` of a count starts with a digit and is a single character exactly for counts below 10 |
| `Numerals.IntToString` | mur/my_model/camera.py:85 | `str()` of an integer is never empty and starts with '-' exactly when the integer is negative |
| `Numerals.DigitsValueOfNatToString` | mur/my_model/camera.py:95 | the decimal count written in the overlay reads back as the count |
| `Numerals.NatToStringDigits` | mur/my_model/camera.py:95 | the written count consists of digits only, with no leading zero |
| `Numerals.Trunc` | mur/my_model/camera.py:85 | `int()` of a float truncates toward zero: the result is within one below (or, for negatives, above) the value |
| `Annotate.ColorIndex` | mur/my_model/camera.py:82 | `classidx % 10` is always a palette position 0..9, congruent to the class modulo 10, also for negative classes |
| `Annotate.BoxColor` | mur/my_model/camera.py:39-40 | every box colour is one of the ten palette colours |
| `Annotate.BoxColorPeriodic` | mur/my_model/camera.py:82 | classes that differ by a multiple of ten share a colour |
| `Annotate.BoxColorsDistinct` | mur/my_model/camera.py:39-40 | classes 0..9 all get different colours |
| `Annotate.PlaceLabel` | mur/my_model/camera.py:87-90 | `label_ymin = max(ymin, h + 10)` is `>= ymin`; the background's top is `label_ymin - h - 10`, so it sits directly on the box when `ymin >= h + 10` and is flush with row 0 otherwise, never above it; the text starts `h + 3` below the background's top; horizontally it starts at `xmin` with the text's width, so only the top edge is clamped |
| `Annotate.PlaceLabelAboveBox` | mur/my_model/camera.py:87-90 | a 40 by 12 text (baseline 3) over a box at (5, 100) gets its background from (5, 78) to (45, 93) and its text at (5, 93) |
| `Annotate.Label` | mur/my_model/camera.py:85 | reference definition of the caption `f'{classname}: {int(conf * 100)}%'`; its shape and read-back are stated by `Annotate.LabelReadsBack` |
| `Annotate.LabelReadsBack` | mur/my_model/camera.py:85 | the label of `Annotate.Label` is the class name, ": ", a number and "%", and the number reads back with `int()` as the truncated percentage |
| `Annotate.LabelPercentRange` | mur/my_model/camera.py:85 | for a confidence in [0, 1] the label's percentage is between 0 and 100 |
| `Annotate.Summary` | mur/my_model/camera.py:95 | the overlay is text at (10, 40) in the summary colour |
| `Annotate.SummaryCountReadsBack` | mur/my_model/camera.py:95 | the overlay reads "Objects detected: " followed by a number that reads back with `int()` as the count |
| `Annotate.Kept` | mur/my_model/camera.py:81 | never more detections are drawn than were reported |
| `Annotate.KeptMembers` | mur/my_model/camera.py:81 | a detection is drawn if and only if its confidence is strictly above the threshold |
| `Annotate.KeptAppend` | mur/my_model/camera.py:71-81 | filtering keeps detector order: filtering a concatenation concatenates the filtered parts |
| `Annotate.DetectionCommands` | mur/my_model/camera.py:82-90 | a kept detection yields its box outline in its class colour, then a filled background in the same colour with the corners `PlaceLabel` gives for its label's size, then its label text at `PlaceLabel`'s text origin in the label text colour |
| `Annotate.CommandsForAt` | mur/my_model/camera.py:71-90 | the j-th kept detection owns exactly draw commands 3j..3j+2 |
| `Annotate.FrameCommands` | mur/my_model/camera.py:71-95 | reference definition of one frame's drawing: the commands of the kept detections in order, then the summary; its shape is stated by `Annotate.FrameCommandsShape` |
| `Annotate.FrameCommandsShape` | mur/my_model/camera.py:71-95 | a frame holds three commands per kept detection, then the summary with the kept count; the j-th box is in its class colour, its detection is above the threshold, and its label starts at row 0 or below |
| `Annotate.RenderDetections` | mur/my_model/camera.py:68-95 | the loop's count equals the number of detections strictly above the threshold, never more than were reported, and its commands are the frame's reference drawing |
| `Annotate.ThresholdExample` | mur/my_model/camera.py:81-95 | threshold 0.5 with confidences 0.9, 0.4, 0.5 keeps only the first and shows "Objects detected: 1" |
| `Annotate.NothingKept` | mur/my_model/camera.py:81 | when no confidence is above the threshold nothing is kept |
| `Annotate.EmptyFrame` | mur/my_model/camera.py:68-95 | such a frame (including an empty detection list) gets only "Objects detected: 0" |
| `RateWindow.Window` | mur/my_model/camera.py:108-112 | the window holds min(k, capacity) samples: the most recent ones, in recording order |
| `RateWindow.WindowStep` | mur/my_model/camera.py:108-112 | one more sample moves the window as the code does: drop index 0 when full, then append |
| `RateWindow.WindowDropsOldest` | mur/my_model/camera.py:108-110 | after capacity + 1 samples exactly the first one has dropped out |
| `RateWindow.Mean` | mur/my_model/camera.py:114 | reference definition of `np.mean` on a non-empty buffer; the empty buffer gives 0, which stands for the initial `avg_frame_rate = 0` (line 43) reported before any sample, not for `np.mean([])`; its bounds are stated by `RateWindow.MeanBounds` |
| `RateWindow.MeanExample` | mur/my_model/camera.py:114 | `np.mean` of 20, 30, 40 is 30 |
| `RateWindow.MeanBounds` | mur/my_model/camera.py:114 | the running average lies between the smallest and the largest sample held |
| `RateWindow.RateBuffer.constructor` | mur/my_model/camera.py:44-45 | the buffer starts empty, with nothing recorded |
| `RateWindow.RateBuffer.Record` | mur/my_model/camera.py:108-112 | pop(0) when full, then append; the contents stay the window of the whole history, whose length is min(k, capacity) |
| `RateWindow.RateBuffer.Average` | mur/my_model/camera.py:114 | the reported rate is the mean of the window of everything recorded |
| `RateWindow.WindowExample` | mur/my_model/camera.py:108-114 | capacity 3 fed 10, 20, 30, 40 holds 20, 30, 40 with mean 30 |
| `LiveLoop.Samples` | mur/my_model/camera.py:48-114 | reference definition of the samples that reach the buffer (one per cycle until the first failed grab or quit key); its own contract says only that there are never more samples than cycles |
| `LiveLoop.Displays` | mur/my_model/camera.py:52-101 | reference definition of the frames shown (every grabbed frame until the first failed grab, the quit frame included); its own contract says only that there are never more frames than cycles |
| `LiveLoop.IsQuitKey` | mur/my_model/camera.py:100 | a key quits exactly when it is 113 (`ord('q')`) or 81 (`ord('Q')`); no key pressed (-1) never quits |
| `LiveLoop.ShowFrame` | mur/my_model/camera.py:68-96 | one grabbed frame is drawn and shown as its reference `Frame`: the kept count and the frame's commands |
| `LiveLoop.Run` | mur/my_model/camera.py:43-117 | the loop shows exactly the reference frames and ends with the mean of the last 200 recorded samples (0 if none) |
| `LiveLoop.StopAt` | mur/my_model/camera.py:48-114 | if cycle k is the first to fail or quit, exactly the first k samples are recorded, in order; k frames are shown after a failed grab and k + 1 after a quit |
| `LiveLoop.FailureAfterNormalCycles` | mur/my_model/camera.py:53-55 | a failed grab after k normal cycles (k up to 200) reports the mean of those k samples only |
| `LiveLoop.FirstGrabFails` | mur/my_model/camera.py:43-55 | if the first grab fails nothing is shown and the reported average stays 0 |
| `LiveLoop.QuitSkipsSample` | mur/my_model/camera.py:96-114 | if cycle k is the first to stop and stops on a quit key, k + 1 frames are shown and the last is cycle k's frame; exactly the first k cycles' samples are recorded, so the quit cycle's sample is not |
| `LiveLoop.Session` | mur/my_model/camera.py:14-117 | the model path is chosen once, before the loop; a closed camera ends before the loop; a bad resolution raises before the loop; otherwise the run's frames and final average are reported |

## Left out

- Camera opening, frame reading, resolution setting and resizing (`cv2.VideoCapture`, `cap.read`, `cap.set`, `cv2.resize`, lines 25-36 and 57-59): these are device I/O. A cycle's outcome and `cap.isOpened()` are inputs. The parsed resolution is returned but not applied to pixels.
- YOLO loading and inference, and the tensor-to-scalar and float-to-int box conversion (lines 20-21, 62-79): these are foreign calls. Detections arrive with integer boxes and real confidences.
- Pixel drawing, `cv2.getTextSize`, `cv2.imshow` and `cv2.waitKey` (lines 83-99): these are foreign. Text size and the key code are inputs, and drawing yields abstract commands.
- `time.perf_counter` and `1/(t_stop - t_start)` (lines 49, 104-105): the clock and float division. Each cycle carries its rate sample as an exact real.
- Floating-point rounding in `np.mean` and the `:.2f` formatting of the printed average (lines 114, 117): means are exact reals.
- The `print` calls, `cap.release()` and `cv2.destroyAllWindows()` (lines 16, 29, 54, 117-119): output and teardown.
- The unused `record` setting (line 12) and the discarded value of `pop(0)` (line 109).
- `Annotate.DetectionCommands`: class names are a total function of the class index. A class index missing from `model.names` would raise KeyError at line 77; the detector never reports one, and that path is not modelled.
- `Annotate.Label`: `conf * 100` is computed exactly, not as a floating-point product. The printed percentage can therefore differ by one from the script's. For the double nearest 0.35 the script prints 35, because the product rounds up to 35.0, while the model gives 34. With the confidence taken as the exact value of the detector's float, the model is never higher, because a float product at or above a whole number cannot round below it. A decimal confidence such as 0.29 read as an exact real gives 29, where the script's `0.29 * 100` is 28.999999999999996 and prints 28.
- `Numerals.ParseInt`: models the ASCII whitespace `int()` skips (tab through carriage return, and space), an optional sign and ASCII digits only. It does not model Python's underscore digit separators or non-ASCII digits and spaces, which `int()` also accepts. CPython's 4300-digit limit on int/str conversion (ValueError beyond it) is not modelled; the round-trip lemmas hold for every integer of the model only.
- `Numerals.ParseIntOfIntToString`: holds for every integer in the model; in CPython `str()` and `int()` raise ValueError beyond 4300 digits.
- `Startup.ParseFormatResolution`: holds for every resolution in the model; in CPython a width or height of more than 4300 digits makes line 34 raise ValueError, which the model does not reproduce.
- `LiveLoop.Run`: the source loop is unbounded. The model runs over a finite sequence of outcomes and also stops when that sequence runs out.
- `RateWindow.RateBuffer.constructor`: requires a capacity of at least 1. With capacity 0 the code's `pop(0)` on an empty list would raise; the script uses 200.
- Repeated rendering of the same frame: no separate lemma states that it is idempotent. `RenderDetections` is proved equal to a function of its inputs, so two calls on the same detections give the same count and the same draw commands.
