/** The per-frame filter and renderer of camera.py (lines 38-40 and 68-95):
    detections at or below the confidence threshold are skipped; each kept one
    is drawn as a box in its class colour with a label on a filled background,
    and after all of them a summary line gives the number drawn. Drawing is
    described by abstract commands, not pixels. */
module Annotate {
  import opened Wrappers
  import opened Numerals
  import opened Seqs

  /** Box corners in integer pixel coordinates (line 74). */
  datatype Box = Box(xmin: int, ymin: int, xmax: int, ymax: int)

  /** One raw detection as the detector reports it. */
  datatype Detection = Detection(box: Box, classIdx: int, conf: real)

  /** An OpenCV colour, in blue-green-red order. */
  datatype Color = Color(b: int, g: int, r: int)

  datatype Point = Point(x: int, y: int)

  /** `cv2.getTextSize`'s answer: text width and height, and the baseline offset. */
  datatype TextSize = TextSize(width: int, height: int, baseline: int)

  datatype Stroke = Outline(width: nat) | Filled

  datatype DrawCommand =
    | Rectangle(corner: Point, opposite: Point, color: Color, stroke: Stroke)
    | PutText(text: string, origin: Point, scale: real, color: Color, thickness: nat)

  /** The ten box colours of lines 39-40. */
  const PALETTE: seq<Color> := [
    Color(164, 120, 87), Color(68, 148, 228), Color(93, 97, 209), Color(178, 182, 133),
    Color(88, 159, 106), Color(96, 202, 231), Color(159, 124, 168), Color(169, 162, 241),
    Color(98, 118, 150), Color(172, 176, 184)]

  const LABEL_TEXT_COLOR: Color := Color(0, 0, 0)
  const SUMMARY_COLOR: Color := Color(0, 255, 255)
  const BOX_STROKE: nat := 2

  /** Line 82: `classidx % 10`. Python's `%` with a positive divisor is never
      negative, like Dafny's, so the index is a palette position for every class. */
  function ColorIndex(classIdx: int): (k: nat)
    ensures k < |PALETTE|
    ensures (classIdx - k) % |PALETTE| == 0
  {
    classIdx % 10
  }

  function BoxColor(classIdx: int): (c: Color)
    ensures c in PALETTE
  {
    PALETTE[ColorIndex(classIdx)]
  }

  /** Classes ten apart share a colour. */
  lemma {:induction false} BoxColorPeriodic(classIdx: int, k: int)
    ensures BoxColor(classIdx + 10 * k) == BoxColor(classIdx)
  {
    assert (classIdx + 10 * k) % 10 == classIdx % 10;
  }

  /** The first ten classes get ten different colours. */
  lemma BoxColorsDistinct(c1: int, c2: int)
    requires 0 <= c1 < 10 && 0 <= c2 < 10 && c1 != c2
    ensures BoxColor(c1) != BoxColor(c2)
  {
  }

  /** Where lines 87-90 put a label: `labelYmin` is `max(ymin, h + 10)`; the
      background spans from `labelYmin - h - 10` to `labelYmin + baseline - 10`
      and the text starts at `labelYmin - 7`. */
  datatype LabelPlacement = LabelPlacement(labelYmin: int, fillCorner: Point, fillOpposite: Point, textOrigin: Point)

  function PlaceLabel(xmin: int, ymin: int, size: TextSize): (p: LabelPlacement)
    // the label never sits below the box top, and never starts above the frame
    ensures p.labelYmin >= ymin
    ensures p.fillCorner.y >= 0
    // it is moved only when the room above the box is too small, and then flush with the top
    ensures p.labelYmin == ymin <==> ymin >= size.height + 10
    ensures ymin < size.height + 10 ==> p.fillCorner.y == 0
    // the background's top is the text height plus 10 above `labelYmin`
    ensures p.fillCorner.y == p.labelYmin - size.height - 10
    // only the top edge is clamped: horizontally it starts at the box and is as wide as the text
    ensures p.fillCorner.x == xmin && p.textOrigin.x == xmin
    ensures p.fillOpposite.x - p.fillCorner.x == size.width
    ensures p.fillOpposite.y - p.fillCorner.y == size.height + size.baseline
    ensures p.textOrigin.y - p.fillCorner.y == size.height + 3
  {
    var labelYmin := if ymin > size.height + 10 then ymin else size.height + 10;
    LabelPlacement(
      labelYmin,
      Point(xmin, labelYmin - size.height - 10),
      Point(xmin + size.width, labelYmin + size.baseline - 10),
      Point(xmin, labelYmin - 7))
  }

  /** With room above the box the label sits directly on it: a 12-pixel-high
      text over a box whose top is row 100 gets its background from row 78. */
  lemma PlaceLabelAboveBox()
    ensures PlaceLabel(5, 100, TextSize(40, 12, 3)) ==
            LabelPlacement(100, Point(5, 78), Point(45, 93), Point(5, 93))
  {
  }

  /** Line 85: the class name, then `conf * 100` as a whole number,
      truncated toward zero as Python's `int()` does. The product is the
      exact real one, not the rounded floating-point product. */
  function Label(className: string, conf: real): string
  {
    className + ": " + IntToString(Trunc(conf * 100.0)) + "%"
  }

  /** The label is the class name, ": ", a number and "%"; the number reads
      back as the truncated percentage. */
  lemma LabelReadsBack(className: string, conf: real)
    ensures var caption := Label(className, conf);
            |caption| >= |className| + 4 &&
            caption[..|className| + 2] == className + ": " && caption[|caption| - 1] == '%' &&
            ParseInt(caption[|className| + 2..|caption| - 1]) == Success(Trunc(conf * 100.0))
  {
    var percent := IntToString(Trunc(conf * 100.0));
    LabelSlices(className, percent);
    ParseIntOfIntToString(Trunc(conf * 100.0));
  }

  lemma LabelSlices(name: string, percent: string)
    requires |percent| >= 1
    ensures var caption := name + ": " + percent + "%";
            |caption| >= |name| + 4 &&
            caption[..|name| + 2] == name + ": " && caption[|caption| - 1] == '%' &&
            caption[|name| + 2..|caption| - 1] == percent
  {
  }

  lemma LabelPercentRange(conf: real)
    requires 0.0 <= conf <= 1.0
    ensures 0 <= Trunc(conf * 100.0) <= 100
  {
  }

  /** Line 95: the overlay drawn on every frame, also when nothing was kept. */
  function Summary(count: nat): (cmd: DrawCommand)
    ensures cmd.PutText? && cmd.origin == Point(10, 40) && cmd.color == SUMMARY_COLOR
  {
    PutText("Objects detected: " + NatToString(count), Point(10, 40), 0.7, SUMMARY_COLOR, 2)
  }

  /** The overlay text is "Objects detected: " followed by a number that
      reads back as the count. */
  lemma SummaryCountReadsBack(count: nat)
    ensures var text := Summary(count).text;
            |text| > 18 && text[..18] == "Objects detected: " && ParseInt(text[18..]) == Success(count)
  {
    assert Summary(count).text[18..] == NatToString(count) == IntToString(count);
    ParseIntOfIntToString(count);
  }

  /** Line 81: the detections drawn and counted, in detector order. */
  function Kept(dets: seq<Detection>, threshold: real): (kept: seq<Detection>)
    ensures |kept| <= |dets|
  {
    if dets == [] then []
    else (if dets[0].conf > threshold then [dets[0]] else []) + Kept(dets[1..], threshold)
  }

  /** A detection is drawn exactly when its confidence is strictly above the
      threshold; one exactly at the threshold is not. */
  lemma {:induction false} KeptMembers(dets: seq<Detection>, threshold: real)
    ensures forall d :: d in Kept(dets, threshold) <==> d in dets && d.conf > threshold
  {
    if dets != [] {
      KeptMembers(dets[1..], threshold);
      assert dets == [dets[0]] + dets[1..];
    }
  }

  /** Lines 82-90 for one kept detection whose class is named `className`: its box, its label background, its label text. */
  function DetectionCommands(d: Detection, className: string, measure: string -> TextSize): (cmds: seq<DrawCommand>)
    ensures |cmds| == 3
    ensures cmds[0] == Rectangle(Point(d.box.xmin, d.box.ymin), Point(d.box.xmax, d.box.ymax), BoxColor(d.classIdx), Outline(BOX_STROKE))
    ensures cmds[1].Rectangle? && cmds[1].color == BoxColor(d.classIdx) && cmds[1].stroke == Filled
    ensures cmds[1].corner.y >= 0 && cmds[1].corner.x == d.box.xmin
    ensures cmds[2].PutText? && cmds[2].text == Label(className, d.conf)
    // the background and the text sit where the label placement puts them
    ensures var place := PlaceLabel(d.box.xmin, d.box.ymin, measure(Label(className, d.conf)));
            cmds[1].corner == place.fillCorner && cmds[1].opposite == place.fillOpposite &&
            cmds[2].origin == place.textOrigin && cmds[2].color == LABEL_TEXT_COLOR
  {
    var color := BoxColor(d.classIdx);
    var caption := Label(className, d.conf);
    var place := PlaceLabel(d.box.xmin, d.box.ymin, measure(caption));
    [Rectangle(Point(d.box.xmin, d.box.ymin), Point(d.box.xmax, d.box.ymax), color, Outline(BOX_STROKE)),
     Rectangle(place.fillCorner, place.fillOpposite, color, Filled),
     PutText(caption, place.textOrigin, 0.5, LABEL_TEXT_COLOR, 1)]
  }

  function Drawer(labels: int -> string, measure: string -> TextSize): Detection -> seq<DrawCommand>
  {
    (d: Detection) => DetectionCommands(d, labels(d.classIdx), measure)
  }

  /** The commands of the kept detections, three each, in order. */
  function CommandsFor(kept: seq<Detection>, labels: int -> string, measure: string -> TextSize): seq<DrawCommand>
  {
    FlatMap(kept, Drawer(labels, measure))
  }

  /** Everything drawn on one frame: the kept detections in order, then the summary. */
  function FrameCommands(dets: seq<Detection>, threshold: real, labels: int -> string, measure: string -> TextSize): seq<DrawCommand>
  {
    var kept := Kept(dets, threshold);
    CommandsFor(kept, labels, measure) + [Summary(|kept|)]
  }

  lemma {:induction false} KeptAppend(a: seq<Detection>, b: seq<Detection>, threshold: real)
    ensures Kept(a + b, threshold) == Kept(a, threshold) + Kept(b, threshold)
  {
    if a != [] {
      assert (a + b)[0] == a[0] && (a + b)[1..] == a[1..] + b;
      KeptAppend(a[1..], b, threshold);
    } else {
      assert a + b == b;
    }
  }

  /** The j-th kept detection owns commands 3j, 3j+1 and 3j+2. */
  lemma CommandsForAt(kept: seq<Detection>, labels: int -> string, measure: string -> TextSize, j: nat)
    requires j < |kept|
    ensures |CommandsFor(kept, labels, measure)| == 3 * |kept|
    ensures CommandsFor(kept, labels, measure)[3 * j .. 3 * j + 3] == DetectionCommands(kept[j], labels(kept[j].classIdx), measure)
  {
    var f := Drawer(labels, measure);
    assert forall d :: |f(d)| == 3 by {
      forall d ensures |f(d)| == 3 {
        assert f(d) == DetectionCommands(d, labels(d.classIdx), measure);
      }
    }
    FlatMapAt(kept, f, j);
  }

  /** What the frame shows: three commands per kept detection, in order, each
      box in its class colour with its label no higher than the frame top, then
      the summary of how many were kept. */
  lemma FrameCommandsShape(dets: seq<Detection>, threshold: real, labels: int -> string, measure: string -> TextSize, j: nat)
    requires j < |Kept(dets, threshold)|
    ensures var kept := Kept(dets, threshold);
            var cmds := FrameCommands(dets, threshold, labels, measure);
            |cmds| == 3 * |kept| + 1 && cmds[|cmds| - 1] == Summary(|kept|) &&
            kept[j] in dets && kept[j].conf > threshold &&
            cmds[3 * j].Rectangle? && cmds[3 * j].color == BoxColor(kept[j].classIdx) &&
            cmds[3 * j + 1].Rectangle? && cmds[3 * j + 1].corner.y >= 0
  {
    var kept := Kept(dets, threshold);
    assert kept[j] in kept;
    KeptMembers(dets, threshold);
    CommandsForAt(kept, labels, measure, j);
    var own := CommandsFor(kept, labels, measure);
    var cmds := own + [Summary(|kept|)];
    assert cmds[3 * j] == own[3 * j .. 3 * j + 3][0];
    assert cmds[3 * j + 1] == own[3 * j .. 3 * j + 3][1];
  }

  /** Lines 68-95 as they run: the count starts at 0, goes up once per
      detection strictly above the threshold, and the commands are issued in
      detector order, the summary last. */
  method RenderDetections(dets: seq<Detection>, threshold: real, labels: int -> string, measure: string -> TextSize)
    returns (count: nat, cmds: seq<DrawCommand>)
    ensures count == |Kept(dets, threshold)| && count <= |dets|
    ensures cmds == FrameCommands(dets, threshold, labels, measure)
  {
    count := 0;
    cmds := [];
    for i := 0 to |dets|
      invariant count == |Kept(dets[..i], threshold)|
      invariant cmds == CommandsFor(Kept(dets[..i], threshold), labels, measure)
    {
      var d := dets[i];
      var className := labels(d.classIdx);
      if d.conf > threshold {
        var color := BoxColor(d.classIdx);
        var box := Rectangle(Point(d.box.xmin, d.box.ymin), Point(d.box.xmax, d.box.ymax), color, Outline(BOX_STROKE));
        var caption := Label(className, d.conf);
        var place := PlaceLabel(d.box.xmin, d.box.ymin, measure(caption));
        var background := Rectangle(place.fillCorner, place.fillOpposite, color, Filled);
        var text := PutText(caption, place.textOrigin, 0.5, LABEL_TEXT_COLOR, 1);
        assert [box, background, text] == DetectionCommands(d, className, measure);
        DrawnStep(dets, i, threshold, labels, measure);
        cmds := cmds + [box, background, text];
        count := count + 1;
      } else {
        SkippedStep(dets, i, threshold);
      }
    }
    assert dets[..|dets|] == dets;
    cmds := cmds + [Summary(count)];
  }

  /** One detection above the threshold: it joins the kept ones and its three commands follow the earlier ones. */
  lemma DrawnStep(dets: seq<Detection>, i: nat, threshold: real, labels: int -> string, measure: string -> TextSize)
    requires i < |dets| && dets[i].conf > threshold
    ensures Kept(dets[..i + 1], threshold) == Kept(dets[..i], threshold) + [dets[i]]
    ensures CommandsFor(Kept(dets[..i + 1], threshold), labels, measure) ==
            CommandsFor(Kept(dets[..i], threshold), labels, measure) + DetectionCommands(dets[i], labels(dets[i].classIdx), measure)
  {
    KeptStep(dets, i, threshold);
    CommandsForSnoc(Kept(dets[..i], threshold), dets[i], labels, measure);
  }

  /** One detection at or below the threshold changes nothing. */
  lemma SkippedStep(dets: seq<Detection>, i: nat, threshold: real)
    requires i < |dets| && !(dets[i].conf > threshold)
    ensures Kept(dets[..i + 1], threshold) == Kept(dets[..i], threshold)
  {
    KeptStep(dets, i, threshold);
  }

  lemma KeptStep(dets: seq<Detection>, i: nat, threshold: real)
    requires i < |dets|
    ensures Kept(dets[..i + 1], threshold) ==
            Kept(dets[..i], threshold) + (if dets[i].conf > threshold then [dets[i]] else [])
  {
    KeptAppend(dets[..i], [dets[i]], threshold);
    assert dets[..i + 1] == dets[..i] + [dets[i]];
    assert [dets[i]][1..] == [];
  }

  lemma CommandsForSnoc(kept: seq<Detection>, d: Detection, labels: int -> string, measure: string -> TextSize)
    ensures CommandsFor(kept + [d], labels, measure) == CommandsFor(kept, labels, measure) + DetectionCommands(d, labels(d.classIdx), measure)
  {
    var f := Drawer(labels, measure);
    FlatMapAppend(kept, [d], f);
    assert [d][1..] == [];
    assert FlatMap([d], f) == f(d) + FlatMap([], f);
  }

  /** The end-to-end case: threshold 0.5 and confidences 0.9, 0.4, 0.5 draw
      one detection (0.5 is not above 0.5) under "Objects detected: 1". */
  lemma ThresholdExample(b: Box)
    ensures var dets := [Detection(b, 0, 0.9), Detection(b, 1, 0.4), Detection(b, 2, 0.5)];
            Kept(dets, 0.5) == [Detection(b, 0, 0.9)] &&
            Summary(|Kept(dets, 0.5)|).text == "Objects detected: 1"
  {
    var dets := [Detection(b, 0, 0.9), Detection(b, 1, 0.4), Detection(b, 2, 0.5)];
    assert dets[1..][1..][1..] == [];
    assert Kept(dets[1..][1..], 0.5) == [];
    assert Kept(dets[1..], 0.5) == [];
    assert Kept(dets, 0.5) == [Detection(b, 0, 0.9)];
    assert NatToString(1) == "1";
  }

  /** With nothing above the threshold the frame shows only "Objects detected: 0". */
  lemma {:induction false} NothingKept(dets: seq<Detection>, threshold: real)
    requires forall i :: 0 <= i < |dets| ==> dets[i].conf <= threshold
    ensures Kept(dets, threshold) == []
  {
    if dets != [] {
      assert dets[0].conf <= threshold;
      NothingKept(dets[1..], threshold);
    }
  }

  /** A frame whose detections are all at or below the threshold gets only the summary. */
  lemma EmptyFrame(dets: seq<Detection>, threshold: real, labels: int -> string, measure: string -> TextSize)
    requires forall i :: 0 <= i < |dets| ==> dets[i].conf <= threshold
    ensures FrameCommands(dets, threshold, labels, measure) == [Summary(0)]
    ensures Summary(0).text == "Objects detected: 0"
  {
    NothingKept(dets, threshold);
    assert NatToString(0) == "0";
  }
}
