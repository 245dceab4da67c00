/**
 * The DICOM viewer: the `wadouri:` image-id rule, and the overlay drawn on
 * the viewer's 2D canvas once the image has loaded (a stroked box per
 * prediction, a filled caption background directly above it, the caption text
 * in white).
 */
module DicomViewer {
  import opened Wrappers
  import opened Text
  import opened Detection

  const WadoPrefix := "wadouri:"

  /** Label background height; the text sits 2 pixels below its top edge. */
  const TextHeight: real := 18.0

  /** A non-empty id that lacks the `wadouri:` scheme gets it; anything else is left as is. */
  function FormatImageId(imageId: Option<string>): (r: Option<string>)
    ensures r.None? <==> imageId.None?
    ensures imageId.Some? && imageId.value != "" ==> StartsWith(r.value, WadoPrefix)
    ensures imageId.Some? && imageId.value != "" && !StartsWith(imageId.value, WadoPrefix) ==>
      r.value[|WadoPrefix|..] == imageId.value
    ensures !(imageId.Some? && imageId.value != "" && !StartsWith(imageId.value, WadoPrefix)) ==> r == imageId
  {
    if imageId.Some? && imageId.value != "" && !StartsWith(imageId.value, WadoPrefix) then Some(WadoPrefix + imageId.value)
    else imageId
  }

  /** Formatting an id that is already formatted changes nothing. */
  lemma FormatImageIdIdempotent(imageId: Option<string>)
    ensures FormatImageId(FormatImageId(imageId)) == FormatImageId(imageId)
  {
    var once := FormatImageId(imageId);
    if imageId.Some? && imageId.value != "" && !StartsWith(imageId.value, WadoPrefix) {
      assert once.value[..|WadoPrefix|] == WadoPrefix;
    }
  }

  /** One canvas call, with the colour in effect when it was made. */
  datatype DrawOp =
    | StrokeRect(rect: Rect, colour: string)
    | FillRect(rect: Rect, colour: string)
    | FillText(text: string, x: real, y: real, colour: string)

  /** The 2D context of the viewer's canvas: its size, its current styles and what has been drawn on it. */
  class Canvas {
    const width: nat
    const height: nat
    var lineWidth: int
    var font: string
    var textBaseline: string
    var strokeStyle: string
    var fillStyle: string
    var ops: seq<DrawOp>

    constructor (width: nat, height: nat)
      ensures this.width == width && this.height == height && ops == []
    {
      this.width, this.height := width, height;
      lineWidth, font, textBaseline := 1, "10px sans-serif", "alphabetic";
      strokeStyle, fillStyle := "#000000", "#000000";
      ops := [];
    }

    method DrawStroke(r: Rect)
      modifies this`ops
      ensures ops == old(ops) + [StrokeRect(r, strokeStyle)]
    {
      ops := ops + [StrokeRect(r, strokeStyle)];
    }

    method DrawFill(r: Rect)
      modifies this`ops
      ensures ops == old(ops) + [FillRect(r, fillStyle)]
    {
      ops := ops + [FillRect(r, fillStyle)];
    }

    method DrawText(text: string, x: real, y: real)
      modifies this`ops
      ensures ops == old(ops) + [FillText(text, x, y, fillStyle)]
    {
      ops := ops + [FillText(text, x, y, fillStyle)];
    }
  }

  /**
   * The three calls drawn for one prediction: its box in its colour, a caption
   * background of the measured text width plus 6 directly above the box, and
   * the caption in white inside that background.
   */
  function PredictionOps(p: Prediction, scaleX: real, scaleY: real, measure: string -> real): seq<DrawOp>
  {
    var box := BoxRect(p, scaleX, scaleY);
    var colour := ColourFor(p.cls);
    var caption := LabelText(p);
    [ StrokeRect(box, colour),
      FillRect(Rect(box.left, box.top - TextHeight, measure(caption) + 6.0, TextHeight), colour),
      FillText(caption, box.left + 3.0, box.top - TextHeight + 2.0, "white") ]
  }

  /**
   * One prediction draws three calls: its box stroked in its colour, a caption
   * background in that colour sharing the box's left edge and ending at its
   * top edge, and the label in white 3 pixels in, within that background.
   */
  lemma PredictionOpsLayout(p: Prediction, scaleX: real, scaleY: real, measure: string -> real)
    ensures var ops := PredictionOps(p, scaleX, scaleY, measure);
      && |ops| == 3
      && ops[0] == StrokeRect(BoxRect(p, scaleX, scaleY), ColourFor(p.cls))
      && ops[1].FillRect? && ops[1].colour == ColourFor(p.cls) && ops[1].rect.left == ops[0].rect.left
      && ops[1].rect.top + ops[1].rect.height == ops[0].rect.top
      && ops[2].FillText? && ops[2].text == LabelText(p) && ops[2].colour == "white"
      && ops[2].x == ops[1].rect.left + 3.0 && ops[1].rect.top <= ops[2].y <= ops[0].rect.top
  {
  }

  /** The drawing of one prediction, as a function value. */
  function DrawFn(scaleX: real, scaleY: real, measure: string -> real): Prediction -> seq<DrawOp>
  {
    p => PredictionOps(p, scaleX, scaleY, measure)
  }

  /** `xs.forEach(x => draw(x))` as the concatenation of what each call draws. */
  function ConcatMap<T, U>(xs: seq<T>, f: T -> seq<U>): seq<U>
  {
    if |xs| == 0 then [] else ConcatMap(xs[..|xs| - 1], f) + f(xs[|xs| - 1])
  }

  lemma ConcatMapSnoc<T, U>(xs: seq<T>, i: nat, f: T -> seq<U>)
    requires i < |xs|
    ensures ConcatMap(xs[..i + 1], f) == ConcatMap(xs[..i], f) + f(xs[i])
  {
    assert xs[..i + 1][..i] == xs[..i];
  }

  lemma {:induction false} ConcatMapLength<T, U>(xs: seq<T>, f: T -> seq<U>)
    requires forall x :: |f(x)| == 3
    ensures |ConcatMap(xs, f)| == 3 * |xs|
  {
    if |xs| > 0 {
      ConcatMapLength(xs[..|xs| - 1], f);
    }
  }

  /** When every call draws three things, call i drew positions 3i, 3i+1 and 3i+2. */
  lemma {:induction false} ConcatMapAt<T, U>(xs: seq<T>, f: T -> seq<U>, i: nat)
    requires i < |xs| && forall x :: |f(x)| == 3
    ensures |ConcatMap(xs, f)| == 3 * |xs|
    ensures var all := ConcatMap(xs, f);
      all[3 * i] == f(xs[i])[0] && all[3 * i + 1] == f(xs[i])[1] && all[3 * i + 2] == f(xs[i])[2]
    decreases |xs|
  {
    var n := |xs|;
    var init := xs[..n - 1];
    if i < n - 1 {
      ConcatMapAt(init, f, i);
      assert init[i] == xs[i];
    } else if n > 1 {
      ConcatMapAt(init, f, 0);
    }
  }

  /** Everything drawn for a list of predictions, in list order. */
  function OverlayOps(predictions: seq<Prediction>, scaleX: real, scaleY: real, measure: string -> real): (ops: seq<DrawOp>)
    ensures |ops| == 3 * |predictions|
  {
    var f := DrawFn(scaleX, scaleY, measure);
    ConcatMapLength(predictions, f);
    ConcatMap(predictions, f)
  }

  /** Drawing one more prediction appends its three calls. */
  lemma OverlayOpsSnoc(predictions: seq<Prediction>, scaleX: real, scaleY: real, measure: string -> real, i: nat)
    requires i < |predictions|
    ensures OverlayOps(predictions[..i + 1], scaleX, scaleY, measure) ==
      OverlayOps(predictions[..i], scaleX, scaleY, measure) + PredictionOps(predictions[i], scaleX, scaleY, measure)
  {
    var f := DrawFn(scaleX, scaleY, measure);
    ConcatMapSnoc(predictions, i, f);
  }

  /** One loop iteration: after the calls for the first i predictions, drawing prediction i gives the calls for the first i + 1. */
  lemma DrawStep(start: seq<DrawOp>, drawn: seq<DrawOp>, next: seq<DrawOp>,
                 predictions: seq<Prediction>, scaleX: real, scaleY: real, measure: string -> real, i: nat)
    requires i < |predictions|
    requires drawn == start + OverlayOps(predictions[..i], scaleX, scaleY, measure)
    requires next == drawn + PredictionOps(predictions[i], scaleX, scaleY, measure)
    ensures next == start + OverlayOps(predictions[..i + 1], scaleX, scaleY, measure)
  {
    OverlayOpsSnoc(predictions, scaleX, scaleY, measure, i);
  }

  /** The calls for prediction i are the three at positions 3i, 3i+1, 3i+2. */
  lemma OverlayOpsAt(predictions: seq<Prediction>, scaleX: real, scaleY: real, measure: string -> real, i: nat)
    requires i < |predictions|
    ensures var ops, mine := OverlayOps(predictions, scaleX, scaleY, measure), PredictionOps(predictions[i], scaleX, scaleY, measure);
      |ops| == 3 * |predictions| && ops[3 * i] == mine[0] && ops[3 * i + 1] == mine[1] && ops[3 * i + 2] == mine[2]
  {
    var f := DrawFn(scaleX, scaleY, measure);
    assert forall p :: |f(p)| == 3;
    ConcatMapAt(predictions, f, i);
  }

  /**
   * One stroked rectangle per prediction, in order, in that prediction's
   * colour; the caption background shares the box's left edge and colour and
   * ends exactly at the box's top edge; the text starts 3 pixels in and is
   * drawn in white.
   */
  lemma OverlayLayout(predictions: seq<Prediction>, scaleX: real, scaleY: real, measure: string -> real, i: nat)
    requires i < |predictions|
    ensures var ops := OverlayOps(predictions, scaleX, scaleY, measure);
      var box := BoxRect(predictions[i], scaleX, scaleY);
      && ops[3 * i] == StrokeRect(box, ColourFor(predictions[i].cls))
      && ops[3 * i + 1].FillRect? && ops[3 * i + 1].colour == ColourFor(predictions[i].cls)
      && ops[3 * i + 1].rect.left == box.left
      && ops[3 * i + 1].rect.top + ops[3 * i + 1].rect.height == box.top
      && ops[3 * i + 2] == FillText(LabelText(predictions[i]), box.left + 3.0, box.top - 16.0, "white")
      && box.top - TextHeight <= ops[3 * i + 2].y <= box.top
  {
    OverlayOpsAt(predictions, scaleX, scaleY, measure, i);
  }

  /**
   * The scale has no guard, so the dimensions must be positive; with them, a
   * box covering the whole native image covers the whole canvas.
   */
  lemma FullImageBoxFillsCanvas(canvasWidth: nat, canvasHeight: nat, dims: Dims)
    requires dims.width > 0 && dims.height > 0
    ensures var w, h := dims.width as real, dims.height as real;
      BoxRect(Prediction("", 0.0, w / 2.0, h / 2.0, w, h), canvasWidth as real / w, canvasHeight as real / h)
        == Rect(0.0, 0.0, canvasWidth as real, canvasHeight as real)
  {
    var w, h := dims.width as real, dims.height as real;
    var sx, sy := canvasWidth as real / w, canvasHeight as real / h;
    assert w * sx == canvasWidth as real;
    assert h * sy == canvasHeight as real;
  }

  /** The body of the drawing loop: one box, its label background and its label. */
  method DrawPrediction(canvas: Canvas, p: Prediction, scaleX: real, scaleY: real, measure: string -> real)
    modifies canvas`ops, canvas`strokeStyle, canvas`fillStyle
    ensures canvas.ops == old(canvas.ops) + PredictionOps(p, scaleX, scaleY, measure)
    ensures canvas.strokeStyle == ColourFor(p.cls) && canvas.fillStyle == "white"
  {
    var box := BoxRect(p, scaleX, scaleY);
    var colour := ColourFor(p.cls);
    canvas.strokeStyle := colour;
    canvas.fillStyle := colour;
    canvas.DrawStroke(box);
    var caption := LabelText(p);
    var textWidth := measure(caption);
    canvas.DrawFill(Rect(box.left, box.top - TextHeight, textWidth + 6.0, TextHeight));
    canvas.fillStyle := "white";
    canvas.DrawText(caption, box.left + 3.0, box.top - TextHeight + 2.0);
  }

  /**
   * The drawing callback after the image has loaded: set the line width,
   * font and baseline, then for each prediction stroke its box and draw its
   * caption. The scale divides by the dimensions without a guard, so they
   * must be positive whenever there is something to draw; with nothing to
   * draw the scale is never used, and the model then leaves it at 1.
   */
  method DrawOverlay(canvas: Canvas, predictions: seq<Prediction>, dims: Option<Dims>, measure: string -> real)
    requires |predictions| > 0 ==> dims.Some? && dims.value.width > 0 && dims.value.height > 0
    modifies canvas
    ensures |predictions| > 0 ==>
      canvas.ops == old(canvas.ops) + OverlayOps(predictions,
        canvas.width as real / dims.value.width as real, canvas.height as real / dims.value.height as real, measure)
    ensures |predictions| == 0 ==> canvas.ops == old(canvas.ops)
    ensures canvas.lineWidth == 2 && canvas.font == "14px Arial" && canvas.textBaseline == "top"
  {
    var scaleX, scaleY := 1.0, 1.0;
    if dims.Some? && dims.value.width > 0 && dims.value.height > 0 {
      scaleX := canvas.width as real / dims.value.width as real;
      scaleY := canvas.height as real / dims.value.height as real;
    }
    canvas.lineWidth := 2;
    canvas.font := "14px Arial";
    canvas.textBaseline := "top";
    DrawAll(canvas, predictions, scaleX, scaleY, measure);
  }

  /** `predictions.forEach(...)`: draw every prediction, in list order, at one scale. */
  method DrawAll(canvas: Canvas, predictions: seq<Prediction>, scaleX: real, scaleY: real, measure: string -> real)
    modifies canvas`ops, canvas`strokeStyle, canvas`fillStyle
    ensures canvas.ops == old(canvas.ops) + OverlayOps(predictions, scaleX, scaleY, measure)
    ensures |predictions| > 0 ==>
      canvas.strokeStyle == ColourFor(predictions[|predictions| - 1].cls) && canvas.fillStyle == "white"
    ensures |predictions| == 0 ==>
      canvas.strokeStyle == old(canvas.strokeStyle) && canvas.fillStyle == old(canvas.fillStyle)
  {
    var i := 0;
    while i < |predictions|
      invariant 0 <= i <= |predictions|
      invariant canvas.ops == old(canvas.ops) + OverlayOps(predictions[..i], scaleX, scaleY, measure)
      invariant i > 0 ==> canvas.strokeStyle == ColourFor(predictions[i - 1].cls) && canvas.fillStyle == "white"
      invariant i == 0 ==> canvas.strokeStyle == old(canvas.strokeStyle) && canvas.fillStyle == old(canvas.fillStyle)
    {
      ghost var drawn := canvas.ops;
      DrawPrediction(canvas, predictions[i], scaleX, scaleY, measure);
      DrawStep(old(canvas.ops), drawn, canvas.ops, predictions, scaleX, scaleY, measure, i);
      i := i + 1;
    }
    assert predictions[..|predictions|] == predictions;
  }

  /** How `loadImage` ended for the requested id. */
  datatype LoadResult = Loaded | LoadFailed

  /** The viewer component: the error it shows, and the id it last asked the loader for. */
  class Viewer {
    var error: Option<string>
    var requestedImageId: Option<string>

    constructor ()
      ensures error.None? && requestedImageId.None?
    {
      error, requestedImageId := None, None;
    }

    /**
     * The effect run when the id, predictions or dimensions change.
     * `enableThrows` stands for `cornerstone.enable` failing, `load` for the
     * outcome of loading the formatted id, and `hasContext` for the element
     * having a canvas with a 2D context. A missing prediction list makes the
     * drawing callback throw, which the load handler reports.
     */
    method Mount(imageId: Option<string>, predictions: Option<seq<Prediction>>, dims: Option<Dims>,
                 enableThrows: bool, load: LoadResult, hasContext: bool, canvas: Canvas, measure: string -> real)
      requires !enableThrows && load == Loaded && hasContext && predictions.Some? && |predictions.value| > 0 ==>
        dims.Some? && dims.value.width > 0 && dims.value.height > 0
      modifies this, canvas
      ensures enableThrows ==> error == Some("Error initializing DICOM viewer.") && canvas.ops == old(canvas.ops)
      ensures !enableThrows ==> requestedImageId == FormatImageId(imageId)
      ensures !enableThrows && (load == LoadFailed || (hasContext && predictions.None?)) ==>
        error == Some("Failed to load DICOM image.") && canvas.ops == old(canvas.ops)
      ensures !enableThrows && load == Loaded && !hasContext ==> error.None? && canvas.ops == old(canvas.ops)
      ensures !enableThrows && load == Loaded && hasContext ==>
        canvas.lineWidth == 2 && canvas.font == "14px Arial" && canvas.textBaseline == "top"
      ensures !enableThrows && load == Loaded && hasContext && predictions.Some? ==>
        && error.None?
        && (|predictions.value| == 0 ==> canvas.ops == old(canvas.ops))
        && (|predictions.value| > 0 ==>
              canvas.ops == old(canvas.ops) + OverlayOps(predictions.value,
                canvas.width as real / dims.value.width as real, canvas.height as real / dims.value.height as real, measure))
    {
      error := None;
      if enableThrows {
        error := Some("Error initializing DICOM viewer.");
        return;
      }
      var formattedImageId := imageId;
      if imageId.Some? && imageId.value != "" && !StartsWith(imageId.value, WadoPrefix) {
        formattedImageId := Some(WadoPrefix + imageId.value);
      }
      requestedImageId := formattedImageId;
      if load == LoadFailed {
        error := Some("Failed to load DICOM image.");
        return;
      }
      if !hasContext {
        return;
      }
      if predictions.None? {
        // The styles are set before `predictions.forEach` throws.
        canvas.lineWidth := 2;
        canvas.font := "14px Arial";
        canvas.textBaseline := "top";
        error := Some("Failed to load DICOM image.");
        return;
      }
      DrawOverlay(canvas, predictions.value, dims, measure);
    }
  }
}
