/**
 * The image viewer with box overlays: the rendered size computed when the
 * image loads, the guarded per-axis scale, and one overlay per prediction.
 */
module ImageOverlay {
  import opened Wrappers
  import opened Detection

  /** The rendered size the viewer keeps; it is 0 x 0 until the image has loaded. */
  datatype ImageSize = ImageSize(width: real, height: real)

  const Unloaded := ImageSize(0.0, 0.0)

  /** One drawn box: its rectangle, border colour and label. */
  datatype BoxOverlay = BoxOverlay(rect: Rect, colour: string, caption: string)

  /**
   * Size on load: the container's width (the natural width when there is no
   * container) and the height that keeps the natural aspect ratio.
   */
  function OnImageLoad(naturalWidth: real, naturalHeight: real, containerWidth: Option<real>): (s: ImageSize)
    requires naturalWidth != 0.0
    ensures s.width == (if containerWidth.Some? then containerWidth.value else naturalWidth)
    ensures s.height * naturalWidth == naturalHeight * s.width
  {
    var width := if containerWidth.Some? then containerWidth.value else naturalWidth;
    var scaleFactor := width / naturalWidth;
    ImageSize(width, naturalHeight * scaleFactor)
  }

  /**
   * One axis of the scale: rendered over native when both are present and
   * non-zero, exactly 1 otherwise (so never a division by zero).
   */
  function ScaleAxis(rendered: real, native: Option<int>): (s: real)
    ensures rendered != 0.0 && native.Some? && native.value != 0 ==> s * native.value as real == rendered
    ensures !(rendered != 0.0 && native.Some? && native.value != 0) ==> s == 1.0
  {
    if rendered != 0.0 && native.Some? && native.value != 0 then rendered / native.value as real else 1.0
  }

  function ScaleX(size: ImageSize, dims: Option<Dims>): real
  {
    ScaleAxis(size.width, if dims.Some? then Some(dims.value.width) else None)
  }

  function ScaleY(size: ImageSize, dims: Option<Dims>): real
  {
    ScaleAxis(size.height, if dims.Some? then Some(dims.value.height) else None)
  }

  function Overlay(p: Prediction, scaleX: real, scaleY: real): (o: BoxOverlay)
    ensures o.rect == BoxRect(p, scaleX, scaleY)
    ensures o.colour == ColourFor(p.cls) && o.caption == LabelText(p)
  {
    BoxOverlay(BoxRect(p, scaleX, scaleY), ColourFor(p.cls), LabelText(p))
  }

  /**
   * What the viewer draws: nothing without an image URL; otherwise one
   * overlay per prediction in input order (none when predictions are absent).
   */
  function Render(imageUrl: Option<string>, predictions: Option<seq<Prediction>>, dims: Option<Dims>, size: ImageSize)
    : (r: Option<seq<BoxOverlay>>)
    ensures r.None? <==> imageUrl.None? || imageUrl.value == ""
    ensures r.Some? && predictions.None? ==> r.value == []
    ensures r.Some? && predictions.Some? ==>
      |r.value| == |predictions.value| &&
      forall i :: 0 <= i < |r.value| ==>
        r.value[i] == Overlay(predictions.value[i], ScaleX(size, dims), ScaleY(size, dims))
  {
    if imageUrl.None? || imageUrl.value == "" then None
    else if predictions.None? then Some([])
    else
      var sx, sy := ScaleX(size, dims), ScaleY(size, dims);
      Some(seq(|predictions.value|, i requires 0 <= i < |predictions.value| => Overlay(predictions.value[i], sx, sy)))
  }

  /** Before the image has loaded, boxes are drawn in native coordinates. */
  lemma RenderBeforeLoadIsIdentity(imageUrl: string, predictions: seq<Prediction>, dims: Option<Dims>, i: nat)
    requires imageUrl != "" && i < |predictions|
    ensures Render(Some(imageUrl), Some(predictions), dims, Unloaded).Some?
    ensures Render(Some(imageUrl), Some(predictions), dims, Unloaded).value[i].rect
         == Rect(Corners(predictions[i]).x1, Corners(predictions[i]).y1, predictions[i].width, predictions[i].height)
  {
  }

  /** Missing or zero native dimensions never scale: identity on that axis. */
  lemma ScaleFallsBackToOne(size: ImageSize, dims: Option<Dims>)
    requires dims.None? || dims.value.width == 0
    ensures ScaleX(size, dims) == 1.0
  {
  }

  /**
   * Once the image has loaded into a container of positive width, and the
   * reported dimensions are the image's natural size, both axes scale by the
   * same factor: container width over natural width.
   */
  lemma {:induction false} LoadedScaleIsUniform(naturalWidth: int, naturalHeight: int, containerWidth: real)
    requires naturalWidth > 0 && naturalHeight > 0 && containerWidth > 0.0
    ensures var size := OnImageLoad(naturalWidth as real, naturalHeight as real, Some(containerWidth));
            var dims := Some(Dims(naturalWidth, naturalHeight));
            ScaleX(size, dims) == ScaleY(size, dims) == containerWidth / naturalWidth as real
  {
    var nw, nh := naturalWidth as real, naturalHeight as real;
    var size := OnImageLoad(nw, nh, Some(containerWidth));
    var k := containerWidth / nw;
    assert k > 0.0;
    assert size.height == nh * k;
    assert size.height != 0.0;
    var sy := ScaleY(size, Some(Dims(naturalWidth, naturalHeight)));
    assert sy * nh == nh * k;
    assert sy == k;
  }
}
