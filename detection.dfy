/**
 * The detector's prediction record and the box geometry shared by every
 * overlay variant (the two image viewers and the inline renderer of the
 * application) and by non-maximum suppression on the server.
 */
module Detection {
  import opened Text

  /** One detection: class label, confidence, and a box given by its center and size. */
  datatype Prediction = Prediction(cls: string, confidence: real, x: real, y: real, width: real, height: real)

  /** Native pixel size of the processed image, as reported by the server. */
  datatype Dims = Dims(width: int, height: int)

  /** A screen rectangle in top-left form. */
  datatype Rect = Rect(left: real, top: real, width: real, height: real)

  /** A box in corner form `[x1, y1, x2, y2]`. */
  datatype Box = Box(x1: real, y1: real, x2: real, y2: real)

  /**
   * Center/size to top-left form, each axis scaled by its own factor.
   * The rectangle is centred on the scaled center and has the scaled size.
   */
  function BoxRect(p: Prediction, scaleX: real, scaleY: real): (r: Rect)
    ensures r.left + r.width / 2.0 == p.x * scaleX
    ensures r.top + r.height / 2.0 == p.y * scaleY
    ensures r.width == p.width * scaleX && r.height == p.height * scaleY
  {
    Rect((p.x - p.width / 2.0) * scaleX, (p.y - p.height / 2.0) * scaleY, p.width * scaleX, p.height * scaleY)
  }

  /** Center/size to corner form, as the server does before suppression. */
  function Corners(p: Prediction): (b: Box)
    ensures b.x1 + b.x2 == 2.0 * p.x && b.y1 + b.y2 == 2.0 * p.y
    ensures b.x2 - b.x1 == p.width && b.y2 - b.y1 == p.height
  {
    Box(p.x - p.width / 2.0, p.y - p.height / 2.0, p.x + p.width / 2.0, p.y + p.height / 2.0)
  }

  /**
   * Scaling commutes with the center-to-corner conversion: the screen
   * rectangle spans exactly the scaled corners of the box.
   */
  lemma BoxRectSpansScaledCorners(p: Prediction, scaleX: real, scaleY: real)
    ensures BoxRect(p, scaleX, scaleY).left == Corners(p).x1 * scaleX
    ensures BoxRect(p, scaleX, scaleY).top == Corners(p).y1 * scaleY
    ensures BoxRect(p, scaleX, scaleY).left + BoxRect(p, scaleX, scaleY).width == Corners(p).x2 * scaleX
    ensures BoxRect(p, scaleX, scaleY).top + BoxRect(p, scaleX, scaleY).height == Corners(p).y2 * scaleY
  {
    var r := BoxRect(p, scaleX, scaleY);
    calc {
      r.left + r.width;
      (p.x - p.width / 2.0) * scaleX + p.width * scaleX;
      (p.x + p.width / 2.0) * scaleX;
    }
    calc {
      r.top + r.height;
      (p.y - p.height / 2.0) * scaleY + p.height * scaleY;
      (p.y + p.height / 2.0) * scaleY;
    }
  }

  /** The worked example: center (100,50), size 40x20, native 200x100 drawn at 400x200. */
  lemma BoxRectExample()
    ensures BoxRect(Prediction("cavity", 0.9, 100.0, 50.0, 40.0, 20.0), 400.0 / 200.0, 200.0 / 100.0)
         == Rect(160.0, 80.0, 80.0, 40.0)
  {
  }

  /** Category to colour: case-insensitive, lime for anything unmapped. */
  function ColourFor(cls: string): (c: string)
    ensures Lower(cls) == "cavity" ==> c == "red"
    ensures Lower(cls) == "periapical lesion" ==> c == "blue"
    ensures Lower(cls) != "cavity" && Lower(cls) != "periapical lesion" ==> c == "lime"
  {
    if Lower(cls) == "cavity" then "red"
    else if Lower(cls) == "periapical lesion" then "blue"
    else "lime"
  }

  /** The colour depends on the class only up to letter case. */
  lemma ColourForIgnoresCase(cls: string)
    ensures ColourFor(Lower(cls)) == ColourFor(cls)
    ensures ColourFor("CAVITY") == "red" && ColourFor("Periapical Lesion") == "blue"
  {
    LowerIdempotent(cls);
  }

  /** `Math.round`: the nearest integer, halves rounded up. */
  function JsRound(v: real): (n: int)
    ensures v - 0.5 < n as real <= v + 0.5
  {
    (v + 0.5).Floor
  }

  /** Label text `<class> - <rounded percentage>%`. */
  function LabelText(p: Prediction): (s: string)
    ensures |s| > |p.cls| + 3 && s[..|p.cls| + 3] == p.cls + " - " && s[|s| - 1] == '%'
    ensures s[|p.cls| + 3..|s| - 1] == IntToString(JsRound(p.confidence * 100.0))
  {
    p.cls + " - " + IntToString(JsRound(p.confidence * 100.0)) + "%"
  }

  /**
   * The text between " - " and '%' reads back as the confidence in percent,
   * rounded: an integer within half of it, with a '-' exactly when negative.
   */
  lemma LabelTextPercent(p: Prediction)
    ensures var s := LabelText(p); var mid := s[|p.cls| + 3..|s| - 1]; var v := p.confidence * 100.0;
      && (mid[0] != '-' ==> v - 0.5 < DigitsValue(mid) as real <= v + 0.5)
      && (mid[0] == '-' ==> v - 0.5 < -DigitsValue(mid[1..]) as real <= v + 0.5)
  {
    var n := JsRound(p.confidence * 100.0);
    var s := LabelText(p);
    var mid := s[|p.cls| + 3..|s| - 1];
    assert mid == IntToString(n);
    IntToStringValue(n);
    if n < 0 {
      assert mid[0] == '-' && -DigitsValue(mid[1..]) == n;
    } else {
      assert mid[0] != '-' && DigitsValue(mid) == n;
    }
  }
}
