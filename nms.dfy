/**
 * Intersection over union of two corner-form boxes and greedy non-maximum
 * suppression: keep the most confident box, drop every remaining box that
 * overlaps it by more than the threshold, repeat on what is left.
 */
module Nms {
  import opened Detection

  function Max(a: real, b: real): real { if a >= b then a else b }
  function Min(a: real, b: real): real { if a <= b then a else b }

  function Area(b: Box): real
  {
    (b.x2 - b.x1) * (b.y2 - b.y1)
  }

  /** A box whose corners are ordered and whose area is positive. */
  predicate WellFormed(b: Box)
  {
    b.x1 < b.x2 && b.y1 < b.y2
  }

  /** Area of the intersection, with width and height clamped at 0. */
  function InterArea(a: Box, b: Box): (r: real)
    ensures r >= 0.0
    ensures Min(a.x2, b.x2) <= Max(a.x1, b.x1) || Min(a.y2, b.y2) <= Max(a.y1, b.y1) ==> r == 0.0
  {
    var w := Max(0.0, Min(a.x2, b.x2) - Max(a.x1, b.x1));
    var h := Max(0.0, Min(a.y2, b.y2) - Max(a.y1, b.y1));
    w * h
  }

  /** Intersection over union; 0 when the union has no area. */
  function Iou(a: Box, b: Box): real
  {
    var inter := InterArea(a, b);
    var union := Area(a) + Area(b) - inter;
    if union == 0.0 then 0.0 else inter / union
  }

  /** IoU is the intersection measured in units of the union, and 0 for an empty union. */
  lemma IouTimesUnion(a: Box, b: Box)
    ensures Area(a) + Area(b) - InterArea(a, b) != 0.0 ==>
      Iou(a, b) * (Area(a) + Area(b) - InterArea(a, b)) == InterArea(a, b)
    ensures Area(a) + Area(b) - InterArea(a, b) == 0.0 ==> Iou(a, b) == 0.0
  {
    var union := Area(a) + Area(b) - InterArea(a, b);
    if union != 0.0 {
      DivTimes(InterArea(a, b), union);
    }
  }

  lemma DivTimes(x: real, y: real)
    requires y != 0.0
    ensures (x / y) * y == x
  {
  }

  lemma MulMono(a: real, b: real, c: real, d: real)
    requires 0.0 <= a <= c && 0.0 <= b <= d
    ensures a * b <= c * d
  {
    assert a * b <= c * b;
    assert c * b <= c * d;
  }

  lemma MulPos(a: real, b: real)
    requires a > 0.0 && b > 0.0
    ensures a * b > 0.0
  {
    assert a * b > a * 0.0;
  }

  /** The intersection is no larger than either box. */
  lemma InterAreaBounded(a: Box, b: Box)
    requires WellFormed(a) && WellFormed(b)
    ensures InterArea(a, b) <= Area(a) && InterArea(a, b) <= Area(b)
  {
    var w := Max(0.0, Min(a.x2, b.x2) - Max(a.x1, b.x1));
    var h := Max(0.0, Min(a.y2, b.y2) - Max(a.y1, b.y1));
    MulMono(w, h, a.x2 - a.x1, a.y2 - a.y1);
    MulMono(w, h, b.x2 - b.x1, b.y2 - b.y1);
  }

  /** IoU does not depend on the order of its arguments. */
  lemma IouSymmetric(a: Box, b: Box)
    ensures Iou(a, b) == Iou(b, a)
  {
    assert Min(a.x2, b.x2) == Min(b.x2, a.x2) && Max(a.x1, b.x1) == Max(b.x1, a.x1);
    assert Min(a.y2, b.y2) == Min(b.y2, a.y2) && Max(a.y1, b.y1) == Max(b.y1, a.y1);
    var inter := InterArea(a, b);
    assert inter == InterArea(b, a);
    assert Area(a) + Area(b) - inter == Area(b) + Area(a) - inter;
  }

  /** Boxes that are disjoint or only touch along an edge have IoU 0. */
  lemma IouOfSeparatedBoxes(a: Box, b: Box)
    requires a.x2 <= b.x1 || b.x2 <= a.x1 || a.y2 <= b.y1 || b.y2 <= a.y1
    ensures Iou(a, b) == 0.0
  {
    var inter := InterArea(a, b);
    assert Min(a.x2, b.x2) <= Max(a.x1, b.x1) || Min(a.y2, b.y2) <= Max(a.y1, b.y1);
    assert inter == 0.0;
    var union := Area(a) + Area(b) - inter;
    if union != 0.0 {
      assert inter / union == 0.0;
    }
  }

  lemma DivInUnitInterval(n: real, d: real)
    requires 0.0 <= n <= d && d > 0.0
    ensures 0.0 <= n / d <= 1.0
  {
    var r := n / d;
    assert r * d == n;
    if r < 0.0 { MulPos(-r, d); }
    if r > 1.0 { MulPos(r - 1.0, d); }
  }

  /** For well-formed boxes IoU lies in [0, 1]. */
  lemma IouInUnitInterval(a: Box, b: Box)
    requires WellFormed(a) && WellFormed(b)
    ensures 0.0 <= Iou(a, b) <= 1.0
  {
    InterAreaBounded(a, b);
    AreaPositive(a);
    DivInUnitInterval(InterArea(a, b), Area(a) + Area(b) - InterArea(a, b));
  }

  lemma AreaPositive(a: Box)
    requires WellFormed(a)
    ensures Area(a) > 0.0
  {
    MulPos(a.x2 - a.x1, a.y2 - a.y1);
  }

  /** A well-formed box overlaps itself completely. */
  lemma IouSelfIsOne(a: Box)
    requires WellFormed(a)
    ensures Iou(a, a) == 1.0
  {
    var area := Area(a);
    assert InterArea(a, a) == area;
    MulPos(a.x2 - a.x1, a.y2 - a.y1);
    assert area > 0.0;
    assert area + area - area == area;
    assert area / area == 1.0;
  }

  // ---------------------------------------------------------------------
  // Greedy suppression over indices

  ghost predicate InRange(ix: seq<nat>, n: nat)
  {
    forall k :: 0 <= k < |ix| ==> ix[k] < n
  }

  ghost predicate Distinct(ix: seq<nat>)
  {
    forall i, j :: 0 <= i < j < |ix| ==> ix[i] != ix[j]
  }

  /** Indices listed by non-increasing confidence. */
  ghost predicate Descending(ix: seq<nat>, conf: seq<real>)
    requires InRange(ix, |conf|)
  {
    forall i, j :: 0 <= i < j < |ix| ==> conf[ix[i]] >= conf[ix[j]]
  }

  lemma DistinctCons(x: nat, t: seq<nat>)
    requires Distinct(t) && x !in t
    ensures Distinct([x] + t)
  {
    var s := [x] + t;
    forall i, j | 0 <= i < j < |s| ensures s[i] != s[j] {
      assert s[j] == t[j - 1];
      if i > 0 { assert s[i] == t[i - 1]; }
    }
  }

  lemma DescendingCons(x: nat, t: seq<nat>, conf: seq<real>)
    requires x < |conf| && InRange(t, |conf|) && Descending(t, conf)
    requires forall y :: y in t ==> conf[x] >= conf[y]
    ensures InRange([x] + t, |conf|) && Descending([x] + t, conf)
  {
    var s := [x] + t;
    forall i, j | 0 <= i < j < |s| ensures conf[s[i]] >= conf[s[j]] {
      assert s[j] == t[j - 1];
      if i > 0 { assert s[i] == t[i - 1]; }
    }
  }

  /** The remaining indices whose overlap with `head` is not above the threshold. */
  function Survivors(boxes: seq<Box>, head: nat, rest: seq<nat>, threshold: real): (s: seq<nat>)
    requires head < |boxes| && InRange(rest, |boxes|)
    ensures |s| <= |rest| && InRange(s, |boxes|)
    ensures forall i :: i in s ==> i in rest && Iou(boxes[head], boxes[i]) <= threshold
    ensures forall i :: i in rest && Iou(boxes[head], boxes[i]) <= threshold ==> i in s
  {
    if rest == [] then []
    else (if Iou(boxes[head], boxes[rest[0]]) <= threshold then [rest[0]] else [])
         + Survivors(boxes, head, rest[1..], threshold)
  }

  /** Indices kept by greedy suppression, visiting candidates in the given order. */
  function NmsOrder(boxes: seq<Box>, order: seq<nat>, threshold: real): (r: seq<nat>)
    requires InRange(order, |boxes|)
    ensures |r| <= |order| && InRange(r, |boxes|)
    ensures forall k :: k in r ==> k in order
    ensures order != [] ==> |r| > 0 && r[0] == order[0]
    decreases |order|
  {
    if order == [] then []
    else [order[0]] + NmsOrder(boxes, Survivors(boxes, order[0], order[1..], threshold), threshold)
  }

  lemma {:induction false} SurvivorsDistinct(boxes: seq<Box>, head: nat, rest: seq<nat>, threshold: real)
    requires head < |boxes| && InRange(rest, |boxes|) && Distinct(rest)
    ensures Distinct(Survivors(boxes, head, rest, threshold))
  {
    if rest != [] {
      assert Distinct(rest[1..]);
      SurvivorsDistinct(boxes, head, rest[1..], threshold);
      if Iou(boxes[head], boxes[rest[0]]) <= threshold {
        assert rest[0] !in rest[1..];
        DistinctCons(rest[0], Survivors(boxes, head, rest[1..], threshold));
      }
    }
  }

  lemma {:induction false} SurvivorsDescending(boxes: seq<Box>, head: nat, rest: seq<nat>, threshold: real, conf: seq<real>)
    requires head < |boxes| && InRange(rest, |boxes|) && InRange(rest, |conf|) && Descending(rest, conf)
    ensures InRange(Survivors(boxes, head, rest, threshold), |conf|)
    ensures Descending(Survivors(boxes, head, rest, threshold), conf)
  {
    if rest != [] {
      assert Descending(rest[1..], conf);
      SurvivorsDescending(boxes, head, rest[1..], threshold, conf);
      if Iou(boxes[head], boxes[rest[0]]) <= threshold {
        var tail := Survivors(boxes, head, rest[1..], threshold);
        forall y | y in tail ensures conf[rest[0]] >= conf[y] {
          var q :| 0 <= q < |rest[1..]| && rest[1..][q] == y;
          assert rest[q + 1] == y;
        }
        DescendingCons(rest[0], tail, conf);
      }
    }
  }

  /** From distinct candidates greedy suppression keeps distinct indices. */
  lemma {:induction false} NmsDistinct(boxes: seq<Box>, order: seq<nat>, threshold: real)
    requires InRange(order, |boxes|) && Distinct(order)
    ensures Distinct(NmsOrder(boxes, order, threshold))
    decreases |order|
  {
    if order != [] {
      var s := Survivors(boxes, order[0], order[1..], threshold);
      assert Distinct(order[1..]);
      SurvivorsDistinct(boxes, order[0], order[1..], threshold);
      NmsDistinct(boxes, s, threshold);
      assert order[0] !in order[1..];
      DistinctCons(order[0], NmsOrder(boxes, s, threshold));
    }
  }

  /** Kept indices come out by non-increasing confidence when the candidates did. */
  lemma {:induction false} NmsDescending(boxes: seq<Box>, order: seq<nat>, threshold: real, conf: seq<real>)
    requires InRange(order, |boxes|) && InRange(order, |conf|) && Descending(order, conf)
    ensures InRange(NmsOrder(boxes, order, threshold), |conf|)
    ensures Descending(NmsOrder(boxes, order, threshold), conf)
    decreases |order|
  {
    if order != [] {
      var s := Survivors(boxes, order[0], order[1..], threshold);
      assert Descending(order[1..], conf);
      SurvivorsDescending(boxes, order[0], order[1..], threshold, conf);
      NmsDescending(boxes, s, threshold, conf);
      var tail := NmsOrder(boxes, s, threshold);
      forall y | y in tail ensures conf[order[0]] >= conf[y] {
        var q :| 0 <= q < |order[1..]| && order[1..][q] == y;
        assert order[q + 1] == y;
      }
      DescendingCons(order[0], tail, conf);
    }
  }

  /** No two kept boxes overlap by more than the threshold (in either argument order). */
  lemma {:induction false} NmsNoOverlap(boxes: seq<Box>, order: seq<nat>, threshold: real)
    requires InRange(order, |boxes|)
    ensures forall k, m :: k in NmsOrder(boxes, order, threshold) && m in NmsOrder(boxes, order, threshold) && k != m ==>
      Iou(boxes[k], boxes[m]) <= threshold
    decreases |order|
  {
    if order != [] {
      var h := order[0];
      var s := Survivors(boxes, h, order[1..], threshold);
      NmsNoOverlap(boxes, s, threshold);
      var tail := NmsOrder(boxes, s, threshold);
      var r := NmsOrder(boxes, order, threshold);
      assert r == [h] + tail;
      forall k, m | k in r && m in r && k != m
        ensures Iou(boxes[k], boxes[m]) <= threshold
      {
        if k != h && m != h {
          assert k in tail && m in tail;
        } else if k == h {
          assert m in tail && m in s;
        } else {
          assert k in tail && k in s;
          IouSymmetric(boxes[k], boxes[h]);
        }
      }
    }
  }

  /**
   * Every candidate is either kept or overlaps, by more than the threshold,
   * some kept box that is at least as confident.
   */
  lemma {:induction false} NmsCoversDropped(boxes: seq<Box>, order: seq<nat>, threshold: real, conf: seq<real>)
    requires InRange(order, |boxes|) && InRange(order, |conf|) && Descending(order, conf)
    ensures forall j :: j in order ==>
      (j in NmsOrder(boxes, order, threshold) ||
       exists k :: k in NmsOrder(boxes, order, threshold) && Iou(boxes[k], boxes[j]) > threshold && conf[k] >= conf[j])
    decreases |order|
  {
    if order != [] {
      var h := order[0];
      var s := Survivors(boxes, h, order[1..], threshold);
      assert Descending(order[1..], conf);
      SurvivorsDescending(boxes, h, order[1..], threshold, conf);
      NmsCoversDropped(boxes, s, threshold, conf);
      var r := NmsOrder(boxes, order, threshold);
      var tail := NmsOrder(boxes, s, threshold);
      assert r == [h] + tail;
      forall j | j in order
        ensures j in r || exists k :: k in r && Iou(boxes[k], boxes[j]) > threshold && conf[k] >= conf[j]
      {
        if j != h {
          var q :| 0 <= q < |order| && order[q] == j;
          if Iou(boxes[h], boxes[j]) > threshold {
            assert conf[order[0]] >= conf[order[q]];
            assert h in r;
          } else {
            assert j in order[1..] by { assert order[1..][q - 1] == j; }
            assert j in s;
            if j !in tail {
              var k :| k in tail && Iou(boxes[k], boxes[j]) > threshold && conf[k] >= conf[j];
              assert k in r;
            }
          }
        }
      }
    }
  }

  // ---------------------------------------------------------------------
  // The server's entry point over predictions

  function Boxes(predictions: seq<Prediction>): (b: seq<Box>)
    ensures |b| == |predictions| && forall i :: 0 <= i < |b| ==> b[i] == Corners(predictions[i])
  {
    seq(|predictions|, i requires 0 <= i < |predictions| => Corners(predictions[i]))
  }

  function Confidences(predictions: seq<Prediction>): (c: seq<real>)
    ensures |c| == |predictions| && forall i :: 0 <= i < |c| ==> c[i] == predictions[i].confidence
  {
    seq(|predictions|, i requires 0 <= i < |predictions| => predictions[i].confidence)
  }

  /**
   * What a descending argsort of the confidences may return: every index
   * exactly once, by non-increasing confidence (ties in any order).
   */
  ghost predicate ConfidenceOrder(predictions: seq<Prediction>, order: seq<nat>)
  {
    && |order| == |predictions| && InRange(order, |predictions|) && Distinct(order)
    && (forall i :: 0 <= i < |predictions| ==> i in order)
    && Descending(order, Confidences(predictions))
  }

  /** `order` with `i` inserted at position `p`, described element by element. */
  ghost predicate InsertedAt(next: seq<nat>, order: seq<nat>, p: nat, i: nat)
  {
    && p <= |order| && |next| == |order| + 1
    && (forall q :: 0 <= q < p ==> next[q] == order[q])
    && next[p] == i
    && (forall q :: p < q < |next| ==> next[q] == order[q - 1])
  }

  lemma InsertedAtSplice(order: seq<nat>, p: nat, i: nat)
    requires p <= |order|
    ensures InsertedAt(order[..p] + [i] + order[p..], order, p, i)
  {
  }

  lemma InsertedKeepsMembers(next: seq<nat>, order: seq<nat>, p: nat, i: nat)
    requires InsertedAt(next, order, p, i)
    ensures forall k :: k in order ==> k in next
    ensures i in next
  {
    forall k | k in order ensures k in next {
      var q :| 0 <= q < |order| && order[q] == k;
      if q >= p { assert next[q + 1] == k; }
    }
  }

  lemma InsertedInRange(next: seq<nat>, order: seq<nat>, p: nat, i: nat)
    requires InsertedAt(next, order, p, i) && InRange(order, i)
    ensures InRange(next, i + 1)
  {
    forall q | 0 <= q < |next| ensures next[q] < i + 1 {
      if q > p { assert next[q] == order[q - 1]; }
    }
  }

  lemma InsertedDistinct(next: seq<nat>, order: seq<nat>, p: nat, i: nat)
    requires InsertedAt(next, order, p, i) && InRange(order, i) && Distinct(order)
    ensures Distinct(next)
  {
    forall a, b | 0 <= a < b < |next| ensures next[a] != next[b] {
      if a != p && b != p {
        var a', b' := if a < p then a else a - 1, if b < p then b else b - 1;
        assert next[a] == order[a'] && next[b] == order[b'] && a' < b';
      }
    }
  }

  lemma InsertedDescending(next: seq<nat>, order: seq<nat>, p: nat, i: nat, conf: seq<real>)
    requires InsertedAt(next, order, p, i) && i < |conf| && InRange(order, i) && Descending(order, conf)
    requires forall q :: 0 <= q < p ==> conf[order[q]] >= conf[i]
    requires p < |order| ==> conf[order[p]] < conf[i]
    ensures InRange(next, |conf|) && Descending(next, conf)
  {
    InsertedInRange(next, order, p, i);
    forall a, b | 0 <= a < b < |next| ensures conf[next[a]] >= conf[next[b]] {
      if a != p && b != p {
        var a', b' := if a < p then a else a - 1, if b < p then b else b - 1;
        assert next[a] == order[a'] && next[b] == order[b'] && a' < b';
      } else if a == p {
        assert next[b] == order[b - 1];
        assert conf[order[p]] >= conf[order[b - 1]];
      } else {
        assert next[a] == order[a];
      }
    }
  }

  /** Indices by non-increasing confidence, by insertion. */
  method SortByConfidence(predictions: seq<Prediction>) returns (order: seq<nat>)
    ensures ConfidenceOrder(predictions, order)
  {
    var conf := Confidences(predictions);
    order := [];
    var i := 0;
    while i < |predictions|
      invariant 0 <= i <= |predictions| && |order| == i
      invariant InRange(order, i) && Distinct(order) && Descending(order, conf)
      invariant forall k :: 0 <= k < i ==> k in order
    {
      var p := 0;
      while p < |order| && conf[order[p]] >= conf[i]
        invariant 0 <= p <= |order|
        invariant forall q :: 0 <= q < p ==> conf[order[q]] >= conf[i]
      {
        p := p + 1;
      }
      var next := order[..p] + [i] + order[p..];
      InsertedAtSplice(order, p, i);
      InsertedKeepsMembers(next, order, p, i);
      InsertedInRange(next, order, p, i);
      InsertedDistinct(next, order, p, i);
      InsertedDescending(next, order, p, i, conf);
      order := next;
      i := i + 1;
    }
  }

  /** The predictions at the given indices, in that order. */
  function Pick(predictions: seq<Prediction>, ix: seq<nat>): (r: seq<Prediction>)
    requires InRange(ix, |predictions|)
    ensures |r| == |ix| && forall k :: 0 <= k < |r| ==> r[k] == predictions[ix[k]]
  {
    seq(|ix|, k requires 0 <= k < |ix| => predictions[ix[k]])
  }

  /** Kept predictions, most confident first. */
  ghost predicate ByConfidence(kept: seq<Prediction>)
  {
    forall i, j :: 0 <= i < j < |kept| ==> kept[i].confidence >= kept[j].confidence
  }

  /** No two kept predictions overlap by more than the threshold. */
  ghost predicate NoHeavyOverlap(kept: seq<Prediction>, threshold: real)
  {
    forall i, j :: 0 <= i < |kept| && 0 <= j < |kept| && i != j ==>
      Iou(Corners(kept[i]), Corners(kept[j])) <= threshold
  }

  /** Every input prediction is kept or suppressed by a kept one at least as confident. */
  ghost predicate Covered(predictions: seq<Prediction>, kept: seq<Prediction>, threshold: real)
  {
    forall j :: 0 <= j < |predictions| ==>
      (predictions[j] in kept ||
       exists t :: 0 <= t < |kept| && Iou(Corners(kept[t]), Corners(predictions[j])) > threshold &&
                   kept[t].confidence >= predictions[j].confidence)
  }

  /** One round of the loop: the kept prefix grows by the head, the candidates shrink to its survivors. */
  lemma SuppressionStep(boxes: seq<Box>, keep: seq<nat>, sorted: seq<nat>, threshold: real)
    requires InRange(sorted, |boxes|) && sorted != []
    ensures keep + NmsOrder(boxes, sorted, threshold)
         == (keep + [sorted[0]]) + NmsOrder(boxes, Survivors(boxes, sorted[0], sorted[1..], threshold), threshold)
    ensures |sorted| == 1 ==> keep + NmsOrder(boxes, sorted, threshold) == keep + [sorted[0]]
  {
    var rest := NmsOrder(boxes, Survivors(boxes, sorted[0], sorted[1..], threshold), threshold);
    assert NmsOrder(boxes, sorted, threshold) == [sorted[0]] + rest;
    assert keep + ([sorted[0]] + rest) == (keep + [sorted[0]]) + rest;
    if |sorted| == 1 {
      assert Survivors(boxes, sorted[0], sorted[1..], threshold) == [];
    }
  }

  /**
   * The suppression loop: take the most confident remaining candidate, keep
   * it, and drop the remaining candidates that overlap it by more than the
   * threshold.
   */
  method SuppressionLoop(boxes: seq<Box>, order: seq<nat>, iouThreshold: real) returns (keep: seq<nat>)
    requires InRange(order, |boxes|)
    ensures keep == NmsOrder(boxes, order, iouThreshold)
  {
    var sorted := order;
    keep := [];
    while |sorted| > 0
      invariant InRange(sorted, |boxes|)
      invariant keep + NmsOrder(boxes, sorted, iouThreshold) == NmsOrder(boxes, order, iouThreshold)
      decreases |sorted|
    {
      var current := sorted[0];
      SuppressionStep(boxes, keep, sorted, iouThreshold);
      keep := keep + [current];
      if |sorted| == 1 {
        break;
      }
      sorted := Survivors(boxes, current, sorted[1..], iouThreshold);
    }
  }

  /**
   * Greedy suppression over predictions visited in `order` (a descending
   * argsort of the confidences). The result lists unmodified input
   * predictions, most confident first, pairwise overlapping by at most the
   * threshold, and every dropped prediction is covered by a kept one.
   */
  method ApplyNms(predictions: seq<Prediction>, iouThreshold: real, order: seq<nat>) returns (kept: seq<Prediction>)
    requires ConfidenceOrder(predictions, order)
    ensures kept == Pick(predictions, NmsOrder(Boxes(predictions), order, iouThreshold))
    ensures |kept| == 0 <==> |predictions| == 0
    ensures ByConfidence(kept) && NoHeavyOverlap(kept, iouThreshold) && Covered(predictions, kept, iouThreshold)
    ensures |kept| > 0 ==> forall p :: p in predictions ==> kept[0].confidence >= p.confidence
  {
    NmsProperties(predictions, iouThreshold, order);
    if |predictions| == 0 {
      return [];
    }
    var boxes := Boxes(predictions);
    var keep := SuppressionLoop(boxes, order, iouThreshold);
    kept := Pick(predictions, keep);
  }

  ghost predicate NmsGuarantees(predictions: seq<Prediction>, kept: seq<Prediction>, iouThreshold: real)
  {
      (|kept| == 0 <==> |predictions| == 0) &&
      ByConfidence(kept) && NoHeavyOverlap(kept, iouThreshold) && Covered(predictions, kept, iouThreshold) &&
      (|kept| > 0 ==> forall p :: p in predictions ==> kept[0].confidence >= p.confidence)
  }

  lemma NmsProperties(predictions: seq<Prediction>, iouThreshold: real, order: seq<nat>)
    requires ConfidenceOrder(predictions, order)
    ensures NmsGuarantees(predictions, Pick(predictions, NmsOrder(Boxes(predictions), order, iouThreshold)), iouThreshold)
  {
    NmsKeptByConfidence(predictions, iouThreshold, order);
    NmsKeptApart(predictions, iouThreshold, order);
    NmsKeptCovers(predictions, iouThreshold, order);
    NmsFirstIsMostConfident(predictions, iouThreshold, order);
  }

  lemma NmsKeptByConfidence(predictions: seq<Prediction>, iouThreshold: real, order: seq<nat>)
    requires ConfidenceOrder(predictions, order)
    ensures ByConfidence(Pick(predictions, NmsOrder(Boxes(predictions), order, iouThreshold)))
  {
    NmsDescending(Boxes(predictions), order, iouThreshold, Confidences(predictions));
  }

  lemma NmsKeptApart(predictions: seq<Prediction>, iouThreshold: real, order: seq<nat>)
    requires ConfidenceOrder(predictions, order)
    ensures NoHeavyOverlap(Pick(predictions, NmsOrder(Boxes(predictions), order, iouThreshold)), iouThreshold)
  {
    var ks := NmsOrder(Boxes(predictions), order, iouThreshold);
    var kept := Pick(predictions, ks);
    NmsDistinct(Boxes(predictions), order, iouThreshold);
    NmsNoOverlap(Boxes(predictions), order, iouThreshold);
    forall i, j | 0 <= i < |kept| && 0 <= j < |kept| && i != j
      ensures Iou(Corners(kept[i]), Corners(kept[j])) <= iouThreshold
    {
      assert ks[i] in ks && ks[j] in ks && ks[i] != ks[j];
    }
  }

  /** Coverage of one input prediction at index level carries over to the predictions picked at those indices. */
  lemma NmsCoversOne(predictions: seq<Prediction>, iouThreshold: real, ks: seq<nat>, j: nat)
    requires InRange(ks, |predictions|) && j < |predictions|
    requires j in ks || exists k :: k in ks && Iou(Boxes(predictions)[k], Boxes(predictions)[j]) > iouThreshold &&
                                    Confidences(predictions)[k] >= Confidences(predictions)[j]
    ensures var kept := Pick(predictions, ks);
      predictions[j] in kept ||
      exists t :: 0 <= t < |kept| && Iou(Corners(kept[t]), Corners(predictions[j])) > iouThreshold &&
                  kept[t].confidence >= predictions[j].confidence
  {
    var boxes, conf := Boxes(predictions), Confidences(predictions);
    var kept := Pick(predictions, ks);
    if j in ks {
      var t :| 0 <= t < |ks| && ks[t] == j;
      assert kept[t] == predictions[j];
    } else {
      var k :| k in ks && Iou(boxes[k], boxes[j]) > iouThreshold && conf[k] >= conf[j];
      var t :| 0 <= t < |ks| && ks[t] == k;
      assert kept[t] == predictions[k];
    }
  }

  lemma NmsKeptCovers(predictions: seq<Prediction>, iouThreshold: real, order: seq<nat>)
    requires ConfidenceOrder(predictions, order)
    ensures Covered(predictions, Pick(predictions, NmsOrder(Boxes(predictions), order, iouThreshold)), iouThreshold)
  {
    NmsCoversDropped(Boxes(predictions), order, iouThreshold, Confidences(predictions));
    forall j | 0 <= j < |predictions|
      ensures var kept := Pick(predictions, NmsOrder(Boxes(predictions), order, iouThreshold));
        predictions[j] in kept ||
        exists t :: 0 <= t < |kept| && Iou(Corners(kept[t]), Corners(predictions[j])) > iouThreshold &&
                    kept[t].confidence >= predictions[j].confidence
    {
      assert j in order;
      NmsCoversOne(predictions, iouThreshold, NmsOrder(Boxes(predictions), order, iouThreshold), j);
    }
  }

  lemma NmsFirstIsMostConfident(predictions: seq<Prediction>, iouThreshold: real, order: seq<nat>)
    requires ConfidenceOrder(predictions, order)
    ensures var kept := Pick(predictions, NmsOrder(Boxes(predictions), order, iouThreshold));
      (|kept| == 0 <==> |predictions| == 0) &&
      (|kept| > 0 ==> forall p :: p in predictions ==> kept[0].confidence >= p.confidence)
  {
    var conf := Confidences(predictions);
    var ks := NmsOrder(Boxes(predictions), order, iouThreshold);
    if |predictions| > 0 {
      assert 0 in order;
      forall p | p in predictions ensures predictions[ks[0]].confidence >= p.confidence {
        var j :| 0 <= j < |predictions| && predictions[j] == p;
        assert j in order;
        var q :| 0 <= q < |order| && order[q] == j;
        if q > 0 {
          assert conf[order[0]] >= conf[order[q]];
        }
      }
    }
  }
}
