/** Overlap of face boxes (IOU and match_bbox_iou of BaiduFaceManager.cpp), over the reals. */
module BoxOverlap {

  datatype Rect = Rect(left: real, top: real, width: real, height: real)

  predicate Positive(b: Rect) {
    b.width > 0.0 && b.height > 0.0
  }

  function Min(a: real, b: real): real {
    if b < a then b else a
  }

  function Max(a: real, b: real): real {
    if a < b then b else a
  }

  /** The length of the intersection of [a, a + m] and [b, b + n]; negative when they are apart. */
  function Common(a: real, m: real, b: real, n: real): real {
    Min(a + m, b + n) - Max(a, b)
  }

  function Area(w: real, h: real): real {
    h * w
  }

  lemma AreaGrows(w: real, h: real, m: real, n: real)
    requires 0.0 < w <= m && 0.0 < h <= n
    ensures 0.0 < Area(w, h) <= Area(m, n)
    ensures Area(w, h) == Area(m, n) <==> w == m && h == n
  {
    assert h * w <= h * m <= n * m;
    if w < m {
      assert h * w < h * m;
    }
    if h < n {
      assert h * m < n * m;
    }
  }

  function Iou(b1: Rect, b2: Rect): real {
    var w := Common(b1.left, b1.width, b2.left, b2.width);
    var h := Common(b1.top, b1.height, b2.top, b2.height);
    if w <= 0.0 || h <= 0.0 then 0.0
    else
      AreaGrows(w, h, b1.width, b1.height);
      AreaGrows(w, h, b2.width, b2.height);
      OverUnion(Area(w, h), Area(b1.width, b1.height), Area(b2.width, b2.height))
  }

  /** The common area over the area of the union. */
  function OverUnion(common: real, area1: real, area2: real): (q: real)
    requires 0.0 < common <= area1 && common <= area2
    ensures 0.0 < q <= 1.0
    ensures q == 1.0 <==> common == area1 == area2
  {
    QuotientOfAreas(common, area1, area2);
    common / (area1 + area2 - common)
  }

  lemma QuotientOfAreas(common: real, area1: real, area2: real)
    requires 0.0 < common <= area1 && common <= area2
    ensures 0.0 < common / (area1 + area2 - common) <= 1.0
    ensures common / (area1 + area2 - common) == 1.0 <==> common == area1 == area2
  {
    var union := area1 + area2 - common;
    var q := common / union;
    assert q * union == common;
    assert q > 1.0 ==> q * union > union;
    assert q <= 0.0 ==> q * union <= 0.0;
  }

  /** The overlap of boxes that share inner points, w and h being the sides of their intersection. */
  lemma IouOfOverlapping(b1: Rect, b2: Rect, w: real, h: real)
    requires w == Common(b1.left, b1.width, b2.left, b2.width) > 0.0
    requires h == Common(b1.top, b1.height, b2.top, b2.height) > 0.0
    ensures 0.0 < Iou(b1, b2) <= 1.0
    ensures Iou(b1, b2) == 1.0 <==> w == b1.width == b2.width && h == b1.height == b2.height
  {
    RatioOfSides(w, h, b1.width, b1.height, b2.width, b2.height);
  }

  lemma RatioOfSides(w: real, h: real, w1: real, h1: real, w2: real, h2: real)
    requires 0.0 < w <= w1 && w <= w2 && 0.0 < h <= h1 && h <= h2
    ensures 0.0 < Area(w, h) <= Area(w1, h1) && Area(w, h) <= Area(w2, h2)
    ensures 0.0 < OverUnion(Area(w, h), Area(w1, h1), Area(w2, h2)) <= 1.0
    ensures OverUnion(Area(w, h), Area(w1, h1), Area(w2, h2)) == 1.0 <==> w == w1 == w2 && h == h1 == h2
  {
    AreaGrows(w, h, w1, h1);
    AreaGrows(w, h, w2, h2);
  }

  lemma IouSymmetric(b1: Rect, b2: Rect)
    ensures Iou(b1, b2) == Iou(b2, b1)
  {
    assert Common(b1.left, b1.width, b2.left, b2.width) == Common(b2.left, b2.width, b1.left, b1.width);
    assert Common(b1.top, b1.height, b2.top, b2.height) == Common(b2.top, b2.height, b1.top, b1.height);
  }

  /** The overlap of any two boxes is symmetric, lies between 0 and 1, is positive exactly when the boxes share an inner
      point and 1 exactly when they are the same box and its sides are positive. */
  lemma IouLaws(b1: Rect, b2: Rect)
    ensures Iou(b1, b2) == Iou(b2, b1)
    ensures 0.0 <= Iou(b1, b2) <= 1.0
    ensures Iou(b1, b2) == 1.0 <==> b1 == b2 && Positive(b1)
    ensures Iou(b1, b2) > 0.0 <==> exists x, y :: Inside(b1, x, y) && Inside(b2, x, y)
  {
    IouSymmetric(b1, b2);
    var w := Common(b1.left, b1.width, b2.left, b2.width);
    var h := Common(b1.top, b1.height, b2.top, b2.height);
    if w > 0.0 && h > 0.0 {
      IouOfOverlapping(b1, b2, w, h);
      var x, y := Max(b1.left, b2.left) + w / 2.0, Max(b1.top, b2.top) + h / 2.0;
      assert Inside(b1, x, y) && Inside(b2, x, y);
    } else {
      forall x, y ensures !(Inside(b1, x, y) && Inside(b2, x, y)) {
      }
    }
  }

  ghost predicate Inside(b: Rect, x: real, y: real) {
    b.left < x < b.left + b.width && b.top < y < b.top + b.height
  }

  /** The box that two boxes have in common; a side is not positive when they are apart. */
  function Intersection(b1: Rect, b2: Rect): Rect {
    Rect(Max(b1.left, b2.left), Max(b1.top, b2.top), Common(b1.left, b1.width, b2.left, b2.width),
         Common(b1.top, b1.height, b2.top, b2.height))
  }

  lemma CommonSide(a: real, m: real, b: real, n: real, x: real)
    ensures
      Max(a, b) < x < Max(a, b) + Common(a, m, b, n) <==> a < x < a + m && b < x < b + n
  {
  }

  lemma InsideBoth(b1: Rect, b2: Rect, x: real, y: real)
    ensures Inside(Intersection(b1, b2), x, y) <==> Inside(b1, x, y) && Inside(b2, x, y)
  {
    CommonSide(b1.left, b1.width, b2.left, b2.width, x);
    CommonSide(b1.top, b1.height, b2.top, b2.height, y);
  }

  /** The overlap is the area of the common box over the area of the two boxes together, the common part counted once; and
      0 when there is no common box. */
  lemma IouIsAreaRatio(b1: Rect, b2: Rect)
    ensures
      var c := Intersection(b1, b2);
      && (forall x, y :: Inside(c, x, y) <==> Inside(b1, x, y) && Inside(b2, x, y))
      && if Positive(c) then
           var common := c.width * c.height;
           Iou(b1, b2) * (b1.width * b1.height + b2.width * b2.height - common) == common
         else Iou(b1, b2) == 0.0
  {
    forall x, y ensures Inside(Intersection(b1, b2), x, y) <==> Inside(b1, x, y) && Inside(b2, x, y) {
      InsideBoth(b1, b2, x, y);
    }
    IouTimesUnion(b1, b2);
  }

  lemma IouTimesUnion(b1: Rect, b2: Rect)
    ensures
      var c := Intersection(b1, b2);
      if Positive(c) then
        var common := c.width * c.height;
        Iou(b1, b2) * (b1.width * b1.height + b2.width * b2.height - common) == common
      else Iou(b1, b2) == 0.0
  {
    var c := Intersection(b1, b2);
    if Positive(c) {
      RatioOfAreas(c.width, c.height, b1.width, b1.height, b2.width, b2.height);
    }
  }

  lemma RatioOfAreas(w: real, h: real, w1: real, h1: real, w2: real, h2: real)
    requires 0.0 < w <= w1 && w <= w2 && 0.0 < h <= h1 && h <= h2
    ensures 0.0 < Area(w, h) <= Area(w1, h1) && Area(w, h) <= Area(w2, h2)
    ensures OverUnion(Area(w, h), Area(w1, h1), Area(w2, h2)) * (w1 * h1 + w2 * h2 - w * h) == w * h
  {
    AreaGrows(w, h, w1, h1);
    AreaGrows(w, h, w2, h2);
    RatioTimesUnion(Area(w, h), Area(w1, h1), Area(w2, h2));
  }

  lemma RatioTimesUnion(common: real, area1: real, area2: real)
    requires 0.0 < common <= area1 && common <= area2
    ensures OverUnion(common, area1, area2) * (area1 + area2 - common) == common
  {
    var union := area1 + area2 - common;
    assert common / union * union == common;
  }

  /** The first box whose overlap with the target is above the threshold, or -1. */
  method MatchBboxIou(bboxList: seq<Rect>, target: Rect, iouThr: real) returns (index: int)
    ensures -1 <= index < |bboxList|
    ensures index >= 0 ==> Iou(bboxList[index], target) > iouThr
    ensures forall j | 0 <= j < (if index < 0 then |bboxList| else index) :: Iou(bboxList[j], target) <= iouThr
  {
    var i := 0;
    while i < |bboxList|
      invariant 0 <= i <= |bboxList|
      invariant forall j | 0 <= j < i :: Iou(bboxList[j], target) <= iouThr
    {
      var value := Iou(bboxList[i], target);
      if value > iouThr {
        return i;
      }
      i := i + 1;
    }
    return -1;
  }
}
