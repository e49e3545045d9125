/** The overlap of rectangles, and what its area has to do with their points. */
module Rectangles {
  import opened DescendingSort

  function Min(a: real, b: real): real { if a < b then a else b }

  function Max(a: real, b: real): real { if a < b then b else a }

  function Area(r: Rect): real { r.width * r.height }

  function IntersectionArea(a: Rect, b: Rect): real {
    var w := Min(a.x + a.width, b.x + b.width) - Max(a.x, b.x);
    var h := Min(a.y + a.height, b.y + b.height) - Max(a.y, b.y);
    if w <= 0.0 || h <= 0.0 then 0.0 else w * h
  }

  function UnionArea(a: Rect, b: Rect): real { Area(a) + Area(b) - IntersectionArea(a, b) }

  /** A rectangle as the detector makes them. */
  predicate HasExtent(r: Rect) { r.width >= 0.0 && r.height >= 0.0 }

  lemma ProductGrows(a: real, b: real, c: real, d: real)
    requires 0.0 <= a <= c && 0.0 <= b <= d
    ensures 0.0 <= a * b <= c * d
  {
    assert a * (d - b) >= 0.0 && (c - a) * d >= 0.0;
  }

  lemma IntersectionWithin(a: Rect, b: Rect)
    requires HasExtent(a) && HasExtent(b)
    ensures 0.0 <= IntersectionArea(a, b) <= Area(a)
  {
    var w := Min(a.x + a.width, b.x + b.width) - Max(a.x, b.x);
    var h := Min(a.y + a.height, b.y + b.height) - Max(a.y, b.y);
    ProductGrows(Max(w, 0.0), Max(h, 0.0), a.width, a.height);
  }

  // ---------- points ----------

  /** The point lies in the rectangle or on its border. */
  predicate Has(r: Rect, x: real, y: real) {
    r.x <= x <= r.x + r.width && r.y <= y <= r.y + r.height
  }

  predicate HasInside(r: Rect, x: real, y: real) {
    r.x < x < r.x + r.width && r.y < y < r.y + r.height
  }

  lemma SidesMultiply(w: real, h: real)
    requires w > 0.0 && h > 0.0
    ensures w * h > 0.0
  {
  }

  lemma PositiveIfShared(a: Rect, b: Rect, x: real, y: real)
    requires HasInside(a, x, y) && HasInside(b, x, y)
    ensures IntersectionArea(a, b) > 0.0
  {
    var w := Min(a.x + a.width, b.x + b.width) - Max(a.x, b.x);
    var h := Min(a.y + a.height, b.y + b.height) - Max(a.y, b.y);
    assert w > 0.0 && h > 0.0;
    SidesMultiply(w, h);
  }

  lemma SharedIfPositive(a: Rect, b: Rect) returns (x: real, y: real)
    requires IntersectionArea(a, b) > 0.0
    ensures HasInside(a, x, y) && HasInside(b, x, y)
  {
    x := (Max(a.x, b.x) + Min(a.x + a.width, b.x + b.width)) / 2.0;
    y := (Max(a.y, b.y) + Min(a.y + a.height, b.y + b.height)) / 2.0;
  }

  /** The area is positive exactly if the rectangles share a point inside both. */
  lemma PositiveIffShared(a: Rect, b: Rect)
    ensures IntersectionArea(a, b) > 0.0 <==> exists x, y :: HasInside(a, x, y) && HasInside(b, x, y)
  {
    if IntersectionArea(a, b) > 0.0 {
      var x, y := SharedIfPositive(a, b);
    } else {
      forall x, y | HasInside(a, x, y) ensures !HasInside(b, x, y) {
        if HasInside(b, x, y) {
          PositiveIfShared(a, b, x, y);
        }
      }
    }
  }

  /** r consists of exactly the points that a and b share. */
  ghost predicate IsIntersection(a: Rect, b: Rect, r: Rect) {
    HasExtent(r) && forall x, y :: Has(r, x, y) <==> Has(a, x, y) && Has(b, x, y)
  }

  /** The only rectangle that has exactly the shared points has this position and these
      sides. */
  lemma IntersectionIs(a: Rect, b: Rect, r: Rect)
    requires HasExtent(a) && HasExtent(b) && IsIntersection(a, b, r)
    ensures r.x == Max(a.x, b.x) && r.x + r.width == Min(a.x + a.width, b.x + b.width)
    ensures r.y == Max(a.y, b.y) && r.y + r.height == Min(a.y + a.height, b.y + b.height)
  {
    assert Has(r, r.x, r.y) && Has(r, r.x + r.width, r.y + r.height);
    assert Has(a, r.x, r.y) && Has(b, r.x, r.y);
    assert Has(a, r.x + r.width, r.y + r.height) && Has(b, r.x + r.width, r.y + r.height);
    var x0, x1 := Max(a.x, b.x), Min(a.x + a.width, b.x + b.width);
    var y0, y1 := Max(a.y, b.y), Min(a.y + a.height, b.y + b.height);
    assert Has(r, x0, y0) && Has(r, x1, y1);
  }

  /** The area is that of the rectangle of the shared points, or zero if they share none. */
  lemma AreaOfIntersection(a: Rect, b: Rect)
    requires HasExtent(a) && HasExtent(b)
    ensures forall r :: IsIntersection(a, b, r) ==> IntersectionArea(a, b) == r.width * r.height
    ensures (exists x, y :: Has(a, x, y) && Has(b, x, y)) <==> exists r :: IsIntersection(a, b, r)
    ensures (forall x, y :: !(Has(a, x, y) && Has(b, x, y))) ==> IntersectionArea(a, b) == 0.0
  {
    var x0, x1 := Max(a.x, b.x), Min(a.x + a.width, b.x + b.width);
    var y0, y1 := Max(a.y, b.y), Min(a.y + a.height, b.y + b.height);
    forall r | IsIntersection(a, b, r) ensures IntersectionArea(a, b) == r.width * r.height {
      IntersectionIs(a, b, r);
      FlatIsEmpty(r.width, r.height);
    }
    if x, y :| Has(a, x, y) && Has(b, x, y) {
      var r := Rect(x0, y0, x1 - x0, y1 - y0);
      assert x0 <= x <= x1 && y0 <= y <= y1;
      forall u, v ensures Has(r, u, v) <==> Has(a, u, v) && Has(b, u, v) {
      }
      assert IsIntersection(a, b, r);
    }
    if r :| IsIntersection(a, b, r) {
      assert Has(r, r.x, r.y);
    }
    if x0 <= x1 && y0 <= y1 {
      assert Has(a, x0, y0) && Has(b, x0, y0);
    }
  }

  lemma FlatIsEmpty(w: real, h: real)
    requires w >= 0.0 && h >= 0.0
    ensures w <= 0.0 || h <= 0.0 ==> w * h == 0.0
  {
  }
}
