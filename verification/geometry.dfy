/** Axis-aligned rectangles and the overlap measure the placement search
    minimises (src/app/libs/utils/random.utils.ts, lines 1-20). */
module Geometry {

  /** A tile's bounding box in viewport pixel coordinates. */
  datatype Rect = Rect(x: real, y: real, width: real, height: real)

  function Max(a: real, b: real): real { if a >= b then a else b }

  function Min(a: real, b: real): real { if a <= b then a else b }

  /** The half-open intervals [a, a + aw) and [b, b + bw) share no point:
      one of them is empty, or one ends where or before the other begins. */
  predicate Separated(a: real, aw: real, b: real, bw: real)
  {
    aw <= 0.0 || bw <= 0.0 || a + aw <= b || b + bw <= a
  }

  /** The two rectangles share no interior point: they are apart on the x axis
      or on the y axis. */
  predicate Disjoint(r1: Rect, r2: Rect)
  {
    || Separated(r1.x, r1.width, r2.x, r2.width)
    || Separated(r1.y, r1.height, r2.y, r2.height)
  }

  /** Length of the common part of two intervals, clamped at zero. */
  function OverlapLength(a: real, aw: real, b: real, bw: real): (len: real)
    ensures len >= 0.0
    ensures len == 0.0 <==> Separated(a, aw, b, bw)
    ensures aw >= 0.0 ==> len <= aw
    ensures bw >= 0.0 ==> len <= bw
  {
    Max(0.0, Min(a + aw, b + bw) - Max(a, b))
  }

  /** The area two rectangles have in common; zero exactly when they are
      disjoint. */
  function OverlapArea(r1: Rect, r2: Rect): (area: real)
    ensures area >= 0.0
    ensures area == 0.0 <==> Disjoint(r1, r2)
  {
    var w := OverlapLength(r1.x, r1.width, r2.x, r2.width);
    var h := OverlapLength(r1.y, r1.height, r2.y, r2.height);
    ProductZero(w, h);
    w * h
  }

  lemma ProductZero(a: real, b: real)
    requires a >= 0.0 && b >= 0.0
    ensures a * b >= 0.0
    ensures a * b == 0.0 <==> a == 0.0 || b == 0.0
  {
    if a > 0.0 && b > 0.0 {
      assert a * b > 0.0;
    }
  }

  /** The overlap measure does not depend on the order of its arguments. */
  lemma OverlapSymmetric(r1: Rect, r2: Rect)
    ensures OverlapArea(r1, r2) == OverlapArea(r2, r1)
  {
    assert OverlapLength(r1.x, r1.width, r2.x, r2.width) == OverlapLength(r2.x, r2.width, r1.x, r1.width);
    assert OverlapLength(r1.y, r1.height, r2.y, r2.height) == OverlapLength(r2.y, r2.height, r1.y, r1.height);
  }

  /** A rectangle of non-negative size overlaps itself by its whole area. */
  lemma OverlapSelf(r: Rect)
    requires r.width >= 0.0 && r.height >= 0.0
    ensures OverlapArea(r, r) == r.width * r.height
  {
  }

  /** The common area never exceeds the area of either rectangle. */
  lemma OverlapBounded(r1: Rect, r2: Rect)
    requires r1.width >= 0.0 && r1.height >= 0.0
    ensures OverlapArea(r1, r2) <= r1.width * r1.height
  {
    var w := OverlapLength(r1.x, r1.width, r2.x, r2.width);
    var h := OverlapLength(r1.y, r1.height, r2.y, r2.height);
    assert OverlapArea(r1, r2) == w * h;
    ProductMonotone(w, h, r1.width, r1.height);
  }

  lemma ProductMonotone(a: real, b: real, c: real, d: real)
    requires 0.0 <= a <= c && 0.0 <= b <= d
    ensures a * b <= c * d
  {
    assert a * b <= c * b;
    assert c * b <= c * d;
  }

  /** Sum of the overlap areas of `tile` with each rectangle of `others`,
      taken in list order. */
  function TotalOverlap(tile: Rect, others: seq<Rect>): (total: real)
    ensures total >= 0.0
    ensures total == 0.0 <==> forall k :: 0 <= k < |others| ==> Disjoint(tile, others[k])
  {
    if others == [] then 0.0
    else
      var rest := TotalOverlap(tile, others[1..]);
      assert forall k :: 1 <= k < |others| ==> others[k] == others[1..][k - 1];
      OverlapArea(tile, others[0]) + rest
  }

  /** Splitting the list of rectangles splits the total. */
  lemma {:induction false} TotalOverlapAppend(tile: Rect, a: seq<Rect>, b: seq<Rect>)
    ensures TotalOverlap(tile, a + b) == TotalOverlap(tile, a) + TotalOverlap(tile, b)
    decreases |a|
  {
    if a == [] {
      assert a + b == b;
    } else {
      assert (a + b)[1..] == a[1..] + b;
      TotalOverlapAppend(tile, a[1..], b);
    }
  }

  /** Every individual overlap is at most the total. */
  lemma {:induction false} OverlapAtMostTotal(tile: Rect, others: seq<Rect>, k: nat)
    requires k < |others|
    ensures OverlapArea(tile, others[k]) <= TotalOverlap(tile, others)
    decreases k
  {
    if k > 0 {
      OverlapAtMostTotal(tile, others[1..], k - 1);
    }
  }
}
