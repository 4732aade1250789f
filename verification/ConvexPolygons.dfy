/** For the convex polygons a navmesh is made of, ray casting decides geometric containment:
    strictly inside every edge is inside, and strictly outside any edge is not. */
module ConvexPolygons {
  import opened Polygons

  // Twice the area of the triangle a, b, q: positive when q is to the left of the line a-b.
  function Left(a: Point, b: Point, q: Point): real {
    (b.x - a.x) * (q.y - a.y) - (q.x - a.x) * (b.y - a.y)
  }

  function Prev(i: nat, n: nat): (j: nat)
    requires i < n
    ensures j < n
  {
    if i == 0 then n - 1 else i - 1
  }

  // Counter-clockwise, and every other vertex strictly to the left of every edge.
  predicate StrictlyConvex(polygon: seq<Point>) {
    && |polygon| >= 3
    && forall i, k :: 0 <= i < |polygon| && 0 <= k < |polygon| && k != i && k != Prev(i, |polygon|) ==>
         Left(polygon[Prev(i, |polygon|)], polygon[i], polygon[k]) > 0.0
  }

  // Edge `i` runs to vertex `i` from the vertex before it.
  function Side(polygon: seq<Point>, i: nat, q: Point): real
    requires i < |polygon|
  {
    Left(polygon[Prev(i, |polygon|)], polygon[i], q)
  }

  predicate Crosses(polygon: seq<Point>, i: nat, p: Point)
    requires i < |polygon|
  {
    Straddles(p, polygon[i], polygon[Prev(i, |polygon|)])
  }

  // Edge `i` crosses the point's height on its way up.
  predicate Rises(polygon: seq<Point>, i: nat, p: Point)
    requires i < |polygon|
  {
    polygon[Prev(i, |polygon|)].y <= p.y < polygon[i].y
  }

  predicate Falls(polygon: seq<Point>, i: nat, p: Point)
    requires i < |polygon|
  {
    polygon[i].y <= p.y < polygon[Prev(i, |polygon|)].y
  }

  // Where edge `i` crosses the point's height.
  function CrossesAt(polygon: seq<Point>, i: nat, p: Point): real
    requires i < |polygon| && Crosses(polygon, i, p)
  {
    MeetsAt(p, polygon[i], polygon[Prev(i, |polygon|)])
  }

  predicate EdgeHit(polygon: seq<Point>, i: nat, p: Point)
    requires i < |polygon|
  {
    Hits(p, polygon[i], polygon[Prev(i, |polygon|)])
  }

  // The side of an edge, for points at the height at which the edge is crossed.
  lemma SideAtCrossing(polygon: seq<Point>, i: nat, p: Point, x: real)
    requires i < |polygon| && Crosses(polygon, i, p)
    ensures var a, b := polygon[Prev(i, |polygon|)], polygon[i];
            Side(polygon, i, Point(x, p.y)) == Times(CrossesAt(polygon, i, p) - x, b.y - a.y)
  {
    var a, b := polygon[Prev(i, |polygon|)], polygon[i];
    OnCrossing(a, b, p.y, x);
  }

  lemma OnCrossing(a: Point, b: Point, y: real, x: real)
    requires a.y != b.y
    ensures Left(a, b, Point(x, y)) == Times(Lerp(a.x, b.x, (y - a.y) / (b.y - a.y)) - x, b.y - a.y)
  {
    var t := (y - a.y) / (b.y - a.y);
    assert t * (b.y - a.y) == y - a.y;
    Factor(b.x - a.x, t, b.y - a.y, x - a.x);
  }

  lemma Factor(d: real, t: real, h: real, u: real)
    ensures d * (t * h) - u * h == (t * d - u) * h
  {
  }

  // Sides are affine along a horizontal line.
  lemma SideBetween(a: Point, b: Point, y: real, x0: real, x1: real, x: real)
    requires x0 <= x <= x1 || x1 <= x <= x0
    ensures Left(a, b, Point(x0, y)) >= 0.0 && Left(a, b, Point(x1, y)) >= 0.0 ==> Left(a, b, Point(x, y)) >= 0.0
  {
    var h := b.y - a.y;
    assert Left(a, b, Point(x0, y)) - Left(a, b, Point(x, y)) == (x - x0) * h;
    assert Left(a, b, Point(x1, y)) - Left(a, b, Point(x, y)) == (x - x1) * h;
    if h >= 0.0 {
      if x <= x0 { SameSign(x0 - x, h); } else { SameSign(x1 - x, h); }
    } else {
      if x >= x0 { SameSign(x - x0, -h); } else { SameSign(x - x1, -h); }
    }
  }

  // And along a segment: a point between two left points is left.
  lemma SideAlong(a: Point, b: Point, q: Point, r: Point, t: real)
    requires 0.0 <= t <= 1.0 && Left(a, b, q) >= 0.0 && Left(a, b, r) >= 0.0
    ensures Left(a, b, Along(q, r, t)) >= 0.0
    ensures Left(a, b, q) > 0.0 && Left(a, b, r) > 0.0 ==> Left(a, b, Along(q, r, t)) > 0.0
  {
    var s := 1.0 - t;
    SameSign(s, Left(a, b, q));
    SameSign(t, Left(a, b, r));
    LeftIsAffine(a, b, q, r, t);
  }

  lemma LeftIsAffine(a: Point, b: Point, q: Point, r: Point, t: real)
    ensures Left(a, b, Along(q, r, t)) == (1.0 - t) * Left(a, b, q) + t * Left(a, b, r)
  {
  }

  lemma EndsOnEdge(a: Point, b: Point)
    ensures Left(a, b, a) == 0.0 && Left(a, b, b) == 0.0
  {
  }

  lemma VertexSide(polygon: seq<Point>, i: nat, k: nat)
    requires StrictlyConvex(polygon) && i < |polygon| && k < |polygon|
    ensures Side(polygon, i, polygon[k]) >= 0.0
    ensures k != i && k != Prev(i, |polygon|) ==> Side(polygon, i, polygon[k]) > 0.0
  {
    hide Left;
    EndsOnEdge(polygon[Prev(i, |polygon|)], polygon[i]);
  }

  // The crossing is a point of the edge.
  lemma CrossingOnEdge(polygon: seq<Point>, i: nat, p: Point)
    requires i < |polygon| && Crosses(polygon, i, p)
    ensures var a, b := polygon[Prev(i, |polygon|)], polygon[i];
            var t := (p.y - a.y) / (b.y - a.y);
            0.0 <= t <= 1.0 && Point(CrossesAt(polygon, i, p), p.y) == Along(a, b, t)
  {
    var a, b := polygon[Prev(i, |polygon|)], polygon[i];
    Fraction(p.y - a.y, b.y - a.y);
    assert (p.y - a.y) / (b.y - a.y) * (b.y - a.y) == p.y - a.y;
  }

  // Where one edge is crossed lies on the inner side of every other edge, strictly unless
  // they share a vertex.
  lemma CrossingSide(polygon: seq<Point>, i: nat, j: nat, p: Point)
    requires StrictlyConvex(polygon) && i < |polygon| && j < |polygon| && Crosses(polygon, j, p)
    ensures var q := Point(CrossesAt(polygon, j, p), p.y);
            var n := |polygon|;
            && Side(polygon, i, q) >= 0.0
            && (j != i && j != Prev(i, n) && Prev(j, n) != i && Prev(j, n) != Prev(i, n) ==> Side(polygon, i, q) > 0.0)
  {
    hide StrictlyConvex, Left, Along, MeetsAt;
    var n := |polygon|;
    VertexSide(polygon, i, j);
    VertexSide(polygon, i, Prev(j, n));
    CrossingOnEdge(polygon, j, p);
    var a, b := polygon[Prev(j, n)], polygon[j];
    SideAlong(polygon[Prev(i, n)], polygon[i], a, b, (p.y - a.y) / (b.y - a.y));
  }

  lemma FactorSign(u: real, v: real)
    requires Times(u, v) > 0.0
    ensures v > 0.0 ==> u > 0.0
    ensures v < 0.0 ==> u < 0.0
  {
    if u <= 0.0 && v > 0.0 { SameSign(-u, v); }
    if u >= 0.0 && v < 0.0 { SameSign(u, -v); }
  }

  lemma PrevInjective(i: nat, j: nat, n: nat)
    requires i < n && j < n && i != j
    ensures Prev(i, n) != Prev(j, n)
  {
  }

  // A strictly convex outline rises through a height at most once, and falls at most once.
  lemma RisesOnce(polygon: seq<Point>, i: nat, j: nat, p: Point)
    requires StrictlyConvex(polygon) && i < |polygon| && j < |polygon| && i != j
    ensures !(Rises(polygon, i, p) && Rises(polygon, j, p))
    ensures !(Falls(polygon, i, p) && Falls(polygon, j, p))
  {
    hide StrictlyConvex, Left, MeetsAt;
    PrevInjective(i, j, |polygon|);
    if (Rises(polygon, i, p) && Rises(polygon, j, p)) || (Falls(polygon, i, p) && Falls(polygon, j, p)) {
      var n := |polygon|;
      var x, x' := CrossesAt(polygon, i, p), CrossesAt(polygon, j, p);
      CrossingSide(polygon, i, j, p);
      CrossingSide(polygon, j, i, p);
      SideAtCrossing(polygon, i, p, x');
      SideAtCrossing(polygon, j, p, x);
      FactorSign(x - x', polygon[i].y - polygon[Prev(i, n)].y);
      FactorSign(x' - x, polygon[j].y - polygon[Prev(j, n)].y);
    }
  }

  // The parity of a path on which `e` holds nowhere, or at one edge.
  lemma {:induction false} ParityOfNone(path: seq<Point>, e: (Point, Point) -> bool)
    requires forall i :: 0 < i < |path| ==> !e(path[i], path[i - 1])
    ensures !PathParity(path, e)
  {
    if |path| >= 2 {
      ParityOfNone(path[..|path| - 1], e);
    }
  }

  lemma {:induction false} ParityOfOne(path: seq<Point>, e: (Point, Point) -> bool, k: int)
    requires 0 < k < |path| && e(path[k], path[k - 1])
    requires forall i :: 0 < i < |path| && i != k ==> !e(path[i], path[i - 1])
    ensures PathParity(path, e)
  {
    var n := |path| - 1;
    if k < n {
      ParityOfOne(path[..n], e, k);
    } else {
      ParityOfNone(path[..n], e);
    }
  }

  lemma {:induction false} ParityOfTwo(path: seq<Point>, e: (Point, Point) -> bool, k: int, m: int)
    requires 0 < k < m < |path| && e(path[k], path[k - 1]) && e(path[m], path[m - 1])
    requires forall i :: 0 < i < |path| && i != k && i != m ==> !e(path[i], path[i - 1])
    ensures !PathParity(path, e)
  {
    var n := |path| - 1;
    if m < n {
      ParityOfTwo(path[..n], e, k, m);
    } else {
      ParityOfOne(path[..n], e, k);
    }
  }

  // The edges of the closed path, by index.
  lemma ClosedEdges(polygon: seq<Point>, p: Point)
    requires polygon != []
    ensures var path := Closed(polygon);
            && |path| == |polygon| + 1
            && forall i :: 0 < i < |path| ==>
                 && HitsFrom(p)(path[i], path[i - 1]) == EdgeHit(polygon, i - 1, p)
                 && StraddlesLine(p)(path[i], path[i - 1]) == Crosses(polygon, i - 1, p)
  {
    hide Hits, Straddles;
  }

  // A closed outline never crosses a height just once.
  lemma NotCrossedOnce(polygon: seq<Point>, p: Point, k: nat)
    requires k < |polygon| && Crosses(polygon, k, p)
    ensures exists m :: 0 <= m < |polygon| && m != k && Crosses(polygon, m, p)
  {
    hide Crosses, Closed, PathParity, StraddlesLine;
    if forall m :: 0 <= m < |polygon| && m != k ==> !Crosses(polygon, m, p) {
      var path, e := Closed(polygon), StraddlesLine(p);
      ClosedEdges(polygon, p);
      forall i | 0 < i < |path| && i != k + 1 ensures !e(path[i], path[i - 1]) {
        assert e(path[i], path[i - 1]) == Crosses(polygon, i - 1, p);
      }
      assert e(path[k + 1], path[k]) == Crosses(polygon, k, p);
      ParityOfOne(path, e, k + 1);
      EvenCrossings(polygon, p);
    }
  }

  lemma EvenCrossings(polygon: seq<Point>, p: Point)
    requires polygon != []
    ensures !PathParity(Closed(polygon), StraddlesLine(p))
  {
    hide PathParity, StraddlesLine, Closed;
    ClosedAt(polygon);
    CrossingsAreSides(Closed(polygon), p);
  }

  // Through any height it crosses, it rises once and falls once.
  lemma OneRiseOneFall(polygon: seq<Point>, p: Point, k: nat) returns (rise: nat, fall: nat)
    requires StrictlyConvex(polygon) && k < |polygon| && Crosses(polygon, k, p)
    ensures rise < |polygon| && fall < |polygon| && rise != fall
    ensures Rises(polygon, rise, p) && Falls(polygon, fall, p)
    ensures forall i :: 0 <= i < |polygon| && Crosses(polygon, i, p) ==> i == rise || i == fall
  {
    hide StrictlyConvex;
    NotCrossedOnce(polygon, p, k);
    var m :| 0 <= m < |polygon| && m != k && Crosses(polygon, m, p);
    RisesOnce(polygon, k, m, p);
    rise, fall := if Rises(polygon, k, p) then k else m, if Rises(polygon, k, p) then m else k;
    forall i | 0 <= i < |polygon| && Crosses(polygon, i, p) ensures i == rise || i == fall {
      if i != rise && i != fall {
        RisesOnce(polygon, i, rise, p);
        RisesOnce(polygon, i, fall, p);
      }
    }
  }

  // The answer depends on the two crossings alone.
  lemma InsideByTwo(polygon: seq<Point>, p: Point, rise: nat, fall: nat)
    requires rise < |polygon| && fall < |polygon| && rise != fall
    requires forall i :: 0 <= i < |polygon| && Crosses(polygon, i, p) ==> i == rise || i == fall
    ensures Inside(p, polygon) == (EdgeHit(polygon, rise, p) != EdgeHit(polygon, fall, p))
  {
    hide Crosses, Closed, PathParity, HitsFrom, EdgeHit;
    var path, e := Closed(polygon), HitsFrom(p);
    ClosedEdges(polygon, p);
    forall i | 0 < i < |path| ensures e(path[i], path[i - 1]) == EdgeHit(polygon, i - 1, p)
                              ensures i - 1 != rise && i - 1 != fall ==> !e(path[i], path[i - 1])
    {
      HitCrosses(polygon, i - 1, p);
    }
    if EdgeHit(polygon, rise, p) && EdgeHit(polygon, fall, p) {
      ParityOfTwo(path, e, if rise < fall then rise + 1 else fall + 1, if rise < fall then fall + 1 else rise + 1);
    } else if EdgeHit(polygon, rise, p) {
      ParityOfOne(path, e, rise + 1);
    } else if EdgeHit(polygon, fall, p) {
      ParityOfOne(path, e, fall + 1);
    } else {
      ParityOfNone(path, e);
    }
  }

  lemma HitCrosses(polygon: seq<Point>, i: nat, p: Point)
    requires i < |polygon|
    ensures EdgeHit(polygon, i, p) <==> Crosses(polygon, i, p) && p.x < CrossesAt(polygon, i, p)
  {
    hide MeetsAt;
  }

  lemma UncrossedIsOutside(polygon: seq<Point>, p: Point)
    requires forall i :: 0 <= i < |polygon| ==> !Crosses(polygon, i, p)
    ensures !Inside(p, polygon)
  {
    hide Crosses, Closed, PathParity, HitsFrom, EdgeHit;
    if polygon != [] {
      var path, e := Closed(polygon), HitsFrom(p);
      ClosedEdges(polygon, p);
      forall i | 0 < i < |path| ensures !e(path[i], path[i - 1]) {
        assert e(path[i], path[i - 1]) == EdgeHit(polygon, i - 1, p);
        HitCrosses(polygon, i - 1, p);
      }
      ParityOfNone(path, e);
    } else {
      NothingHit(p, polygon);
    }
  }

  // A point strictly outside some edge is not inside.
  lemma InsideIsWithinEdges(polygon: seq<Point>, p: Point, i: nat)
    requires StrictlyConvex(polygon) && i < |polygon| && Inside(p, polygon)
    ensures Side(polygon, i, p) >= 0.0
  {
    hide StrictlyConvex, Inside, Left, EdgeHit, CrossesAt;
    if forall k :: 0 <= k < |polygon| ==> !Crosses(polygon, k, p) {
      UncrossedIsOutside(polygon, p);
    }
    var k :| 0 <= k < |polygon| && Crosses(polygon, k, p);
    var rise, fall := OneRiseOneFall(polygon, p, k);
    InsideByTwo(polygon, p, rise, fall);
    HitCrosses(polygon, rise, p);
    HitCrosses(polygon, fall, p);
    CrossingSide(polygon, i, rise, p);
    CrossingSide(polygon, i, fall, p);
    SideBetween(polygon[Prev(i, |polygon|)], polygon[i], p.y, CrossesAt(polygon, rise, p),
        CrossesAt(polygon, fall, p), p.x);
    assert p == Point(p.x, p.y);
  }

  // The side of an edge, seen from the point.
  lemma SideFromPoint(a: Point, b: Point, p: Point)
    ensures Left(a, b, p) == Times(a.x - p.x, b.y - p.y) - Times(b.x - p.x, a.y - p.y)
  {
  }

  function Slope(p: Point, v: Point): real
    requires v.y != p.y
  {
    (v.x - p.x) / (v.y - p.y)
  }

  // Turning left around the point without crossing its height, the slope only decreases.
  lemma SlopeDrops(a: Point, b: Point, p: Point)
    requires Left(a, b, p) > 0.0
    requires (a.y > p.y && b.y > p.y) || (a.y < p.y && b.y < p.y)
    ensures Slope(p, a) > Slope(p, b)
  {
    SideFromPoint(a, b, p);
    var u, v, h, k := a.x - p.x, b.x - p.x, a.y - p.y, b.y - p.y;
    var s, t := u / h, v / k;
    assert s * h == u && t * k == v;
    SlopeProduct(s, t, h, k);
    if h > 0.0 {
      SameSign(h, k);
    } else {
      SameSign(-h, -k);
      assert (-h) * (-k) == h * k;
    }
    FactorSign(s - t, h * k);
  }

  lemma SlopeProduct(s: real, t: real, h: real, k: real)
    ensures Times(s * h, k) - Times(t * k, h) == Times(s - t, h * k)
  {
  }

  lemma {:induction false} SameHeightSide(polygon: seq<Point>, p: Point, i: nat)
    requires i < |polygon| && forall k :: 0 <= k < |polygon| ==> !Crosses(polygon, k, p)
    ensures (polygon[i].y > p.y) == (polygon[0].y > p.y)
  {
    if i > 0 {
      SameHeightSide(polygon, p, i - 1);
      assert !Crosses(polygon, i, p);
    }
  }

  predicate Surrounded(polygon: seq<Point>, p: Point) {
    forall i :: 0 <= i < |polygon| ==> Side(polygon, i, p) > 0.0
  }

  // No vertex is level with a surrounded point whose height the outline does not cross.
  lemma NoLevelVertex(polygon: seq<Point>, p: Point, i: nat)
    requires |polygon| >= 3 && i < |polygon| && Surrounded(polygon, p)
    requires forall k :: 0 <= k < |polygon| ==> polygon[k].y <= p.y
    ensures polygon[i].y < p.y
  {
    hide Left;
    var n := |polygon|;
    var next := if i + 1 == n then 0 else i + 1;
    assert Prev(next, n) == i;
    assert Side(polygon, i, p) > 0.0 && Side(polygon, next, p) > 0.0;
    if polygon[i].y == p.y {
      SideFromPoint(polygon[Prev(i, n)], polygon[i], p);
      SideFromPoint(polygon[i], polygon[next], p);
      LevelTurn(polygon[i].x - p.x, polygon[Prev(i, n)].x - p.x, polygon[Prev(i, n)].y - p.y,
                polygon[next].x - p.x, polygon[next].y - p.y);
    }
  }

  lemma LevelTurn(x: real, before: real, h: real, after: real, k: real)
    requires h <= 0.0 && k <= 0.0
    ensures !(Times(before, 0.0) - Times(x, h) > 0.0 && Times(x, k) - Times(after, 0.0) > 0.0)
  {
    if x >= 0.0 {
      SameSign(x, -k);
      assert x * k == -(x * (-k));
    } else {
      SameSign(-x, -h);
      assert x * h == (-x) * (-h);
    }
  }

  lemma {:induction false} SlopesDrop(polygon: seq<Point>, p: Point, i: nat)
    requires 0 < i < |polygon| && Surrounded(polygon, p)
    requires (forall k :: 0 <= k < |polygon| ==> polygon[k].y > p.y)
          || (forall k :: 0 <= k < |polygon| ==> polygon[k].y < p.y)
    ensures Slope(p, polygon[0]) > Slope(p, polygon[i])
  {
    hide Left, Slope;
    assert Side(polygon, i, p) > 0.0;
    SlopeDrops(polygon[i - 1], polygon[i], p);
    if i > 1 {
      SlopesDrop(polygon, p, i - 1);
    }
  }

  lemma SurroundedIsCrossed(polygon: seq<Point>, p: Point)
    requires |polygon| >= 3 && Surrounded(polygon, p)
    ensures exists k :: 0 <= k < |polygon| && Crosses(polygon, k, p)
  {
    hide Left, Slope, Crosses;
    if forall k :: 0 <= k < |polygon| ==> !Crosses(polygon, k, p) {
      var n := |polygon|;
      forall i | 0 <= i < n ensures (polygon[i].y > p.y) == (polygon[0].y > p.y) {
        SameHeightSide(polygon, p, i);
      }
      if polygon[0].y <= p.y {
        forall i | 0 <= i < n ensures polygon[i].y < p.y {
          NoLevelVertex(polygon, p, i);
        }
      }
      SlopesDrop(polygon, p, n - 1);
      assert Side(polygon, 0, p) > 0.0;
      SlopeDrops(polygon[n - 1], polygon[0], p);
    }
  }

  // A point strictly to the left of every edge is inside.
  lemma SurroundedIsInside(polygon: seq<Point>, p: Point)
    requires StrictlyConvex(polygon) && Surrounded(polygon, p)
    ensures Inside(p, polygon)
  {
    hide StrictlyConvex, Inside, Left, EdgeHit, CrossesAt;
    assert |polygon| >= 3 by { ConvexHasThree(polygon); }
    SurroundedIsCrossed(polygon, p);
    var k :| 0 <= k < |polygon| && Crosses(polygon, k, p);
    var rise, fall := OneRiseOneFall(polygon, p, k);
    InsideByTwo(polygon, p, rise, fall);
    HitCrosses(polygon, rise, p);
    HitCrosses(polygon, fall, p);
    assert p == Point(p.x, p.y);
    assert Side(polygon, rise, p) > 0.0 && Side(polygon, fall, p) > 0.0;
    SideAtCrossing(polygon, rise, p, p.x);
    SideAtCrossing(polygon, fall, p, p.x);
    FactorSign(CrossesAt(polygon, rise, p) - p.x, polygon[rise].y - polygon[Prev(rise, |polygon|)].y);
    FactorSign(CrossesAt(polygon, fall, p) - p.x, polygon[fall].y - polygon[Prev(fall, |polygon|)].y);
  }

  lemma ConvexHasThree(polygon: seq<Point>)
    requires StrictlyConvex(polygon)
    ensures |polygon| >= 3
  {
  }

  // Every point is decided: a strictly convex outline contains exactly the points between its
  // fall and its rise through their height, the fall's side included and the rise's not.
  lemma InsideExactlyWhen(polygon: seq<Point>, p: Point)
    requires StrictlyConvex(polygon)
    ensures Inside(p, polygon)
       <==> exists rise, fall :: 0 <= rise < |polygon| && 0 <= fall < |polygon| && BetweenEdges(polygon, rise, fall, p)
  {
    hide StrictlyConvex, Inside, BetweenEdges;
    if forall k :: 0 <= k < |polygon| ==> !Crosses(polygon, k, p) {
      UncrossedIsOutside(polygon, p);
      forall rise, fall | 0 <= rise < |polygon| && 0 <= fall < |polygon| ensures !BetweenEdges(polygon, rise, fall, p) {
        BetweenCrosses(polygon, rise, fall, p);
      }
    } else {
      var k :| 0 <= k < |polygon| && Crosses(polygon, k, p);
      var rise, fall := OneRiseOneFall(polygon, p, k);
      InsideByTwo(polygon, p, rise, fall);
      HitsAreSides(polygon, rise, fall, p);
      forall i, j | 0 <= i < |polygon| && 0 <= j < |polygon| && BetweenEdges(polygon, i, j, p)
        ensures i == rise && j == fall
      {
        BetweenCrosses(polygon, i, j, p);
        if i != rise { RisesOnce(polygon, i, rise, p); }
        if j != fall { RisesOnce(polygon, j, fall, p); }
      }
    }
  }

  predicate BetweenEdges(polygon: seq<Point>, rise: nat, fall: nat, p: Point)
    requires rise < |polygon| && fall < |polygon|
  {
    && Rises(polygon, rise, p) && Falls(polygon, fall, p)
    && Side(polygon, rise, p) > 0.0 && Side(polygon, fall, p) >= 0.0
  }

  lemma BetweenCrosses(polygon: seq<Point>, rise: nat, fall: nat, p: Point)
    requires rise < |polygon| && fall < |polygon|
    ensures BetweenEdges(polygon, rise, fall, p) ==>
              Rises(polygon, rise, p) && Falls(polygon, fall, p) && Crosses(polygon, rise, p)
  {
  }

  lemma HitsAreSides(polygon: seq<Point>, rise: nat, fall: nat, p: Point)
    requires StrictlyConvex(polygon) && rise < |polygon| && fall < |polygon|
    requires Rises(polygon, rise, p) && Falls(polygon, fall, p)
    ensures (EdgeHit(polygon, rise, p) != EdgeHit(polygon, fall, p)) <==> BetweenEdges(polygon, rise, fall, p)
  {
    hide StrictlyConvex, Left, EdgeHit, MeetsAt;
    var n := |polygon|;
    HitCrosses(polygon, rise, p);
    HitCrosses(polygon, fall, p);
    assert p == Point(p.x, p.y);
    var up, down := CrossesAt(polygon, rise, p), CrossesAt(polygon, fall, p);
    SideAtCrossing(polygon, rise, p, p.x);
    SideAtCrossing(polygon, fall, p, p.x);
    SideAtCrossing(polygon, rise, p, down);
    CrossingSide(polygon, rise, fall, p);
    FactorSignExact(up - p.x, polygon[rise].y - polygon[Prev(rise, n)].y);
    FactorSignExact(down - p.x, polygon[fall].y - polygon[Prev(fall, n)].y);
    FactorSignExact(up - down, polygon[rise].y - polygon[Prev(rise, n)].y);
  }

  lemma FactorSignExact(u: real, v: real)
    ensures v > 0.0 ==> (Times(u, v) > 0.0 <==> u > 0.0) && (Times(u, v) >= 0.0 <==> u >= 0.0)
    ensures v < 0.0 ==> (Times(u, v) > 0.0 <==> u < 0.0) && (Times(u, v) >= 0.0 <==> u <= 0.0)
  {
    if v > 0.0 {
      PositiveFactor(u, v);
    } else if v < 0.0 {
      PositiveFactor(-u, -v);
      assert Times(-u, -v) == Times(u, v);
    }
  }

  lemma PositiveFactor(u: real, v: real)
    requires v > 0.0
    ensures (Times(u, v) > 0.0 <==> u > 0.0) && (Times(u, v) >= 0.0 <==> u >= 0.0)
  {
    if u > 0.0 {
      SameSign(u, v);
    } else if u < 0.0 {
      SameSign(-u, v);
      assert (-u) * v == -(u * v);
    }
  }

  // Listed in either direction, a strictly convex outline contains every point strictly
  // within all its edges and no point strictly outside one; the rest lie on an edge's line.
  lemma RayCastingIsContainment(polygon: seq<Point>, p: Point)
    requires StrictlyConvex(polygon) || StrictlyConvex(Reverse(polygon))
    ensures var outline := if StrictlyConvex(polygon) then polygon else Reverse(polygon);
            && (Surrounded(outline, p) ==> Inside(p, polygon))
            && (Inside(p, polygon) ==> forall i :: 0 <= i < |outline| ==> Side(outline, i, p) >= 0.0)
  {
    hide StrictlyConvex, Inside, Surrounded, Side, Reverse;
    var outline := if StrictlyConvex(polygon) then polygon else Reverse(polygon);
    ReversalInvariant(p, polygon);
    if Surrounded(outline, p) {
      SurroundedIsInside(outline, p);
    }
    if Inside(p, polygon) {
      forall i | 0 <= i < |outline| ensures Side(outline, i, p) >= 0.0 {
        InsideIsWithinEdges(outline, p, i);
      }
    }
  }
}
