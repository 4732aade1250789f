/** Outlines with extra vertices along their edges, as a mesh may list them: ray casting does
    not notice such a vertex, on any polygon. */
module Subdivision {
  import opened Polygons
  import opened ConvexPolygons

  ghost predicate OnSegment(b: Point, a: Point, c: Point) {
    exists t :: 0.0 <= t <= 1.0 && b == Along(a, c, t)
  }

  function Following(i: nat, n: nat): (j: nat)
    requires i < n
    ensures j < n
  {
    if i == n - 1 then 0 else i + 1
  }

  // The vertex lies on the segment between its neighbours.
  ghost predicate OnEdge(polygon: seq<Point>, i: nat)
    requires i < |polygon|
  {
    var n := |polygon|;
    OnSegment(polygon[i], polygon[Prev(i, n)], polygon[Following(i, n)])
  }

  function Without(polygon: seq<Point>, i: nat): seq<Point>
    requires i < |polygon|
  {
    polygon[..i] + polygon[i + 1..]
  }

  // A point a fraction of the way between two heights lies between them.
  lemma LevelBetween(a: real, c: real, t: real)
    requires 0.0 <= t <= 1.0
    ensures a <= Lerp(a, c, t) <= c || c <= Lerp(a, c, t) <= a
    ensures Lerp(a, c, t) - a == Times(t, c - a) && c - Lerp(a, c, t) == Times(1.0 - t, c - a)
  {
    Between(a, c, t);
    assert (1.0 - t) * (c - a) == (c - a) - t * (c - a);
  }

  lemma NonZeroProduct(k: real, d: real)
    requires k != 0.0 && d != 0.0
    ensures Times(k, d) != 0.0
  {
    assert k * d / d == k;
    assert 0.0 / d == 0.0;
  }

  lemma CancelFactor(x: real, d: real)
    requires d != 0.0 && Times(x, d) == 0.0
    ensures x == 0.0
  {
    assert x == x * d / d;
    assert 0.0 / d == 0.0;
  }

  lemma Quotient(y: real, u: real, d: real, k: real)
    requires d != 0.0 && k != 0.0 && y == Times(u, d)
    ensures Times(k, d) != 0.0
    ensures Times(y / Times(k, d), k) == u
  {
    NonZeroProduct(k, d);
    var q := y / Times(k, d);
    assert q * (k * d) == y;
    assert (q * k) * d == q * (k * d);
    assert (q * k - u) * d == (q * k) * d - u * d;
    CancelFactor(q * k - u, d);
  }

  // Where the first part of a split edge meets a height, the whole edge does.
  lemma FirstPartMeets(p: Point, a: Point, c: Point, t: real)
    requires 0.0 <= t <= 1.0 && Straddles(p, c, a) && Straddles(p, Along(a, c, t), a)
    ensures MeetsAt(p, Along(a, c, t), a) == MeetsAt(p, c, a)
  {
    var b := Along(a, c, t);
    var d, dx := c.y - a.y, c.x - a.x;
    LevelBetween(a.y, c.y, t);
    LevelBetween(a.x, c.x, t);
    var u := (p.y - a.y) / d;
    assert t != 0.0;
    assert p.y - a.y == Times(u, d);
    Quotient(p.y - a.y, u, d, t);
    var w := (p.y - a.y) / Times(t, d);
    assert MeetsAt(p, b, a) == Lerp(a.x, b.x, w) == a.x + w * Times(t, dx);
    assert w * (t * dx) == (w * t) * dx == u * dx;
    assert MeetsAt(p, c, a) == Lerp(a.x, c.x, u) == a.x + u * dx;
  }

  lemma SecondPartScalar(a: real, b: real, c: real, t: real, u: real, v: real)
    requires b == Lerp(a, c, t) && Times(v, 1.0 - t) == u - t
    ensures Lerp(b, c, v) == Lerp(a, c, u)
  {
    var d := c - a;
    assert c - b == (1.0 - t) * d;
    assert v * ((1.0 - t) * d) == (v * (1.0 - t)) * d == (u - t) * d == u * d - t * d;
  }

  lemma SecondPartMeets(p: Point, a: Point, c: Point, t: real)
    requires 0.0 <= t <= 1.0 && Straddles(p, c, a) && Straddles(p, c, Along(a, c, t))
    ensures MeetsAt(p, c, Along(a, c, t)) == MeetsAt(p, c, a)
  {
    var b := Along(a, c, t);
    var d := c.y - a.y;
    LevelBetween(a.y, c.y, t);
    var u := (p.y - a.y) / d;
    assert t != 1.0;
    assert p.y - a.y == Times(u, d);
    assert p.y - b.y == u * d - t * d == Times(u - t, d);
    Quotient(p.y - b.y, u - t, d, 1.0 - t);
    var v := (p.y - b.y) / Times(1.0 - t, d);
    assert MeetsAt(p, c, b) == Lerp(b.x, c.x, v);
    SecondPartScalar(a.x, b.x, c.x, t, u, v);
  }

  // A ray hits an edge exactly when it hits one of its two parts.
  lemma SplitEdge(p: Point, a: Point, b: Point, c: Point)
    requires OnSegment(b, a, c)
    ensures Hits(p, c, a) == (Hits(p, b, a) != Hits(p, c, b))
  {
    hide MeetsAt, Along;
    var t :| 0.0 <= t <= 1.0 && b == Along(a, c, t);
    BetweenHeights(a, b, c, t);
    if Straddles(p, c, a) {
      if Straddles(p, b, a) {
        FirstPartMeets(p, a, c, t);
      } else {
        SecondPartMeets(p, a, c, t);
      }
    }
  }

  lemma BetweenHeights(a: Point, b: Point, c: Point, t: real)
    requires 0.0 <= t <= 1.0 && b == Along(a, c, t)
    ensures a.y <= b.y <= c.y || c.y <= b.y <= a.y
  {
    LevelBetween(a.y, c.y, t);
  }

  lemma ParityOfThree(a: Point, b: Point, c: Point, e: (Point, Point) -> bool)
    ensures PathParity([a, c], e) == e(c, a) && PathParity([a, b, c], e) == (e(b, a) != e(c, b))
  {
    assert [a, b, c][..2] == [a, b] && [a, b][..1] == [a] && [a, c][..1] == [a];
    assert PathParity([a, b], e) == e(b, a);
  }

  lemma SplitPath(front: seq<Point>, a: Point, b: Point, c: Point, back: seq<Point>, e: (Point, Point) -> bool)
    requires e(c, a) == (e(b, a) != e(c, b))
    ensures PathParity(front + [a, b, c] + back, e) == PathParity(front + [a, c] + back, e)
  {
    hide PathParity;
    ParityOfThree(a, b, c, e);
    SplitStart(a, b, c, back, e);
    ParityJoins(front, a, [b, c] + back, e);
    ParityJoins(front, a, [c] + back, e);
    assert front + [a] + ([b, c] + back) == front + [a, b, c] + back;
    assert front + [a] + ([c] + back) == front + [a, c] + back;
  }

  lemma SplitStart(a: Point, b: Point, c: Point, back: seq<Point>, e: (Point, Point) -> bool)
    requires PathParity([a, b, c], e) == PathParity([a, c], e)
    ensures PathParity([a] + ([b, c] + back), e) == PathParity([a] + ([c] + back), e)
  {
    hide PathParity;
    ParityJoins([a, b], c, back, e);
    ParityJoins([a], c, back, e);
    assert [a] + ([b, c] + back) == [a, b] + [c] + back && [a] + ([c] + back) == [a] + [c] + back;
    assert [a, b] + [c] == [a, b, c] && [a] + [c] == [a, c];
  }

  // Dropping a vertex that lies on the segment between its neighbours changes nothing.
  lemma VertexOnEdgeDoesNotMatter(polygon: seq<Point>, i: nat, p: Point)
    requires |polygon| >= 2 && i < |polygon| && OnEdge(polygon, i)
    ensures Inside(p, Without(polygon, i)) == Inside(p, polygon)
  {
    hide OnSegment, PathParity, Closed;
    var n := |polygon|;
    var b := polygon[i];
    if i == n - 1 {
      RotationInvariant(p, polygon[..i], [b]);
      assert polygon[..i] + [b] == polygon;
      assert Without(polygon, i) == polygon[..i];
      FirstDoesNotMatter(b, polygon[..i], p);
    } else if i == 0 {
      assert polygon == [b] + polygon[1..];
      assert Without(polygon, 0) == polygon[1..];
      FirstDoesNotMatter(b, polygon[1..], p);
    } else {
      var a, c := polygon[i - 1], polygon[i + 1];
      SplitEdge(p, a, b, c);
      SplitPath([polygon[n - 1]] + polygon[..i - 1], a, b, c, polygon[i + 2..], HitsFrom(p));
      ClosedAround(polygon, i);
    }
  }

  lemma ClosedAround(polygon: seq<Point>, i: nat)
    requires 0 < i < |polygon| - 1
    ensures var front, back := [polygon[|polygon| - 1]] + polygon[..i - 1], polygon[i + 2..];
            && Closed(polygon) == front + [polygon[i - 1], polygon[i], polygon[i + 1]] + back
            && Closed(Without(polygon, i)) == front + [polygon[i - 1], polygon[i + 1]] + back
  {
    hide Closed;
    var n := |polygon|;
    var front, back := polygon[..i - 1], polygon[i + 2..];
    ClosedParts(front, [polygon[i - 1], polygon[i], polygon[i + 1]], back);
    ClosedParts(front, [polygon[i - 1], polygon[i + 1]], back);
    assert polygon == front + [polygon[i - 1], polygon[i], polygon[i + 1]] + back;
    assert Without(polygon, i) == front + [polygon[i - 1], polygon[i + 1]] + back;
    assert Without(polygon, i)[n - 2] == polygon[n - 1];
  }

  lemma ClosedParts(front: seq<Point>, middle: seq<Point>, back: seq<Point>)
    requires middle != []
    ensures var whole := front + middle + back;
            Closed(whole) == [whole[|whole| - 1]] + front + middle + back
  {
    var whole := front + middle + back;
    assert [whole[|whole| - 1]] + whole == [whole[|whole| - 1]] + front + middle + back;
  }

  lemma FirstDoesNotMatter(b: Point, rest: seq<Point>, p: Point)
    requires rest != [] && OnSegment(b, rest[|rest| - 1], rest[0])
    ensures Inside(p, [b] + rest) == Inside(p, rest)
  {
    hide OnSegment, PathParity, Closed;
    var a, c := rest[|rest| - 1], rest[0];
    SplitEdge(p, a, b, c);
    SplitPath([], a, b, c, rest[1..], HitsFrom(p));
    ClosedFirst(b, rest);
  }

  lemma ClosedFirst(b: Point, rest: seq<Point>)
    requires rest != []
    ensures Closed([b] + rest) == [] + [rest[|rest| - 1], b, rest[0]] + rest[1..]
    ensures Closed(rest) == [] + [rest[|rest| - 1], rest[0]] + rest[1..]
  {
    var a, c := rest[|rest| - 1], rest[0];
    assert ([b] + rest)[|rest|] == a;
    assert rest == [c] + rest[1..];
    assert [a] + ([b] + rest) == [a, b, c] + rest[1..];
    assert [a] + rest == [a, c] + rest[1..];
    assert [] + [a, b, c] == [a, b, c] && [] + [a, c] == [a, c];
  }

  // Vertices along edges, dropped one after another, leave the coarser outline.
  ghost predicate Subdivides(fine: seq<Point>, coarse: seq<Point>)
    decreases |fine|
  {
    fine == coarse
    || (|fine| >= 2 && exists i :: 0 <= i < |fine| && OnEdge(fine, i) && Subdivides(Without(fine, i), coarse))
  }

  // Any polygon contains the same points as any subdivision of it.
  lemma {:induction false} SubdivisionDoesNotMatter(fine: seq<Point>, coarse: seq<Point>, p: Point)
    requires Subdivides(fine, coarse)
    ensures Inside(p, fine) == Inside(p, coarse)
    decreases |fine|
  {
    hide Inside, OnEdge;
    if fine != coarse {
      var i :| 0 <= i < |fine| && OnEdge(fine, i) && Subdivides(Without(fine, i), coarse);
      VertexOnEdgeDoesNotMatter(fine, i, p);
      SubdivisionDoesNotMatter(Without(fine, i), coarse, p);
    }
  }

  // So every point is decided for a convex outline with vertices along its edges as well.
  lemma SubdividedInsideExactlyWhen(fine: seq<Point>, coarse: seq<Point>, p: Point)
    requires Subdivides(fine, coarse) && StrictlyConvex(coarse)
    ensures Inside(p, fine)
       <==> exists rise, fall :: 0 <= rise < |coarse| && 0 <= fall < |coarse| && BetweenEdges(coarse, rise, fall, p)
  {
    hide Inside, Subdivides, StrictlyConvex, BetweenEdges;
    SubdivisionDoesNotMatter(fine, coarse, p);
    InsideExactlyWhen(coarse, p);
  }
}
