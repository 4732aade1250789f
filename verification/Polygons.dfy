/** Planar geometry shared by the navmesh and the zone manifest: ray casting, the shoelace
    area and point-to-segment distance, over the reals. */
module Polygons {
  import opened Prelude

  datatype Point = Point(x: real, y: real)

  // Parity of the consecutive pairs of a path that satisfy `e`.
  function PathParity(path: seq<Point>, e: (Point, Point) -> bool): bool {
    if |path| < 2 then false
    else
      var n := |path| - 1;
      PathParity(path[..n], e) != e(path[n], path[n - 1])
  }

  // The vertices of a closed polygon as a path, starting from the last one.
  function Closed(polygon: seq<Point>): seq<Point> {
    if polygon == [] then [] else [polygon[|polygon| - 1]] + polygon
  }

  predicate Straddles(p: Point, a: Point, b: Point) {
    (a.y > p.y) != (b.y > p.y)
  }

  // The point a fraction `s` of the way from `a` to `b`.
  function Lerp(a: real, b: real, s: real): real {
    a + s * (b - a)
  }

  // Where the edge meets the horizontal line through the point.
  function MeetsAt(p: Point, a: Point, b: Point): real
    requires Straddles(p, a, b)
  {
    Lerp(b.x, a.x, (p.y - b.y) / (a.y - b.y))
  }

  // The ray from the point towards larger x crosses the edge.
  predicate Hits(p: Point, a: Point, b: Point) {
    Straddles(p, a, b) && p.x < MeetsAt(p, a, b)
  }

  function HitsFrom(p: Point): (Point, Point) -> bool {
    (a, b) => Hits(p, a, b)
  }

  function StraddlesLine(p: Point): (Point, Point) -> bool {
    (a, b) => Straddles(p, a, b)
  }

  // An odd number of edges is hit.
  predicate Inside(p: Point, polygon: seq<Point>) {
    PathParity(Closed(polygon), HitsFrom(p))
  }

  // The ray-casting loop, each vertex with the one before it.
  method PointInPolygon(p: Point, polygon: seq<Point>) returns (inside: bool)
    ensures inside == Inside(p, polygon)
  {
    hide Closed, PathParity, Hits, HitsFrom, MeetsAt;
    inside := false;
    var n := |polygon|;
    NothingHit(p, polygon);
    for i := 0 to n
      invariant inside == PathParity(Closed(polygon)[..if n == 0 then 0 else i + 1], HitsFrom(p))
    {
      var vi, vj := polygon[i], polygon[(i + n - 1) % n];
      Previous(i, n);
      ClosedAt(polygon);
      OneMoreEdge(Closed(polygon), i + 1, HitsFrom(p));
      HitsMeaning(p, vi, vj);
      var crosses := (vi.y > p.y) != (vj.y > p.y);
      if crosses {
        var xIntersect := MeetsAt(p, vi, vj);
        if p.x < xIntersect {
          inside := !inside;
        }
      }
    }
    if n > 0 {
      ClosedAt(polygon);
      assert Closed(polygon)[..n + 1] == Closed(polygon);
    }
  }

  lemma NothingHit(p: Point, polygon: seq<Point>)
    ensures !PathParity(Closed(polygon)[..0], HitsFrom(p))
    ensures polygon == [] ==> Closed(polygon) == Closed(polygon)[..0]
    ensures polygon != [] ==> |Closed(polygon)| == |polygon| + 1 && !PathParity(Closed(polygon)[..1], HitsFrom(p))
  {
  }

  lemma HitsMeaning(p: Point, a: Point, b: Point)
    ensures HitsFrom(p)(a, b) == Hits(p, a, b)
    ensures Straddles(p, a, b) == ((a.y > p.y) != (b.y > p.y))
    ensures Hits(p, a, b) <==> Straddles(p, a, b) && p.x < MeetsAt(p, a, b)
  {
    hide MeetsAt;
  }

  lemma OneMoreEdge(path: seq<Point>, i: nat, e: (Point, Point) -> bool)
    requires 0 < i < |path|
    ensures PathParity(path[..i + 1], e) == (PathParity(path[..i], e) != e(path[i], path[i - 1]))
  {
    assert path[..i + 1][..i] == path[..i];
  }

  lemma Previous(i: nat, n: nat)
    requires i < n
    ensures (i + n - 1) % n == if i == 0 then n - 1 else i - 1
  {
    if i > 0 {
      assert (i + n - 1) == n * 1 + (i - 1);
    }
  }

  // A path that shares its middle vertex with what follows.
  lemma {:induction false} ParityJoins(front: seq<Point>, v: Point, back: seq<Point>, e: (Point, Point) -> bool)
    ensures PathParity(front + [v] + back, e) == (PathParity(front + [v], e) != PathParity([v] + back, e))
  {
    if back == [] {
      assert front + [v] + back == front + [v];
    } else {
      var n := |back| - 1;
      var whole, tail := front + [v] + back, [v] + back;
      ParityJoins(front, v, back[..n], e);
      assert whole[..|whole| - 1] == front + [v] + back[..n];
      assert tail[..|tail| - 1] == [v] + back[..n];
      assert whole[|whole| - 2] == tail[|tail| - 2];
    }
  }

  // The answer does not depend on which vertex is listed first.
  lemma RotationInvariant(p: Point, front: seq<Point>, back: seq<Point>)
    ensures Inside(p, front + back) == Inside(p, back + front)
  {
    if front == [] || back == [] {
      assert front + back == back + front;
    } else {
      var toFront, f := front[..|front| - 1], front[|front| - 1];
      var toBack, b := back[..|back| - 1], back[|back| - 1];
      ClosedJoin(toFront, f, toBack, b);
      ClosedJoin(toBack, b, toFront, f);
      assert front == toFront + [f] && back == toBack + [b];
      ParityJoins([b] + toFront, f, back, HitsFrom(p));
      ParityJoins([f] + toBack, b, front, HitsFrom(p));
    }
  }

  lemma ClosedJoin(toFront: seq<Point>, f: Point, toBack: seq<Point>, b: Point)
    ensures Closed((toFront + [f]) + (toBack + [b])) == ([b] + toFront) + [f] + (toBack + [b])
    ensures ([b] + toFront) + [f] == [b] + (toFront + [f])
  {
    var whole := (toFront + [f]) + (toBack + [b]);
    assert whole[|whole| - 1] == b;
    assert [b] + whole == ([b] + toFront) + [f] + (toBack + [b]);
  }

  function Reverse<T>(path: seq<T>): (r: seq<T>)
    ensures |r| == |path|
    ensures forall i :: 0 <= i < |path| ==> r[i] == path[|path| - 1 - i]
  {
    seq(|path|, i requires 0 <= i < |path| => path[|path| - 1 - i])
  }

  lemma {:induction false} ParityReversed(path: seq<Point>, e: (Point, Point) -> bool)
    requires forall a, b :: e(a, b) == e(b, a)
    ensures PathParity(Reverse(path), e) == PathParity(path, e)
  {
    hide Reverse;
    if |path| >= 2 {
      var n := |path| - 1;
      var rest := Reverse(path[..n]);
      ParityReversed(path[..n], e);
      ReversedStep(path);
      ParityJoins([path[n]], rest[0], rest[1..], e);
      var two := [path[n]] + [rest[0]];
      assert two[..1] == [path[n]];
    }
  }

  // The two ends of an edge are interchangeable.
  lemma HitsSymmetric(p: Point, a: Point, b: Point)
    ensures Hits(p, a, b) == Hits(p, b, a)
  {
    hide Lerp;
    if Straddles(p, a, b) {
      var t, u := (p.y - b.y) / (a.y - b.y), (p.y - a.y) / (b.y - a.y);
      Complement(p.y, a.y, b.y);
      SameMeeting(t, u, a.x, b.x);
      assert MeetsAt(p, a, b) == Lerp(b.x, a.x, t) == Lerp(a.x, b.x, u) == MeetsAt(p, b, a);
    }
  }

  lemma Complement(y: real, a: real, b: real)
    requires a != b
    ensures (y - b) / (a - b) + (y - a) / (b - a) == 1.0
  {
    var t, u := (y - b) / (a - b), (y - a) / (b - a);
    assert t * (a - b) == y - b && u * (b - a) == y - a;
    assert (t + u) * (a - b) == t * (a - b) - u * (b - a);
    assert (t + u - 1.0) * (a - b) == 0.0;
  }

  lemma SameMeeting(t: real, u: real, ax: real, bx: real)
    requires t + u == 1.0
    ensures Lerp(bx, ax, t) == Lerp(ax, bx, u)
  {
    assert u == 1.0 - t;
  }

  // Nor does it depend on the winding.
  lemma ReversalInvariant(p: Point, polygon: seq<Point>)
    ensures Inside(p, Reverse(polygon)) == Inside(p, polygon)
  {
    if polygon != [] {
      forall a, b ensures HitsFrom(p)(a, b) == HitsFrom(p)(b, a) {
        HitsSymmetric(p, a, b);
      }
      var first, rest := polygon[0], polygon[1..];
      // Reversing a closed path closes the reversed polygon, up to where it starts.
      RotationInvariant(p, [first], rest);
      assert [first] + rest == polygon;
      ParityReversed(Closed(rest + [first]), HitsFrom(p));
      ReversedClosed(first, rest);
    }
  }

  lemma ReversedClosed(first: Point, rest: seq<Point>)
    ensures Reverse(Closed(rest + [first])) == Closed(Reverse([first] + rest))
  {
    hide Reverse, Closed;
    var n := |rest| + 1;
    ClosedAt(rest + [first]);
    ClosedAt(Reverse([first] + rest));
    var left, right := Reverse(Closed(rest + [first])), Closed(Reverse([first] + rest));
    assert |left| == |right| == n + 1;
    forall i | 0 <= i <= n ensures left[i] == right[i] {
    }
  }

  lemma ClosedAt(polygon: seq<Point>)
    requires polygon != []
    ensures |Closed(polygon)| == |polygon| + 1
    ensures forall i :: 0 <= i <= |polygon| ==> Closed(polygon)[i] == polygon[if i == 0 then |polygon| - 1 else i - 1]
  {
  }

  // A path crosses a horizontal line an odd number of times exactly when it ends on the
  // other side of it; a closed one crosses it an even number of times.
  lemma {:induction false} CrossingsAreSides(path: seq<Point>, p: Point)
    requires path != []
    ensures PathParity(path, StraddlesLine(p)) == Straddles(p, path[0], path[|path| - 1])
  {
    if |path| >= 2 {
      CrossingsAreSides(path[..|path| - 1], p);
    }
  }

  lemma {:induction false} SameParity(path: seq<Point>, e: (Point, Point) -> bool, f: (Point, Point) -> bool)
    requires forall a, b :: a in path && b in path ==> e(a, b) == f(a, b)
    ensures PathParity(path, e) == PathParity(path, f)
  {
    if |path| >= 2 {
      var n := |path| - 1;
      assert forall a :: a in path[..n] ==> a in path;
      SameParity(path[..n], e, f);
    }
  }

  lemma MeetsBetween(p: Point, a: Point, b: Point)
    requires Straddles(p, a, b)
    ensures a.x <= MeetsAt(p, a, b) <= b.x || b.x <= MeetsAt(p, a, b) <= a.x
  {
    hide Lerp;
    Fraction(p.y - b.y, a.y - b.y);
    Between(b.x, a.x, (p.y - b.y) / (a.y - b.y));
  }

  lemma Fraction(u: real, v: real)
    requires v != 0.0 && (0.0 <= u <= v || v <= u <= 0.0)
    ensures 0.0 <= u / v <= 1.0
  {
    assert u / v * v == u;
  }

  lemma Between(from: real, to: real, t: real)
    requires 0.0 <= t <= 1.0
    ensures from <= Lerp(from, to, t) <= to || to <= Lerp(from, to, t) <= from
  {
    var d := to - from;
    if d >= 0.0 {
      SameSign(t, d);
      SameSign(1.0 - t, d);
    } else {
      SameSign(t, -d);
      SameSign(1.0 - t, -d);
    }
  }

  // Only points of the half-open bounding box can be inside.
  lemma InsideWithinBox(p: Point, polygon: seq<Point>)
    requires Inside(p, polygon)
    ensures (exists v :: v in polygon && v.x <= p.x) && (exists v :: v in polygon && p.x < v.x)
    ensures (exists v :: v in polygon && v.y <= p.y) && (exists v :: v in polygon && p.y < v.y)
  {
    hide MeetsAt;
    var path := Closed(polygon);
    assert forall v :: v in path <==> v in polygon;
    var none := (a: Point, b: Point) => false;
    NeverOdd(path);
    if forall v :: v in polygon ==> v.x > p.x {
      forall a, b | a in path && b in path ensures HitsFrom(p)(a, b) == StraddlesLine(p)(a, b) {
        if Straddles(p, a, b) { MeetsBetween(p, a, b); }
      }
      SameParity(path, HitsFrom(p), StraddlesLine(p));
      CrossingsAreSides(path, p);
    }
    if forall v :: v in polygon ==> v.x <= p.x {
      forall a, b | a in path && b in path ensures !HitsFrom(p)(a, b) {
        if Straddles(p, a, b) { MeetsBetween(p, a, b); }
      }
      SameParity(path, HitsFrom(p), none);
    }
    if (forall v :: v in polygon ==> v.y > p.y) || (forall v :: v in polygon ==> v.y <= p.y) {
      SameParity(path, HitsFrom(p), none);
    }
  }

  lemma {:induction false} NeverOdd(path: seq<Point>)
    ensures !PathParity(path, (a, b) => false)
  {
    if |path| >= 2 {
      NeverOdd(path[..|path| - 1]);
    }
  }

  function Cross(v: Point, w: Point): real {
    v.x * w.y - w.x * v.y
  }

  lemma CrossFlips(v: Point, w: Point)
    ensures Cross(w, v) == -Cross(v, w)
  {
  }

  // Twice the signed area under a path, by the shoelace formula.
  function Shoelace(path: seq<Point>): real {
    if |path| < 2 then 0.0
    else
      var n := |path| - 1;
      Shoelace(path[..n]) + Cross(path[n - 1], path[n])
  }

  // The vertices with the first one again at the end.
  function Looped<T>(polygon: seq<T>): seq<T> {
    if polygon == [] then [] else polygon + [polygon[0]]
  }

  function SignedArea(polygon: seq<Point>): real {
    Shoelace(Looped(polygon)) / 2.0
  }

  lemma {:induction false} ShoelaceJoins(front: seq<Point>, v: Point, back: seq<Point>)
    ensures Shoelace(front + [v] + back) == Shoelace(front + [v]) + Shoelace([v] + back)
  {
    hide Cross;
    if back == [] {
      assert front + [v] + back == front + [v];
    } else {
      var n := |back| - 1;
      var whole, tail := front + [v] + back, [v] + back;
      ShoelaceJoins(front, v, back[..n]);
      assert whole[..|whole| - 1] == front + [v] + back[..n];
      assert tail[..|tail| - 1] == [v] + back[..n];
      assert whole[|whole| - 2] == tail[|tail| - 2];
    }
  }

  lemma LoopedJoin<T>(front: seq<T>, back: seq<T>)
    requires front != [] && back != []
    ensures Looped(front + back) == front + [back[0]] + (back[1..] + [front[0]])
    ensures [back[0]] + (back[1..] + [front[0]]) == back + [front[0]]
  {
    assert (front + back)[0] == front[0];
    assert [back[0]] + back[1..] == back;
  }

  // The area does not depend on the starting vertex, and changes sign with the winding.
  lemma AreaRotated(front: seq<Point>, back: seq<Point>)
    ensures SignedArea(front + back) == SignedArea(back + front)
  {
    if front == [] || back == [] {
      assert front + back == back + front;
    } else {
      hide Shoelace, Looped;
      LoopedJoin(front, back);
      LoopedJoin(back, front);
      ShoelaceJoins(front, back[0], back[1..] + [front[0]]);
      ShoelaceJoins(back, front[0], front[1..] + [back[0]]);
    }
  }

  lemma ReversedStep(path: seq<Point>)
    requires |path| >= 2
    ensures var n := |path| - 1;
            var rest := Reverse(path[..n]);
            && rest == [rest[0]] + rest[1..] && rest[0] == path[n - 1]
            && Reverse(path) == [path[n]] + [rest[0]] + rest[1..]
  {
    var n := |path| - 1;
    var rest := Reverse(path[..n]);
    hide Reverse;
    assert Reverse(path) == [path[n]] + rest;
    assert rest == [rest[0]] + rest[1..];
    assert [path[n]] + rest == [path[n]] + [rest[0]] + rest[1..];
  }

  lemma ShoelaceOfTwo(v: Point, w: Point)
    ensures Shoelace([v] + [w]) == Cross(v, w)
  {
    hide Cross;
    var two := [v] + [w];
    assert two[..1] == [v];
  }

  lemma {:induction false} ShoelaceReversed(path: seq<Point>)
    ensures Shoelace(Reverse(path)) == -Shoelace(path)
  {
    hide Cross, Reverse;
    if |path| >= 2 {
      var n := |path| - 1;
      var rest := Reverse(path[..n]);
      ShoelaceReversed(path[..n]);
      ReversedStep(path);
      ShoelaceJoins([path[n]], rest[0], rest[1..]);
      ShoelaceOfTwo(path[n], rest[0]);
      CrossFlips(path[n - 1], path[n]);
    }
  }

  lemma AreaReversed(polygon: seq<Point>)
    ensures SignedArea(Reverse(polygon)) == -SignedArea(polygon)
  {
    if polygon != [] {
      hide Shoelace, Looped, Reverse;
      var n := |polygon| - 1;
      var front, last := polygon[..n], polygon[n];
      AreaRotated(front, [last]);
      assert front + [last] == polygon;
      ShoelaceReversed(Looped([last] + front));
      ReversedLoop(front, last);
    } else {
      assert Reverse(polygon) == [];
    }
  }

  lemma LoopedAt<T>(polygon: seq<T>)
    requires polygon != []
    ensures |Looped(polygon)| == |polygon| + 1
    ensures forall i :: 0 <= i <= |polygon| ==> Looped(polygon)[i] == polygon[if i == |polygon| then 0 else i]
  {
  }

  lemma ReversedLoop(front: seq<Point>, last: Point)
    ensures Reverse(Looped([last] + front)) == Looped(Reverse(front + [last]))
  {
    hide Reverse, Looped;
    LoopedAt([last] + front);
    LoopedAt(Reverse(front + [last]));
    var left, right := Reverse(Looped([last] + front)), Looped(Reverse(front + [last]));
    assert |left| == |right| == |front| + 2;
    forall i | 0 <= i < |left| ensures left[i] == right[i] {
    }
  }

  function Abs(r: real): real {
    if r < 0.0 then -r else r
  }

  lemma Next(i: nat, n: nat)
    requires i < n
    ensures (i + 1) % n == if i + 1 == n then 0 else i + 1
  {
  }

  method PolygonSignedArea(polygon: seq<Point>) returns (area: real)
    ensures area == SignedArea(polygon)
  {
    hide Cross;
    var n := |polygon|;
    area := 0.0;
    for i := 0 to n
      invariant area == Shoelace(Looped(polygon)[..if n == 0 then 0 else i + 1])
    {
      var v, w := polygon[i], polygon[(i + 1) % n];
      Next(i, n);
      assert Looped(polygon)[..i + 2][..i + 1] == Looped(polygon)[..i + 1];
      area := area + Cross(v, w);
    }
    assert n > 0 ==> Looped(polygon)[..n + 1] == Looped(polygon);
    area := area / 2.0;
  }

  function Square(u: real): real {
    u * u
  }

  lemma SquareSign(u: real)
    ensures Square(u) >= 0.0 && (Square(u) == 0.0 ==> u == 0.0)
  {
    if u != 0.0 {
      calc {
        Square(u);
        u * u;
      > { SameSign(u, u); }
        0.0;
      }
    }
  }

  function Times(u: real, v: real): real {
    u * v
  }

  // Squared distances stand for the source's distances: both are compared the same way.
  function DistanceSq(p: Point, q: Point): real {
    Square(p.x - q.x) + Square(p.y - q.y)
  }

  function Along(a: Point, b: Point, s: real): Point {
    Point(Lerp(a.x, b.x, s), Lerp(a.y, b.y, s))
  }

  function Clamp01(t: real): real {
    if t < 0.0 then 0.0 else if t > 1.0 then 1.0 else t
  }

  // How far along the segment the point projects, times the squared length.
  function Projection(p: Point, a: Point, b: Point): real {
    Times(p.x - a.x, b.x - a.x) + Times(p.y - a.y, b.y - a.y)
  }

  // Where on the segment its nearest point lies.
  function NearestAt(p: Point, a: Point, b: Point): real {
    var lengthSq := DistanceSq(b, a);
    if lengthSq > 0.0 then Clamp01(Projection(p, a, b) / lengthSq) else 0.0
  }

  function SegmentDistanceSq(p: Point, a: Point, b: Point): real {
    DistanceSq(p, Along(a, b, NearestAt(p, a, b)))
  }

  lemma SameSign(u: real, v: real)
    requires (u >= 0.0 && v >= 0.0) || (u <= 0.0 && v <= 0.0)
    ensures u * v >= 0.0
    ensures u != 0.0 && v != 0.0 ==> u * v > 0.0
  {
    if u < 0.0 && v < 0.0 {
      assert u * v == (-u) * (-v);
    }
  }

  function Parabola(c: real, d: real, l: real, s: real): real {
    c - 2.0 * s * d + s * s * l
  }

  // The squared distance to the point at `s` is a parabola in `s`.
  lemma AlongParabola(p: Point, a: Point, b: Point, s: real)
    ensures DistanceSq(p, Along(a, b, s)) == Parabola(DistanceSq(p, a), Projection(p, a, b), DistanceSq(b, a), s)
  {
    hide Parabola, Square, Lerp, Times;
    OneAxis(p.x, a.x, b.x, s);
    OneAxis(p.y, a.y, b.y, s);
    ParabolasAdd(Square(p.x - a.x), Times(p.x - a.x, b.x - a.x), Square(b.x - a.x),
                 Square(p.y - a.y), Times(p.y - a.y, b.y - a.y), Square(b.y - a.y), s);
  }

  lemma OneAxis(p: real, a: real, b: real, s: real)
    ensures Square(p - Lerp(a, b, s)) == Parabola(Square(p - a), Times(p - a, b - a), Square(b - a), s)
  {
    Expand(p - a, b - a, s);
    assert p - (a + s * (b - a)) == p - a - s * (b - a);
  }

  lemma Expand(u: real, d: real, s: real)
    ensures Square(u - s * d) == Parabola(Square(u), Times(u, d), Square(d), s)
  {
  }

  lemma ParabolasAdd(c: real, d: real, l: real, c': real, d': real, l': real, s: real)
    ensures Parabola(c, d, l, s) + Parabola(c', d', l', s) == Parabola(c + c', d + d', l + l', s)
  {
  }

  // The distance to a segment is the least distance to any of its points.
  lemma SegmentDistanceIsLeast(p: Point, a: Point, b: Point, s: real)
    requires 0.0 <= s <= 1.0
    ensures SegmentDistanceSq(p, a, b) <= DistanceSq(p, Along(a, b, s))
  {
    var c, d, l, t := DistanceSq(p, a), Projection(p, a, b), DistanceSq(b, a), NearestAt(p, a, b);
    if l > 0.0 {
      hide DistanceSq, Along, Parabola, Projection;
      AlongParabola(p, a, b, s);
      AlongParabola(p, a, b, t);
      assert t == Clamp01(d / l) by { NearestIsClamped(p, a, b); }
      BestOfParabola(c, d, l, s);
    } else {
      NoLength(p, a, b, s);
    }
  }

  lemma NearestIsClamped(p: Point, a: Point, b: Point)
    requires DistanceSq(b, a) > 0.0
    ensures NearestAt(p, a, b) == Clamp01(Projection(p, a, b) / DistanceSq(b, a))
  {
  }

  // A segment without length is its end point.
  lemma NoLength(p: Point, a: Point, b: Point, s: real)
    requires DistanceSq(b, a) <= 0.0
    ensures DistanceSq(p, Along(a, b, s)) == DistanceSq(p, Along(a, b, 0.0))
  {
    SquareSign(b.x - a.x);
    SquareSign(b.y - a.y);
    hide Square;
    assert b.x - a.x == 0.0 && b.y - a.y == 0.0;
    assert Along(a, b, s) == a == Along(a, b, 0.0);
  }

  lemma BestOfParabola(c: real, d: real, l: real, s: real)
    requires l > 0.0 && 0.0 <= s <= 1.0
    ensures Parabola(c, d, l, Clamp01(d / l)) <= Parabola(c, d, l, s)
  {
    var m := d / l;
    var t := Clamp01(m);
    assert m * l == d;
    SameSign(s - t, s + t - 2.0 * m);
    SameSign(l, (s - t) * (s + t - 2.0 * m));
    Difference(c, l, m, s, t);
  }

  lemma Difference(c: real, l: real, m: real, s: real, t: real)
    ensures Parabola(c, m * l, l, s) - Parabola(c, m * l, l, t) == l * ((s - t) * (s + t - 2.0 * m))
  {
  }

  // The least distance to an edge of the polygon; nothing for a polygon without vertices.
  function BoundaryDistanceSq(p: Point, path: seq<Point>): (d: Option<real>) {
    if |path| < 2 then None
    else
      var n := |path| - 1;
      var before, here := BoundaryDistanceSq(p, path[..n]), SegmentDistanceSq(p, path[n - 1], path[n]);
      Some(if before.Some? && before.value < here then before.value else here)
  }

  // The point at `s` of the path's edge `i` lies within the radius.
  predicate Touches(p: Point, path: seq<Point>, i: int, s: real, radiusSq: real)
    requires 0 < i < |path|
  {
    0.0 <= s <= 1.0 && DistanceSq(p, Along(path[i - 1], path[i], s)) <= radiusSq
  }

  // Some point of the boundary lies within the radius.
  ghost predicate NearBoundary(p: Point, path: seq<Point>, radiusSq: real) {
    exists i, s: real :: 0 < i < |path| && Touches(p, path, i, s, radiusSq)
  }

  lemma {:induction false} BoundaryDistanceMeaning(p: Point, path: seq<Point>, radiusSq: real)
    ensures BoundaryDistanceSq(p, path).Some? <==> |path| >= 2
    ensures NearBoundary(p, path, radiusSq)
       <==> BoundaryDistanceSq(p, path).Some? && BoundaryDistanceSq(p, path).value <= radiusSq
  {
    hide SegmentDistanceSq, DistanceSq, Along;
    if |path| >= 2 {
      var n := |path| - 1;
      BoundaryDistanceMeaning(p, path[..n], radiusSq);
      NearestAttained(p, path[n - 1], path[n]);
      if SegmentDistanceSq(p, path[n - 1], path[n]) <= radiusSq {
        assert Touches(p, path, n, NearestAt(p, path[n - 1], path[n]), radiusSq);
      }
      if NearBoundary(p, path, radiusSq) {
        var i, s: real :| 0 < i < |path| && Touches(p, path, i, s, radiusSq);
        SegmentDistanceIsLeast(p, path[i - 1], path[i], s);
        if i < n {
          assert Touches(p, path[..n], i, s, radiusSq);
        }
      }
      if NearBoundary(p, path[..n], radiusSq) {
        var i, s: real :| 0 < i < n && Touches(p, path[..n], i, s, radiusSq);
        assert Touches(p, path, i, s, radiusSq);
      }
    }
  }

  lemma NearestAttained(p: Point, a: Point, b: Point)
    ensures 0.0 <= NearestAt(p, a, b) <= 1.0
    ensures SegmentDistanceSq(p, a, b) == DistanceSq(p, Along(a, b, NearestAt(p, a, b)))
  {
  }
}
