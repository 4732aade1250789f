/** `navmesh_v1` floors: Newell normals, the height a floor has at a point, and which floor a
    point stands on. */
module NavMesh {
  import opened Prelude
  import opened Polygons

  datatype Point3 = Point3(x: real, y: real, z: real)

  const HEIGHT_TOLERANCE := 0.5
  const VERTICAL_NORMAL_EPSILON := 0.000000001

  // One edge's term of Newell's sum.
  function NewellEdge(v: Point3, w: Point3): Point3 {
    Point3((v.y - w.y) * (v.z + w.z), (v.z - w.z) * (v.x + w.x), (v.x - w.x) * (v.y + w.y))
  }

  function Plus(u: Point3, v: Point3): Point3 {
    Point3(u.x + v.x, u.y + v.y, u.z + v.z)
  }

  function Newell(path: seq<Point3>): Point3 {
    if |path| < 2 then Point3(0.0, 0.0, 0.0)
    else
      var n := |path| - 1;
      Plus(Newell(path[..n]), NewellEdge(path[n - 1], path[n]))
  }

  method Normal(vertices: seq<Point3>) returns (n: Point3)
    ensures n == Newell(Looped(vertices))
  {
    hide NewellEdge;
    var count := |vertices|;
    n := Point3(0.0, 0.0, 0.0);
    for i := 0 to count
      invariant n == Newell(Looped(vertices)[..if count == 0 then 0 else i + 1])
    {
      Next(i, count);
      var v, w := vertices[i], vertices[(i + 1) % count];
      assert Looped(vertices)[..i + 2][..i + 1] == Looped(vertices)[..i + 1];
      n := Plus(n, NewellEdge(v, w));
    }
    assert count > 0 ==> Looped(vertices)[..count + 1] == Looped(vertices);
  }

  function Flat(v: Point3): Point {
    Point(v.x, v.y)
  }

  function Project(path: seq<Point3>): (r: seq<Point>)
    ensures |r| == |path| && forall i :: 0 <= i < |path| ==> r[i] == Flat(path[i])
  {
    seq(|path|, i requires 0 <= i < |path| => Flat(path[i]))
  }

  function Height(a: real, b: real, c: real, x: real, y: real): real {
    a * x + b * y + c
  }

  predicate OnPlane(path: seq<Point3>, a: real, b: real, c: real) {
    forall i :: 0 <= i < |path| ==> path[i].z == Height(a, b, c, path[i].x, path[i].y)
  }

  // What telescopes in each component of the sum.
  function CarryX(a: real, b: real, c: real, x: real, y: real): real {
    2.0 * a * (x * y) + b * (y * y) + 2.0 * c * y
  }

  function CarryY(a: real, b: real, x: real, y: real): real {
    a * (x * x) + 2.0 * b * (x * y)
  }

  lemma EdgeX(a: real, b: real, c: real, x: real, y: real, x': real, y': real)
    ensures (y - y') * (Height(a, b, c, x, y) + Height(a, b, c, x', y')) + a * ((x - x') * (y + y'))
         == CarryX(a, b, c, x, y) - CarryX(a, b, c, x', y')
  {
  }

  lemma EdgeY(a: real, b: real, c: real, x: real, y: real, x': real, y': real)
    ensures (Height(a, b, c, x, y) - Height(a, b, c, x', y')) * (x + x') + b * ((x - x') * (y + y'))
         == CarryY(a, b, x, y) - CarryY(a, b, x', y')
  {
  }

  // One edge on the plane contributes to each component a multiple of what it contributes to
  // the last, up to its end points.
  lemma EdgeOnPlane(v: Point3, w: Point3, a: real, b: real, c: real)
    requires v.z == Height(a, b, c, v.x, v.y) && w.z == Height(a, b, c, w.x, w.y)
    ensures NewellEdge(v, w).x + Times(a, NewellEdge(v, w).z) == CarryX(a, b, c, v.x, v.y) - CarryX(a, b, c, w.x, w.y)
    ensures NewellEdge(v, w).y + Times(b, NewellEdge(v, w).z) == CarryY(a, b, v.x, v.y) - CarryY(a, b, w.x, w.y)
  {
    hide Height, CarryX, CarryY;
    EdgeX(a, b, c, v.x, v.y, w.x, w.y);
    EdgeY(a, b, c, v.x, v.y, w.x, w.y);
  }

  lemma EdgeArea(v: Point3, w: Point3)
    ensures NewellEdge(v, w).z == Cross(Flat(v), Flat(w)) + Times(v.x, v.y) - Times(w.x, w.y)
  {
  }

  lemma TimesAdds(a: real, u: real, v: real)
    ensures Times(a, u + v) == Times(a, u) + Times(a, v)
  {
  }

  // Along a path on a plane, each component is a multiple of the last one up to what the two
  // end points contribute.
  lemma {:induction false} NewellTelescopes(path: seq<Point3>, a: real, b: real, c: real)
    requires path != [] && OnPlane(path, a, b, c)
    ensures var n, first, last := Newell(path), path[0], path[|path| - 1];
            && n.x + Times(a, n.z) == CarryX(a, b, c, first.x, first.y) - CarryX(a, b, c, last.x, last.y)
            && n.y + Times(b, n.z) == CarryY(a, b, first.x, first.y) - CarryY(a, b, last.x, last.y)
            && n.z == Shoelace(Project(path)) + Times(first.x, first.y) - Times(last.x, last.y)
  {
    hide CarryX, CarryY, Height, NewellEdge, Cross;
    if |path| >= 2 {
      hide Times;
      var k := |path| - 1;
      var v, w := path[k - 1], path[k];
      NewellTelescopes(path[..k], a, b, c);
      assert Project(path)[..k] == Project(path[..k]);
      EdgeOnPlane(v, w, a, b, c);
      EdgeArea(v, w);
      var m, e := Newell(path[..k]), NewellEdge(v, w);
      TimesAdds(a, m.z, e.z);
      TimesAdds(b, m.z, e.z);
    }
  }

  // The normal of a planar polygon is its shoelace area times (-a, -b, 1), doubled, whatever
  // the winding or the first vertex.
  lemma PlanarNormal(vertices: seq<Point3>, a: real, b: real, c: real)
    requires vertices != [] && OnPlane(vertices, a, b, c)
    ensures var n := Newell(Looped(vertices));
            n.z == 2.0 * SignedArea(Project(vertices)) && n.x == -a * n.z && n.y == -b * n.z
  {
    hide Height, Newell, Shoelace, CarryX, CarryY;
    NewellTelescopes(Looped(vertices), a, b, c);
    assert Project(Looped(vertices)) == Looped(Project(vertices));
  }

  // The height solved from the plane equation.
  function ExpectedHeight(n: Point3, v: Point3, x: real, y: real): real
    requires n.z != 0.0
  {
    v.z - (n.x * (x - v.x) + n.y * (y - v.y)) / n.z
  }

  lemma SolvedHeight(n: Point3, v: Point3, a: real, b: real, c: real, x: real, y: real)
    requires n.z != 0.0 && n.x == -a * n.z && n.y == -b * n.z && v.z == Height(a, b, c, v.x, v.y)
    ensures ExpectedHeight(n, v, x, y) == Height(a, b, c, x, y)
  {
    var drop := n.x * (x - v.x) + n.y * (y - v.y);
    var slope := a * (x - v.x) + b * (y - v.y);
    assert drop == -slope * n.z;
    assert drop / n.z == -slope;
  }

  // What `contains` decides.
  predicate Contained(vertices: seq<Point3>, p: Point3) {
    && vertices != []
    && Inside(Flat(p), Project(vertices))
    && var n := Newell(Looped(vertices));
       && Abs(n.z) >= VERTICAL_NORMAL_EPSILON
       && Abs(p.z - ExpectedHeight(n, vertices[0], p.x, p.y)) <= HEIGHT_TOLERANCE
  }

  method Contains(vertices: seq<Point3>, p: Point3) returns (r: bool)
    ensures r == Contained(vertices, p)
  {
    hide Newell, Inside, ExpectedHeight;
    var inside := PointInPolygon(Flat(p), Project(vertices));
    if !inside {
      return false;
    }
    EmptyHoldsNothing(Flat(p));
    assert vertices != [];
    var n := Normal(vertices);
    if Abs(n.z) < VERTICAL_NORMAL_EPSILON {
      return false;
    }
    r := Abs(p.z - ExpectedHeight(n, vertices[0], p.x, p.y)) <= HEIGHT_TOLERANCE;
  }

  lemma EmptyHoldsNothing(p: Point)
    ensures !Inside(p, [])
  {
  }

  // Standing on a planar floor: inside its outline, the outline encloses some area, and the
  // point is within tolerance of the plane.
  lemma PlanarContained(vertices: seq<Point3>, a: real, b: real, c: real, p: Point3)
    requires OnPlane(vertices, a, b, c)
    ensures Contained(vertices, p)
       <==> && Inside(Flat(p), Project(vertices))
            && (2.0 * SignedArea(Project(vertices)) >= 0.000000001
                || 2.0 * SignedArea(Project(vertices)) <= -0.000000001)
            && a * p.x + b * p.y + c - 0.5 <= p.z <= a * p.x + b * p.y + c + 0.5
  {
    hide *;
    ContainedByPlane(vertices, a, b, c, p);
    HeightAt(a, b, c, p.x, p.y);
    WithinTolerance(p.z, Height(a, b, c, p.x, p.y));
    Negligible(2.0 * SignedArea(Project(vertices)));
  }

  lemma HeightAt(a: real, b: real, c: real, x: real, y: real)
    ensures Height(a, b, c, x, y) == a * x + b * y + c
  {
  }

  lemma WithinTolerance(z: real, height: real)
    ensures Abs(z - height) <= HEIGHT_TOLERANCE <==> height - 0.5 <= z <= height + 0.5
  {
  }

  lemma Negligible(area: real)
    ensures Abs(area) < VERTICAL_NORMAL_EPSILON <==> -0.000000001 < area < 0.000000001
  {
  }

  lemma ContainedByPlane(vertices: seq<Point3>, a: real, b: real, c: real, p: Point3)
    requires OnPlane(vertices, a, b, c)
    ensures Contained(vertices, p)
       <==> && Inside(Flat(p), Project(vertices))
            && !(Abs(2.0 * SignedArea(Project(vertices))) < VERTICAL_NORMAL_EPSILON)
            && Abs(p.z - Height(a, b, c, p.x, p.y)) <= HEIGHT_TOLERANCE
  {
    hide Newell, Inside, ExpectedHeight, SignedArea, Height;
    EmptyHoldsNothing(Flat(p));
    if vertices != [] {
      var n := Newell(Looped(vertices));
      PlanarNormal(vertices, a, b, c);
      if n.z != 0.0 {
        SolvedHeight(n, vertices[0], a, b, c, p.x, p.y);
      }
    } else {
      assert Project(vertices) == [];
    }
  }

  // A planar floor answers the same whichever vertex it is listed from and in whichever
  // direction.
  lemma ListingDoesNotMatter(front: seq<Point3>, back: seq<Point3>, a: real, b: real, c: real, p: Point3)
    requires OnPlane(front + back, a, b, c)
    ensures Contained(back + front, p) <==> Contained(front + back, p)
    ensures Contained(Reverse(front + back), p) <==> Contained(front + back, p)
  {
    hide Contained, Height, Inside, SignedArea, Reverse;
    var whole := front + back;
    var rotated, reversed := back + front, Reverse(whole);
    assert OnPlane(rotated, a, b, c) by {
      forall i | 0 <= i < |rotated| ensures rotated[i].z == Height(a, b, c, rotated[i].x, rotated[i].y) {
        assert rotated[i] == whole[if i < |back| then |front| + i else i - |back|];
      }
    }
    PlanarContained(whole, a, b, c, p);
    PlanarContained(rotated, a, b, c, p);
    PlanarContained(reversed, a, b, c, p);
    assert Project(whole) == Project(front) + Project(back);
    assert Project(rotated) == Project(back) + Project(front);
    assert Project(reversed) == Reverse(Project(whole));
    RotationInvariant(Flat(p), Project(front), Project(back));
    AreaRotated(Project(front), Project(back));
    ReversalInvariant(Flat(p), Project(whole));
    AreaReversed(Project(whole));
  }

  lemma StandsNearFloor(v: seq<Point3>, a: real, b: real, c: real, p: Point3)
    requires OnPlane(v, a, b, c) && Contained(v, p)
    ensures Height(a, b, c, p.x, p.y) - 0.5 <= p.z <= Height(a, b, c, p.x, p.y) + 0.5
  {
    hide Contained, OnPlane, Inside, SignedArea;
    PlanarContained(v, a, b, c, p);
  }

  // Two planar floors whose heights differ by more than twice the tolerance over a point.
  lemma OneFloorOnly(v: seq<Point3>, a: real, b: real, c: real, w: seq<Point3>, a': real, b': real, c': real,
          p: Point3)
    requires OnPlane(v, a, b, c) && OnPlane(w, a', b', c')
    requires Abs(Height(a, b, c, p.x, p.y) - Height(a', b', c', p.x, p.y)) > 1.0
    ensures !(Contained(v, p) && Contained(w, p))
  {
    hide Contained, Height, OnPlane;
    if Contained(v, p) && Contained(w, p) {
      StandsNearFloor(v, a, b, c, p);
      StandsNearFloor(w, a', b', c', p);
    }
  }

  ghost predicate FloorsApart(v: seq<Point3>, w: seq<Point3>, p: Point) {
    exists a, b, c, a', b', c' ::
      && OnPlane(v, a, b, c) && OnPlane(w, a', b', c')
      && Abs(Height(a, b, c, p.x, p.y) - Height(a', b', c', p.x, p.y)) > 1.0
  }

  lemma ApartIsOneOnly(v: seq<Point3>, w: seq<Point3>, p: Point3)
    requires FloorsApart(v, w, Flat(p))
    ensures !(Contained(v, p) && Contained(w, p))
  {
    hide Contained, Height, OnPlane;
    var a, b, c, a', b', c' :|
      && OnPlane(v, a, b, c) && OnPlane(w, a', b', c')
      && Abs(Height(a, b, c, p.x, p.y) - Height(a', b', c', p.x, p.y)) > 1.0;
    OneFloorOnly(v, a, b, c, w, a', b', c', p);
  }

  // The first polygon that contains the point.
  function ContainingPolygon(polygons: seq<seq<Point3>>, p: Point3): (r: Option<seq<Point3>>)
    ensures r.Some? ==> r.value in polygons && Contained(r.value, p)
    ensures r.None? <==> forall v :: v in polygons ==> !Contained(v, p)
  {
    if polygons == [] then None
    else if Contained(polygons[0], p) then Some(polygons[0])
    else ContainingPolygon(polygons[1..], p)
  }

  // It is the first: whatever contains the point after it does not matter.
  lemma {:induction false} FirstContainingIsFound(polygons: seq<seq<Point3>>, i: nat, p: Point3)
    requires i < |polygons| && Contained(polygons[i], p) && forall j :: 0 <= j < i ==> !Contained(polygons[j], p)
    ensures ContainingPolygon(polygons, p) == Some(polygons[i])
  {
    hide Contained;
    if i > 0 {
      assert !Contained(polygons[0], p);
      FirstContainingIsFound(polygons[1..], i - 1, p);
    }
  }

  // When any two floors that both cover the point are more than a metre apart there, the
  // floor it stands on is the same in whatever order the mesh lists its polygons.
  lemma FloorDoesNotDependOnOrder(polygons: seq<seq<Point3>>, others: seq<seq<Point3>>, p: Point3)
    requires forall v :: v in polygons <==> v in others
    requires forall v, w :: (v in polygons && w in polygons && v != w
                             && Inside(Flat(p), Project(v)) && Inside(Flat(p), Project(w))) ==>
               FloorsApart(v, w, Flat(p))
    ensures ContainingPolygon(polygons, p) == ContainingPolygon(others, p)
  {
    hide Newell, Inside, FloorsApart, ExpectedHeight;
    var r, s := ContainingPolygon(polygons, p), ContainingPolygon(others, p);
    if r.Some? && s.Some? && r.value != s.value {
      ApartIsOneOnly(r.value, s.value, p);
    }
  }
}
