/** The checks of `zone.manifest.yaml`: its header, its geometry and its references. */
module Manifest {
  import opened Prelude
  import opened Polygons

  const LINK_EDGE_TOLERANCE := 1.0
  const DEGENERATE_AREA_EPSILON := 0.000001
  const SUPPORTED_SCHEMA_VERSION := 1

  datatype Link = Link(targetZone: string, edge: seq<Point>)
  datatype SpawnTable = SpawnTable(id: string, points: seq<Point>, routeId: Option<string>)
  datatype Route = Route(id: string, waypoints: seq<Point>, speed: real)
  datatype Trigger = Trigger(id: string, shapeType: string, center: Point, radius: real)
  datatype ZoneManifest = ZoneManifest(
    schemaVersion: int, id: string, displayName: string,
    shape: string, units: string, bounds: seq<Point>, assetRef: string, collisionFormat: string,
    links: seq<Link>, spawnTables: seq<SpawnTable>, routes: seq<Route>, triggers: seq<Trigger>)

  datatype Problem =
    | UnsupportedVersion | EmptyId | EmptyDisplayName
    | UnsupportedShape | UnsupportedUnits | InvalidAssetRef | UnsupportedCollision
    | TooFewBoundsPoints | DegenerateBounds
    | LinkEdgeSize(link: int) | LinkEdgeFar(link: int, point: int)
    | RouteIdsRepeat | TooFewWaypoints(route: int) | RouteSpeed(route: int)
    | SpawnIdsRepeat | NoSpawnPoints(table: int) | SpawnOutside(table: int, point: int) | UnknownRoute(table: int)
    | TriggerIdsRepeat | TriggerShape(trigger: int) | TriggerRadius(trigger: int) | TriggerOutside(trigger: int)

  predicate BoundsUsable(bounds: seq<Point>) {
    |bounds| >= 3 && !(Abs(SignedArea(bounds)) < DEGENERATE_AREA_EPSILON)
  }

  predicate Repeats(ids: seq<string>) {
    exists i, j :: 0 <= i < j < |ids| && ids[i] == ids[j]
  }

  predicate FarFromBoundary(p: Point, bounds: seq<Point>) {
    var d := BoundaryDistanceSq(p, Looped(bounds));
    d.Some? && d.value > LINK_EDGE_TOLERANCE * LINK_EDGE_TOLERANCE
  }

  predicate LowerHex(c: char) {
    '0' <= c <= '9' || 'a' <= c <= 'f'
  }

  predicate ValidAssetRef(value: string) {
    |value| == 71 && value[..7] == "sha256:" && forall i :: 7 <= i < 71 ==> LowerHex(value[i])
  }

  predicate WrongHeader(m: ZoneManifest, q: Problem) {
    || (q == EmptyId && Blank(m.id))
    || (q == EmptyDisplayName && Blank(m.displayName))
    || (q == UnsupportedShape && m.shape != "polygon")
    || (q == UnsupportedUnits && m.units != "meters")
    || (q == InvalidAssetRef && !ValidAssetRef(m.assetRef))
    || (q == UnsupportedCollision && m.collisionFormat != "navmesh_v1")
  }

  predicate WrongBounds(bounds: seq<Point>, q: Problem) {
    || (q == TooFewBoundsPoints && |bounds| < 3)
    || (q == DegenerateBounds && |bounds| >= 3 && Abs(SignedArea(bounds)) < DEGENERATE_AREA_EPSILON)
  }

  predicate WrongLink(bounds: seq<Point>, link: Link, i: int, q: Problem) {
    || (q == LinkEdgeSize(i) && |link.edge| != 2)
    || (q.LinkEdgeFar? && q.link == i && |link.edge| == 2 && BoundsUsable(bounds)
        && 0 <= q.point < 2 && FarFromBoundary(link.edge[q.point], bounds))
  }

  predicate WrongRoute(route: Route, i: int, q: Problem) {
    || (q == TooFewWaypoints(i) && |route.waypoints| < 2)
    || (q == RouteSpeed(i) && route.speed <= 0.0)
  }

  predicate WrongSpawn(bounds: seq<Point>, routes: seq<Route>, table: SpawnTable, i: int, q: Problem) {
    || (q == NoSpawnPoints(i) && table.points == [])
    || (q.SpawnOutside? && q.table == i && BoundsUsable(bounds)
        && 0 <= q.point < |table.points| && !Inside(table.points[q.point], bounds))
    || (q == UnknownRoute(i) && table.routeId.Some? && forall r :: r in routes ==> r.id != table.routeId.value)
  }

  predicate WrongTrigger(bounds: seq<Point>, trigger: Trigger, i: int, q: Problem) {
    || (q == TriggerShape(i) && trigger.shapeType != "circle")
    || (q == TriggerRadius(i) && trigger.radius <= 0.0)
    || (q == TriggerOutside(i) && BoundsUsable(bounds) && !Inside(trigger.center, bounds))
  }

  function RouteIds(routes: seq<Route>): seq<string> {
    seq(|routes|, i requires 0 <= i < |routes| => routes[i].id)
  }

  function SpawnIds(tables: seq<SpawnTable>): seq<string> {
    seq(|tables|, i requires 0 <= i < |tables| => tables[i].id)
  }

  function TriggerIds(triggers: seq<Trigger>): seq<string> {
    seq(|triggers|, i requires 0 <= i < |triggers| => triggers[i].id)
  }

  // What is wrong with a manifest, problem by problem.
  predicate Wrong(m: ZoneManifest, q: Problem) {
    if m.schemaVersion != SUPPORTED_SCHEMA_VERSION then q == UnsupportedVersion
    else
      || WrongHeader(m, q)
      || WrongBounds(m.bounds, q)
      || (exists i :: 0 <= i < |m.links| && WrongLink(m.bounds, m.links[i], i, q))
      || (q == RouteIdsRepeat && Repeats(RouteIds(m.routes)))
      || (exists i :: 0 <= i < |m.routes| && WrongRoute(m.routes[i], i, q))
      || (q == SpawnIdsRepeat && Repeats(SpawnIds(m.spawnTables)))
      || (exists i :: 0 <= i < |m.spawnTables| && WrongSpawn(m.bounds, m.routes, m.spawnTables[i], i, q))
      || (q == TriggerIdsRepeat && Repeats(TriggerIds(m.triggers)))
      || (exists i :: 0 <= i < |m.triggers| && WrongTrigger(m.bounds, m.triggers[i], i, q))
  }

  function IdSet(ids: seq<string>): set<string> {
    set id | id in ids
  }

  // Counting distinct ids finds a repetition.
  lemma {:induction false} CountsRepeats(ids: seq<string>)
    ensures |IdSet(ids)| <= |ids|
    ensures |IdSet(ids)| != |ids| <==> Repeats(ids)
  {
    if ids != [] {
      hide IdSet, Repeats;
      var n := |ids| - 1;
      var rest := ids[..n];
      CountsRepeats(rest);
      assert ids == rest + [ids[n]];
      DistinctSnoc(rest, ids[n]);
      RepeatsSnoc(rest, ids[n]);
    }
  }

  lemma DistinctSnoc(ids: seq<string>, id: string)
    ensures |IdSet(ids + [id])| == |IdSet(ids)| + if id in ids then 0 else 1
  {
    assert IdSet(ids + [id]) == IdSet(ids) + {id};
  }

  lemma RepeatsSnoc(ids: seq<string>, id: string)
    ensures Repeats(ids + [id]) <==> Repeats(ids) || id in ids
  {
    var more := ids + [id];
    assert forall i :: 0 <= i < |ids| ==> more[i] == ids[i];
    if id in ids {
      var i :| 0 <= i < |ids| && ids[i] == id;
      assert more[i] == more[|ids|];
    }
    if Repeats(ids) {
      var i, j :| 0 <= i < j < |ids| && ids[i] == ids[j];
      assert more[i] == more[j];
    }
  }

  method CheckLink(bounds: seq<Point>, usable: bool, link: Link, i: int) returns (problems: seq<Problem>)
    requires usable <==> BoundsUsable(bounds)
    ensures forall q :: q in problems <==> WrongLink(bounds, link, i, q)
  {
    hide FarFromBoundary;
    problems := [];
    if |link.edge| != 2 {
      return [LinkEdgeSize(i)];
    }
    if usable {
      for j := 0 to |link.edge|
        invariant forall q :: q in problems <==>
                    q.LinkEdgeFar? && q.link == i && 0 <= q.point < j && FarFromBoundary(link.edge[q.point], bounds)
      {
        if FarFromBoundary(link.edge[j], bounds) {
          problems := problems + [LinkEdgeFar(i, j)];
        }
      }
    }
  }

  method CheckRoute(route: Route, i: int) returns (problems: seq<Problem>)
    ensures forall q :: q in problems <==> WrongRoute(route, i, q)
  {
    problems := [];
    if |route.waypoints| < 2 {
      problems := problems + [TooFewWaypoints(i)];
    }
    if route.speed <= 0.0 {
      problems := problems + [RouteSpeed(i)];
    }
  }

  method CheckSpawn(bounds: seq<Point>, usable: bool, routes: seq<Route>, table: SpawnTable, i: int)
    returns (problems: seq<Problem>)
    requires usable <==> BoundsUsable(bounds)
    ensures forall q :: q in problems <==> WrongSpawn(bounds, routes, table, i, q)
  {
    hide Inside;
    problems := [];
    if table.points == [] {
      problems := problems + [NoSpawnPoints(i)];
    } else if usable {
      for j := 0 to |table.points|
        invariant forall q :: q in problems <==>
                    q.SpawnOutside? && q.table == i && 0 <= q.point < j && !Inside(table.points[q.point], bounds)
      {
        var inside := PointInPolygon(table.points[j], bounds);
        if !inside {
          problems := problems + [SpawnOutside(i, j)];
        }
      }
    }
    var routeIds := set r | r in routes :: r.id;
    if table.routeId.Some? && table.routeId.value !in routeIds {
      problems := problems + [UnknownRoute(i)];
    }
  }

  method CheckTrigger(bounds: seq<Point>, usable: bool, trigger: Trigger, i: int) returns (problems: seq<Problem>)
    requires usable <==> BoundsUsable(bounds)
    ensures forall q :: q in problems <==> WrongTrigger(bounds, trigger, i, q)
  {
    hide Inside;
    problems := [];
    if trigger.shapeType != "circle" {
      problems := problems + [TriggerShape(i)];
    }
    if trigger.radius <= 0.0 {
      problems := problems + [TriggerRadius(i)];
    }
    if usable {
      var inside := PointInPolygon(trigger.center, bounds);
      if !inside {
        problems := problems + [TriggerOutside(i)];
      }
    }
  }

  method CheckLinks(bounds: seq<Point>, usable: bool, links: seq<Link>) returns (problems: seq<Problem>)
    requires usable <==> BoundsUsable(bounds)
    ensures forall q :: q in problems <==> exists i :: 0 <= i < |links| && WrongLink(bounds, links[i], i, q)
  {
    hide WrongLink;
    problems := [];
    for n := 0 to |links|
      invariant forall q :: q in problems <==> exists i :: 0 <= i < n && WrongLink(bounds, links[i], i, q)
    {
      var more := CheckLink(bounds, usable, links[n], n);
      problems := problems + more;
    }
  }

  method CheckRoutes(routes: seq<Route>) returns (problems: seq<Problem>)
    ensures forall q :: q in problems <==>
              || (q == RouteIdsRepeat && Repeats(RouteIds(routes)))
              || exists i :: 0 <= i < |routes| && WrongRoute(routes[i], i, q)
  {
    hide Repeats, WrongRoute;
    var ids := RouteIds(routes);
    CountsRepeats(ids);
    problems := if |IdSet(ids)| != |routes| then [RouteIdsRepeat] else [];
    for n := 0 to |routes|
      invariant forall q :: q in problems <==>
                  (q == RouteIdsRepeat && Repeats(ids)) || exists i :: 0 <= i < n && WrongRoute(routes[i], i, q)
    {
      var more := CheckRoute(routes[n], n);
      problems := problems + more;
    }
  }

  method CheckSpawns(bounds: seq<Point>, usable: bool, routes: seq<Route>, tables: seq<SpawnTable>)
    returns (problems: seq<Problem>)
    requires usable <==> BoundsUsable(bounds)
    ensures forall q :: q in problems <==>
              || (q == SpawnIdsRepeat && Repeats(SpawnIds(tables)))
              || exists i :: 0 <= i < |tables| && WrongSpawn(bounds, routes, tables[i], i, q)
  {
    hide Repeats, WrongSpawn;
    var ids := SpawnIds(tables);
    CountsRepeats(ids);
    problems := if |IdSet(ids)| != |tables| then [SpawnIdsRepeat] else [];
    for n := 0 to |tables|
      invariant forall q :: q in problems <==>
                  || (q == SpawnIdsRepeat && Repeats(ids))
                  || exists i :: 0 <= i < n && WrongSpawn(bounds, routes, tables[i], i, q)
    {
      var more := CheckSpawn(bounds, usable, routes, tables[n], n);
      problems := problems + more;
    }
  }

  method CheckTriggers(bounds: seq<Point>, usable: bool, triggers: seq<Trigger>) returns (problems: seq<Problem>)
    requires usable <==> BoundsUsable(bounds)
    ensures forall q :: q in problems <==>
              || (q == TriggerIdsRepeat && Repeats(TriggerIds(triggers)))
              || exists i :: 0 <= i < |triggers| && WrongTrigger(bounds, triggers[i], i, q)
  {
    hide Repeats, WrongTrigger;
    var ids := TriggerIds(triggers);
    CountsRepeats(ids);
    problems := if |IdSet(ids)| != |triggers| then [TriggerIdsRepeat] else [];
    for n := 0 to |triggers|
      invariant forall q :: q in problems <==>
                  || (q == TriggerIdsRepeat && Repeats(ids))
                  || exists i :: 0 <= i < n && WrongTrigger(bounds, triggers[i], i, q)
    {
      var more := CheckTrigger(bounds, usable, triggers[n], n);
      problems := problems + more;
    }
  }

  // The asset reference, character by character after its prefix.
  method IsValidAssetRef(value: string) returns (valid: bool)
    ensures valid <==> ValidAssetRef(value)
    ensures valid <==> |value| == 71 && "sha256:" <= value && forall c :: c in value[7..] ==> c in "0123456789abcdef"
  {
    if |value| < 7 || value[..7] != "sha256:" {
      return false;
    }
    var hex := value[7..];
    if |hex| != 64 {
      return false;
    }
    for i := 0 to 64
      invariant forall j :: 0 <= j < i ==> LowerHex(hex[j])
    {
      if !LowerHex(hex[i]) {
        assert !LowerHex(value[7 + i]) && hex[i] in hex;
        return false;
      }
    }
    forall i | 7 <= i < 71 ensures LowerHex(value[i]) {
      assert LowerHex(hex[i - 7]);
    }
    valid := true;
  }

  method CheckHeader(m: ZoneManifest) returns (problems: seq<Problem>)
    ensures forall q :: q in problems <==> WrongHeader(m, q)
  {
    hide Blank, ValidAssetRef;
    problems := [];
    if Blank(m.id) {
      problems := problems + [EmptyId];
    }
    if Blank(m.displayName) {
      problems := problems + [EmptyDisplayName];
    }
    if m.shape != "polygon" {
      problems := problems + [UnsupportedShape];
    }
    if m.units != "meters" {
      problems := problems + [UnsupportedUnits];
    }
    var valid := IsValidAssetRef(m.assetRef);
    if !valid {
      problems := problems + [InvalidAssetRef];
    }
    if m.collisionFormat != "navmesh_v1" {
      problems := problems + [UnsupportedCollision];
    }
  }

  method CheckBounds(bounds: seq<Point>) returns (problems: seq<Problem>, usable: bool)
    ensures forall q :: q in problems <==> WrongBounds(bounds, q)
    ensures usable <==> BoundsUsable(bounds)
  {
    hide SignedArea;
    var area := PolygonSignedArea(bounds);
    problems := [];
    if |bounds| < 3 {
      problems := [TooFewBoundsPoints];
    } else if Abs(area) < DEGENERATE_AREA_EPSILON {
      problems := [DegenerateBounds];
    }
    usable := |bounds| >= 3 && Abs(area) >= DEGENERATE_AREA_EPSILON;
  }

  // Every problem, and nothing but problems; only an unsupported version hides the others.
  method Validate(m: ZoneManifest) returns (problems: seq<Problem>)
    ensures forall q :: q in problems <==> Wrong(m, q)
  {
    hide BoundsUsable, WrongHeader, WrongBounds, WrongLink, WrongRoute, WrongSpawn, WrongTrigger, Repeats;
    if m.schemaVersion != SUPPORTED_SCHEMA_VERSION {
      return [UnsupportedVersion];
    }
    var header := CheckHeader(m);
    var bounds, usable := CheckBounds(m.bounds);
    var links := CheckLinks(m.bounds, usable, m.links);
    var routes := CheckRoutes(m.routes);
    var spawns := CheckSpawns(m.bounds, usable, m.routes, m.spawnTables);
    var triggers := CheckTriggers(m.bounds, usable, m.triggers);
    problems := header + bounds + links + routes + spawns + triggers;
  }

  // Both ends of the link's edge lie within a metre of some point of the boundary.
  ghost predicate OnBoundary(link: Link, bounds: seq<Point>) {
    |link.edge| == 2 && forall j :: 0 <= j < 2 ==> NearBoundary(link.edge[j], Looped(bounds), 1.0)
  }

  predicate Distinct(ids: seq<string>) {
    forall i, j :: 0 <= i < j < |ids| ==> ids[i] != ids[j]
  }

  predicate RouteFine(route: Route) {
    |route.waypoints| >= 2 && route.speed > 0.0
  }

  ghost predicate SpawnFine(bounds: seq<Point>, routes: seq<Route>, table: SpawnTable) {
    && table.points != [] && (forall p :: p in table.points ==> Inside(p, bounds))
    && (table.routeId.Some? ==> exists r :: r in routes && r.id == table.routeId.value)
  }

  predicate TriggerFine(bounds: seq<Point>, trigger: Trigger) {
    trigger.shapeType == "circle" && trigger.radius > 0.0 && Inside(trigger.center, bounds)
  }

  predicate HeaderFine(m: ZoneManifest) {
    && m.schemaVersion == 1 && !Blank(m.id) && !Blank(m.displayName)
    && m.shape == "polygon" && m.units == "meters" && m.collisionFormat == "navmesh_v1"
    && |m.assetRef| == 71 && "sha256:" <= m.assetRef && forall c :: c in m.assetRef[7..] ==> c in "0123456789abcdef"
  }

  // Three vertices or more, around at least a millionth of a square metre.
  predicate Encloses(bounds: seq<Point>) {
    |bounds| >= 3 && (SignedArea(bounds) >= 0.000001 || SignedArea(bounds) <= -0.000001)
  }

  lemma UsableEncloses(bounds: seq<Point>)
    ensures BoundsUsable(bounds) <==> Encloses(bounds)
  {
    hide SignedArea;
  }

  lemma AssetRefMeans(value: string)
    ensures ValidAssetRef(value)
       <==> |value| == 71 && "sha256:" <= value && forall c :: c in value[7..] ==> c in "0123456789abcdef"
  {
    if |value| == 71 && forall c :: c in value[7..] ==> c in "0123456789abcdef" {
      forall i | 7 <= i < 71 ensures LowerHex(value[i]) {
        assert value[7..][i - 7] in value[7..];
      }
    }
  }

  // What a zone may rely on.
  ghost predicate Acceptable(m: ZoneManifest) {
    && HeaderFine(m) && Encloses(m.bounds)
    && (forall link :: link in m.links ==> OnBoundary(link, m.bounds))
    && Distinct(RouteIds(m.routes)) && (forall r :: r in m.routes ==> RouteFine(r))
    && Distinct(SpawnIds(m.spawnTables)) && (forall t :: t in m.spawnTables ==> SpawnFine(m.bounds, m.routes, t))
    && Distinct(TriggerIds(m.triggers)) && (forall t :: t in m.triggers ==> TriggerFine(m.bounds, t))
  }

  lemma HeaderExactly(m: ZoneManifest)
    requires m.schemaVersion == SUPPORTED_SCHEMA_VERSION
    ensures (forall q :: !WrongHeader(m, q)) <==> HeaderFine(m)
  {
    hide Blank, ValidAssetRef;
    AssetRefMeans(m.assetRef);
    if forall q :: !WrongHeader(m, q) {
      assert !WrongHeader(m, EmptyId) && !WrongHeader(m, EmptyDisplayName) && !WrongHeader(m, UnsupportedShape);
      assert !WrongHeader(m, UnsupportedUnits) && !WrongHeader(m, InvalidAssetRef)
          && !WrongHeader(m, UnsupportedCollision);
    }
  }

  lemma BoundsExactly(bounds: seq<Point>)
    ensures (forall q :: !WrongBounds(bounds, q)) <==> BoundsUsable(bounds)
  {
    hide SignedArea;
    assert WrongBounds(bounds, TooFewBoundsPoints) || WrongBounds(bounds, DegenerateBounds) || BoundsUsable(bounds);
  }

  lemma LinkExactly(bounds: seq<Point>, link: Link, i: int)
    requires BoundsUsable(bounds)
    ensures (forall q :: !WrongLink(bounds, link, i, q)) <==> OnBoundary(link, bounds)
  {
    hide SignedArea, NearBoundary, BoundaryDistanceSq;
    if |link.edge| != 2 {
      assert WrongLink(bounds, link, i, LinkEdgeSize(i));
    } else {
      forall j | 0 <= j < 2
        ensures WrongLink(bounds, link, i, LinkEdgeFar(i, j)) <==> !NearBoundary(link.edge[j], Looped(bounds), 1.0)
      {
        BoundaryDistanceMeaning(link.edge[j], Looped(bounds), 1.0);
      }
    }
  }

  lemma RouteExactly(route: Route, i: int)
    ensures (forall q :: !WrongRoute(route, i, q)) <==> RouteFine(route)
  {
    assert WrongRoute(route, i, TooFewWaypoints(i)) || WrongRoute(route, i, RouteSpeed(i)) || RouteFine(route);
  }

  lemma SpawnExactly(bounds: seq<Point>, routes: seq<Route>, table: SpawnTable, i: int)
    requires BoundsUsable(bounds)
    ensures (forall q :: !WrongSpawn(bounds, routes, table, i, q)) <==> SpawnFine(bounds, routes, table)
  {
    hide SignedArea, Inside;
    if forall q :: !WrongSpawn(bounds, routes, table, i, q) {
      assert !WrongSpawn(bounds, routes, table, i, NoSpawnPoints(i))
          && !WrongSpawn(bounds, routes, table, i, UnknownRoute(i));
      forall p | p in table.points ensures Inside(p, bounds) {
        var j :| 0 <= j < |table.points| && table.points[j] == p;
        assert !WrongSpawn(bounds, routes, table, i, SpawnOutside(i, j));
      }
    }
  }

  lemma TriggerExactly(bounds: seq<Point>, trigger: Trigger, i: int)
    requires BoundsUsable(bounds)
    ensures (forall q :: !WrongTrigger(bounds, trigger, i, q)) <==> TriggerFine(bounds, trigger)
  {
    hide SignedArea, Inside;
    assert || WrongTrigger(bounds, trigger, i, TriggerShape(i)) || WrongTrigger(bounds, trigger, i, TriggerRadius(i))
           || WrongTrigger(bounds, trigger, i, TriggerOutside(i)) || TriggerFine(bounds, trigger);
  }

  // Nothing is wrong with a manifest exactly when nothing is wrong with any of its parts.
  lemma WrongByParts(m: ZoneManifest)
    requires m.schemaVersion == SUPPORTED_SCHEMA_VERSION
    ensures (forall q :: !Wrong(m, q))
       <==> && (forall q :: !WrongHeader(m, q)) && (forall q :: !WrongBounds(m.bounds, q))
            && (forall i, q :: 0 <= i < |m.links| ==> !WrongLink(m.bounds, m.links[i], i, q))
            && Distinct(RouteIds(m.routes))
            && (forall i, q :: 0 <= i < |m.routes| ==> !WrongRoute(m.routes[i], i, q))
            && Distinct(SpawnIds(m.spawnTables))
            && (forall i, q :: 0 <= i < |m.spawnTables| ==> !WrongSpawn(m.bounds, m.routes, m.spawnTables[i], i, q))
            && Distinct(TriggerIds(m.triggers))
            && (forall i, q :: 0 <= i < |m.triggers| ==> !WrongTrigger(m.bounds, m.triggers[i], i, q))
  {
    hide WrongHeader, WrongBounds, WrongLink, WrongRoute, WrongSpawn, WrongTrigger;
    assert Distinct(RouteIds(m.routes)) <==> !Repeats(RouteIds(m.routes));
    assert Distinct(SpawnIds(m.spawnTables)) <==> !Repeats(SpawnIds(m.spawnTables));
    assert Distinct(TriggerIds(m.triggers)) <==> !Repeats(TriggerIds(m.triggers));
    if forall q :: !Wrong(m, q) {
      assert !Wrong(m, RouteIdsRepeat) && !Wrong(m, SpawnIdsRepeat) && !Wrong(m, TriggerIdsRepeat);
      forall q ensures !WrongHeader(m, q) && !WrongBounds(m.bounds, q) {
        assert !Wrong(m, q);
      }
      forall i, q | 0 <= i < |m.links| ensures !WrongLink(m.bounds, m.links[i], i, q) {
        assert !Wrong(m, q);
      }
      forall i, q | 0 <= i < |m.routes| ensures !WrongRoute(m.routes[i], i, q) {
        assert !Wrong(m, q);
      }
      forall i, q | 0 <= i < |m.spawnTables| ensures !WrongSpawn(m.bounds, m.routes, m.spawnTables[i], i, q) {
        assert !Wrong(m, q);
      }
      forall i, q | 0 <= i < |m.triggers| ensures !WrongTrigger(m.bounds, m.triggers[i], i, q) {
        assert !Wrong(m, q);
      }
    } else {
      var q :| Wrong(m, q);
      assert WrongHeader(m, q) || WrongBounds(m.bounds, q) || WrongPart(m, q);
    }
  }

  predicate WrongPart(m: ZoneManifest, q: Problem) {
    || (exists i :: 0 <= i < |m.links| && WrongLink(m.bounds, m.links[i], i, q))
    || Repeats(RouteIds(m.routes))
    || (exists i :: 0 <= i < |m.routes| && WrongRoute(m.routes[i], i, q))
    || Repeats(SpawnIds(m.spawnTables))
    || (exists i :: 0 <= i < |m.spawnTables| && WrongSpawn(m.bounds, m.routes, m.spawnTables[i], i, q))
    || Repeats(TriggerIds(m.triggers))
    || (exists i :: 0 <= i < |m.triggers| && WrongTrigger(m.bounds, m.triggers[i], i, q))
  }

  // A manifest is accepted exactly when its header is supported, its bounds enclose some
  // area, every link's edge runs along the boundary, every point it places lies inside, ids
  // are unique, and every route it names is there and can be walked.
  lemma AcceptedExactlyWhen(m: ZoneManifest)
    ensures (forall q :: !Wrong(m, q)) <==> Acceptable(m)
  {
    hide WrongHeader, WrongBounds, WrongLink, WrongRoute, WrongSpawn, WrongTrigger, HeaderFine, BoundsUsable,
         Encloses, OnBoundary, RouteFine, SpawnFine, TriggerFine, Distinct;
    if m.schemaVersion != SUPPORTED_SCHEMA_VERSION {
      assert Wrong(m, UnsupportedVersion);
      assert !HeaderFine(m) by { HeaderVersion(m); }
    } else {
      hide Wrong;
      WrongByParts(m);
      HeaderExactly(m);
      BoundsExactly(m.bounds);
      UsableEncloses(m.bounds);
      if BoundsUsable(m.bounds) {
        PartsExactly(m);
      }
    }
  }

  lemma HeaderVersion(m: ZoneManifest)
    ensures HeaderFine(m) ==> m.schemaVersion == SUPPORTED_SCHEMA_VERSION
  {
  }

  lemma PartsExactly(m: ZoneManifest)
    requires BoundsUsable(m.bounds)
    ensures (forall i, q :: 0 <= i < |m.links| ==> !WrongLink(m.bounds, m.links[i], i, q))
       <==> forall link :: link in m.links ==> OnBoundary(link, m.bounds)
    ensures (forall i, q :: 0 <= i < |m.routes| ==> !WrongRoute(m.routes[i], i, q))
       <==> forall r :: r in m.routes ==> RouteFine(r)
    ensures (forall i, q :: 0 <= i < |m.spawnTables| ==> !WrongSpawn(m.bounds, m.routes, m.spawnTables[i], i, q))
       <==> forall t :: t in m.spawnTables ==> SpawnFine(m.bounds, m.routes, t)
    ensures (forall i, q :: 0 <= i < |m.triggers| ==> !WrongTrigger(m.bounds, m.triggers[i], i, q))
       <==> forall t :: t in m.triggers ==> TriggerFine(m.bounds, t)
  {
    hide WrongLink, WrongRoute, WrongSpawn, WrongTrigger, BoundsUsable, OnBoundary, RouteFine, SpawnFine, TriggerFine;
    forall i | 0 <= i < |m.links|
      ensures (forall q :: !WrongLink(m.bounds, m.links[i], i, q)) <==> OnBoundary(m.links[i], m.bounds)
    {
      LinkExactly(m.bounds, m.links[i], i);
    }
    forall i | 0 <= i < |m.routes| ensures (forall q :: !WrongRoute(m.routes[i], i, q)) <==> RouteFine(m.routes[i]) {
      RouteExactly(m.routes[i], i);
    }
    forall i | 0 <= i < |m.spawnTables|
      ensures (forall q :: !WrongSpawn(m.bounds, m.routes, m.spawnTables[i], i, q))
         <==> SpawnFine(m.bounds, m.routes, m.spawnTables[i])
    {
      SpawnExactly(m.bounds, m.routes, m.spawnTables[i], i);
    }
    forall i | 0 <= i < |m.triggers|
      ensures (forall q :: !WrongTrigger(m.bounds, m.triggers[i], i, q)) <==> TriggerFine(m.bounds, m.triggers[i])
    {
      TriggerExactly(m.bounds, m.triggers[i], i);
    }
  }

  // In the half-open box around the vertices.
  ghost predicate WithinBox(p: Point, polygon: seq<Point>) {
    && (exists v :: v in polygon && v.x <= p.x) && (exists v :: v in polygon && p.x < v.x)
    && (exists v :: v in polygon && v.y <= p.y) && (exists v :: v in polygon && p.y < v.y)
  }

  // In particular everything an accepted manifest places lies in the box around its bounds.
  lemma AcceptedPlacesWithinBox(m: ZoneManifest, p: Point)
    requires forall q :: !Wrong(m, q)
    requires (exists t :: t in m.spawnTables && p in t.points) || (exists t :: t in m.triggers && t.center == p)
    ensures WithinBox(p, m.bounds)
  {
    hide Inside, Wrong, HeaderFine, BoundsUsable, OnBoundary, Distinct, RouteFine;
    AcceptedExactlyWhen(m);
    InsideWithinBox(p, m.bounds);
  }
}
