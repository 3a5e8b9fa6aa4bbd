/** Busshape.py: snapping bus stops onto their route line, and cutting
    each route line into one piece per pair of consecutive stops. The
    geometry (shapely's project, interpolate and substring) is a parameter
    of the model: only how the code chooses its arguments is modelled. */
module BusShape {

  datatype Point = Point(x: real, y: real)

  /** A LineString, as its vertices. */
  datatype Polyline = Polyline(vertices: seq<Point>)

  /** shapely's linear referencing: the distance along a line of the point
      nearest to p, the point at a distance along a line, and the part of
      a line between two distances. */
  datatype Geometry = Geometry(
    project: (Polyline, Point) -> real,
    interpolate: (Polyline, real) -> Point,
    substring: (Polyline, real, real) -> Polyline)

  /** A row of the route table. */
  datatype Route = Route(name: string, direction: int, line: Polyline)

  /** A row of the stop table: the route and direction it belongs to, its
      sequence number, its Lat and Lon columns, and its point geometry. */
  datatype Stop = Stop(routeName: string, direction: int, seqNo: int,
                       lat: real, lng: real, geometry: Point)

  /** A row of split_routes' output. */
  datatype Segment = Segment(routeName: string, direction: int,
                             startSeq: int, endSeq: int, line: Polyline)

  // ---------------------------------------------------------------------
  // snap_points_to_line (Busshape.py:6-46)

  predicate Serves(r: Route, name: string, direction: int) {
    r.name == name && r.direction == direction
  }

  /** routes_gdf filtered on equal route name and direction, in table order. */
  function MatchingRoutes(routes: seq<Route>, name: string, direction: int): (m: seq<Route>)
    ensures forall r :: r in m <==> r in routes && Serves(r, name, direction)
  {
    if |routes| == 0 then []
    else
      var rest := MatchingRoutes(routes[1..], name, direction);
      assert forall r :: r in routes <==> r == routes[0] || r in routes[1..];
      if Serves(routes[0], name, direction) then [routes[0]] + rest else rest
  }

  /** No route serves the stop exactly when the filtered table is empty. */
  lemma NoMatchingRoute(routes: seq<Route>, name: string, direction: int)
    ensures |MatchingRoutes(routes, name, direction)| == 0
            <==> forall i :: 0 <= i < |routes| ==> !Serves(routes[i], name, direction)
  {
    var m := MatchingRoutes(routes, name, direction);
    if |m| > 0 {
      assert m[0] in m;
    }
    if exists i :: 0 <= i < |routes| && Serves(routes[i], name, direction) {
      var i :| 0 <= i < |routes| && Serves(routes[i], name, direction);
      assert routes[i] in m;
    }
  }

  /** iloc[0] of the filtered table is the first route row that serves
      the stop. */
  lemma {:induction false} FirstMatchingRoute(routes: seq<Route>, name: string, direction: int, i: int)
    requires 0 <= i < |routes| && Serves(routes[i], name, direction)
    requires forall j :: 0 <= j < i ==> !Serves(routes[j], name, direction)
    ensures |MatchingRoutes(routes, name, direction)| > 0
    ensures MatchingRoutes(routes, name, direction)[0] == routes[i]
  {
    if i > 0 {
      FirstMatchingRoute(routes[1..], name, direction, i - 1);
    }
  }

  /** Where a stop ends up: projected onto the first route that serves it,
      or left where it is when none does. */
  function SnappedPoint(stop: Stop, routes: seq<Route>, g: Geometry): Point {
    var m := MatchingRoutes(routes, stop.routeName, stop.direction);
    if |m| == 0 then stop.geometry
    else g.interpolate(m[0].line, g.project(m[0].line, stop.geometry))
  }

  /** One output row per stop, in order: geometry replaced by the snapped
      point, Lat and Lon rewritten from it, everything else kept. The
      input is a value, so it is left as it was, like the copy the source
      works on. */
  method SnapPointsToLine(stops: seq<Stop>, routes: seq<Route>, g: Geometry) returns (snapped: seq<Stop>)
    ensures |snapped| == |stops|
    ensures forall i :: 0 <= i < |stops| ==>
              && snapped[i].geometry == SnappedPoint(stops[i], routes, g)
              && snapped[i].lat == snapped[i].geometry.y
              && snapped[i].lng == snapped[i].geometry.x
              && snapped[i].routeName == stops[i].routeName
              && snapped[i].direction == stops[i].direction
              && snapped[i].seqNo == stops[i].seqNo
  {
    var points: seq<Point> := [];
    var k := 0;
    while k < |stops|
      invariant 0 <= k <= |stops| && |points| == k
      invariant forall i :: 0 <= i < k ==> points[i] == SnappedPoint(stops[i], routes, g)
    {
      var stop := stops[k];
      var matching := MatchingRoutes(routes, stop.routeName, stop.direction);
      if |matching| > 0 {
        var line := matching[0].line;
        points := points + [g.interpolate(line, g.project(line, stop.geometry))];
      } else {
        points := points + [stop.geometry];
      }
      k := k + 1;
    }
    snapped := [];
    k := 0;
    while k < |stops|
      invariant 0 <= k <= |stops| && |snapped| == k
      invariant forall i :: 0 <= i < k ==>
                  snapped[i] == stops[i].(geometry := points[i], lat := points[i].y, lng := points[i].x)
    {
      var p := points[k];
      snapped := snapped + [stops[k].(geometry := p, lat := p.y, lng := p.x)];
      k := k + 1;
    }
  }

  /** A stop no route serves keeps its point, and its Lat/Lon become that
      point's y and x. */
  lemma UnservedStopKeepsPoint(stop: Stop, routes: seq<Route>, g: Geometry)
    requires forall i :: 0 <= i < |routes| ==> !Serves(routes[i], stop.routeName, stop.direction)
    ensures SnappedPoint(stop, routes, g) == stop.geometry
  {
    NoMatchingRoute(routes, stop.routeName, stop.direction);
  }

  /** A served stop is projected onto the first route row serving it. */
  lemma ServedStopProjected(stop: Stop, routes: seq<Route>, g: Geometry, i: int)
    requires 0 <= i < |routes| && Serves(routes[i], stop.routeName, stop.direction)
    requires forall j :: 0 <= j < i ==> !Serves(routes[j], stop.routeName, stop.direction)
    ensures SnappedPoint(stop, routes, g)
            == g.interpolate(routes[i].line, g.project(routes[i].line, stop.geometry))
  {
    FirstMatchingRoute(routes, stop.routeName, stop.direction, i);
  }

  // ---------------------------------------------------------------------
  // split_routes (Busshape.py:48-103)

  /** seq_select filtered on the route's name and direction, in table order. */
  function StopsOf(stops: seq<Stop>, name: string, direction: int): (s: seq<Stop>)
    ensures forall x :: x in s <==> x in stops && x.routeName == name && x.direction == direction
    ensures |s| <= |stops|
    ensures forall x :: multiset(s)[x]
              == if x.routeName == name && x.direction == direction then multiset(stops)[x] else 0
  {
    if |stops| == 0 then []
    else
      var rest := StopsOf(stops[1..], name, direction);
      assert stops == [stops[0]] + stops[1..];
      assert forall x :: x in stops <==> x == stops[0] || x in stops[1..];
      if stops[0].routeName == name && stops[0].direction == direction then [stops[0]] + rest else rest
  }

  /** The number of stops of a route, counted with duplicates. */
  function CountStops(stops: seq<Stop>, name: string, direction: int): nat {
    if |stops| == 0 then 0
    else CountStops(stops[1..], name, direction)
         + (if stops[0].routeName == name && stops[0].direction == direction then 1 else 0)
  }

  lemma {:induction false} StopsOfCount(stops: seq<Stop>, name: string, direction: int)
    ensures |StopsOf(stops, name, direction)| == CountStops(stops, name, direction)
  {
    if |stops| > 0 {
      StopsOfCount(stops[1..], name, direction);
    }
  }

  predicate AscendingSeq(s: seq<Stop>) {
    forall i, j :: 0 <= i < j < |s| ==> s[i].seqNo <= s[j].seqNo
  }

  function InsertBySeq(x: Stop, s: seq<Stop>): (r: seq<Stop>)
    ensures multiset(r) == multiset(s) + multiset{x}
  {
    if |s| == 0 || x.seqNo <= s[0].seqNo then [x] + s
    else
      assert s == [s[0]] + s[1..];
      [s[0]] + InsertBySeq(x, s[1..])
  }

  /** sort_values(seq_seq_col). Equal sequence numbers keep table order
      here; pandas' default sort does not promise that, and nothing proved
      here depends on it. */
  function SortBySeq(s: seq<Stop>): (r: seq<Stop>)
    ensures multiset(r) == multiset(s)
  {
    if |s| == 0 then []
    else
      assert s == [s[0]] + s[1..];
      InsertBySeq(s[0], SortBySeq(s[1..]))
  }

  lemma InsertBySeqMembers(x: Stop, s: seq<Stop>, q: Stop)
    requires q in InsertBySeq(x, s)
    ensures q == x || q in s
  {
    assert q in multiset(InsertBySeq(x, s));
  }

  lemma AscendingCons(h: Stop, rest: seq<Stop>)
    requires AscendingSeq(rest) && forall q :: q in rest ==> h.seqNo <= q.seqNo
    ensures AscendingSeq([h] + rest)
  {
    var r := [h] + rest;
    forall i, j | 0 <= i < j < |r| ensures r[i].seqNo <= r[j].seqNo {
      if i == 0 {
        assert r[j] in rest;
      } else {
        assert r[i] == rest[i - 1] && r[j] == rest[j - 1];
      }
    }
  }

  lemma AscendingTail(s: seq<Stop>)
    requires |s| > 0 && AscendingSeq(s)
    ensures AscendingSeq(s[1..]) && forall q :: q in s[1..] ==> s[0].seqNo <= q.seqNo
  {
    var tail := s[1..];
    forall i, j | 0 <= i < j < |tail| ensures tail[i].seqNo <= tail[j].seqNo {
      assert tail[i] == s[i + 1] && tail[j] == s[j + 1];
    }
    forall q | q in tail ensures s[0].seqNo <= q.seqNo {
      var k :| 0 <= k < |tail| && tail[k] == q;
      assert s[k + 1] == q;
    }
  }

  lemma {:induction false} InsertBySeqAscending(x: Stop, s: seq<Stop>)
    requires AscendingSeq(s)
    ensures AscendingSeq(InsertBySeq(x, s))
  {
    if |s| == 0 || x.seqNo <= s[0].seqNo {
      if |s| > 0 {
        AscendingTail(s);
        assert s == [s[0]] + s[1..];
      }
      AscendingCons(x, s);
    } else {
      AscendingTail(s);
      InsertBySeqAscending(x, s[1..]);
      var rest := InsertBySeq(x, s[1..]);
      forall q | q in rest ensures s[0].seqNo <= q.seqNo {
        InsertBySeqMembers(x, s[1..], q);
      }
      AscendingCons(s[0], rest);
    }
  }

  lemma {:induction false} SortBySeqAscending(s: seq<Stop>)
    ensures AscendingSeq(SortBySeq(s))
  {
    if |s| > 0 {
      SortBySeqAscending(s[1..]);
      InsertBySeqAscending(s[0], SortBySeq(s[1..]));
    }
  }

  /** The stops of a route, ascending by sequence number. */
  function RouteStops(route: Route, stops: seq<Stop>): seq<Stop> {
    SortBySeq(StopsOf(stops, route.name, route.direction))
  }

  /** Point((Lon, Lat)) of a stop row. */
  function StopPoint(s: Stop): Point {
    Point(s.lng, s.lat)
  }

  /** The segment between the i-th and (i+1)-th of the route's sorted stops. */
  function SegmentAt(route: Route, sorted: seq<Stop>, i: int, g: Geometry): Segment
    requires 0 <= i && i + 1 < |sorted|
  {
    Segment(route.name, route.direction, sorted[i].seqNo, sorted[i + 1].seqNo,
            g.substring(route.line, g.project(route.line, StopPoint(sorted[i])),
                                    g.project(route.line, StopPoint(sorted[i + 1]))))
  }

  /** The segments one route row contributes, in order of the pair index. */
  function RouteSegments(route: Route, stops: seq<Stop>, g: Geometry): seq<Segment> {
    PairSegments(route, RouteStops(route, stops), g)
  }

  /** One segment per pair of consecutive stops of a sorted stop list. */
  function PairSegments(route: Route, sorted: seq<Stop>, g: Geometry): seq<Segment> {
    seq(if |sorted| == 0 then 0 else |sorted| - 1,
        i requires 0 <= i && i + 1 < |sorted| => SegmentAt(route, sorted, i, g))
  }

  /** The segment list of a route row, as a function of the row. */
  function SegmentsOfRoute(stops: seq<Stop>, g: Geometry): Route -> seq<Segment> {
    route => RouteSegments(route, stops, g)
  }

  /** The per-row lists one after the other, in row order. */
  function ConcatMap(routes: seq<Route>, f: Route -> seq<Segment>): seq<Segment> {
    if |routes| == 0 then []
    else ConcatMap(routes[..|routes| - 1], f) + f(routes[|routes| - 1])
  }

  /** All segments: route rows in table order, each with its segments. */
  function AllSegments(routes: seq<Route>, stops: seq<Stop>, g: Geometry): seq<Segment> {
    ConcatMap(routes, SegmentsOfRoute(stops, g))
  }

  /** The body of the loop over route rows: select and sort the row's
      stops, then cut one segment per pair of consecutive stops. */
  method SplitRoute(route: Route, stops: seq<Stop>, g: Geometry) returns (segs: seq<Segment>)
    ensures segs == RouteSegments(route, stops, g)
  {
    var selected := RouteStops(route, stops);
    segs := CutPairs(route, selected, g);
  }

  /** The inner loop: the points of the sorted stops, and one substring of
      the route line per consecutive pair of them. */
  method CutPairs(route: Route, selected: seq<Stop>, g: Geometry) returns (segs: seq<Segment>)
    ensures segs == PairSegments(route, selected, g)
  {
    var coords := seq(|selected|, k requires 0 <= k < |selected| => StopPoint(selected[k]));
    ghost var target := PairSegments(route, selected, g);
    segs := [];
    var i := 0;
    while i + 1 < |coords|
      invariant 0 <= i <= |target|
      invariant segs == target[..i]
    {
      var startDistance := g.project(route.line, coords[i]);
      var endDistance := g.project(route.line, coords[i + 1]);
      var segment := g.substring(route.line, startDistance, endDistance);
      segs := segs + [Segment(route.name, route.direction,
                              selected[i].seqNo, selected[i + 1].seqNo, segment)];
      assert target[..i + 1] == target[..i] + [target[i]];
      i := i + 1;
    }
    assert target[..i] == target;
  }

  method SplitRoutes(routes: seq<Route>, stops: seq<Stop>, g: Geometry) returns (output: seq<Segment>)
    ensures output == AllSegments(routes, stops, g)
  {
    output := [];
    var r := 0;
    while r < |routes|
      invariant 0 <= r <= |routes|
      invariant output == AllSegments(routes[..r], stops, g)
    {
      var segs := SplitRoute(routes[r], stops, g);
      output := output + segs;
      ConcatMapStep(routes, r, SegmentsOfRoute(stops, g));
      assert SegmentsOfRoute(stops, g)(routes[r]) == segs;
      r := r + 1;
    }
    assert routes[..r] == routes;
  }

  lemma ConcatMapStep(routes: seq<Route>, r: int, f: Route -> seq<Segment>)
    requires 0 <= r < |routes|
    ensures ConcatMap(routes[..r + 1], f) == ConcatMap(routes[..r], f) + f(routes[r])
  {
    var prefix := routes[..r + 1];
    assert prefix[..r] == routes[..r];
    assert prefix[r] == routes[r];
  }

  /** A route row with k stops yields max(k - 1, 0) segments. */
  lemma RouteSegmentsCount(route: Route, stops: seq<Stop>, g: Geometry)
    ensures var k := CountStops(stops, route.name, route.direction);
            |RouteSegments(route, stops, g)| == if k == 0 then 0 else k - 1
  {
    StopsOfCount(stops, route.name, route.direction);
    var s := StopsOf(stops, route.name, route.direction);
    assert |multiset(RouteStops(route, stops))| == |multiset(s)|;
  }

  /** Segments of one route: its name and direction, consecutive stops in
      ascending sequence order, each ending where the next starts, and the
      geometry cut between the two stops' projected distances in that
      order. */
  lemma RouteSegmentsChain(route: Route, stops: seq<Stop>, g: Geometry, i: int)
    requires 0 <= i < |RouteSegments(route, stops, g)|
    ensures var segs := RouteSegments(route, stops, g);
            var sorted := RouteStops(route, stops);
            && i + 1 < |sorted|
            && segs[i].routeName == route.name && segs[i].direction == route.direction
            && sorted[i] in StopsOf(stops, route.name, route.direction)
            && sorted[i + 1] in StopsOf(stops, route.name, route.direction)
            && segs[i].startSeq == sorted[i].seqNo && segs[i].endSeq == sorted[i + 1].seqNo
            && segs[i].startSeq <= segs[i].endSeq
            && (i + 1 < |segs| ==> segs[i].endSeq == segs[i + 1].startSeq)
            && segs[i].line == g.substring(route.line, g.project(route.line, StopPoint(sorted[i])),
                                           g.project(route.line, StopPoint(sorted[i + 1])))
  {
    var sorted := RouteStops(route, stops);
    RouteStopsArePermutation(route, stops);
    PairSegmentsChain(route, sorted, g, i);
    assert sorted[i] in multiset(sorted) && sorted[i + 1] in multiset(sorted);
  }

  lemma PairSegmentsChain(route: Route, sorted: seq<Stop>, g: Geometry, i: int)
    requires AscendingSeq(sorted) && 0 <= i < |PairSegments(route, sorted, g)|
    ensures var segs := PairSegments(route, sorted, g);
            && i + 1 < |sorted|
            && segs[i] == SegmentAt(route, sorted, i, g)
            && segs[i].startSeq <= segs[i].endSeq
            && (i + 1 < |segs| ==> segs[i].endSeq == segs[i + 1].startSeq)
  {
  }

  /** The stops a route row works on: exactly its selected rows, ascending by sequence number. */
  lemma RouteStopsArePermutation(route: Route, stops: seq<Stop>)
    ensures multiset(RouteStops(route, stops)) == multiset(StopsOf(stops, route.name, route.direction))
    ensures AscendingSeq(RouteStops(route, stops))
  {
    SortBySeqAscending(StopsOf(stops, route.name, route.direction));
  }

  /** The output is the routes' segment lists one after the other, so
      adding a route row (a duplicate included) appends its segments. */
  lemma AllSegmentsAppend(rs1: seq<Route>, rs2: seq<Route>, stops: seq<Stop>, g: Geometry)
    ensures AllSegments(rs1 + rs2, stops, g) == AllSegments(rs1, stops, g) + AllSegments(rs2, stops, g)
  {
    ConcatMapAppend(rs1, rs2, SegmentsOfRoute(stops, g));
  }

  lemma {:induction false} ConcatMapAppend(rs1: seq<Route>, rs2: seq<Route>, f: Route -> seq<Segment>)
    ensures ConcatMap(rs1 + rs2, f) == ConcatMap(rs1, f) + ConcatMap(rs2, f)
  {
    if |rs2| == 0 {
      assert rs1 + rs2 == rs1;
    } else {
      var init := rs2[..|rs2| - 1];
      var all := rs1 + rs2;
      assert all[..|all| - 1] == rs1 + init;
      assert all[|all| - 1] == rs2[|rs2| - 1];
      ConcatMapAppend(rs1, init, f);
    }
  }

  /** The total number of segments is the sum over the route rows. */
  function SegmentCount(routes: seq<Route>, stops: seq<Stop>): nat {
    if |routes| == 0 then 0
    else
      var r := routes[|routes| - 1];
      var k := CountStops(stops, r.name, r.direction);
      SegmentCount(routes[..|routes| - 1], stops) + (if k == 0 then 0 else k - 1)
  }

  lemma {:induction false} AllSegmentsCount(routes: seq<Route>, stops: seq<Stop>, g: Geometry)
    ensures |AllSegments(routes, stops, g)| == SegmentCount(routes, stops)
  {
    if |routes| > 0 {
      AllSegmentsCount(routes[..|routes| - 1], stops, g);
      RouteSegmentsCount(routes[|routes| - 1], stops, g);
      assert SegmentsOfRoute(stops, g)(routes[|routes| - 1]) == RouteSegments(routes[|routes| - 1], stops, g);
    }
  }
}
