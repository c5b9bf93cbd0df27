/** Day 18: a droplet of unit cubes; the cubes joined face to face as a graph, and the
  * surface area the faces left uncovered make up. */
module Day18 {
  import opened Wrappers
  import opened Text
  import opened Seqs
  import opened Sets

  type Point = (int, int, int)

  // ---------------------------------------------------------------------
  // Parsing (`parse`).

  /** One line `x,y,z`: the first three comma-separated pieces as `u32`; further pieces are
    * never read. */
  function ParseCube(line: string): Option<Point>
  {
    CubeOf(Split(line, ','))
  }

  /** The pieces `parts.next()` yields, read as a cube. */
  function CubeOf(parts: seq<string>): Option<Point>
  {
    if |parts| < 3 then None
    else
      var x := ParseUnsigned(parts[0], U32);
      var y := ParseUnsigned(parts[1], U32);
      var z := ParseUnsigned(parts[2], U32);
      if x.None? || y.None? || z.None? then None else Some((x.value, y.value, z.value))
  }

  function RenderCube(p: Point): string
    requires p.0 >= 0 && p.1 >= 0 && p.2 >= 0
  {
    Join([Decimal(p.0), Decimal(p.1), Decimal(p.2)], ',')
  }

  /** A cube written as `x,y,z` with coordinates below 2^32 parses back to itself. */
  lemma ParseRenderCube(p: Point)
    requires 0 <= p.0 < U32 && 0 <= p.1 < U32 && 0 <= p.2 < U32
    ensures ParseCube(RenderCube(p)) == Some(p)
  {
    var ps := [Decimal(p.0), Decimal(p.1), Decimal(p.2)];
    forall i | 0 <= i < |ps|
      ensures ',' !in ps[i]
    {
    }
    SplitJoin(ps, ',');
    DecimalRoundTrip(p.0, U32);
    DecimalRoundTrip(p.1, U32);
    DecimalRoundTrip(p.2, U32);
  }

  // ---------------------------------------------------------------------
  // The graph (`points_to_graph`).

  function Abs(n: int): nat
  {
    if n < 0 then -n else n
  }

  /** The source's test: two coordinates agree and the third differs by exactly 1. */
  predicate Adjacent(p: Point, q: Point)
  {
    (p.0 == q.0 && p.1 == q.1 && Abs(p.2 - q.2) == 1) ||
    (p.0 == q.0 && p.2 == q.2 && Abs(p.1 - q.1) == 1) ||
    (p.1 == q.1 && p.2 == q.2 && Abs(p.0 - q.0) == 1)
  }

  /** Two cubes are joined exactly when they share a face: their Manhattan distance is 1.
    * The relation is symmetric and never joins a cube to itself. */
  lemma AdjacentSpec(p: Point, q: Point)
    ensures Adjacent(p, q) <==> Abs(p.0 - q.0) + Abs(p.1 - q.1) + Abs(p.2 - q.2) == 1
    ensures Adjacent(p, q) <==> Adjacent(q, p)
    ensures Adjacent(p, q) ==> p != q
  {
  }

  /** The undirected graph: the nodes in insertion order (an `UnGraphMap` keeps them in that
    * order), and each edge as both of its orientations. */
  datatype Graph = Graph(nodes: seq<Point>, adj: set<(Point, Point)>)

  /** The graph `points_to_graph` builds: every distinct point once, and an edge between any two
    * of them that are adjacent. */
  function GraphOf(points: seq<Point>): Graph
  {
    Graph(Unique(points), set p, q | p in points && q in points && Adjacent(p, q) :: (p, q))
  }

  /** The pair at positions `a` and `b` makes the edge `e` in the one or the other orientation. */
  predicate MakesEdge(points: seq<Point>, a: int, b: int, e: (Point, Point))
    requires 0 <= a < |points| && 0 <= b < |points|
  {
    Adjacent(points[a], points[b]) && (e == (points[a], points[b]) || e == (points[b], points[a]))
  }

  /** The edges made by the pairs whose first position is below `i`. */
  ghost predicate Joined(points: seq<Point>, i: int, e: (Point, Point))
  {
    exists a, b :: 0 <= a < i && a < b < |points| && MakesEdge(points, a, b, e)
  }

  /** `points_to_graph`. */
  method PointsToGraph(points: seq<Point>) returns (g: Graph)
    ensures g == GraphOf(points)
  {
    var nodes: seq<Point> := [];
    for i := 0 to |points|
      invariant nodes == Unique(points[..i])
    {
      assert points[..i + 1][..i] == points[..i];
      if points[i] !in nodes {
        nodes := nodes + [points[i]];
      }
    }
    assert points[..|points|] == points;
    var adj: set<(Point, Point)> := {};
    for i := 0 to |points|
      invariant forall e :: e in adj <==> Joined(points, i, e)
    {
      adj := JoinFrom(points, i, adj);
    }
    forall e
      ensures e in adj <==> e in GraphOf(points).adj
    {
      JoinedAll(points, e);
    }
    g := Graph(nodes, adj);
  }

  /** The inner loop of `points_to_graph` for the point at position `i`. */
  method JoinFrom(points: seq<Point>, i: int, adj: set<(Point, Point)>) returns (adj': set<(Point, Point)>)
    requires 0 <= i < |points|
    requires forall e :: e in adj <==> Joined(points, i, e)
    ensures forall e :: e in adj' <==> Joined(points, i + 1, e)
  {
    adj' := adj;
    var point := points[i];
    for j := i + 1 to |points|
      invariant forall e :: e in adj' <==> Joined(points, i, e) || exists b :: i < b < j && MakesEdge(points, i, b, e)
    {
      var other := points[j];
      AdjacentSpec(point, other);
      ghost var before := adj';
      if point != other && Adjacent(point, other) {
        adj' := adj' + {(point, other), (other, point)};
      }
      forall e
        ensures e in adj' <==> e in before || MakesEdge(points, i, j, e)
        ensures (exists b :: i < b < j + 1 && MakesEdge(points, i, b, e)) <==>
          (exists b :: i < b < j && MakesEdge(points, i, b, e)) || MakesEdge(points, i, j, e)
      {
      }
    }
    forall e
      ensures Joined(points, i + 1, e) <==> Joined(points, i, e) || exists b :: i < b < |points| && MakesEdge(points, i, b, e)
    {
      if Joined(points, i + 1, e) {
        var a, b :| 0 <= a < i + 1 && a < b < |points| && MakesEdge(points, a, b, e);
      }
    }
  }

  /** Once every position has been the first of a pair, the edges are exactly the adjacent pairs
    * of points. */
  lemma JoinedAll(points: seq<Point>, e: (Point, Point))
    ensures Joined(points, |points|, e) <==> e in GraphOf(points).adj
  {
    if e in GraphOf(points).adj {
      var a :| 0 <= a < |points| && points[a] == e.0;
      var b :| 0 <= b < |points| && points[b] == e.1;
      AdjacentSpec(e.0, e.1);
      if a < b {
        assert MakesEdge(points, a, b, e);
      } else {
        assert a != b;
        assert MakesEdge(points, b, a, e);
      }
    }
  }

  // ---------------------------------------------------------------------
  // part_one.

  /** `graph.edges(node).count()`: the edges at the node. */
  function Degree(g: Graph, p: Point): nat
  {
    |set e | e in g.adj && e.0 == p|
  }

  /** The six cubes that share a face with `p`. */
  function FaceNeighbours(p: Point): set<Point>
  {
    {(p.0 + 1, p.1, p.2), (p.0 - 1, p.1, p.2), (p.0, p.1 + 1, p.2),
     (p.0, p.1 - 1, p.2), (p.0, p.1, p.2 + 1), (p.0, p.1, p.2 - 1)}
  }

  /** No cube has more than six neighbours, so `6 - degree` never underflows. */
  lemma DegreeAtMostSix(points: seq<Point>, p: Point)
    ensures Degree(GraphOf(points), p) <= 6
  {
    var g := GraphOf(points);
    var n := FaceNeighbours(p);
    var edges := set e | e in g.adj && e.0 == p;
    var six := {(p, (p.0 + 1, p.1, p.2)), (p, (p.0 - 1, p.1, p.2)), (p, (p.0, p.1 + 1, p.2)),
                (p, (p.0, p.1 - 1, p.2)), (p, (p.0, p.1, p.2 + 1)), (p, (p.0, p.1, p.2 - 1))};
    forall e | e in edges
      ensures e in six
    {
      AdjacentSpec(e.0, e.1);
    }
    SubsetCard(edges, six);
  }

  /** The faces the nodes `ns` leave uncovered: six per cube, less one per edge. */
  function Free(g: Graph, ns: seq<Point>): int
  {
    if ns == [] then 0 else Free(g, ns[..|ns| - 1]) + (6 - Degree(g, ns[|ns| - 1]))
  }

  /** The edges starting at one of the nodes `ns`. */
  ghost function EdgesFrom(g: Graph, ns: seq<Point>): set<(Point, Point)>
  {
    set e | e in g.adj && e.0 in ns
  }

  /** Over distinct nodes, the uncovered faces are six per node less the edges leaving them. */
  lemma {:induction false} FreeCount(g: Graph, ns: seq<Point>)
    requires Distinct(ns)
    ensures Free(g, ns) == 6 * |ns| - |EdgesFrom(g, ns)|
  {
    if ns != [] {
      var init := ns[..|ns| - 1];
      var p := ns[|ns| - 1];
      assert Distinct(init);
      FreeCount(g, init);
      var at := set e | e in g.adj && e.0 == p;
      assert p !in init;
      assert EdgesFrom(g, ns) == EdgesFrom(g, init) + at;
      assert EdgesFrom(g, init) * at == {};
    }
  }

  /** The droplet's surface area: six faces per cube, less one face for each side of each
    * edge; no term goes below zero. */
  lemma SurfaceCount(points: seq<Point>)
    ensures forall i :: 0 <= i < |GraphOf(points).nodes| ==> Degree(GraphOf(points), GraphOf(points).nodes[i]) <= 6
    ensures Free(GraphOf(points), GraphOf(points).nodes) == 6 * |GraphOf(points).nodes| - |GraphOf(points).adj|
  {
    var g := GraphOf(points);
    forall i | 0 <= i < |g.nodes|
      ensures Degree(g, g.nodes[i]) <= 6
    {
      DegreeAtMostSix(points, g.nodes[i]);
    }
    FreeCount(g, g.nodes);
    assert EdgesFrom(g, g.nodes) == g.adj;
  }

  /** part_one: the surface area, `None` when a line fails to parse. */
  method PartOne(lines: seq<string>) returns (r: Option<int>)
    ensures r.Some? <==> ParseAll(lines, ParseCube).Some?
    ensures r.Some? ==> var g := GraphOf(ParseAll(lines, ParseCube).value); r.value == 6 * |g.nodes| - |g.adj|
  {
    var points := ParseLines(lines, ParseCube);
    if points.None? {
      return None;
    }
    var graph := PointsToGraph(points.value);
    SurfaceCount(points.value);
    return Some(Free(graph, graph.nodes));
  }

  // ---------------------------------------------------------------------
  // find_inverted_graph.

  /** The fold of the largest coordinates, starting from (0, 0, 0). */
  function Maxima(ns: seq<Point>): (m: Point)
    ensures m.0 >= 0 && m.1 >= 0 && m.2 >= 0
  {
    if ns == [] then (0, 0, 0)
    else
      var m := Maxima(ns[..|ns| - 1]);
      var p := ns[|ns| - 1];
      (if p.0 > m.0 then p.0 else m.0, if p.1 > m.1 then p.1 else m.1, if p.2 > m.2 then p.2 else m.2)
  }

  /** Each maximum bounds the nodes' coordinates and is 0 or some node's coordinate. */
  lemma {:induction false} MaximaSpec(ns: seq<Point>)
    ensures var m := Maxima(ns);
      forall i :: 0 <= i < |ns| ==> ns[i].0 <= m.0 && ns[i].1 <= m.1 && ns[i].2 <= m.2
    ensures var m := Maxima(ns); m.0 == 0 || exists i :: 0 <= i < |ns| && ns[i].0 == m.0
    ensures var m := Maxima(ns); m.1 == 0 || exists i :: 0 <= i < |ns| && ns[i].1 == m.1
    ensures var m := Maxima(ns); m.2 == 0 || exists i :: 0 <= i < |ns| && ns[i].2 == m.2
  {
    if ns != [] {
      var init := ns[..|ns| - 1];
      MaximaSpec(init);
      assert forall i :: 0 <= i < |init| ==> init[i] == ns[i];
    }
  }

  /** The points `(x, y, z)` with `z < n` missing from `nodes`, in order of `z`. */
  function Column(x: int, y: int, n: nat, nodes: seq<Point>): (r: seq<Point>)
    ensures forall p :: p in r <==> p.0 == x && p.1 == y && 0 <= p.2 < n && p !in nodes
  {
    if n == 0 then []
    else
      var prev := Column(x, y, n - 1, nodes);
      var q := (x, y, n - 1);
      var last := if q in nodes then [] else [q];
      assert forall p :: p in prev + last <==> p in prev || p in last;
      prev + last
  }

  /** The missing points `(x, y, z)` with `y < n` and `z <= mz`. */
  function Plane(x: int, n: nat, mz: nat, nodes: seq<Point>): (r: seq<Point>)
    ensures forall p :: p in r <==> p.0 == x && 0 <= p.1 < n && 0 <= p.2 <= mz && p !in nodes
  {
    if n == 0 then []
    else
      var prev := Plane(x, n - 1, mz, nodes);
      var last := Column(x, n - 1, mz + 1, nodes);
      assert forall p :: p in prev + last <==> p in prev || p in last;
      prev + last
  }

  /** The missing points with `x < n`, `y <= my` and `z <= mz`: exactly the grid points of
    * `0..n` by `0..=my` by `0..=mz` that are not nodes. */
  function Box(n: nat, my: nat, mz: nat, nodes: seq<Point>): (r: seq<Point>)
    ensures forall p :: p in r <==> 0 <= p.0 < n && 0 <= p.1 <= my && 0 <= p.2 <= mz && p !in nodes
  {
    if n == 0 then []
    else
      var prev := Box(n - 1, my, mz, nodes);
      var last := Plane(n - 1, my + 1, mz, nodes);
      assert forall p :: p in prev + last <==> p in prev || p in last;
      prev + last
  }

  /** The triple loop of `find_inverted_graph`, over the box up to the maxima `m`. */
  method InvertedPoints(g: Graph) returns (points: seq<Point>)
    ensures points == Box(Maxima(g.nodes).0 + 1, Maxima(g.nodes).1, Maxima(g.nodes).2, g.nodes)
  {
    points := PushBox(g.nodes, Maxima(g.nodes));
  }

  /** The outer loop, over `0..=m.0`. */
  method PushBox(nodes: seq<Point>, m: Point) returns (points: seq<Point>)
    requires m.0 >= 0 && m.1 >= 0 && m.2 >= 0
    ensures points == Box(m.0 + 1, m.1, m.2, nodes)
  {
    points := [];
    for x := 0 to m.0 + 1
      invariant points == Box(x, m.1, m.2, nodes)
    {
      points := PushPlane(points, x, m.1, m.2, nodes);
    }
  }

  /** The middle loop, for one `x`. */
  method PushPlane(points: seq<Point>, x: int, maxY: nat, maxZ: nat, nodes: seq<Point>) returns (points': seq<Point>)
    ensures points' == points + Plane(x, maxY + 1, maxZ, nodes)
  {
    points' := points;
    for y := 0 to maxY + 1
      invariant points' == points + Plane(x, y, maxZ, nodes)
    {
      AppendAssoc(points, Plane(x, y, maxZ, nodes), Column(x, y, maxZ + 1, nodes));
      points' := PushColumn(points', x, y, maxZ, nodes);
    }
  }

  /** The inner loop, for one `x` and `y`. */
  method PushColumn(points: seq<Point>, x: int, y: int, maxZ: nat, nodes: seq<Point>) returns (points': seq<Point>)
    ensures points' == points + Column(x, y, maxZ + 1, nodes)
  {
    points' := points;
    for z := 0 to maxZ + 1
      invariant points' == points + Column(x, y, z, nodes)
    {
      if (x, y, z) !in nodes {
        AppendAssoc(points, Column(x, y, z, nodes), [(x, y, z)]);
        points' := points' + [(x, y, z)];
      } else {
        assert Column(x, y, z + 1, nodes) == Column(x, y, z, nodes) + [];
      }
    }
  }

  /** `find_inverted_graph`: the graph of the grid points from the origin up to the largest
    * coordinates that are not cubes of the droplet. */
  method FindInvertedGraph(g: Graph) returns (inverted: Graph)
    ensures var m := Maxima(g.nodes);
      forall p :: p in inverted.nodes <==> 0 <= p.0 <= m.0 && 0 <= p.1 <= m.1 && 0 <= p.2 <= m.2 && p !in g.nodes
    ensures inverted == GraphOf(Box(Maxima(g.nodes).0 + 1, Maxima(g.nodes).1, Maxima(g.nodes).2, g.nodes))
  {
    var points := InvertedPoints(g);
    inverted := PointsToGraph(points);
  }
}
