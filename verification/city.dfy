/**
 * The sample city of lines 13-36 (coordinates and weights scaled by 1e4),
 * and the route from Downtown Plaza (A) to Airport Terminal (G) that the
 * uniform-cost search reports on it.
 */
module City {
  import opened Graph
  import opened Paths
  import Navigator

  const CityNodes: seq<GraphNode> := [
    GraphNode("A", "Downtown Plaza", 407589, -739851, Landmark),
    GraphNode("B", "Central Station", 407505, -739934, Transport),
    GraphNode("C", "University Campus", 407282, -739942, Education),
    GraphNode("D", "Shopping District", 407614, -739776, Commercial),
    GraphNode("E", "Hospital", 407505, -739712, Medical),
    GraphNode("F", "Park Entrance", 407829, -739654, Recreation),
    GraphNode("G", "Airport Terminal", 407282, -739776, Transport),
    GraphNode("H", "Business Center", 407505, -739851, Commercial)
  ]

  const CityEdges: seq<GraphEdge> := [
    GraphEdge("A", "B", 12000),
    GraphEdge("A", "D", 8000),
    GraphEdge("A", "H", 5000),
    GraphEdge("B", "C", 21000),
    GraphEdge("B", "E", 15000),
    GraphEdge("C", "G", 18000),
    GraphEdge("D", "F", 23000),
    GraphEdge("D", "H", 11000),
    GraphEdge("E", "H", 13000),
    GraphEdge("F", "H", 20000),
    GraphEdge("H", "G", 17000)
  ]

  /**
   * `p` never drops across an edge by more than the edge's weight, read in
   * either direction.
   */
  ghost predicate Potential(edges: seq<GraphEdge>, p: map<string, nat>) {
    forall k :: 0 <= k < |edges| ==>
      && edges[k].from in p && edges[k].to in p
      && p[edges[k].from] <= edges[k].weight + p[edges[k].to]
      && p[edges[k].to] <= edges[k].weight + p[edges[k].from]
  }

  /** Crossing `e` from `a` to `b` drops `p` by exactly the weight of `e`. */
  ghost predicate TightStep(e: GraphEdge, p: map<string, nat>, a: string, b: string) {
    a in p && b in p && p[a] == e.weight + p[b]
  }

  /** Every step of the walk drops `p` by exactly the weight of the edge it uses. */
  ghost predicate TightWalk(edges: seq<GraphEdge>, p: map<string, nat>, path: seq<string>, es: seq<nat>)
    requires IsWalk(edges, path, es)
  {
    forall i :: 0 <= i < |es| ==> TightStep(edges[es[i]], p, path[i], path[i + 1])
  }

  /** One step across an edge lowers a potential by at most the edge's weight. */
  lemma StepPotential(edges: seq<GraphEdge>, p: map<string, nat>, k: nat, a: string, b: string)
    requires Potential(edges, p)
    requires k < |edges| && Joins(edges[k], a, b)
    ensures a in p && b in p && p[a] <= edges[k].weight + p[b]
  {
  }

  /** A walk costs at least the drop of a potential between its ends. */
  lemma {:induction false} WalkAbovePotential(edges: seq<GraphEdge>, p: map<string, nat>, path: seq<string>, es: seq<nat>)
    requires Potential(edges, p)
    requires IsWalk(edges, path, es) && path[0] in p
    ensures path[|path| - 1] in p
    ensures p[path[0]] <= WalkCost(edges, es) + p[path[|path| - 1]]
  {
    if es != [] {
      var n := |es|;
      WalkPrefix(edges, path, es);
      WalkAbovePotential(edges, p, path[..n], es[..n - 1]);
      assert path[..n][0] == path[0] && path[..n][n - 1] == path[n - 1];
      StepPotential(edges, p, es[n - 1], path[n - 1], path[n]);
    }
  }

  /** A walk that costs exactly the drop of a potential drops it by the full weight at every step. */
  lemma {:induction false} TightSteps(edges: seq<GraphEdge>, p: map<string, nat>, path: seq<string>, es: seq<nat>)
    requires Potential(edges, p)
    requires IsWalk(edges, path, es) && path[0] in p && path[|path| - 1] in p
    requires p[path[0]] == WalkCost(edges, es) + p[path[|path| - 1]]
    ensures TightWalk(edges, p, path, es)
  {
    if es != [] {
      var n := |es|;
      WalkPrefix(edges, path, es);
      var path', es' := path[..n], es[..n - 1];
      var a, b, w := path[n - 1], path[n], edges[es[n - 1]].weight;
      assert path'[0] == path[0] && path'[n - 1] == a;
      WalkAbovePotential(edges, p, path', es');
      StepPotential(edges, p, es[n - 1], a, b);
      assert p[path[0]] <= WalkCost(edges, es') + p[a] && p[a] <= w + p[b];
      assert WalkCost(edges, es) == WalkCost(edges, es') + w;
      assert p[path[0]] == WalkCost(edges, es') + p[a];
      assert TightStep(edges[es[n - 1]], p, a, b);
      TightSteps(edges, p, path', es');
      TightExtend(edges, p, path, es);
    }
  }

  /** A tight walk followed by a tight step is a tight walk. */
  lemma TightExtend(edges: seq<GraphEdge>, p: map<string, nat>, path: seq<string>, es: seq<nat>)
    requires IsWalk(edges, path, es) && es != []
    requires IsWalk(edges, path[..|es|], es[..|es| - 1]) && TightWalk(edges, p, path[..|es|], es[..|es| - 1])
    requires TightStep(edges[es[|es| - 1]], p, path[|es| - 1], path[|es|])
    ensures TightWalk(edges, p, path, es)
  {
    var n := |es|;
    var path', es' := path[..n], es[..n - 1];
    forall i | 0 <= i < n - 1
      ensures TightStep(edges[es[i]], p, path[i], path[i + 1])
    {
      assert path'[i] == path[i] && path'[i + 1] == path[i + 1] && es'[i] == es[i];
    }
  }

  /** The length of a shortest route to Airport Terminal from each node of the city. */
  const ToAirport: map<string, nat> := map[
    "A" := 22000, "B" := 34000, "C" := 18000, "D" := 28000,
    "E" := 30000, "F" := 37000, "G" := 0, "H" := 17000]

  lemma ToAirportPotential()
    ensures Potential(CityEdges, ToAirport)
  {
    forall k | 0 <= k < |CityEdges|
      ensures CityEdges[k].from in ToAirport && CityEdges[k].to in ToAirport
      ensures ToAirport[CityEdges[k].from] <= CityEdges[k].weight + ToAirport[CityEdges[k].to]
      ensures ToAirport[CityEdges[k].to] <= CityEdges[k].weight + ToAirport[CityEdges[k].from]
    {
    }
  }

  /**
   * The only edges of the city that drop `ToAirport` by their full weight
   * lead from A to H and from H to G when taken from A or H, and none leaves G.
   */
  lemma TightCityStep(k: nat, a: string, b: string)
    requires k < |CityEdges| && Joins(CityEdges[k], a, b)
    requires TightStep(CityEdges[k], ToAirport, a, b)
    ensures a == "A" ==> b == "H"
    ensures a == "H" ==> b == "G"
    ensures a != "G"
  {
  }

  /** The sample city is a valid graph: distinct ids, every edge between two of them. */
  lemma CityValid()
    ensures ValidGraph(CityNodes, CityEdges)
    ensures "A" in Ids(CityNodes) && "G" in Ids(CityNodes)
  {
    var ids := Ids(CityNodes);
    assert ids == ["A", "B", "C", "D", "E", "F", "G", "H"];
  }

  /**
   * No walk from A to G is cheaper than 22000, A-H-G costs that much, and a
   * walk from A to G of that cost is A-H-G.
   */
  lemma AirportRoute(path: seq<string>, es: seq<nat>)
    requires WalkBetween(CityEdges, path, es, "A", "G")
    ensures 22000 <= WalkCost(CityEdges, es)
    ensures WalkCost(CityEdges, es) == 22000 ==> path == ["A", "H", "G"]
  {
    ToAirportPotential();
    WalkAbovePotential(CityEdges, ToAirport, path, es);
    if WalkCost(CityEdges, es) == 22000 {
      TightSteps(CityEdges, ToAirport, path, es);
      assert |path| >= 2;
      TightCityStep(es[0], path[0], path[1]);
      assert |path| >= 3;
      TightCityStep(es[1], path[1], path[2]);
      if |path| > 3 {
        TightCityStep(es[2], path[2], path[3]);
        assert false;
      }
    }
  }

  /** A-H-G is a walk of cost 22000, so A reaches G at that cost. */
  lemma AirportReachable()
    ensures ShortestDistance(CityEdges, "A", "G", 22000)
  {
    var path, es := ["A", "H", "G"], [2, 10];
    assert es[..1] == [2] && es[..0] == [];
    assert WalkBetween(CityEdges, path, es, "A", "G") && WalkCost(CityEdges, es) == 22000;
    forall path', es' | WalkBetween(CityEdges, path', es', "A", "G")
      ensures 22000 <= WalkCost(CityEdges, es')
    {
      AirportRoute(path', es');
    }
  }

  /**
   * Whatever a search reports from A to G: a route is found, it is no
   * shorter than 22000, and one of exactly that length is A, H, G.
   */
  lemma AirportReport(path: seq<string>, distance: Cost)
    requires RouteReport(CityEdges, "A", "G", path, distance)
    ensures path != [] && distance.Fin? && 22000 <= distance.value
    ensures distance == Fin(22000) ==> path == ["A", "H", "G"]
  {
    AirportReachable();
    assert Reachable(CityEdges, "A", "G");
    var es :| IsWalk(CityEdges, path, es) && distance == Fin(WalkCost(CityEdges, es));
    AirportRoute(path, es);
  }

  /** A shortest route from A to G, as the uniform-cost search reports it, is A, H, G of length 22000. */
  lemma ShortestAirportReport(path: seq<string>, distance: Cost)
    requires RouteReport(CityEdges, "A", "G", path, distance)
    requires distance.Fin? ==> ShortestDistance(CityEdges, "A", "G", distance.value)
    ensures path == ["A", "H", "G"] && distance == Fin(22000)
  {
    AirportReport(path, distance);
    var es: seq<nat> := [2, 10];
    assert es[..1] == [2] && es[..0] == [];
    assert WalkBetween(CityEdges, ["A", "H", "G"], es, "A", "G") && WalkCost(CityEdges, es) == 22000;
  }

  /**
   * Selecting Downtown Plaza and Airport Terminal with "dijkstra" reports
   * the route A, H, G of length 0.5 + 1.7 (22000 scaled).
   */
  method UniformAirportRoute() returns (result: Option<PathResult>)
    ensures result.Some? && result.value.path == ["A", "H", "G"] && result.value.distance == Fin(22000)
  {
    CityValid();
    result := Navigator.CalculatePath(CityNodes, CityEdges, Dijkstra, Some("A"), Some("G"));
    ShortestAirportReport(result.value.path, result.value.distance);
  }

  /**
   * The same selection with "astar" also finds a route, and it is no shorter
   * than the uniform-cost one.
   */
  method HeuristicAirportRoute() returns (result: Option<PathResult>)
    ensures result.Some? && result.value.path != [] && result.value.distance.Fin?
    ensures result.Some? && result.value.distance.Fin? ==> 22000 <= result.value.distance.value
  {
    CityValid();
    result := Navigator.CalculatePath(CityNodes, CityEdges, AStar, Some("A"), Some("G"));
    AirportReport(result.value.path, result.value.distance);
  }
}
