/**
 * `calculatePath`: nothing happens until both a start and an end are
 * selected; then the selected algorithm runs from the start to the end.
 */
module Navigator {
  import opened Graph
  import opened Paths
  import UniformCost
  import HeuristicSearch

  /**
   * `selectedStart` and `selectedEnd` hold `string | null`, and the guard
   * `!selectedStart || !selectedEnd` treats `null` and the empty string
   * alike as "nothing selected".
   */
  predicate Selected(choice: Option<string>): (r: bool)
    ensures choice.None? ==> !r
    ensures choice == Some("") ==> !r
    ensures choice.Some? && |choice.value| > 0 ==> r
  {
    choice.Some? && choice.value != ""
  }

  /**
   * Lines 55 and 62-65: with both ids selected, `dijkstraAlgorithm` or
   * `astarAlgorithm` is run on them according to the tag, and its result
   * becomes the new `pathResult`; otherwise there is no result. The
   * selections come from the node list, so a selected id is a node id.
   */
  method CalculatePath(nodes: seq<GraphNode>, edges: seq<GraphEdge>, algorithm: Algorithm,
                       selectedStart: Option<string>, selectedEnd: Option<string>)
    returns (result: Option<PathResult>)
    requires ValidGraph(nodes, edges)
    requires Selected(selectedStart) ==> selectedStart.value in Ids(nodes)
    requires Selected(selectedEnd) ==> selectedEnd.value in Ids(nodes)
    ensures result.None? <==> !Selected(selectedStart) || !Selected(selectedEnd)
    ensures result.Some? ==>
      var r, start, end := result.value, selectedStart.value, selectedEnd.value;
      && r.algorithm == algorithm
      && r.steps == |r.visitedOrder|
      && (forall n :: n in r.visitedOrder ==> n in Ids(nodes))
      && (r.visitedOrder != [] ==> r.visitedOrder[0] == start)
      && RouteReport(edges, start, end, r.path, r.distance)
      && (algorithm == Dijkstra && r.distance.Fin? ==> ShortestDistance(edges, start, end, r.distance.value))
  {
    if !Selected(selectedStart) || !Selected(selectedEnd) {
      return None;
    }
    var start, end := selectedStart.value, selectedEnd.value;
    var r: PathResult;
    if algorithm == Dijkstra {
      ghost var shortest;
      r, shortest := UniformCost.DijkstraAlgorithm(nodes, edges, start, end);
    } else {
      r := HeuristicSearch.AStarAlgorithm(nodes, edges, start, end);
    }
    result := Some(r);
  }
}
