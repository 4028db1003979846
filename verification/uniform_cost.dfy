/**
 * Uniform-cost search (`dijkstraAlgorithm`, app/page.tsx:71-129): finalise the
 * unvisited node of least distance, stop when that distance is +Infinity or
 * the node is `end`, otherwise relax every edge touching it.
 */
module UniformCost {
  import opened Graph
  import opened Frontier
  import opened Paths

  /**
   * From every node of `settled`, each edge to a node outside `visited` has
   * been relaxed: the far end's distance is at most the near end's plus the
   * edge's weight.
   */
  ghost predicate RelaxedFrom(edges: seq<GraphEdge>, settled: set<string>, visited: set<string>, distances: map<string, Cost>) {
    forall v, k :: v in settled && 0 <= k < |edges| && Touches(edges[k], v) && Neighbour(edges[k], v) !in visited ==>
      && v in distances && distances[v].Fin? && Neighbour(edges[k], v) in distances
      && AtMost(distances[Neighbour(edges[k], v)], Fin(distances[v].value + edges[k].weight))
  }

  /** Both endpoints of every edge have an entry in `score`. */
  ghost predicate EndpointsScored(edges: seq<GraphEdge>, score: map<string, Cost>) {
    forall k :: 0 <= k < |edges| ==> edges[k].from in score && edges[k].to in score
  }

  /**
   * The tables went from (`distances`, `previous`, `via`) to
   * (`distances'`, `previous'`, `via'`) by lowering the nodes of `lowered`
   * only, none of them finalised: each got a strictly smaller distance,
   * namely `distances[current]` plus the weight of an edge joining it to
   * `current`, which became its predecessor.
   */
  ghost predicate LoweredFrom(edges: seq<GraphEdge>, current: string, visited: set<string>,
                              distances: map<string, Cost>, previous: map<string, Option<string>>, via: map<string, nat>,
                              distances': map<string, Cost>, previous': map<string, Option<string>>, via': map<string, nat>,
                              lowered: set<string>)
    requires current in distances && distances[current].Fin?
  {
    && distances'.Keys == distances.Keys && previous.Keys == distances.Keys && previous'.Keys == distances.Keys
    && (forall n :: n in lowered ==> n in distances && n !in visited)
    && (forall n :: n in distances && n !in lowered ==>
          distances'[n] == distances[n] && previous'[n] == previous[n] && (n in via ==> n in via' && via'[n] == via[n]))
    && (forall n :: n in lowered ==>
          && Below(distances'[n], distances[n]) && previous'[n] == Some(current)
          && n in via' && via'[n] < |edges| && Joins(edges[via'[n]], current, n)
          && distances'[n] == Fin(distances[current].value + edges[via'[n]].weight))
  }

  /**
   * Relaxing the edges `lo..hi` from `current` lowered the nodes of `lowered`
   * as above, raised no distance, and left no edge of the range able to
   * lower a distance any further.
   */
  ghost predicate Relaxed(edges: seq<GraphEdge>, lo: nat, hi: nat, current: string, visited: set<string>,
                          distances: map<string, Cost>, previous: map<string, Option<string>>, via: map<string, nat>,
                          distances': map<string, Cost>, previous': map<string, Option<string>>, via': map<string, nat>,
                          lowered: set<string>)
    requires current in distances && distances[current].Fin?
  {
    && lo <= hi <= |edges|
    && LoweredFrom(edges, current, visited, distances, previous, via, distances', previous', via', lowered)
    && (forall n :: n in distances ==> n in distances' && AtMost(distances'[n], distances[n]))
    && (forall k :: lo <= k < hi && Touches(edges[k], current) && Neighbour(edges[k], current) !in visited ==>
          Neighbour(edges[k], current) in distances' &&
          AtMost(distances'[Neighbour(edges[k], current)], Fin(distances[current].value + edges[k].weight)))
  }

  /** Relaxing `lo..mid` and then `mid..hi` is relaxing `lo..hi`. */
  lemma RelaxedCompose(edges: seq<GraphEdge>, lo: nat, mid: nat, hi: nat, current: string, visited: set<string>,
                       d0: map<string, Cost>, p0: map<string, Option<string>>, v0: map<string, nat>,
                       d1: map<string, Cost>, p1: map<string, Option<string>>, v1: map<string, nat>,
                       d2: map<string, Cost>, p2: map<string, Option<string>>, v2: map<string, nat>,
                       l1: set<string>, l2: set<string>)
    requires current in visited && current in d0 && d0[current].Fin?
    requires Relaxed(edges, lo, mid, current, visited, d0, p0, v0, d1, p1, v1, l1)
    requires current in d1 && d1[current] == d0[current]
    requires Relaxed(edges, mid, hi, current, visited, d1, p1, v1, d2, p2, v2, l2)
    ensures Relaxed(edges, lo, hi, current, visited, d0, p0, v0, d2, p2, v2, l1 + l2)
  {
    LoweredCompose(edges, current, visited, d0, p0, v0, d1, p1, v1, d2, p2, v2, l1, l2);
    forall k | lo <= k < hi && Touches(edges[k], current) && Neighbour(edges[k], current) !in visited
      ensures Neighbour(edges[k], current) in d2
      ensures AtMost(d2[Neighbour(edges[k], current)], Fin(d0[current].value + edges[k].weight))
    {
      var n := Neighbour(edges[k], current);
      if k < mid {
        assert AtMost(d1[n], Fin(d0[current].value + edges[k].weight));
        assert AtMost(d2[n], d1[n]);
      }
    }
  }

  /** Lowering some nodes and then some more lowers their union. */
  lemma LoweredCompose(edges: seq<GraphEdge>, current: string, visited: set<string>,
                       d0: map<string, Cost>, p0: map<string, Option<string>>, v0: map<string, nat>,
                       d1: map<string, Cost>, p1: map<string, Option<string>>, v1: map<string, nat>,
                       d2: map<string, Cost>, p2: map<string, Option<string>>, v2: map<string, nat>,
                       l1: set<string>, l2: set<string>)
    requires current in visited && current in d0 && d0[current].Fin?
    requires LoweredFrom(edges, current, visited, d0, p0, v0, d1, p1, v1, l1)
    requires current in d1 && d1[current] == d0[current]
    requires LoweredFrom(edges, current, visited, d1, p1, v1, d2, p2, v2, l2)
    ensures LoweredFrom(edges, current, visited, d0, p0, v0, d2, p2, v2, l1 + l2)
  {
    forall n | n in l2
      ensures Below(d2[n], d0[n])
    {
      assert Below(d2[n], d1[n]);
      if n in l1 {
        assert Below(d1[n], d0[n]);
      }
    }
  }

  /**
   * The callback of lines 102-110 for `edges[j]`, as a relation between the
   * tables before and after it.
   */
  ghost predicate Callback(edges: seq<GraphEdge>, j: nat, current: string, visited: set<string>,
                           distances: map<string, Cost>, previous: map<string, Option<string>>, via: map<string, nat>,
                           distances': map<string, Cost>, previous': map<string, Option<string>>, via': map<string, nat>,
                           lowered: set<string>)
    requires j < |edges| && current in distances && distances[current].Fin?
    requires EndpointsScored(edges, distances)
  {
    var n := Neighbour(edges[j], current);
    var d := Fin(distances[current].value + edges[j].weight);
    if Touches(edges[j], current) && n !in visited && Below(d, distances[n]) then
      distances' == distances[n := d] && previous' == previous[n := Some(current)] && via' == via[n := j] && lowered == {n}
    else
      distances' == distances && previous' == previous && via' == via && lowered == {}
  }

  /** The callback for one edge relaxes that edge, lowering at most its far end. */
  lemma CallbackRelaxes(edges: seq<GraphEdge>, j: nat, current: string, visited: set<string>,
                        distances: map<string, Cost>, previous: map<string, Option<string>>, via: map<string, nat>,
                        distances': map<string, Cost>, previous': map<string, Option<string>>, via': map<string, nat>,
                        lowered: set<string>)
    requires j < |edges| && current in distances && distances[current].Fin?
    requires EndpointsScored(edges, distances) && previous.Keys == distances.Keys
    requires Callback(edges, j, current, visited, distances, previous, via, distances', previous', via', lowered)
    ensures Relaxed(edges, j, j + 1, current, visited, distances, previous, via, distances', previous', via', lowered)
    ensures lowered <= {Neighbour(edges[j], current)} && (lowered != {} ==> Touches(edges[j], current))
    ensures forall n :: n in lowered ==> n in via' && via'[n] == j
  {
    var n := Neighbour(edges[j], current);
    if Touches(edges[j], current) && n !in visited && Below(Fin(distances[current].value + edges[j].weight), distances[n]) {
      LowerOne(edges, j, current, visited, distances, previous, via, n);
    } else {
      KeepAll(edges, j, current, visited, distances, previous, via);
    }
  }

  /**
   * The callback of lines 102-110 for one edge: when the edge touches
   * `current` and its far end is not finalised, lower the far end's distance
   * to `distances[current] + weight` if that is strictly smaller, and record
   * `current` (and, for the proof, the edge) as its predecessor.
   */
  method RelaxEdge(edges: seq<GraphEdge>, j: nat, current: string, visited: set<string>,
                   distances: map<string, Cost>, previous: map<string, Option<string>>, ghost via: map<string, nat>)
    returns (distances': map<string, Cost>, previous': map<string, Option<string>>,
             ghost via': map<string, nat>, ghost lowered: set<string>)
    requires j < |edges|
    requires current in visited && current in distances && distances[current].Fin?
    requires EndpointsScored(edges, distances)
    requires previous.Keys == distances.Keys
    ensures Relaxed(edges, j, j + 1, current, visited, distances, previous, via, distances', previous', via', lowered)
    ensures lowered <= {Neighbour(edges[j], current)} && (lowered != {} ==> Touches(edges[j], current))
    ensures forall n :: n in lowered ==> n in via' && via'[n] == j
  {
    distances', previous', via', lowered := distances, previous, via, {};
    var edge := edges[j];
    if Touches(edge, current) {
      var neighbour := Neighbour(edge, current);
      if neighbour !in visited {
        var newDistance := Fin(distances[current].value + edge.weight);
        if Below(newDistance, distances[neighbour]) {
          distances' := distances[neighbour := newDistance];
          previous' := previous[neighbour := Some(current)];
          via', lowered := via[neighbour := j], {neighbour};
        }
      }
    }
    assert Callback(edges, j, current, visited, distances, previous, via, distances', previous', via', lowered);
    CallbackRelaxes(edges, j, current, visited, distances, previous, via, distances', previous', via', lowered);
  }

  /** An edge that offers no improvement leaves every table as it was. */
  lemma KeepAll(edges: seq<GraphEdge>, j: nat, current: string, visited: set<string>,
                distances: map<string, Cost>, previous: map<string, Option<string>>, via: map<string, nat>)
    requires j < |edges| && current in distances && distances[current].Fin?
    requires previous.Keys == distances.Keys
    requires Touches(edges[j], current) && Neighbour(edges[j], current) !in visited ==>
      Neighbour(edges[j], current) in distances &&
      AtMost(distances[Neighbour(edges[j], current)], Fin(distances[current].value + edges[j].weight))
    ensures Relaxed(edges, j, j + 1, current, visited, distances, previous, via, distances, previous, via, {})
  {
  }

  /** An edge that offers a strictly shorter route lowers its far end and links it to `current`. */
  lemma LowerOne(edges: seq<GraphEdge>, j: nat, current: string, visited: set<string>,
                 distances: map<string, Cost>, previous: map<string, Option<string>>, via: map<string, nat>,
                 n: string)
    requires j < |edges| && current in distances && distances[current].Fin?
    requires previous.Keys == distances.Keys
    requires Touches(edges[j], current) && n == Neighbour(edges[j], current) && n !in visited && n in distances
    requires Below(Fin(distances[current].value + edges[j].weight), distances[n])
    ensures var d := Fin(distances[current].value + edges[j].weight);
      Relaxed(edges, j, j + 1, current, visited, distances, previous, via,
              distances[n := d], previous[n := Some(current)], via[n := j], {n})
  {
    NeighbourJoins(edges[j], current, n);
  }

  /**
   * The relaxation of lines 100-111: every edge is offered to the callback in
   * edge-list order.
   */
  method RelaxEdges(edges: seq<GraphEdge>, current: string, visited: set<string>,
                    distances: map<string, Cost>, previous: map<string, Option<string>>, ghost via: map<string, nat>)
    returns (distances': map<string, Cost>, previous': map<string, Option<string>>,
             ghost via': map<string, nat>, ghost lowered: set<string>)
    requires current in visited && current in distances && distances[current].Fin?
    requires EndpointsScored(edges, distances)
    requires previous.Keys == distances.Keys
    ensures Relaxed(edges, 0, |edges|, current, visited, distances, previous, via, distances', previous', via', lowered)
  {
    distances', previous', via', lowered := distances, previous, via, {};
    for j := 0 to |edges|
      invariant Relaxed(edges, 0, j, current, visited, distances, previous, via, distances', previous', via', lowered)
    {
      ghost var step: set<string>;
      var d, p := distances', previous';
      ghost var v := via';
      distances', previous', via', step := RelaxEdge(edges, j, current, visited, d, p, v);
      RelaxedCompose(edges, 0, j, j + 1, current, visited, distances, previous, via, d, p, v,
                     distances', previous', via', lowered, step);
      lowered := lowered + step;
    }
  }

  /**
   * The cost of a walk from `start`: if it ends at a finalised node, at least
   * that node's distance; if it ends anywhere else, at least the least distance
   * `distances[u]` among the unfinalised nodes.
   */
  lemma {:induction false} WalkAboveFrontier(edges: seq<GraphEdge>, start: string, visited: set<string>,
                                             distances: map<string, Cost>, u: string, path: seq<string>, es: seq<nat>)
    requires EndpointsScored(edges, distances)
    requires start in distances && distances[start] == Fin(0)
    requires u in distances && u !in visited && distances[u].Fin?
    requires forall x :: x in distances && x !in visited ==> AtMost(distances[u], distances[x])
    requires forall v :: v in visited ==> v in distances && distances[v].Fin? && NoCheaperWalk(edges, start, v, distances[v].value)
    requires RelaxedFrom(edges, visited, visited, distances)
    requires IsWalk(edges, path, es) && path[0] == start
    ensures path[|path| - 1] in visited ==> distances[path[|path| - 1]].value <= WalkCost(edges, es)
    ensures path[|path| - 1] !in visited ==> distances[u].value <= WalkCost(edges, es)
  {
    var x := path[|path| - 1];
    if x in visited {
      assert WalkBetween(edges, path, es, start, x);
    } else if es != [] {
      var n := |es|;
      WalkPrefix(edges, path, es);
      WalkAboveFrontier(edges, start, visited, distances, u, path[..n], es[..n - 1]);
      var y, k := path[n - 1], es[n - 1];
      assert path[..n][n - 1] == y;
      assert Joins(edges[k], y, x);
      NeighbourJoins(edges[k], y, x);
      assert x in distances;
    }
  }

  /** The node picked from the queue with a finite distance has no cheaper walk from `start`. */
  lemma FrontierLowerBound(edges: seq<GraphEdge>, start: string, visited: set<string>,
                           distances: map<string, Cost>, u: string)
    requires EndpointsScored(edges, distances)
    requires start in distances && distances[start] == Fin(0)
    requires u in distances && u !in visited && distances[u].Fin?
    requires forall x :: x in distances && x !in visited ==> AtMost(distances[u], distances[x])
    requires forall v :: v in visited ==> v in distances && distances[v].Fin? && NoCheaperWalk(edges, start, v, distances[v].value)
    requires RelaxedFrom(edges, visited, visited, distances)
    ensures NoCheaperWalk(edges, start, u, distances[u].value)
  {
    forall path, es | WalkBetween(edges, path, es, start, u)
      ensures distances[u].value <= WalkCost(edges, es)
    {
      WalkAboveFrontier(edges, start, visited, distances, u, path, es);
    }
  }

  /** A walk with at least one step starts at an endpoint of an edge. */
  lemma WalkStartScored(edges: seq<GraphEdge>, score: map<string, Cost>, path: seq<string>, es: seq<nat>)
    requires EndpointsScored(edges, score)
    requires IsWalk(edges, path, es) && es != []
    ensures path[0] in score
  {
    assert Joins(edges[es[0]], path[0], path[1]);
  }

  /**
   * When the least unfinalised distance is +Infinity (the `break` of line 90)
   * and `end` is not finalised, no walk leads from `start` to `end`.
   */
  lemma UnreachableBeyondInfinity(edges: seq<GraphEdge>, start: string, end: string,
                                  visited: set<string>, distances: map<string, Cost>)
    requires EndpointsScored(edges, distances)
    requires end in distances && end !in visited
    requires forall x :: x in distances && x !in visited ==> distances[x] == Inf
    requires forall v :: v in visited ==> v in distances && distances[v].Fin?
    requires RelaxedFrom(edges, visited, visited, distances)
    requires start in distances ==> distances[start] == Fin(0)
    ensures !Reachable(edges, start, end)
  {
    if start in distances {
      assert ClosedUnderEdges(edges, visited) by {
        forall k, v | 0 <= k < |edges| && v in visited && Touches(edges[k], v)
          ensures Neighbour(edges[k], v) in visited
        {
          assert edges[k].from in distances && edges[k].to in distances;
        }
      }
      TrappedTargetUnreachable(edges, visited, start, end);
    } else {
      forall path, es | WalkBetween(edges, path, es, start, end)
        ensures false
      {
        if es != [] {
          WalkStartScored(edges, distances, path, es);
        }
      }
    }
  }

  /**
   * `queue` is the node list without the finalised nodes, in node-list
   * order; the distance table has an entry for every node.
   */
  ghost predicate Queued(ids: seq<string>, distances: map<string, Cost>, visited: set<string>, queue: seq<string>) {
    && Distinct(ids)
    && (forall n :: n in distances <==> n in ids)
    && queue == Unvisited(ids, visited)
    && (forall n :: n in queue <==> n in distances && n !in visited)
    && visited <= distances.Keys
  }

  /** The bookkeeping of `dijkstraAlgorithm` between two rounds. */
  ghost predicate Bookkeeping(ids: seq<string>, distances: map<string, Cost>, previous: map<string, Option<string>>,
                              visited: set<string>, queue: seq<string>, visitedOrder: seq<string>, rank: map<string, nat>)
  {
    && Queued(ids, distances, visited, queue)
    && previous.Keys == distances.Keys
    && |visitedOrder| + |queue| == |ids|
    && Ranked(visited, visitedOrder, rank)
  }

  /**
   * `start` has distance 0 and is finalised first; before that every other
   * distance is +Infinity; a `start` outside the graph finalises nothing.
   */
  ghost predicate StartsAt(start: string, distances: map<string, Cost>, visited: set<string>, visitedOrder: seq<string>) {
    && (start in distances ==> distances[start] == Fin(0))
    && (start !in distances ==> visited == {} && forall n :: n in distances ==> distances[n] == Inf)
    && (visitedOrder == [] ==> forall n :: n in distances && n != start ==> distances[n] == Inf)
    && (visitedOrder != [] ==> visitedOrder[0] == start)
  }

  /** Every finalised node carries its shortest distance from `start`. */
  ghost predicate AllShortest(edges: seq<GraphEdge>, start: string, distances: map<string, Cost>, visited: set<string>) {
    forall v :: v in visited ==>
      v in distances && distances[v].Fin? && ShortestDistance(edges, start, v, distances[v].value)
  }

  /**
   * Nodes were finalised in non-decreasing order of distance, and no
   * unfinalised node has a smaller distance than a finalised one.
   */
  ghost predicate InOrder(distances: map<string, Cost>, visited: set<string>, visitedOrder: seq<string>) {
    && (forall i, j :: 0 <= i < j < |visitedOrder| ==>
          visitedOrder[i] in distances && visitedOrder[j] in distances &&
          AtMost(distances[visitedOrder[i]], distances[visitedOrder[j]]))
    && (forall v, u :: v in visited && u in distances && u !in visited ==>
          v in distances && AtMost(distances[v], distances[u]))
  }

  /** The distance facts between two rounds. */
  ghost predicate Optimal(edges: seq<GraphEdge>, start: string, distances: map<string, Cost>,
                          visited: set<string>, visitedOrder: seq<string>)
  {
    && StartsAt(start, distances, visited, visitedOrder)
    && AllShortest(edges, start, distances, visited)
    && InOrder(distances, visited, visitedOrder)
  }

  /** The tables as the initialisation of lines 78-82 leaves them. */
  lemma InitialState(nodes: seq<GraphNode>, edges: seq<GraphEdge>, start: string,
                     distances: map<string, Cost>, previous: map<string, Option<string>>)
    requires ValidGraph(nodes, edges)
    requires forall n :: n in distances <==> n in Ids(nodes)
    requires previous.Keys == distances.Keys
    requires forall n :: n in distances ==> distances[n] == (if n == start then Fin(0) else Inf) && previous[n] == None
    ensures Bookkeeping(Ids(nodes), distances, previous, {}, Ids(nodes), [], map[])
    ensures Optimal(edges, start, distances, {}, [])
    ensures Links(edges, start, distances, previous, map[], {}, map[])
    ensures RelaxedFrom(edges, {}, {}, distances)
    ensures EndpointsScored(edges, distances)
  {
    UnvisitedInitially(Ids(nodes));
  }

  /** The position `SelectMin` returns holds the least distance of all unfinalised nodes. */
  lemma LeastUnvisited(queue: seq<string>, visited: set<string>, distances: map<string, Cost>, k: nat)
    requires forall n :: n in queue <==> n in distances && n !in visited
    requires k < |queue|
    requires forall j :: 0 <= j < |queue| ==> AtMost(distances[queue[k]], distances[queue[j]])
    ensures forall x :: x in distances && x !in visited ==> AtMost(distances[queue[k]], distances[x])
  {
    forall x | x in distances && x !in visited
      ensures AtMost(distances[queue[k]], distances[x])
    {
      var j :| 0 <= j < |queue| && queue[j] == x;
    }
  }

  /** Lines 92-95 on the queue: `queue.delete(current)` as `visited.add(current)` makes it. */
  lemma VisitQueue(ids: seq<string>, distances: map<string, Cost>, visited: set<string>, queue: seq<string>, k: nat)
    requires Queued(ids, distances, visited, queue)
    requires k < |queue|
    ensures queue[k] in distances && queue[k] !in visited
    ensures Queued(ids, distances, visited + {queue[k]}, queue[..k] + queue[k + 1..])
  {
    var current := queue[k];
    UnvisitedAfterVisit(ids, visited, k);
    UnvisitedMembers(ids, visited + {current});
  }

  /** Lines 92-95 on the bookkeeping as a whole. */
  lemma VisitBookkeeping(ids: seq<string>, distances: map<string, Cost>, previous: map<string, Option<string>>,
                         visited: set<string>, queue: seq<string>, visitedOrder: seq<string>, rank: map<string, nat>, k: nat)
    requires Bookkeeping(ids, distances, previous, visited, queue, visitedOrder, rank)
    requires k < |queue|
    ensures var current := queue[k];
      && current in distances && current !in visited
      && Bookkeeping(ids, distances, previous, visited + {current}, queue[..k] + queue[k + 1..],
                     visitedOrder + [current], rank[current := |visitedOrder|])
  {
    VisitQueue(ids, distances, visited, queue, k);
    VisitRank(visited, visitedOrder, rank, queue[k]);
  }

  /**
   * Lines 92-95 on the shortest distances: the unfinalised node `current` of
   * least, finite distance may be finalised, because no walk from `start`
   * reaches it more cheaply and its predecessor link is one that does.
   */
  lemma VisitShortest(edges: seq<GraphEdge>, start: string, distances: map<string, Cost>,
                      previous: map<string, Option<string>>, via: map<string, nat>,
                      visited: set<string>, visitedOrder: seq<string>, current: string)
    requires StartsAt(start, distances, visited, visitedOrder)
    requires AllShortest(edges, start, distances, visited)
    requires PredecessorLinks(edges, previous, distances, via) && LinksVisited(previous, visited)
    requires RootedAt(start, distances, previous)
    requires EndpointsScored(edges, distances)
    requires RelaxedFrom(edges, visited, visited, distances)
    requires current in distances && current in previous && current !in visited && distances[current].Fin?
    requires forall x :: x in distances && x !in visited ==> AtMost(distances[current], distances[x])
    ensures AllShortest(edges, start, distances, visited + {current})
  {
    FrontierLowerBound(edges, start, visited, distances, current);
    if current == start {
      assert WalkBetween(edges, [start], [], start, start);
    } else {
      var m := previous[current].value;
      ExtendAchievable(edges, start, m, current, distances[m].value, via[current]);
    }
  }

  /**
   * Lines 92-95 on the order: the finalised `current` has the least
   * unfinalised distance, so it becomes the finalised node of largest
   * distance; the first node finalised is `start`.
   */
  lemma VisitOrder(start: string, distances: map<string, Cost>,
                   visited: set<string>, visitedOrder: seq<string>, current: string)
    requires StartsAt(start, distances, visited, visitedOrder)
    requires InOrder(distances, visited, visitedOrder)
    requires forall i :: 0 <= i < |visitedOrder| ==> visitedOrder[i] in visited
    requires current in distances && current !in visited && distances[current].Fin?
    requires forall x :: x in distances && x !in visited ==> AtMost(distances[current], distances[x])
    ensures StartsAt(start, distances, visited + {current}, visitedOrder + [current])
    ensures InOrder(distances, visited + {current}, visitedOrder + [current])
    ensures forall v :: v in visited + {current} ==> AtMost(distances[v], distances[current])
    ensures start in visited + {current}
  {
  }

  /** Lines 100-111 on the shortest distances: finalised distances do not change. */
  lemma RelaxShortest(edges: seq<GraphEdge>, start: string, distances: map<string, Cost>,
                      previous: map<string, Option<string>>, via: map<string, nat>,
                      distances': map<string, Cost>, previous': map<string, Option<string>>, via': map<string, nat>,
                      lowered: set<string>, visited: set<string>, current: string)
    requires AllShortest(edges, start, distances, visited)
    requires current in distances && distances[current].Fin?
    requires LoweredFrom(edges, current, visited, distances, previous, via, distances', previous', via', lowered)
    ensures AllShortest(edges, start, distances', visited)
  {
  }

  /**
   * Lines 100-111 on the order: a lowered distance is `current`'s plus a
   * weight, so it stays at least every finalised distance.
   */
  lemma RelaxOrder(edges: seq<GraphEdge>, start: string, distances: map<string, Cost>,
                   previous: map<string, Option<string>>, via: map<string, nat>,
                   distances': map<string, Cost>, previous': map<string, Option<string>>, via': map<string, nat>,
                   lowered: set<string>, visited: set<string>, visitedOrder: seq<string>, current: string)
    requires StartsAt(start, distances, visited, visitedOrder)
    requires InOrder(distances, visited, visitedOrder)
    requires current in visited && current in distances && distances[current].Fin?
    requires start in visited && visitedOrder != []
    requires forall i :: 0 <= i < |visitedOrder| ==> visitedOrder[i] in visited
    requires forall v :: v in visited ==> v in distances && AtMost(distances[v], distances[current])
    requires LoweredFrom(edges, current, visited, distances, previous, via, distances', previous', via', lowered)
    ensures StartsAt(start, distances', visited, visitedOrder)
    ensures InOrder(distances', visited, visitedOrder)
  {
  }

  /** Lines 100-111 on the links: every new link is an edge from the finalised `current`. */
  lemma RelaxPredecessors(edges: seq<GraphEdge>, distances: map<string, Cost>,
                          previous: map<string, Option<string>>, via: map<string, nat>,
                          distances': map<string, Cost>, previous': map<string, Option<string>>, via': map<string, nat>,
                          lowered: set<string>, visited: set<string>, current: string)
    requires PredecessorLinks(edges, previous, distances, via) && LinksVisited(previous, visited)
    requires current in visited && current in distances && distances[current].Fin?
    requires LoweredFrom(edges, current, visited, distances, previous, via, distances', previous', via', lowered)
    ensures PredecessorLinks(edges, previous', distances', via') && LinksVisited(previous', visited)
  {
    forall n | n in previous' && previous'[n].Some?
      ensures var m := previous'[n].value;
        && n in distances' && m in distances' && distances'[m].Fin?
        && n in via' && via'[n] < |edges| && Joins(edges[via'[n]], m, n)
        && distances'[n] == Fin(distances'[m].value + edges[via'[n]].weight)
        && m in visited
    {
      if n !in lowered {
        var m := previous[n].value;
        assert m in visited && m !in lowered;
      }
    }
  }

  /** Lines 100-111 on the ranks: new links point at `current`, which is ranked. */
  lemma RelaxRanks(previous: map<string, Option<string>>, previous': map<string, Option<string>>,
                   lowered: set<string>, visited: set<string>, rank: map<string, nat>, current: string)
    requires LinksDescend(previous, rank) && rank.Keys == visited && current in visited && current in previous
    requires previous'.Keys == previous.Keys
    requires forall n :: n in lowered ==> n !in visited && n in previous' && previous'[n] == Some(current)
    requires forall n :: n in previous && n !in lowered ==> previous'[n] == previous[n]
    ensures LinksDescend(previous', rank)
  {
  }

  /** Lines 100-111 on the root: `start`, finalised first, keeps having no predecessor. */
  lemma RelaxRoot(start: string, distances: map<string, Cost>, previous: map<string, Option<string>>,
                  distances': map<string, Cost>, previous': map<string, Option<string>>,
                  lowered: set<string>, visited: set<string>, current: string)
    requires RootedAt(start, distances, previous)
    requires start in distances ==> start in visited
    requires distances'.Keys == distances.Keys && previous.Keys == distances.Keys && previous'.Keys == distances.Keys
    requires forall n :: n in lowered ==> n !in visited && n in previous' && previous'[n] == Some(current)
    requires forall n :: n in distances && n !in lowered ==> distances'[n] == distances[n] && previous'[n] == previous[n]
    ensures RootedAt(start, distances', previous')
  {
  }

  /** Lines 100-111 on the links as a whole. */
  lemma RelaxLinks(edges: seq<GraphEdge>, start: string, distances: map<string, Cost>,
                   previous: map<string, Option<string>>, via: map<string, nat>,
                   distances': map<string, Cost>, previous': map<string, Option<string>>, via': map<string, nat>,
                   lowered: set<string>, visited: set<string>, rank: map<string, nat>, current: string)
    requires Links(edges, start, distances, previous, via, visited, rank)
    requires current in visited && current in distances && distances[current].Fin?
    requires rank.Keys == visited
    requires start in distances ==> start in visited
    requires LoweredFrom(edges, current, visited, distances, previous, via, distances', previous', via', lowered)
    ensures Links(edges, start, distances', previous', via', visited, rank)
  {
    RelaxPredecessors(edges, distances, previous, via, distances', previous', via', lowered, visited, current);
    RelaxRanks(previous, previous', lowered, visited, rank, current);
    RelaxRoot(start, distances, previous, distances', previous', lowered, visited, current);
  }

  /** Lines 100-111 on the relaxation facts: the edges out of `current` are now relaxed too. */
  lemma RelaxSettles(edges: seq<GraphEdge>, distances: map<string, Cost>,
                     previous: map<string, Option<string>>, via: map<string, nat>,
                     distances': map<string, Cost>, previous': map<string, Option<string>>, via': map<string, nat>,
                     lowered: set<string>, settled: set<string>, current: string)
    requires RelaxedFrom(edges, settled, settled + {current}, distances)
    requires current in distances && distances[current].Fin?
    requires Relaxed(edges, 0, |edges|, current, settled + {current}, distances, previous, via, distances', previous', via', lowered)
    ensures RelaxedFrom(edges, settled + {current}, settled + {current}, distances')
    ensures EndpointsScored(edges, distances) ==> EndpointsScored(edges, distances')
  {
    var visited := settled + {current};
    assert current !in lowered;
    forall v, k | v in visited && 0 <= k < |edges| && Touches(edges[k], v) && Neighbour(edges[k], v) !in visited
      ensures v in distances' && distances'[v].Fin? && Neighbour(edges[k], v) in distances'
      ensures AtMost(distances'[Neighbour(edges[k], v)], Fin(distances'[v].value + edges[k].weight))
    {
      var n := Neighbour(edges[k], v);
      if v != current {
        assert v !in lowered;
        assert AtMost(distances[n], Fin(distances[v].value + edges[k].weight));
        assert AtMost(distances'[n], distances[n]);
      }
    }
  }

  /**
   * Lines 78-82: every node gets distance 0 if it is `start` and +Infinity
   * otherwise, and no predecessor.
   */
  method InitialTables(nodes: seq<GraphNode>, start: string)
    returns (distances: map<string, Cost>, previous: map<string, Option<string>>)
    ensures forall n :: n in distances <==> n in Ids(nodes)
    ensures previous.Keys == distances.Keys
    ensures forall n :: n in distances ==> distances[n] == (if n == start then Fin(0) else Inf) && previous[n] == None
  {
    var ids := Ids(nodes);
    distances, previous := map[], map[];
    for i := 0 to |nodes|
      invariant forall n :: n in distances <==> n in ids[..i]
      invariant previous.Keys == distances.Keys
      invariant forall n :: n in distances ==> distances[n] == (if n == start then Fin(0) else Inf) && previous[n] == None
    {
      var id := nodes[i].id;
      assert ids[..i + 1] == ids[..i] + [id];
      distances := distances[id := if id == start then Fin(0) else Inf];
      previous := previous[id := None];
    }
    assert ids[..|nodes|] == ids;
  }

  /**
   * Lines 92-95: `queue.delete(current)`, `visited.add(current)`,
   * `visitedOrder.push(current)` for the unfinalised node `queue[k]` of least,
   * finite distance. Its distance is then its shortest one, and it is the
   * finalised node of largest distance.
   */
  method Finalise(edges: seq<GraphEdge>, ids: seq<string>, start: string,
                  distances: map<string, Cost>, previous: map<string, Option<string>>, ghost via: map<string, nat>,
                  visited: set<string>, queue: seq<string>, visitedOrder: seq<string>, ghost rank: map<string, nat>, k: nat)
    returns (visited': set<string>, queue': seq<string>, visitedOrder': seq<string>, ghost rank': map<string, nat>)
    requires Bookkeeping(ids, distances, previous, visited, queue, visitedOrder, rank)
    requires Optimal(edges, start, distances, visited, visitedOrder)
    requires Links(edges, start, distances, previous, via, visited, rank)
    requires EndpointsScored(edges, distances)
    requires RelaxedFrom(edges, visited, visited, distances)
    requires k < |queue|
    requires forall j :: 0 <= j < |queue| ==> AtMost(distances[queue[k]], distances[queue[j]])
    requires distances[queue[k]].Fin?
    ensures visited' == visited + {queue[k]} && queue' == queue[..k] + queue[k + 1..]
    ensures visitedOrder' == visitedOrder + [queue[k]] && rank' == rank[queue[k] := |visitedOrder|]
    ensures Bookkeeping(ids, distances, previous, visited', queue', visitedOrder', rank')
    ensures Optimal(edges, start, distances, visited', visitedOrder')
    ensures Links(edges, start, distances, previous, via, visited', rank')
    ensures RelaxedFrom(edges, visited, visited', distances)
    ensures forall v :: v in visited' ==> AtMost(distances[v], distances[queue[k]])
    ensures start in visited'
  {
    var current := queue[k];
    LeastUnvisited(queue, visited, distances, k);
    VisitBookkeeping(ids, distances, previous, visited, queue, visitedOrder, rank, k);
    VisitShortest(edges, start, distances, previous, via, visited, visitedOrder, current);
    VisitOrder(start, distances, visited, visitedOrder, current);
    VisitLinks(edges, start, distances, previous, via, visited, rank, current, |visitedOrder|);
    queue' := queue[..k] + queue[k + 1..];
    visited' := visited + {current};
    rank' := rank[current := |visitedOrder|];
    visitedOrder' := visitedOrder + [current];
  }

  /**
   * Lines 100-111 with the newly finalised `current`: the tables are those
   * of relaxing every edge from `current` in order, and they again satisfy
   * everything that holds between two rounds.
   */
  method Settle(edges: seq<GraphEdge>, ids: seq<string>, start: string, current: string,
                distances: map<string, Cost>, previous: map<string, Option<string>>, ghost via: map<string, nat>,
                ghost settled: set<string>, visited: set<string>, queue: seq<string>, visitedOrder: seq<string>,
                ghost rank: map<string, nat>)
    returns (distances': map<string, Cost>, previous': map<string, Option<string>>,
             ghost via': map<string, nat>, ghost lowered: set<string>)
    requires visited == settled + {current}
    requires Bookkeeping(ids, distances, previous, visited, queue, visitedOrder, rank)
    requires Optimal(edges, start, distances, visited, visitedOrder)
    requires Links(edges, start, distances, previous, via, visited, rank)
    requires EndpointsScored(edges, distances)
    requires RelaxedFrom(edges, settled, visited, distances)
    requires forall v :: v in visited ==> v in distances && AtMost(distances[v], distances[current])
    requires start in visited && distances[current].Fin?
    ensures Bookkeeping(ids, distances', previous', visited, queue, visitedOrder, rank)
    ensures Optimal(edges, start, distances', visited, visitedOrder)
    ensures Links(edges, start, distances', previous', via', visited, rank)
    ensures EndpointsScored(edges, distances')
    ensures RelaxedFrom(edges, visited, visited, distances')
    ensures Relaxed(edges, 0, |edges|, current, visited, distances, previous, via, distances', previous', via', lowered)
  {
    distances', previous', via', lowered := RelaxEdges(edges, current, visited, distances, previous, via);
    RelaxShortest(edges, start, distances, previous, via, distances', previous', via', lowered, visited, current);
    RelaxOrder(edges, start, distances, previous, via, distances', previous', via', lowered, visited, visitedOrder, current);
    RelaxLinks(edges, start, distances, previous, via, distances', previous', via', lowered, visited, rank, current);
    RelaxSettles(edges, distances, previous, via, distances', previous', via', lowered, settled, current);
  }

  /**
   * The visiting order a uniform-cost search reports: each node of the graph
   * at most once, starting with `start`, ending with `end` if it holds it,
   * each node with its shortest distance from `start` in `shortest`, in
   * non-decreasing order of that distance.
   */
  ghost predicate FinalisedInOrder(edges: seq<GraphEdge>, ids: seq<string>, start: string, end: string,
                                   visitedOrder: seq<string>, shortest: map<string, Cost>)
  {
    && |visitedOrder| <= |ids|
    && Distinct(visitedOrder)
    && (forall n :: n in visitedOrder ==> n in ids)
    && (visitedOrder != [] ==> visitedOrder[0] == start)
    && (end in visitedOrder ==> visitedOrder[|visitedOrder| - 1] == end)
    && (forall i :: 0 <= i < |visitedOrder| ==>
          && visitedOrder[i] in shortest && shortest[visitedOrder[i]].Fin?
          && ShortestDistance(edges, start, visitedOrder[i], shortest[visitedOrder[i]].value))
    && (forall i, j :: 0 <= i < j < |visitedOrder| ==>
          shortest[visitedOrder[i]].value <= shortest[visitedOrder[j]].value)
  }

  /** The bookkeeping and distance facts make the visiting order the one described above. */
  lemma OrderReport(nodes: seq<GraphNode>, edges: seq<GraphEdge>, start: string, end: string,
                    distances: map<string, Cost>, previous: map<string, Option<string>>,
                    visited: set<string>, queue: seq<string>, visitedOrder: seq<string>, rank: map<string, nat>)
    requires Bookkeeping(Ids(nodes), distances, previous, visited, queue, visitedOrder, rank)
    requires Optimal(edges, start, distances, visited, visitedOrder)
    requires end in visited ==> visitedOrder[|visitedOrder| - 1] == end
    ensures FinalisedInOrder(edges, Ids(nodes), start, end, visitedOrder, distances)
  {
    forall i | 0 <= i < |visitedOrder|
      ensures visitedOrder[i] in visited
    {
      assert visitedOrder[i] in rank;
    }
  }

  /**
   * The path and distance reported by `dijkstraAlgorithm`: the search ended
   * either with `end` finalised, or with every unfinalised distance infinite
   * and `end` unreachable; the reconstruction then yields a walk from `start`
   * whose cost is the shortest distance, or nothing.
   */
  lemma PathReport(nodes: seq<GraphNode>, edges: seq<GraphEdge>, start: string, end: string,
                   distances: map<string, Cost>, previous: map<string, Option<string>>, via: map<string, nat>,
                   visited: set<string>, queue: seq<string>, visitedOrder: seq<string>, rank: map<string, nat>,
                   path: seq<string>)
    requires end in Ids(nodes)
    requires Bookkeeping(Ids(nodes), distances, previous, visited, queue, visitedOrder, rank)
    requires Optimal(edges, start, distances, visited, visitedOrder)
    requires Links(edges, start, distances, previous, via, visited, rank)
    requires end in visited || (distances[end] == Inf && !Reachable(edges, start, end))
    requires path == [] <==> previous[end] == None
    requires path != [] ==> |path| >= 2 && path[|path| - 1] == end && path[0] in previous && previous[path[0]] == None
    requires LinkedChain(previous, path)
    ensures RouteReport(edges, start, end, path, distances[end])
    ensures distances[end].Fin? ==> ShortestDistance(edges, start, end, distances[end].value)
  {
    assert end in distances;
    if end in visited {
      assert distances[end].Fin? && ShortestDistance(edges, start, end, distances[end].value);
    }
    ChainReport(edges, start, end, distances, previous, via, path);
  }

  /**
   * Lines 114-128: walk the predecessor links back from `end` and return the
   * result record. The search ended either with `end` finalised, or with
   * every unfinalised distance infinite and `end` unreachable.
   */
  method Finish(nodes: seq<GraphNode>, edges: seq<GraphEdge>, start: string, end: string,
                distances: map<string, Cost>, previous: map<string, Option<string>>, ghost via: map<string, nat>,
                visited: set<string>, queue: seq<string>, visitedOrder: seq<string>, ghost rank: map<string, nat>,
                steps: nat)
    returns (result: PathResult, ghost shortest: map<string, Cost>)
    requires end in Ids(nodes)
    requires Bookkeeping(Ids(nodes), distances, previous, visited, queue, visitedOrder, rank)
    requires Optimal(edges, start, distances, visited, visitedOrder)
    requires Links(edges, start, distances, previous, via, visited, rank)
    requires end in visited ==> visitedOrder[|visitedOrder| - 1] == end
    requires end in visited || (distances[end] == Inf && !Reachable(edges, start, end))
    requires steps == |visitedOrder|
    ensures result == PathResult(result.path, distances[end], steps, visitedOrder, Dijkstra)
    ensures result.path == [] <==> previous[end] == None
    ensures LinkedChain(previous, result.path) && shortest == distances
    ensures result.distance.Fin? <==> end in result.visitedOrder
    ensures FinalisedInOrder(edges, Ids(nodes), start, end, result.visitedOrder, shortest)
    ensures RouteReport(edges, start, end, result.path, result.distance)
    ensures result.distance.Fin? ==> ShortestDistance(edges, start, end, result.distance.value)
  {
    var path := ReconstructPath(previous, end, rank);
    PathReport(nodes, edges, start, end, distances, previous, via, visited, queue, visitedOrder, rank, path);
    OrderReport(nodes, edges, start, end, distances, previous, visited, queue, visitedOrder, rank);
    result := PathResult(path, distances[end], steps, visitedOrder, Dijkstra);
    shortest := distances;
  }

  /**
   * `dijkstraAlgorithm(start, end)` over an explicit node list and edge list.
   * `shortest` is the final `distances` table, exposed for the specification:
   * every finalised node carries its shortest distance from `start`, and nodes
   * are finalised in non-decreasing order of it.
   */
  method DijkstraAlgorithm(nodes: seq<GraphNode>, edges: seq<GraphEdge>, start: string, end: string)
    returns (result: PathResult, ghost shortest: map<string, Cost>)
    requires ValidGraph(nodes, edges)
    requires end in Ids(nodes)
    ensures result.algorithm == Dijkstra && result.steps == |result.visitedOrder|
    ensures start in Ids(nodes) ==> result.visitedOrder != []
    ensures result.distance.Fin? <==> end in result.visitedOrder
    ensures FinalisedInOrder(edges, Ids(nodes), start, end, result.visitedOrder, shortest)
    ensures RouteReport(edges, start, end, result.path, result.distance)
    ensures result.distance.Fin? ==> ShortestDistance(edges, start, end, result.distance.value)
  {
    var ids := Ids(nodes);
    var distances, previous := InitialTables(nodes, start);
    var visited: set<string> := {};
    var queue := ids;
    var steps := 0;
    var visitedOrder: seq<string> := [];
    ghost var rank: map<string, nat> := map[];
    ghost var via: map<string, nat> := map[];
    InitialState(nodes, edges, start, distances, previous);

    while |queue| > 0
      invariant Bookkeeping(ids, distances, previous, visited, queue, visitedOrder, rank)
      invariant Optimal(edges, start, distances, visited, visitedOrder)
      invariant Links(edges, start, distances, previous, via, visited, rank)
      invariant EndpointsScored(edges, distances)
      invariant RelaxedFrom(edges, visited, visited, distances)
      invariant end !in visited
      invariant steps == |visitedOrder|
    {
      var k := SelectMin(queue, distances);
      var current := queue[k];
      if distances[current] == Inf {
        LeastUnvisited(queue, visited, distances, k);
        UnreachableBeyondInfinity(edges, start, end, visited, distances);
        assert distances[end] == Inf;
        // `start`, at distance 0, would have been selected before any infinite distance
        assert start in distances ==> start in visited && start in rank;
        break;
      }

      ghost var settled := visited;
      visited, queue, visitedOrder, rank := Finalise(edges, ids, start, distances, previous, via,
                                                     visited, queue, visitedOrder, rank, k);
      steps := steps + 1;

      if current == end {
        break;
      }

      ghost var lowered;
      distances, previous, via, lowered := Settle(edges, ids, start, current, distances, previous, via,
                                         settled, visited, queue, visitedOrder, rank);
    }
    result, shortest := Finish(nodes, edges, start, end, distances, previous, via, visited, queue, visitedOrder, rank, steps);
  }
}
