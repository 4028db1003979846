/**
 * The graph records of the city navigator (GraphNode, GraphEdge, PathResult)
 * and the walk vocabulary the searches are specified against.
 *
 * Weights and coordinates are integers in units of 1e-4 (a weight of 1.2
 * becomes 12000, a latitude of 40.7589 becomes 407589), so the ratio between
 * edge weights and the coordinate heuristic is the one of the original data.
 */
module Graph {

  datatype Option<T> = None | Some(value: T)

  datatype Category = Landmark | Transport | Education | Commercial | Medical | Recreation

  /** A location of the city; `lat` and `lng` are scaled integer coordinates. */
  datatype GraphNode = GraphNode(id: string, name: string, lat: int, lng: int, category: Category)

  /** An edge that may be travelled in both directions at cost `weight`. */
  datatype GraphEdge = GraphEdge(from: string, to: string, weight: nat)

  /** The tag of the two search variants, "dijkstra" and "astar". */
  datatype Algorithm = Dijkstra | AStar

  /** A cumulative cost: a finite non-negative number, or +Infinity. */
  datatype Cost = Fin(value: nat) | Inf

  /** The result record handed back to the caller of a search. */
  datatype PathResult = PathResult(
    path: seq<string>,
    distance: Cost,
    steps: nat,
    visitedOrder: seq<string>,
    algorithm: Algorithm)

  /** JavaScript's `<` on costs: +Infinity is above every finite cost and not below itself. */
  predicate Below(a: Cost, b: Cost): (r: bool)
    ensures r ==> a.Fin? && a != b
    ensures a.Fin? && b.Inf? ==> r
  {
    a.Fin? && (b.Inf? || a.value < b.value)
  }

  predicate AtMost(a: Cost, b: Cost) {
    !Below(b, a)
  }

  /** The ids of the nodes, in node-list order. */
  function Ids(nodes: seq<GraphNode>): seq<string> {
    seq(|nodes|, i requires 0 <= i < |nodes| => nodes[i].id)
  }

  predicate Distinct(s: seq<string>) {
    forall i, j :: 0 <= i < j < |s| ==> s[i] != s[j]
  }

  /** Node ids are unique and every edge joins two nodes of the graph. */
  predicate ValidGraph(nodes: seq<GraphNode>, edges: seq<GraphEdge>) {
    && Distinct(Ids(nodes))
    && forall k :: 0 <= k < |edges| ==> edges[k].from in Ids(nodes) && edges[k].to in Ids(nodes)
  }

  predicate Touches(e: GraphEdge, n: string) {
    e.from == n || e.to == n
  }

  /** The far end of an edge seen from `n`: `edge.from === n ? edge.to : edge.from`. */
  function Neighbour(e: GraphEdge, n: string): (m: string)
    ensures Touches(e, n) ==> Joins(e, n, m)
  {
    if e.from == n then e.to else e.from
  }

  /** `e` joins `a` and `b`, in either orientation. */
  predicate Joins(e: GraphEdge, a: string, b: string) {
    (e.from == a && e.to == b) || (e.from == b && e.to == a)
  }

  /** `path` is a walk whose i-th step uses edge `edges[es[i]]`. */
  ghost predicate IsWalk(edges: seq<GraphEdge>, path: seq<string>, es: seq<nat>) {
    && |path| == |es| + 1
    && forall i :: 0 <= i < |es| ==> es[i] < |edges| && Joins(edges[es[i]], path[i], path[i + 1])
  }

  ghost predicate WalkBetween(edges: seq<GraphEdge>, path: seq<string>, es: seq<nat>, s: string, t: string) {
    IsWalk(edges, path, es) && path[0] == s && path[|path| - 1] == t
  }

  /** Total weight of the edges a walk uses. */
  function WalkCost(edges: seq<GraphEdge>, es: seq<nat>): nat
    requires forall i :: 0 <= i < |es| ==> es[i] < |edges|
  {
    if es == [] then 0 else WalkCost(edges, es[..|es| - 1]) + edges[es[|es| - 1]].weight
  }

  ghost predicate Reachable(edges: seq<GraphEdge>, s: string, t: string) {
    exists path, es :: WalkBetween(edges, path, es, s, t)
  }

  /** Some walk from `s` to `t` costs exactly `d`. */
  ghost predicate Achievable(edges: seq<GraphEdge>, s: string, t: string, d: nat) {
    exists path, es :: WalkBetween(edges, path, es, s, t) && WalkCost(edges, es) == d
  }

  /** No walk from `s` to `t` costs less than `d`. */
  ghost predicate NoCheaperWalk(edges: seq<GraphEdge>, s: string, t: string, d: nat) {
    forall path, es :: WalkBetween(edges, path, es, s, t) ==> d <= WalkCost(edges, es)
  }

  /** `d` is the least total weight over all walks from `s` to `t`. */
  ghost predicate ShortestDistance(edges: seq<GraphEdge>, s: string, t: string, d: nat) {
    Achievable(edges, s, t, d) && NoCheaperWalk(edges, s, t, d)
  }

  /** Every edge leaving a node of `inside` ends inside again. */
  ghost predicate ClosedUnderEdges(edges: seq<GraphEdge>, inside: set<string>) {
    forall k, v :: 0 <= k < |edges| && v in inside && Touches(edges[k], v) ==> Neighbour(edges[k], v) in inside
  }

  /** Reading an edge from either endpoint: the neighbour seen from `a` is joined to `a`, and only it. */
  lemma NeighbourJoins(e: GraphEdge, a: string, b: string)
    ensures Joins(e, a, b) <==> Touches(e, a) && Neighbour(e, a) == b
  {
  }

  /** Appending one edge to a walk adds its weight to the walk's cost. */
  lemma {:induction false} ExtendAchievable(edges: seq<GraphEdge>, s: string, m: string, n: string, d: nat, k: nat)
    requires Achievable(edges, s, m, d)
    requires k < |edges| && Joins(edges[k], m, n)
    ensures Achievable(edges, s, n, d + edges[k].weight)
  {
    var path, es :| WalkBetween(edges, path, es, s, m) && WalkCost(edges, es) == d;
    var path', es' := path + [n], es + [k];
    assert es'[..|es'| - 1] == es;
    assert IsWalk(edges, path', es') by {
      forall i | 0 <= i < |es'|
        ensures es'[i] < |edges| && Joins(edges[es'[i]], path'[i], path'[i + 1])
      {
        if i < |es| {
          assert path'[i] == path[i] && path'[i + 1] == path[i + 1];
        }
      }
    }
    assert WalkBetween(edges, path', es', s, n) && WalkCost(edges, es') == d + edges[k].weight;
  }

  /** A walk that starts inside a set closed under edges never leaves it. */
  lemma {:induction false} WalkStaysIn(edges: seq<GraphEdge>, inside: set<string>, path: seq<string>, es: seq<nat>)
    requires IsWalk(edges, path, es) && path[0] in inside
    requires ClosedUnderEdges(edges, inside)
    ensures path[|path| - 1] in inside
  {
    if es != [] {
      var n := |es|;
      WalkPrefix(edges, path, es);
      WalkStaysIn(edges, inside, path[..n], es[..n - 1]);
      var v, k := path[n - 1], es[n - 1];
      assert Joins(edges[k], v, path[n]);
      NeighbourJoins(edges[k], v, path[n]);
    }
  }

  /** Nothing outside a set closed under edges is reachable from inside it. */
  lemma TrappedTargetUnreachable(edges: seq<GraphEdge>, inside: set<string>, s: string, t: string)
    requires s in inside && t !in inside
    requires ClosedUnderEdges(edges, inside)
    ensures !Reachable(edges, s, t)
  {
    forall path, es | WalkBetween(edges, path, es, s, t)
      ensures false
    {
      WalkStaysIn(edges, inside, path, es);
    }
  }

  /** The prefix of a walk that drops its last step is again a walk. */
  lemma WalkPrefix(edges: seq<GraphEdge>, path: seq<string>, es: seq<nat>)
    requires IsWalk(edges, path, es) && es != []
    ensures IsWalk(edges, path[..|path| - 1], es[..|es| - 1])
    ensures WalkCost(edges, es) == WalkCost(edges, es[..|es| - 1]) + edges[es[|es| - 1]].weight
  {
    var n := |es|;
    var path', es' := path[..n], es[..n - 1];
    forall i | 0 <= i < |es'|
      ensures es'[i] < |edges| && Joins(edges[es'[i]], path'[i], path'[i + 1])
    {
      assert es[i] < |edges| && Joins(edges[es[i]], path[i], path[i + 1]);
    }
  }
}
