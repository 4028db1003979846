/**
 * Predecessor links and the path reconstruction both searches end with:
 * walk the `previous` links back from `end`, prepending each id, and report
 * the result only when it holds at least two ids.
 */
module Paths {
  import opened Graph

  /**
   * Whenever `previous[n] == m`, the score of `n` is the score of `m` plus the
   * weight of an edge joining `m` and `n` (the one recorded in `via[n]`).
   */
  ghost predicate PredecessorLinks(edges: seq<GraphEdge>, previous: map<string, Option<string>>,
                                   score: map<string, Cost>, via: map<string, nat>)
  {
    forall n {:trigger previous[n]} :: n in previous && previous[n].Some? ==>
      && n in score && previous[n].value in score && score[previous[n].value].Fin?
      && n in via && via[n] < |edges| && Joins(edges[via[n]], previous[n].value, n)
      && score[n] == Fin(score[previous[n].value].value + edges[via[n]].weight)
  }

  /**
   * Every link points at a finalised node, and out of a finalised node it points
   * at one finalised earlier (`rank` is the finalisation index), so following
   * links always ends.
   */
  ghost predicate LinksDescend(previous: map<string, Option<string>>, rank: map<string, nat>) {
    forall n {:trigger previous[n]} :: n in previous && previous[n].Some? ==>
      && previous[n].value in previous
      && previous[n].value in rank
      && (n in rank ==> rank[previous[n].value] < rank[n])
  }

  /** Each id of `path` after the first has the id before it as predecessor. */
  ghost predicate LinkedChain(previous: map<string, Option<string>>, path: seq<string>) {
    forall i :: 0 < i < |path| ==> path[i] in previous && previous[path[i]] == Some(path[i - 1])
  }

  /**
   * The reconstruction loop: `while (current !== null) { path.unshift(current);
   * current = previous[current] }`, then `path.length > 1 ? path : []`.
   * The result is empty exactly when `end` has no predecessor; otherwise it is
   * a chain of links from a node without predecessor to `end`.
   */
  method ReconstructPath(previous: map<string, Option<string>>, end: string, ghost rank: map<string, nat>)
    returns (path: seq<string>)
    requires end in previous
    requires LinksDescend(previous, rank)
    ensures path == [] <==> previous[end] == None
    ensures path != [] ==> |path| >= 2 && path[|path| - 1] == end && path[0] in previous && previous[path[0]] == None
    ensures LinkedChain(previous, path)
  {
    var trail: seq<string> := [];
    var current: Option<string> := Some(end);
    while current.Some?
      invariant current.Some? ==> current.value in previous
      invariant trail == [] ==> current == Some(end)
      invariant trail != [] ==> trail[|trail| - 1] == end && trail[0] in previous && previous[trail[0]] == current
      invariant LinkedChain(previous, trail)
      decreases if current.Some? && current.value !in rank then 1 else 0,
                if current.Some? && current.value in rank then rank[current.value] + 1 else 0
    {
      var id := current.value;
      assert forall i :: 1 < i < |trail| + 1 ==> ([id] + trail)[i] == trail[i - 1];
      trail := [id] + trail;
      current := previous[id];
    }
    if |trail| > 1 {
      assert previous[trail[|trail| - 1]] == Some(trail[|trail| - 2]);
      path := trail;
    } else {
      path := [];
    }
  }

  /**
   * A chain of predecessor links read forwards is a walk, and the score grows
   * along it by exactly the walk's cost.
   */
  lemma {:induction false} ChainIsWalk(edges: seq<GraphEdge>, previous: map<string, Option<string>>,
                                       score: map<string, Cost>, via: map<string, nat>, path: seq<string>)
    returns (es: seq<nat>)
    requires PredecessorLinks(edges, previous, score, via)
    requires |path| >= 1 && path[0] in score && score[path[0]].Fin?
    requires LinkedChain(previous, path)
    ensures IsWalk(edges, path, es)
    ensures path[|path| - 1] in score && score[path[|path| - 1]] == Fin(score[path[0]].value + WalkCost(edges, es))
  {
    if |path| == 1 {
      es := [];
    } else {
      var n := |path|;
      assert LinkedChain(previous, path[..n - 1]);
      var front := ChainIsWalk(edges, previous, score, via, path[..n - 1]);
      var last, before := path[n - 1], path[n - 2];
      assert previous[last] == Some(before);
      es := front + [via[last]];
      assert es[..|es| - 1] == front;
      forall i | 0 <= i < |es|
        ensures es[i] < |edges| && Joins(edges[es[i]], path[i], path[i + 1])
      {
        if i < |front| {
          assert path[..n - 1][i] == path[i] && path[..n - 1][i + 1] == path[i + 1];
        }
      }
    }
  }

  /**
   * What a search reports about the route: no path exactly when `start` is
   * `end` or `end` was not reached; otherwise a walk from `start` to `end`
   * whose cost is the reported distance; and an infinite distance exactly
   * when no walk joins the two.
   */
  ghost predicate RouteReport(edges: seq<GraphEdge>, start: string, end: string, path: seq<string>, distance: Cost) {
    && (path == [] <==> start == end || distance == Inf)
    && (path != [] ==> |path| >= 2 && path[0] == start && path[|path| - 1] == end)
    && (path != [] ==> exists es :: IsWalk(edges, path, es) && distance == Fin(WalkCost(edges, es)))
    && (distance.Fin? ==> Achievable(edges, start, end, distance.value))
    && (distance.Inf? <==> !Reachable(edges, start, end))
  }

  /** `visitedOrder` lists the finalised nodes once each; `rank` gives each one's position. */
  ghost predicate Ranked(visited: set<string>, visitedOrder: seq<string>, rank: map<string, nat>) {
    && rank.Keys == visited
    && (forall i :: 0 <= i < |visitedOrder| ==> visitedOrder[i] in rank && rank[visitedOrder[i]] == i)
    && (forall v :: v in rank ==> rank[v] < |visitedOrder| && visitedOrder[rank[v]] == v)
  }

  /** Every predecessor link points at a finalised node. */
  ghost predicate LinksVisited(previous: map<string, Option<string>>, visited: set<string>) {
    forall n {:trigger previous[n]} :: n in previous && previous[n].Some? ==> previous[n].value in visited
  }

  /** `start` has no predecessor, and is the only node with a finite score and none. */
  ghost predicate RootedAt(start: string, score: map<string, Cost>, previous: map<string, Option<string>>) {
    && (start in previous ==> previous[start] == None)
    && (forall n {:trigger previous[n]} :: n in previous && previous[n] == None && n in score && score[n].Fin? ==> n == start)
  }

  /**
   * The predecessor facts between two rounds: links point at finalised
   * nodes, follow edges, account for the score, and lead back to
   * `start`.
   */
  ghost predicate Links(edges: seq<GraphEdge>, start: string, score: map<string, Cost>,
                        previous: map<string, Option<string>>, via: map<string, nat>,
                        visited: set<string>, rank: map<string, nat>)
  {
    && PredecessorLinks(edges, previous, score, via)
    && LinksVisited(previous, visited)
    && LinksDescend(previous, rank)
    && RootedAt(start, score, previous)
  }

  /** Finalising `current` (`visitedOrder.push(current)`) ranks it last. */
  lemma VisitRank(visited: set<string>, visitedOrder: seq<string>, rank: map<string, nat>, current: string)
    requires Ranked(visited, visitedOrder, rank)
    requires current !in visited
    ensures Ranked(visited + {current}, visitedOrder + [current], rank[current := |visitedOrder|])
  {
  }

  /** Finalising `current` after every finalised node keeps the links valid. */
  lemma VisitLinks(edges: seq<GraphEdge>, start: string, score: map<string, Cost>,
                   previous: map<string, Option<string>>, via: map<string, nat>,
                   visited: set<string>, rank: map<string, nat>, current: string, r: nat)
    requires Links(edges, start, score, previous, via, visited, rank)
    requires rank.Keys == visited && current !in visited
    requires forall v :: v in rank ==> rank[v] < r
    ensures Links(edges, start, score, previous, via, visited + {current}, rank[current := r])
  {
  }

  /**
   * The reported route read off the links: a chain ending at `end` starts at
   * `start` and is a walk of the reported cost.
   */
  lemma ChainReport(edges: seq<GraphEdge>, start: string, end: string,
                    score: map<string, Cost>, previous: map<string, Option<string>>, via: map<string, nat>,
                    path: seq<string>)
    requires end in score && end in previous
    requires PredecessorLinks(edges, previous, score, via) && RootedAt(start, score, previous)
    requires start in score ==> score[start] == Fin(0)
    requires score[end].Inf? ==> !Reachable(edges, start, end)
    requires path == [] <==> previous[end] == None
    requires path != [] ==> |path| >= 2 && path[|path| - 1] == end && path[0] in previous && previous[path[0]] == None
    requires LinkedChain(previous, path)
    ensures RouteReport(edges, start, end, path, score[end])
  {
    if path != [] {
      assert previous[path[1]] == Some(path[0]);
      var es := ChainIsWalk(edges, previous, score, via, path);
      assert path[0] == start;
      assert WalkBetween(edges, path, es, start, end);
    } else if score[end].Fin? {
      assert end == start;
      assert WalkBetween(edges, [start], [], start, end) && WalkCost(edges, []) == 0;
    }
  }
}
