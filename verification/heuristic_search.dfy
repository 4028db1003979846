/**
 * Heuristic search (`astarAlgorithm`, app/page.tsx:131-201): pick the open
 * node of least estimate f = g + h, stop as soon as that node is `end` (before
 * closing it), otherwise close it and offer every edge touching it to the
 * neighbours that are not closed.
 */
module HeuristicSearch {
  import opened Graph
  import opened Frontier
  import opened Paths

  /** `nodes.find((n) => n.id === id)`: the position of the first node carrying `id`. */
  function FindNode(nodes: seq<GraphNode>, id: string): (i: nat)
    requires id in Ids(nodes)
    ensures i < |nodes| && nodes[i].id == id
    ensures forall j :: 0 <= j < i ==> nodes[j].id != id
  {
    if nodes[0].id == id then 0
    else
      assert Ids(nodes) == [nodes[0].id] + Ids(nodes[1..]);
      1 + FindNode(nodes[1..], id)
  }

  function Abs(x: int): nat {
    if x < 0 then -x else x
  }

  /** The Manhattan distance between the (scaled) coordinates of two nodes. */
  function Manhattan(a: GraphNode, b: GraphNode): (d: nat)
    ensures d == 0 <==> a.lat == b.lat && a.lng == b.lng
  {
    Abs(a.lat - b.lat) + Abs(a.lng - b.lng)
  }

  /**
   * `getHeuristic(id)` (lines 132-138): the Manhattan distance from the
   * coordinates of node `id` to those of node `end`. Both lookups use `!`, so
   * both ids must be node ids.
   */
  function Heuristic(nodes: seq<GraphNode>, end: string, id: string): (h: nat)
    requires id in Ids(nodes) && end in Ids(nodes)
    ensures id == end ==> h == 0
  {
    Manhattan(nodes[FindNode(nodes, id)], nodes[FindNode(nodes, end)])
  }

  /**
   * The heuristic never drops by more than the coordinate distance between two
   * nodes; so where every edge weighs at least the coordinate distance of its
   * ends, the heuristic is consistent: crossing an edge lowers it by at most
   * the edge's weight.
   */
  lemma HeuristicConsistent(nodes: seq<GraphNode>, edges: seq<GraphEdge>, end: string, k: nat, a: string, b: string)
    requires end in Ids(nodes) && a in Ids(nodes) && b in Ids(nodes)
    requires k < |edges| && Joins(edges[k], a, b)
    requires Manhattan(nodes[FindNode(nodes, a)], nodes[FindNode(nodes, b)]) <= edges[k].weight
    ensures Heuristic(nodes, end, a) <= edges[k].weight + Heuristic(nodes, end, b)
  {
  }

  /** `openSet.add(n)`: the insertion-ordered set appends an id it does not hold yet. */
  function Opened(open: seq<string>, n: string): (r: seq<string>)
    ensures open <= r && n in r
    ensures forall x :: x in r ==> x in open || x == n
    ensures Distinct(open) ==> Distinct(r)
  {
    if n in open then open else open + [n]
  }

  /** `gScore`, `fScore` and `previous` hold an entry for every node id, and share their keys. */
  ghost predicate Keyed(ids: seq<string>, g: map<string, Cost>, f: map<string, Cost>,
                        previous: map<string, Option<string>>)
  {
    && (forall n :: n in ids ==> n in g)
    && f.Keys == g.Keys && previous.Keys == g.Keys
  }

  /**
   * `openSet` is duplicate-free and disjoint from `closedSet`; every
   * discovered (open or closed) node has a finite g, every undiscovered one
   * has g = +Infinity and no predecessor.
   */
  ghost predicate Discovered(g: map<string, Cost>, previous: map<string, Option<string>>,
                             open: seq<string>, closed: set<string>)
  {
    && Distinct(open)
    && (forall n :: n in open ==> n in g && n !in closed && g[n].Fin?)
    && (forall n :: n in closed ==> n in g && g[n].Fin?)
    && (forall n {:trigger previous[n]} :: n in previous && n !in open && n !in closed ==>
          n in g && g[n] == Inf && previous[n] == None)
  }

  /** Every open node is a node id estimated at f = g + h. */
  ghost predicate Estimated(nodes: seq<GraphNode>, end: string, g: map<string, Cost>, f: map<string, Cost>,
                            open: seq<string>)
    requires end in Ids(nodes)
  {
    forall n {:trigger n in open} :: n in open ==>
      n in Ids(nodes) && n in g && g[n].Fin? && n in f && f[n] == Fin(g[n].value + Heuristic(nodes, end, n))
  }

  /** From `g` to `g'` no score rises, and closed nodes keep theirs. */
  ghost predicate Lowered(g: map<string, Cost>, g': map<string, Cost>, closed: set<string>) {
    forall n :: n in g ==> n in g' && AtMost(g'[n], g[n]) && (n in closed ==> g'[n] == g[n])
  }

  /** From one state to a later one, closed nodes keep their f-score and their predecessor. */
  ghost predicate Kept(f: map<string, Cost>, previous: map<string, Option<string>>,
                       f': map<string, Cost>, previous': map<string, Option<string>>, closed: set<string>)
  {
    forall n {:trigger previous[n]} :: n in closed && n in previous ==>
      && n in previous' && previous'[n] == previous[n]
      && (n in f ==> n in f' && f'[n] == f[n])
  }

  /** Every edge out of a node of `done` leads to a closed or an open node. */
  ghost predicate Expanded(edges: seq<GraphEdge>, done: set<string>, open: seq<string>, closed: set<string>) {
    forall v, k :: v in done && 0 <= k < |edges| && Touches(edges[k], v) ==>
      Neighbour(edges[k], v) in closed || Neighbour(edges[k], v) in open
  }

  /** The edges before `j` out of `current` lead to a closed or an open node. */
  ghost predicate Covered(edges: seq<GraphEdge>, current: string, j: nat, open: seq<string>, closed: set<string>) {
    forall k :: 0 <= k < j && k < |edges| && Touches(edges[k], current) ==>
      Neighbour(edges[k], current) in closed || Neighbour(edges[k], current) in open
  }

  /**
   * `start` keeps g = 0; before the first round it is the only open node,
   * afterwards it is closed, and it was closed first.
   */
  ghost predicate Begun(start: string, g: map<string, Cost>, open: seq<string>, closed: set<string>,
                        visitedOrder: seq<string>)
  {
    && start in g && g[start] == Fin(0)
    && (visitedOrder == [] ==> open == [start] && closed == {})
    && (visitedOrder != [] ==> visitedOrder[0] == start && start in closed)
  }

  /**
   * The callback of lines 168-183 for the edge `edges[j]` and the closed node
   * `current`: a closed neighbour is skipped; an open one is kept unless the
   * tentative g is strictly smaller; otherwise the neighbour is opened (if it
   * was not open) and gets `current` as predecessor, the tentative g, and
   * f = g + h.
   */
  ghost predicate Offered(nodes: seq<GraphNode>, edges: seq<GraphEdge>, end: string, j: nat, current: string,
                          closed: set<string>,
                          g: map<string, Cost>, f: map<string, Cost>, previous: map<string, Option<string>>,
                          via: map<string, nat>, open: seq<string>,
                          g': map<string, Cost>, f': map<string, Cost>, previous': map<string, Option<string>>,
                          via': map<string, nat>, open': seq<string>): (r: bool)
    requires j < |edges| && end in Ids(nodes) && current in g && g[current].Fin?
    requires Touches(edges[j], current) ==> Neighbour(edges[j], current) in Ids(nodes) && Neighbour(edges[j], current) in g
    ensures r ==> open <= open' && g'.Keys == g.Keys
    ensures r && current in closed ==> g'[current] == g[current]
  {
    var n := Neighbour(edges[j], current);
    var tentative := g[current].value + edges[j].weight;
    if !Touches(edges[j], current) || n in closed || (n in open && AtMost(g[n], Fin(tentative))) then
      g' == g && f' == f && previous' == previous && via' == via && open' == open
    else
      && g' == g[n := Fin(tentative)] && f' == f[n := Fin(tentative + Heuristic(nodes, end, n))]
      && previous' == previous[n := Some(current)] && via' == via[n := j] && open' == Opened(open, n)
  }

  /** Opening or improving `n`, which is not closed, keeps the open and closed nodes as described. */
  lemma ImproveDiscovered(g: map<string, Cost>, previous: map<string, Option<string>>, open: seq<string>,
                          closed: set<string>, n: string, d: nat, current: string)
    requires Discovered(g, previous, open, closed) && n in g && n !in closed
    ensures Discovered(g[n := Fin(d)], previous[n := Some(current)], Opened(open, n), closed)
  {
  }

  /** Opening or improving `n` with f = d + h(n) keeps f = g + h on the open nodes. */
  lemma ImproveEstimated(nodes: seq<GraphNode>, end: string, g: map<string, Cost>, f: map<string, Cost>,
                         open: seq<string>, n: string, d: nat)
    requires end in Ids(nodes) && n in Ids(nodes) && Estimated(nodes, end, g, f, open)
    ensures Estimated(nodes, end, g[n := Fin(d)], f[n := Fin(d + Heuristic(nodes, end, n))], Opened(open, n))
  {
  }

  /** The new link of `n` follows `edges[j]` from the closed `current`; no link points at `n`, which is not closed. */
  lemma ImprovePredecessors(edges: seq<GraphEdge>, g: map<string, Cost>, previous: map<string, Option<string>>,
                            via: map<string, nat>, closed: set<string>, j: nat, current: string, n: string)
    requires PredecessorLinks(edges, previous, g, via) && LinksVisited(previous, closed)
    requires current in closed && current in g && g[current].Fin? && n !in closed
    requires j < |edges| && Joins(edges[j], current, n)
    ensures var g' := g[n := Fin(g[current].value + edges[j].weight)];
      PredecessorLinks(edges, previous[n := Some(current)], g', via[n := j])
      && LinksVisited(previous[n := Some(current)], closed)
  {
    var g' := g[n := Fin(g[current].value + edges[j].weight)];
    var previous' := previous[n := Some(current)];
    var via' := via[n := j];
    forall x | x in previous' && previous'[x].Some?
      ensures var m := previous'[x].value;
        && x in g' && m in g' && g'[m].Fin?
        && x in via' && via'[x] < |edges| && Joins(edges[via'[x]], m, x)
        && g'[x] == Fin(g'[m].value + edges[via'[x]].weight)
    {
      if x != n {
        assert previous[x].value in closed;
      }
    }
  }

  /** Linking `n` to the closed `current` over `edges[j]` keeps the links valid. */
  lemma ImproveLinks(edges: seq<GraphEdge>, start: string, g: map<string, Cost>,
                     previous: map<string, Option<string>>, via: map<string, nat>,
                     closed: set<string>, rank: map<string, nat>, j: nat, current: string, n: string)
    requires Links(edges, start, g, previous, via, closed, rank) && rank.Keys == closed
    requires start in closed && current in closed && current in g && g[current].Fin? && current in previous
    requires n !in closed && j < |edges| && Joins(edges[j], current, n)
    ensures Links(edges, start, g[n := Fin(g[current].value + edges[j].weight)], previous[n := Some(current)],
                  via[n := j], closed, rank)
  {
    ImprovePredecessors(edges, g, previous, via, closed, j, current, n);
  }

  /**
   * Lines 168-183 on the tables: whatever the callback does, the tables stay
   * keyed, the open and closed nodes stay as described with f = g + h, no
   * g-score rises, `openSet` only grows at its end, and the neighbour across
   * `edges[j]` ends up closed or open.
   */
  lemma OfferTables(nodes: seq<GraphNode>, edges: seq<GraphEdge>, end: string, j: nat, current: string,
                    closed: set<string>,
                    g: map<string, Cost>, f: map<string, Cost>, previous: map<string, Option<string>>,
                    via: map<string, nat>, open: seq<string>,
                    g': map<string, Cost>, f': map<string, Cost>, previous': map<string, Option<string>>,
                    via': map<string, nat>, open': seq<string>)
    requires end in Ids(nodes) && j < |edges|
    requires Keyed(Ids(nodes), g, f, previous) && Discovered(g, previous, open, closed)
    requires Estimated(nodes, end, g, f, open)
    requires current in closed
    requires Touches(edges[j], current) ==> Neighbour(edges[j], current) in Ids(nodes)
    requires Offered(nodes, edges, end, j, current, closed, g, f, previous, via, open, g', f', previous', via', open')
    ensures Keyed(Ids(nodes), g', f', previous') && Discovered(g', previous', open', closed)
    ensures Estimated(nodes, end, g', f', open')
    ensures Lowered(g, g', closed) && Kept(f, previous, f', previous', closed) && open <= open'
    ensures Touches(edges[j], current) ==> Neighbour(edges[j], current) in closed || Neighbour(edges[j], current) in open'
  {
    var n := Neighbour(edges[j], current);
    var tentative := g[current].value + edges[j].weight;
    if Touches(edges[j], current) && n !in closed && !(n in open && AtMost(g[n], Fin(tentative))) {
      ImproveTables(nodes, end, closed, g, f, previous, open, n, tentative, current);
      assert g' == g[n := Fin(tentative)] && f' == f[n := Fin(tentative + Heuristic(nodes, end, n))];
      assert open' == Opened(open, n) && previous' == previous[n := Some(current)];
    } else {
      assert g' == g && f' == f && previous' == previous && open' == open;
    }
  }

  /** Opening or improving `n`, which is not closed, with a g below its current one. */
  lemma ImproveTables(nodes: seq<GraphNode>, end: string, closed: set<string>,
                      g: map<string, Cost>, f: map<string, Cost>, previous: map<string, Option<string>>,
                      open: seq<string>, n: string, d: nat, current: string)
    requires end in Ids(nodes) && n in Ids(nodes)
    requires Keyed(Ids(nodes), g, f, previous) && Discovered(g, previous, open, closed)
    requires Estimated(nodes, end, g, f, open)
    requires n !in closed && (n in open ==> Below(Fin(d), g[n]))
    ensures var g', f', previous' := g[n := Fin(d)], f[n := Fin(d + Heuristic(nodes, end, n))], previous[n := Some(current)];
      && Keyed(Ids(nodes), g', f', previous') && Discovered(g', previous', Opened(open, n), closed)
      && Estimated(nodes, end, g', f', Opened(open, n)) && Lowered(g, g', closed)
  {
    if n !in open {
      assert previous[n] == None;
    }
    ImproveDiscovered(g, previous, open, closed, n, d, current);
    ImproveEstimated(nodes, end, g, f, open, n, d);
  }

  /** Lines 168-183 on the predecessor links: they stay valid whatever the callback does. */
  lemma OfferLinks(nodes: seq<GraphNode>, edges: seq<GraphEdge>, start: string, end: string, j: nat, current: string,
                   closed: set<string>, rank: map<string, nat>,
                   g: map<string, Cost>, f: map<string, Cost>, previous: map<string, Option<string>>,
                   via: map<string, nat>, open: seq<string>,
                   g': map<string, Cost>, f': map<string, Cost>, previous': map<string, Option<string>>,
                   via': map<string, nat>, open': seq<string>)
    requires end in Ids(nodes) && j < |edges|
    requires Links(edges, start, g, previous, via, closed, rank) && rank.Keys == closed
    requires start in closed && current in closed && current in g && g[current].Fin? && current in previous
    requires Touches(edges[j], current) ==> Neighbour(edges[j], current) in Ids(nodes) && Neighbour(edges[j], current) in g
    requires Offered(nodes, edges, end, j, current, closed, g, f, previous, via, open, g', f', previous', via', open')
    ensures Links(edges, start, g', previous', via', closed, rank)
  {
    var n := Neighbour(edges[j], current);
    var tentative := g[current].value + edges[j].weight;
    if Touches(edges[j], current) && n !in closed && !(n in open && AtMost(g[n], Fin(tentative))) {
      NeighbourJoins(edges[j], current, n);
      ImproveLinks(edges, start, g, previous, via, closed, rank, j, current, n);
    }
  }

  /**
   * The callback of lines 168-183 for `edges[j]` and the closed `current`:
   * it does what `Offered` describes, and keeps the invariants.
   */
  method Offer(nodes: seq<GraphNode>, edges: seq<GraphEdge>, start: string, end: string, j: nat, current: string,
               closed: set<string>, ghost rank: map<string, nat>,
               g: map<string, Cost>, f: map<string, Cost>, previous: map<string, Option<string>>,
               ghost via: map<string, nat>, open: seq<string>)
    returns (g': map<string, Cost>, f': map<string, Cost>, previous': map<string, Option<string>>,
             ghost via': map<string, nat>, open': seq<string>)
    requires ValidGraph(nodes, edges) && end in Ids(nodes) && j < |edges|
    requires Keyed(Ids(nodes), g, f, previous) && Discovered(g, previous, open, closed)
    requires Estimated(nodes, end, g, f, open)
    requires Links(edges, start, g, previous, via, closed, rank) && rank.Keys == closed
    requires start in closed && current in closed
    ensures current in g && g[current].Fin?
    ensures Touches(edges[j], current) ==> Neighbour(edges[j], current) in Ids(nodes) && Neighbour(edges[j], current) in g
    ensures Offered(nodes, edges, end, j, current, closed, g, f, previous, via, open, g', f', previous', via', open')
    ensures Keyed(Ids(nodes), g', f', previous') && Discovered(g', previous', open', closed)
    ensures Estimated(nodes, end, g', f', open')
    ensures Links(edges, start, g', previous', via', closed, rank)
    ensures Lowered(g, g', closed) && Kept(f, previous, f', previous', closed) && open <= open'
    ensures Touches(edges[j], current) ==> Neighbour(edges[j], current) in closed || Neighbour(edges[j], current) in open'
  {
    g', f', previous', via', open' := g, f, previous, via, open;
    var edge := edges[j];
    if Touches(edge, current) {
      var neighbour := Neighbour(edge, current);
      if neighbour !in closed {
        var tentative := g[current].value + edge.weight;
        var improves := true;
        if neighbour !in open {
          open' := open + [neighbour];
        } else if !Below(Fin(tentative), g[neighbour]) {
          improves := false;
        }
        if improves {
          previous' := previous[neighbour := Some(current)];
          g' := g[neighbour := Fin(tentative)];
          f' := f[neighbour := Fin(tentative + Heuristic(nodes, end, neighbour))];
          via' := via[neighbour := j];
        }
      }
    }
    OfferTables(nodes, edges, end, j, current, closed, g, f, previous, via, open, g', f', previous', via', open');
    OfferLinks(nodes, edges, start, end, j, current, closed, rank, g, f, previous, via, open,
               g', f', previous', via', open');
  }

  /** Two rounds of lowering are one. */
  lemma LoweredTrans(g0: map<string, Cost>, g1: map<string, Cost>, g2: map<string, Cost>, closed: set<string>)
    requires Lowered(g0, g1, closed) && Lowered(g1, g2, closed)
    ensures Lowered(g0, g2, closed)
  {
    forall n | n in g0
      ensures n in g2 && AtMost(g2[n], g0[n]) && (n in closed ==> g2[n] == g0[n])
    {
      assert AtMost(g1[n], g0[n]) && AtMost(g2[n], g1[n]);
    }
  }

  /** Keeping the closed entries twice is keeping them once. */
  lemma KeptTrans(f0: map<string, Cost>, previous0: map<string, Option<string>>,
                  f1: map<string, Cost>, previous1: map<string, Option<string>>,
                  f2: map<string, Cost>, previous2: map<string, Option<string>>, closed: set<string>)
    requires Kept(f0, previous0, f1, previous1, closed) && Kept(f1, previous1, f2, previous2, closed)
    ensures Kept(f0, previous0, f2, previous2, closed)
  {
    forall n | n in closed && n in previous0
      ensures n in previous2 && previous2[n] == previous0[n] && (n in f0 ==> n in f2 && f2[n] == f0[n])
    {
    }
  }

  /** A frontier that only gained ids keeps every edge it covered covered. */
  lemma ExpandedGrows(edges: seq<GraphEdge>, done: set<string>, open: seq<string>, open': seq<string>,
                      closed: set<string>)
    requires Expanded(edges, done, open, closed) && open <= open'
    ensures Expanded(edges, done, open', closed)
  {
    forall v, k | v in done && 0 <= k < |edges| && Touches(edges[k], v)
      ensures Neighbour(edges[k], v) in closed || Neighbour(edges[k], v) in open'
    {
      var n := Neighbour(edges[k], v);
      if n in open {
        var i :| 0 <= i < |open| && open[i] == n;
        assert open'[i] == n;
      }
    }
  }

  /** The edges before `j` out of `current` stay covered when the frontier gains ids, and edge `j` joins them. */
  lemma CoveredGrows(edges: seq<GraphEdge>, current: string, j: nat, open: seq<string>, open': seq<string>,
                     closed: set<string>)
    requires j < |edges| && Covered(edges, current, j, open, closed) && open <= open'
    requires Touches(edges[j], current) ==> Neighbour(edges[j], current) in closed || Neighbour(edges[j], current) in open'
    ensures Covered(edges, current, j + 1, open', closed)
  {
    forall k | 0 <= k < j && Touches(edges[k], current) && Neighbour(edges[k], current) in open
      ensures Neighbour(edges[k], current) in open'
    {
      var i :| 0 <= i < |open| && open[i] == Neighbour(edges[k], current);
      assert open'[i] == open[i];
    }
  }

  /** One more callback extends what the edges before `j` established by edge `j`. */
  lemma ExpandStep(edges: seq<GraphEdge>, current: string, closed: set<string>, j: nat,
                   g0: map<string, Cost>, g1: map<string, Cost>, g2: map<string, Cost>,
                   open0: seq<string>, open1: seq<string>, open2: seq<string>)
    requires j < |edges|
    requires Lowered(g0, g1, closed) && Lowered(g1, g2, closed) && open0 <= open1 && open1 <= open2
    requires Expanded(edges, closed - {current}, open1, closed) && Covered(edges, current, j, open1, closed)
    requires Touches(edges[j], current) ==> Neighbour(edges[j], current) in closed || Neighbour(edges[j], current) in open2
    ensures Lowered(g0, g2, closed) && open0 <= open2
    ensures Expanded(edges, closed - {current}, open2, closed) && Covered(edges, current, j + 1, open2, closed)
  {
    LoweredTrans(g0, g1, g2, closed);
    ExpandedGrows(edges, closed - {current}, open1, open2, closed);
    CoveredGrows(edges, current, j, open1, open2, closed);
  }

  /** Covering the other closed nodes and, edge by edge, `current` covers them all. */
  lemma ExpandedJoin(edges: seq<GraphEdge>, closed: set<string>, current: string, open: seq<string>)
    requires Expanded(edges, closed - {current}, open, closed)
    requires Covered(edges, current, |edges|, open, closed)
    ensures Expanded(edges, closed, open, closed)
  {
    forall v, k | v in closed && 0 <= k < |edges| && Touches(edges[k], v)
      ensures Neighbour(edges[k], v) in closed || Neighbour(edges[k], v) in open
    {
      if v != current {
        assert v in closed - {current};
      }
    }
  }

  /**
   * Edge `j` takes the tables from entry `j` of the recorded sequences to
   * entry `j + 1` as the callback does.
   */
  ghost predicate OfferStep(nodes: seq<GraphNode>, edges: seq<GraphEdge>, end: string, current: string,
                            closed: set<string>,
                            gs: seq<map<string, Cost>>, fs: seq<map<string, Cost>>,
                            ps: seq<map<string, Option<string>>>, vs: seq<map<string, nat>>, os: seq<seq<string>>,
                            j: nat)
    requires end in Ids(nodes)
  {
    && j < |edges| && j + 1 < |gs| && j + 1 < |fs| && j + 1 < |ps| && j + 1 < |vs| && j + 1 < |os|
    && current in gs[j] && gs[j][current].Fin?
    && (Touches(edges[j], current) ==> Neighbour(edges[j], current) in Ids(nodes) && Neighbour(edges[j], current) in gs[j])
    && Offered(nodes, edges, end, j, current, closed, gs[j], fs[j], ps[j], vs[j], os[j],
               gs[j + 1], fs[j + 1], ps[j + 1], vs[j + 1], os[j + 1])
  }

  /**
   * The recorded tables are those met while offering the edges `0..hi` to
   * the callback in edge-list order: entry `j` before edge `j`, entry `hi`
   * after the last.
   */
  ghost predicate OfferedInOrder(nodes: seq<GraphNode>, edges: seq<GraphEdge>, end: string, current: string,
                                 closed: set<string>,
                                 gs: seq<map<string, Cost>>, fs: seq<map<string, Cost>>,
                                 ps: seq<map<string, Option<string>>>, vs: seq<map<string, nat>>, os: seq<seq<string>>,
                                 hi: nat)
    requires end in Ids(nodes)
  {
    && hi <= |edges| && |gs| == hi + 1 && |fs| == hi + 1 && |ps| == hi + 1 && |vs| == hi + 1 && |os| == hi + 1
    && forall j :: 0 <= j < hi ==> OfferStep(nodes, edges, end, current, closed, gs, fs, ps, vs, os, j)
  }

  /**
   * The recorded tables run from (`g`, `f`, `previous`, `via`, `open`) to
   * (`g'`, `f'`, `previous'`, `via'`, `open'`) through the edges `0..hi`.
   */
  ghost predicate OfferTrace(nodes: seq<GraphNode>, edges: seq<GraphEdge>, end: string, current: string,
                             closed: set<string>,
                             g: map<string, Cost>, f: map<string, Cost>, previous: map<string, Option<string>>,
                             via: map<string, nat>, open: seq<string>,
                             gs: seq<map<string, Cost>>, fs: seq<map<string, Cost>>,
                             ps: seq<map<string, Option<string>>>, vs: seq<map<string, nat>>, os: seq<seq<string>>,
                             g': map<string, Cost>, f': map<string, Cost>, previous': map<string, Option<string>>,
                             via': map<string, nat>, open': seq<string>, hi: nat)
    requires end in Ids(nodes)
  {
    && OfferedInOrder(nodes, edges, end, current, closed, gs, fs, ps, vs, os, hi)
    && gs[0] == g && fs[0] == f && ps[0] == previous && vs[0] == via && os[0] == open
    && gs[hi] == g' && fs[hi] == f' && ps[hi] == previous' && vs[hi] == via' && os[hi] == open'
  }

  /** Before any edge is offered, the record holds the tables as they are. */
  lemma OfferTraceStart(nodes: seq<GraphNode>, edges: seq<GraphEdge>, end: string, current: string,
                        closed: set<string>,
                        g: map<string, Cost>, f: map<string, Cost>, previous: map<string, Option<string>>,
                        via: map<string, nat>, open: seq<string>)
    requires end in Ids(nodes)
    ensures OfferTrace(nodes, edges, end, current, closed, g, f, previous, via, open,
                       [g], [f], [previous], [via], [open], g, f, previous, via, open, 0)
  {
  }

  /** Offering edge `hi` after the edges `0..hi` records one more entry. */
  lemma OfferTraceExtend(nodes: seq<GraphNode>, edges: seq<GraphEdge>, end: string, current: string,
                         closed: set<string>,
                         g: map<string, Cost>, f: map<string, Cost>, previous: map<string, Option<string>>,
                         via: map<string, nat>, open: seq<string>,
                         gs: seq<map<string, Cost>>, fs: seq<map<string, Cost>>,
                         ps: seq<map<string, Option<string>>>, vs: seq<map<string, nat>>, os: seq<seq<string>>,
                         g1: map<string, Cost>, f1: map<string, Cost>, previous1: map<string, Option<string>>,
                         via1: map<string, nat>, open1: seq<string>,
                         g2: map<string, Cost>, f2: map<string, Cost>, previous2: map<string, Option<string>>,
                         via2: map<string, nat>, open2: seq<string>, hi: nat)
    requires end in Ids(nodes) && hi < |edges|
    requires OfferTrace(nodes, edges, end, current, closed, g, f, previous, via, open,
                        gs, fs, ps, vs, os, g1, f1, previous1, via1, open1, hi)
    requires current in g1 && g1[current].Fin?
    requires Touches(edges[hi], current) ==> Neighbour(edges[hi], current) in Ids(nodes) && Neighbour(edges[hi], current) in g1
    requires Offered(nodes, edges, end, hi, current, closed, g1, f1, previous1, via1, open1,
                     g2, f2, previous2, via2, open2)
    ensures OfferTrace(nodes, edges, end, current, closed, g, f, previous, via, open,
                       gs + [g2], fs + [f2], ps + [previous2], vs + [via2], os + [open2],
                       g2, f2, previous2, via2, open2, hi + 1)
  {
    var gs', fs', ps', vs', os' := gs + [g2], fs + [f2], ps + [previous2], vs + [via2], os + [open2];
    forall j | 0 <= j < hi + 1
      ensures OfferStep(nodes, edges, end, current, closed, gs', fs', ps', vs', os', j)
    {
      assert gs'[j] == gs[j] && fs'[j] == fs[j] && ps'[j] == ps[j] && vs'[j] == vs[j] && os'[j] == os[j];
      if j < hi {
        assert OfferStep(nodes, edges, end, current, closed, gs, fs, ps, vs, os, j);
        assert gs'[j + 1] == gs[j + 1] && fs'[j + 1] == fs[j + 1] && ps'[j + 1] == ps[j + 1];
        assert vs'[j + 1] == vs[j + 1] && os'[j + 1] == os[j + 1];
      }
    }
  }

  /**
   * Lines 166-183: every edge is offered to the callback in edge-list order;
   * `gs`, `fs`, `ps`, `vs` and `os` record the tables met on the way. The
   * tables keep their invariants, no g-score rises, `openSet` only grows at
   * its end, and afterwards every edge out of a closed node leads to a
   * closed or an open node.
   */
  method Expand(nodes: seq<GraphNode>, edges: seq<GraphEdge>, start: string, end: string, current: string,
                closed: set<string>, ghost rank: map<string, nat>,
                g: map<string, Cost>, f: map<string, Cost>, previous: map<string, Option<string>>,
                ghost via: map<string, nat>, open: seq<string>)
    returns (g': map<string, Cost>, f': map<string, Cost>, previous': map<string, Option<string>>,
             ghost via': map<string, nat>, open': seq<string>,
             ghost gs: seq<map<string, Cost>>, ghost fs: seq<map<string, Cost>>,
             ghost ps: seq<map<string, Option<string>>>, ghost vs: seq<map<string, nat>>, ghost os: seq<seq<string>>)
    requires ValidGraph(nodes, edges) && end in Ids(nodes)
    requires Keyed(Ids(nodes), g, f, previous) && Discovered(g, previous, open, closed)
    requires Estimated(nodes, end, g, f, open)
    requires Links(edges, start, g, previous, via, closed, rank) && rank.Keys == closed
    requires start in closed && current in closed
    requires Expanded(edges, closed - {current}, open, closed)
    ensures OfferTrace(nodes, edges, end, current, closed, g, f, previous, via, open,
                       gs, fs, ps, vs, os, g', f', previous', via', open', |edges|)
    ensures Keyed(Ids(nodes), g', f', previous') && Discovered(g', previous', open', closed)
    ensures Estimated(nodes, end, g', f', open')
    ensures Links(edges, start, g', previous', via', closed, rank)
    ensures Lowered(g, g', closed) && Kept(f, previous, f', previous', closed) && open <= open'
    ensures Expanded(edges, closed, open', closed)
  {
    g', f', previous', via', open' := g, f, previous, via, open;
    gs, fs, ps, vs, os := [g], [f], [previous], [via], [open];
    OfferTraceStart(nodes, edges, end, current, closed, g, f, previous, via, open);
    for j := 0 to |edges|
      invariant OfferTrace(nodes, edges, end, current, closed, g, f, previous, via, open,
                           gs, fs, ps, vs, os, g', f', previous', via', open', j)
      invariant Keyed(Ids(nodes), g', f', previous') && Discovered(g', previous', open', closed)
      invariant Estimated(nodes, end, g', f', open')
      invariant Links(edges, start, g', previous', via', closed, rank)
      invariant Lowered(g, g', closed) && Kept(f, previous, f', previous', closed) && open <= open'
      invariant Expanded(edges, closed - {current}, open', closed) && Covered(edges, current, j, open', closed)
    {
      ghost var g1, f1, previous1, via1, open1 := g', f', previous', via', open';
      g', f', previous', via', open' := Offer(nodes, edges, start, end, j, current, closed, rank,
                                             g', f', previous', via', open');
      ExpandStep(edges, current, closed, j, g, g1, g', open, open1, open');
      KeptTrans(f, previous, f1, previous1, f', previous', closed);
      OfferTraceExtend(nodes, edges, end, current, closed, g, f, previous, via, open, gs, fs, ps, vs, os,
                       g1, f1, previous1, via1, open1, g', f', previous', via', open', j);
      gs, fs, ps, vs, os := gs + [g'], fs + [f'], ps + [previous'], vs + [via'], os + [open'];
    }
    ExpandedJoin(edges, closed, current, open');
  }

  /** Closing the open node `open[k]` keeps the open and closed nodes as described. */
  lemma CloseDiscovered(g: map<string, Cost>, previous: map<string, Option<string>>,
                        open: seq<string>, closed: set<string>, k: nat)
    requires Discovered(g, previous, open, closed) && k < |open|
    ensures Discovered(g, previous, open[..k] + open[k + 1..], closed + {open[k]})
  {
    var open' := open[..k] + open[k + 1..];
    DropDistinct(open, k);
    forall n | n in open'
      ensures n in g && n !in closed + {open[k]} && g[n].Fin?
    {
      assert n in open;
    }
    forall n | n in previous && n !in open' && n !in closed + {open[k]}
      ensures n in g && g[n] == Inf && previous[n] == None
    {
      assert n !in open;
    }
  }

  /** Dropping an open node keeps f = g + h on the others. */
  lemma CloseEstimated(nodes: seq<GraphNode>, end: string, g: map<string, Cost>, f: map<string, Cost>,
                       open: seq<string>, k: nat)
    requires end in Ids(nodes) && Estimated(nodes, end, g, f, open) && Distinct(open) && k < |open|
    ensures Estimated(nodes, end, g, f, open[..k] + open[k + 1..])
  {
    DropDistinct(open, k);
    forall n | n in open[..k] + open[k + 1..]
      ensures n in Ids(nodes) && n in g && g[n].Fin? && n in f && f[n] == Fin(g[n].value + Heuristic(nodes, end, n))
    {
      assert n in open;
    }
  }

  /** Moving `open[k]` to the closed nodes keeps every edge out of the other closed nodes covered. */
  lemma CloseExpanded(edges: seq<GraphEdge>, open: seq<string>, closed: set<string>, k: nat)
    requires Expanded(edges, closed, open, closed) && Distinct(open) && k < |open| && open[k] !in closed
    ensures Expanded(edges, (closed + {open[k]}) - {open[k]}, open[..k] + open[k + 1..], closed + {open[k]})
  {
    DropDistinct(open, k);
    assert (closed + {open[k]}) - {open[k]} == closed;
  }

  /**
   * Lines 159-164: `openSet.delete(current)`, `closedSet.add(current)` and
   * `visitedOrder.push(current)` for the open node `current == open[k]`.
   */
  method Close(nodes: seq<GraphNode>, edges: seq<GraphEdge>, start: string, end: string,
               g: map<string, Cost>, f: map<string, Cost>, previous: map<string, Option<string>>,
               ghost via: map<string, nat>, open: seq<string>, closed: set<string>,
               visitedOrder: seq<string>, ghost rank: map<string, nat>, k: nat)
    returns (open': seq<string>, closed': set<string>, visitedOrder': seq<string>, ghost rank': map<string, nat>)
    requires end in Ids(nodes) && k < |open|
    requires Discovered(g, previous, open, closed) && Estimated(nodes, end, g, f, open)
    requires Links(edges, start, g, previous, via, closed, rank) && Ranked(closed, visitedOrder, rank)
    requires Expanded(edges, closed, open, closed) && Begun(start, g, open, closed, visitedOrder)
    ensures open' == open[..k] + open[k + 1..] && closed' == closed + {open[k]}
    ensures visitedOrder' == visitedOrder + [open[k]] && rank' == rank[open[k] := |visitedOrder|]
    ensures Discovered(g, previous, open', closed') && Estimated(nodes, end, g, f, open')
    ensures Links(edges, start, g, previous, via, closed', rank') && Ranked(closed', visitedOrder', rank')
    ensures Expanded(edges, closed' - {open[k]}, open', closed') && Begun(start, g, open', closed', visitedOrder')
  {
    var current := open[k];
    CloseDiscovered(g, previous, open, closed, k);
    CloseEstimated(nodes, end, g, f, open, k);
    CloseExpanded(edges, open, closed, k);
    VisitRank(closed, visitedOrder, rank, current);
    VisitLinks(edges, start, g, previous, via, closed, rank, current, |visitedOrder|);
    open' := open[..k] + open[k + 1..];
    closed' := closed + {current};
    visitedOrder' := visitedOrder + [current];
    rank' := rank[current := |visitedOrder|];
  }

  /**
   * Lines 146-150: every node id gets g = 0 for `start` and +Infinity
   * otherwise, f = h(start) for `start` and +Infinity otherwise, and no
   * predecessor.
   */
  method InitialScores(nodes: seq<GraphNode>, start: string, end: string)
    returns (g: map<string, Cost>, f: map<string, Cost>, previous: map<string, Option<string>>)
    requires end in Ids(nodes)
    ensures forall n :: n in g <==> n in Ids(nodes)
    ensures f.Keys == g.Keys && previous.Keys == g.Keys
    ensures forall n :: n in g ==>
      && g[n] == (if n == start then Fin(0) else Inf)
      && f[n] == (if n == start then Fin(Heuristic(nodes, end, n)) else Inf)
      && previous[n] == None
  {
    var ids := Ids(nodes);
    g, f, previous := map[], map[], map[];
    for i := 0 to |nodes|
      invariant forall n :: n in g <==> n in ids[..i]
      invariant f.Keys == g.Keys && previous.Keys == g.Keys
      invariant forall n :: n in g ==>
        && g[n] == (if n == start then Fin(0) else Inf)
        && f[n] == (if n == start then Fin(Heuristic(nodes, end, n)) else Inf)
        && previous[n] == None
    {
      var id := nodes[i].id;
      assert ids[..i + 1] == ids[..i] + [id] && ids[i] == id;
      g := g[id := if id == start then Fin(0) else Inf];
      f := f[id := if id == start then Fin(Heuristic(nodes, end, id)) else Inf];
      previous := previous[id := None];
    }
    assert ids[..|nodes|] == ids;
  }

  /** The tables of lines 140-150 meet the invariants of the search loop. */
  lemma InitialSearch(nodes: seq<GraphNode>, edges: seq<GraphEdge>, start: string, end: string,
                      g: map<string, Cost>, f: map<string, Cost>, previous: map<string, Option<string>>)
    requires start in Ids(nodes) && end in Ids(nodes)
    requires forall n :: n in g <==> n in Ids(nodes)
    requires f.Keys == g.Keys && previous.Keys == g.Keys
    requires forall n :: n in g ==>
      && g[n] == (if n == start then Fin(0) else Inf)
      && f[n] == (if n == start then Fin(Heuristic(nodes, end, n)) else Inf)
      && previous[n] == None
    ensures Keyed(Ids(nodes), g, f, previous) && Discovered(g, previous, [start], {})
    ensures Estimated(nodes, end, g, f, [start])
    ensures Links(edges, start, g, previous, map[], {}, map[]) && Ranked({}, [], map[])
    ensures Expanded(edges, {}, [start], {}) && Begun(start, g, [start], {}, [])
  {
  }

  /** What the list of closed nodes records: each closed node once, `start` first, never `end`. */
  ghost predicate ClosedInOrder(ids: seq<string>, start: string, end: string, visitedOrder: seq<string>) {
    && Distinct(visitedOrder)
    && (forall v :: v in visitedOrder ==> v in ids)
    && end !in visitedOrder
    && (visitedOrder == [] <==> start == end)
    && (visitedOrder != [] ==> visitedOrder[0] == start)
  }

  /** The closing order at the end of the loop. */
  lemma OrderReport(ids: seq<string>, start: string, end: string, open: seq<string>, closed: set<string>,
                    g: map<string, Cost>, visitedOrder: seq<string>, rank: map<string, nat>)
    requires Ranked(closed, visitedOrder, rank) && Begun(start, g, open, closed, visitedOrder)
    requires forall n :: n in closed ==> n in ids
    requires end !in closed && (open == [] || end in open)
    ensures ClosedInOrder(ids, start, end, visitedOrder)
  {
    forall i, j | 0 <= i < j < |visitedOrder|
      ensures visitedOrder[i] != visitedOrder[j]
    {
      assert rank[visitedOrder[i]] == i && rank[visitedOrder[j]] == j;
    }
  }

  /**
   * The reported route: when the loop stopped at `end` it is open with a
   * finite g; when `openSet` ran empty every edge out of a closed node stays
   * among the closed nodes, so `end` is unreachable and its g is +Infinity.
   */
  lemma SearchReport(nodes: seq<GraphNode>, edges: seq<GraphEdge>, start: string, end: string,
                     g: map<string, Cost>, f: map<string, Cost>, previous: map<string, Option<string>>,
                     via: map<string, nat>, open: seq<string>, closed: set<string>,
                     visitedOrder: seq<string>, rank: map<string, nat>, path: seq<string>)
    requires end in Ids(nodes)
    requires Keyed(Ids(nodes), g, f, previous) && Discovered(g, previous, open, closed)
    requires Links(edges, start, g, previous, via, closed, rank)
    requires Expanded(edges, closed, open, closed) && Begun(start, g, open, closed, visitedOrder)
    requires end !in closed && (open == [] || end in open)
    requires path == [] <==> previous[end] == None
    requires path != [] ==> |path| >= 2 && path[|path| - 1] == end && path[0] in previous && previous[path[0]] == None
    requires LinkedChain(previous, path)
    ensures RouteReport(edges, start, end, path, g[end])
  {
    if end !in open {
      assert start in closed;
      assert previous[end] == None;
      TrappedTargetUnreachable(edges, closed, start, end);
    }
    ChainReport(edges, start, end, g, previous, via, path);
  }

  /** Closing one more node id shrinks the set of node ids not yet closed. */
  lemma FewerUnclosed(ids: seq<string>, before: set<string>, closed: set<string>, c: string)
    requires before <= closed && c in ids && c !in before && c in closed
    ensures (set n | n in ids && n !in closed) < (set n | n in ids && n !in before)
  {
    var now, was := set n | n in ids && n !in closed, set n | n in ids && n !in before;
    assert c in was && c !in now;
  }

  /** The invariants of the search loop of lines 155-184 between two rounds. */
  ghost predicate Searching(nodes: seq<GraphNode>, edges: seq<GraphEdge>, start: string, end: string,
                            g: map<string, Cost>, f: map<string, Cost>, previous: map<string, Option<string>>,
                            via: map<string, nat>, open: seq<string>, closed: set<string>,
                            visitedOrder: seq<string>, rank: map<string, nat>)
    requires end in Ids(nodes)
  {
    && Keyed(Ids(nodes), g, f, previous) && Discovered(g, previous, open, closed)
    && Estimated(nodes, end, g, f, open)
    && Links(edges, start, g, previous, via, closed, rank) && Ranked(closed, visitedOrder, rank)
    && Expanded(edges, closed, open, closed) && Begun(start, g, open, closed, visitedOrder)
    && (forall n :: n in closed ==> n in Ids(nodes))
    && end !in closed
  }

  /**
   * One round of the loop once the open node `open[k]` of least f turned out
   * not to be `end` (lines 159-183): close it, then offer every edge; the
   * recorded tables start from the old ones with `open[k]` dropped from
   * `openSet` and end at the new ones.
   */
  method Round(nodes: seq<GraphNode>, edges: seq<GraphEdge>, start: string, end: string,
               g: map<string, Cost>, f: map<string, Cost>, previous: map<string, Option<string>>,
               ghost via: map<string, nat>, open: seq<string>, closed: set<string>,
               visitedOrder: seq<string>, ghost rank: map<string, nat>, k: nat)
    returns (g': map<string, Cost>, f': map<string, Cost>, previous': map<string, Option<string>>,
             ghost via': map<string, nat>, open': seq<string>, closed': set<string>,
             visitedOrder': seq<string>, ghost rank': map<string, nat>,
             ghost gs: seq<map<string, Cost>>, ghost fs: seq<map<string, Cost>>,
             ghost ps: seq<map<string, Option<string>>>, ghost vs: seq<map<string, nat>>, ghost os: seq<seq<string>>)
    requires ValidGraph(nodes, edges) && end in Ids(nodes)
    requires Searching(nodes, edges, start, end, g, f, previous, via, open, closed, visitedOrder, rank)
    requires k < |open| && open[k] != end
    ensures Searching(nodes, edges, start, end, g', f', previous', via', open', closed', visitedOrder', rank')
    ensures closed' == closed + {open[k]} && visitedOrder' == visitedOrder + [open[k]]
    ensures OfferTrace(nodes, edges, end, open[k], closed', g, f, previous, via, open[..k] + open[k + 1..],
                       gs, fs, ps, vs, os, g', f', previous', via', open', |edges|)
    ensures open[k] in Ids(nodes) && open[k] !in closed
    ensures Lowered(g, g', closed') && Kept(f, previous, f', previous', closed')
  {
    var current := open[k];
    var open1;
    open1, closed', visitedOrder', rank' := Close(nodes, edges, start, end, g, f, previous, via, open, closed,
                                                   visitedOrder, rank, k);
    g', f', previous', via', open', gs, fs, ps, vs, os :=
      Expand(nodes, edges, start, end, current, closed', rank', g, f, previous, via, open1);
  }

  /**
   * `astarAlgorithm(start, end)` (lines 131-201): the reported distance is
   * g(end), the path is read off the predecessor links, and the closing order
   * is recorded in `visitedOrder`.
   */
  method AStarAlgorithm(nodes: seq<GraphNode>, edges: seq<GraphEdge>, start: string, end: string)
    returns (result: PathResult)
    requires ValidGraph(nodes, edges)
    requires start in Ids(nodes) && end in Ids(nodes)
    ensures result.algorithm == AStar && result.steps == |result.visitedOrder|
    ensures ClosedInOrder(Ids(nodes), start, end, result.visitedOrder)
    ensures RouteReport(edges, start, end, result.path, result.distance)
  {
    var ids := Ids(nodes);
    var g, f, previous := InitialScores(nodes, start, end);
    var open := [start];
    var closed: set<string> := {};
    var steps := 0;
    var visitedOrder: seq<string> := [];
    ghost var rank: map<string, nat> := map[];
    ghost var via: map<string, nat> := map[];
    InitialSearch(nodes, edges, start, end, g, f, previous);

    while |open| > 0
      invariant Searching(nodes, edges, start, end, g, f, previous, via, open, closed, visitedOrder, rank)
      invariant steps == |visitedOrder|
      decreases set n | n in ids && n !in closed
    {
      var k := SelectMin(open, f);
      var current := open[k];
      if current == end {
        break;
      }
      ghost var before := closed;
      ghost var gs, fs, ps, vs, os;
      g, f, previous, via, open, closed, visitedOrder, rank, gs, fs, ps, vs, os :=
        Round(nodes, edges, start, end, g, f, previous, via, open, closed, visitedOrder, rank, k);
      steps := steps + 1;
      FewerUnclosed(ids, before, closed, current);
    }
    var path := ReconstructPath(previous, end, rank);
    SearchReport(nodes, edges, start, end, g, f, previous, via, open, closed, visitedOrder, rank, path);
    OrderReport(ids, start, end, open, closed, g, visitedOrder, rank);
    result := PathResult(path, g[end], steps, visitedOrder, AStar);
  }
}
