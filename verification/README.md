# City navigator route search, in Dafny

This project models the route-search engine of the CityNavigator page
(`app/page.tsx`). The page holds a small city graph: eight named locations
joined by weighted edges that can be travelled in both directions. It finds
a route between two selected locations with one of two searches. Each search
returns a `PathResult` with these fields:

- the path;
- its distance;
- a step count;
- the order in which nodes were finalised;
- the algorithm tag.

Modules and files:

- `graph.dfy` (`Graph`):
  - the records `GraphNode`, `GraphEdge` and `PathResult`;
  - the cost type `Cost`, with `Inf` standing for `Number.POSITIVE_INFINITY`;
  - JavaScript's `<` on costs (`Below`);
  - the vocabulary of walks the contracts use: a walk, its cost, reachability, shortest distance.
- `frontier.dfy` (`Frontier`):
  - the `reduce` that picks the first candidate of least score (`SelectMin`);
  - the insertion-ordered `Set`s, modelled as duplicate-free sequences;
  - the uniform-cost queue as the node list minus the finalised nodes (`Unvisited`).
- `paths.dfy` (`Paths`): the reconstruction shared by both searches (`ReconstructPath`), and what a reported route means (`RouteReport`).
- `uniform_cost.dfy` (`UniformCost`): `dijkstraAlgorithm` as an imperative method over the `distances` and `previous` maps. It proves:
  - every finalised node holds its shortest distance;
  - nodes are finalised in non-decreasing order of distance;
  - the reported path is a walk of the reported, shortest cost;
  - the distance is +Infinity exactly when `end` is unreachable.
- `heuristic_search.dfy` (`HeuristicSearch`): `astarAlgorithm` with its Manhattan `getHeuristic`. It proves:
  - the open nodes keep `f = g + h`;
  - no g-score rises;
  - closed nodes keep their scores and predecessors;
  - `end` is never closed;
  - the reported path is a walk whose cost is the reported distance;
  - the distance is +Infinity exactly when `end` is unreachable.
- `navigator.dfy` (`Navigator`): `calculatePath`, the guard on the two selections and the dispatch on the algorithm tag.
- `city.dfy` (`City`): the sample city of lines 13-36 and the route from Downtown Plaza (A) to Airport Terminal (G). Selecting "dijkstra" reports `A, H, G` at distance 0.5 + 1.7.

Numbers are integers in units of 1e-4. A weight of 1.2 becomes 12000 and a
latitude of 40.7589 becomes 407589. This keeps the ratio between the
coordinate heuristic and the edge weights exactly as in the source.

Shared ghost state carries the proofs:

- A ghost `rank` gives each node's finalisation index. A predecessor link always points at a node finalised earlier, so the reconstruction loop ends.
- A ghost `via` records the edge behind each predecessor link. This makes the reconstructed path a walk whose cost is the reported distance.

## Model

| member | source | states |
|---|---|---|
| Graph.Below | app/page.tsx:88 | JavaScript's `<` on distances as used at lines 88, 106, 157 and 176: only a finite cost is below another, nothing is below itself, and every finite cost is below +Infinity |
| Graph.Neighbour | app/page.tsx:103 | the far end of an edge read from one of its ends (also line 169) is the node the edge joins it to |
| Frontier.SelectMin | app/page.tsx:88 | returns a candidate whose score is at most every candidate's, and strictly below every earlier candidate's, so a tie goes to the earliest candidate |
| Frontier.Unvisited | app/page.tsx:75 | the queue `[...cityNodes.map(n => n.id)]` with the finalised nodes removed (line 92) is never longer than the node-id list |
| Frontier.UnvisitedMembers | app/page.tsx:75 | the queue holds exactly the listed node ids that are not finalised |
| Frontier.UnvisitedInitially | app/page.tsx:75 | before any finalisation the queue is the node-id list in node-list order |
| Frontier.UnvisitedAfterVisit | app/page.tsx:92-93 | finalising the k-th queued node removes exactly position k and keeps the others in order |
| Frontier.UnvisitedDistinct | app/page.tsx:75 | over distinct node ids the queue holds no duplicates |
| Frontier.DropDistinct | app/page.tsx:161 | `openSet.delete(current)` removes exactly that id, and the rest stay duplicate-free |
| Graph.ExtendAchievable | app/page.tsx:105 | a walk to m of cost d plus an edge m-n is a walk to n of cost d + weight, whichever way the edge is stored |
| Graph.TrappedTargetUnreachable | app/page.tsx:90 | nothing outside a node set closed under edges is reachable from inside it |
| Graph.WalkPrefix | app/page.tsx:100-111 | dropping the last step of a walk leaves a walk whose cost is lower by that step's weight |
| Paths.ReconstructPath | app/page.tsx:114-123 | the reconstruction loop ends; the path is empty exactly when `end` has no predecessor, and otherwise it has at least two ids, ends at `end`, starts at a node without predecessor, and links each id to the one before it |
| Paths.ChainIsWalk | app/page.tsx:116-120 | a chain of predecessor links read forwards is a walk, and the score at its end is the score at its start plus the walk's cost |
| Paths.ChainReport | app/page.tsx:122-124 | the reconstructed path is empty exactly when start equals end or the distance is infinite; otherwise it is a walk from start to end whose cost is the reported distance, and the distance is infinite exactly when end is unreachable |
| Paths.VisitRank | app/page.tsx:94 | `visitedOrder.push(current)` gives the newly finalised node the last rank |
| Paths.VisitLinks | app/page.tsx:93 | finalising another node keeps every predecessor link pointing at a node finalised earlier |
| UniformCost.RelaxEdge | app/page.tsx:102-110 | one edge callback lowers at most one node, the far end of `edges[j]` when that edge touches current, only if that end is unfinalised and the new distance is strictly smaller; it sets exactly distance[current] + weight with current as predecessor, every other entry is unchanged, and afterwards that far end is at most that sum |
| UniformCost.CallbackRelaxes | app/page.tsx:102-110 | the edge callback, read as a relation on the tables, relaxes that one edge and lowers at most its far end, through that edge |
| UniformCost.RelaxEdges | app/page.tsx:100-111 | after every edge has been offered, no edge from current can lower an unfinalised distance, no distance rose, and every lowered node's new distance is current's plus the edge weight |
| UniformCost.RelaxedCompose | app/page.tsx:100-111 | relaxing one range of edges and then the next relaxes their union |
| UniformCost.FrontierLowerBound | app/page.tsx:88-90 | with non-negative weights, the least unfinalised finite distance is a lower bound on every walk from start to that node |
| UniformCost.UnreachableBeyondInfinity | app/page.tsx:90 | when every unfinalised distance is +Infinity, no unfinalised node is reachable from start |
| UniformCost.VisitShortest | app/page.tsx:88-95 | the selected node of least finite distance carries its shortest distance from start when finalised |
| UniformCost.VisitOrder | app/page.tsx:92-94 | finalising the selected node keeps finalised distances in non-decreasing order, and start is finalised first |
| UniformCost.RelaxShortest | app/page.tsx:100-111 | relaxation does not change the distance of any finalised node |
| UniformCost.RelaxOrder | app/page.tsx:100-111 | a lowered distance stays at least every finalised distance |
| UniformCost.RelaxPredecessors | app/page.tsx:106-108 | after relaxation every predecessor link follows an edge from a finalised node, with the distance equal to the predecessor's plus the edge weight |
| UniformCost.RelaxLinks | app/page.tsx:100-111 | relaxation keeps all predecessor facts: along edges, to earlier-finalised nodes, rooted at start |
| UniformCost.RelaxSettles | app/page.tsx:100-111 | after relaxing from current, every edge out of every finalised node is relaxed |
| UniformCost.InitialTables | app/page.tsx:78-81 | every node id gets distance 0 if it is start and +Infinity otherwise, and no predecessor |
| UniformCost.InitialState | app/page.tsx:72-84 | the initial tables satisfy the loop's invariants |
| UniformCost.Finalise | app/page.tsx:92-95 | finalising queue[k] removes it from the queue, adds it to visited and to the end of visitedOrder, and keeps every invariant |
| UniformCost.Settle | app/page.tsx:100-111 | the new tables are those of relaxing every edge from the finalised node: only unfinalised nodes with a strictly shorter route through it are lowered, to that distance and with it as predecessor, every other entry is unchanged, and no edge from it can lower a distance further; every invariant is kept |
| UniformCost.OrderReport | app/page.tsx:86-97 | visitedOrder lists at most the node count of distinct nodes, start first, end last if present, each with its shortest distance, in non-decreasing order |
| UniformCost.PathReport | app/page.tsx:114-124 | the reported path and distance form a valid route report, and a finite distance is the shortest |
| UniformCost.Finish | app/page.tsx:114-128 | the record returned after the loop carries the reconstructed path (empty exactly when end has no predecessor, otherwise a chain of predecessor links), `distances[end]`, the step count, visitedOrder unchanged and the "dijkstra" tag; the distance is finite exactly when end was finalised; plus the route report and the finalisation order |
| UniformCost.DijkstraAlgorithm | app/page.tsx:71-129 | tag "dijkstra"; steps equals the length of visitedOrder; visitedOrder finalises distinct nodes in non-decreasing shortest distance, start first and end last when reached; the path is empty exactly when start equals end or end is unreachable, and otherwise is a walk from start to end of the reported cost; a finite distance is the shortest distance; the distance is +Infinity exactly when end is unreachable, and finite exactly when end was finalised; a start in the graph is always finalised |
| HeuristicSearch.FindNode | app/page.tsx:133-134 | `cityNodes.find`: the first node carrying the id |
| HeuristicSearch.Manhattan | app/page.tsx:137 | the Manhattan distance of two coordinate pairs, which is 0 exactly when the coordinates coincide |
| HeuristicSearch.Heuristic | app/page.tsx:132-138 | the Manhattan distance of the two nodes' coordinates, which is 0 at end |
| HeuristicSearch.HeuristicConsistent | app/page.tsx:137 | where an edge weighs at least the coordinate distance of its ends, crossing it lowers the heuristic by at most its weight |
| HeuristicSearch.Opened | app/page.tsx:175 | `openSet.add(n)` keeps the old members in order, adds n, and keeps the set duplicate-free |
| HeuristicSearch.Offered | app/page.tsx:168-183 | the callback for one edge, step by step: skip an edge not touching current, a closed neighbour, or an open one whose g is at most the tentative g; otherwise open the neighbour if needed and set its predecessor, g and f = g + h. It only grows openSet, keeps the keys of gScore, and never changes the g of a closed current |
| HeuristicSearch.ImproveEstimated | app/page.tsx:180-182 | giving n a new g and f = g + h(n) keeps f = g + h on every open node |
| HeuristicSearch.ImprovePredecessors | app/page.tsx:180-181 | the new link of n follows the edge from the closed current, and its g is current's plus the weight |
| HeuristicSearch.OfferTables | app/page.tsx:168-183 | whatever the edge callback does, the tables keep their keys, open nodes stay disjoint from closed ones with f = g + h, no g rises, closed nodes keep f and predecessor, openSet only grows at its end, and the neighbour ends up closed or open |
| HeuristicSearch.OfferLinks | app/page.tsx:168-183 | the edge callback keeps every predecessor link along an edge from an earlier-closed node, rooted at start |
| HeuristicSearch.Offer | app/page.tsx:168-183 | the callback skips a closed neighbour, opens an unseen one, leaves an open one alone unless the tentative g is strictly smaller, and otherwise sets its predecessor, g and f = g + h; all invariants are kept |
| HeuristicSearch.ExpandStep | app/page.tsx:166-183 | one more offered edge extends the coverage of current's edges by that edge |
| HeuristicSearch.ExpandedJoin | app/page.tsx:166-183 | once all of current's edges are covered, every edge out of a closed node leads to a closed or open node |
| HeuristicSearch.OfferTraceExtend | app/page.tsx:166-183 | one more edge offered to the callback extends the record of the tables met by one entry |
| HeuristicSearch.Expand | app/page.tsx:166-183 | the new tables are those of offering every edge in edge-list order to the callback, as recorded entry by entry; this keeps the invariants, raises no g, keeps closed nodes' f and predecessors, only grows openSet, and leaves every edge out of a closed node leading to a closed or open node |
| HeuristicSearch.CloseDiscovered | app/page.tsx:161-162 | moving open[k] to the closed set keeps open and closed disjoint and every discovered node with a finite g |
| HeuristicSearch.CloseEstimated | app/page.tsx:161 | removing an open node keeps f = g + h on the others |
| HeuristicSearch.Close | app/page.tsx:161-164 | open[k] leaves openSet, joins closedSet and the end of visitedOrder, and every invariant is kept |
| HeuristicSearch.InitialScores | app/page.tsx:146-150 | every node id gets g = 0 and f = h(start) if it is start, and +Infinity for both otherwise, with no predecessor |
| HeuristicSearch.InitialSearch | app/page.tsx:140-153 | the initial tables, openSet = {start} and an empty closedSet satisfy the loop's invariants |
| HeuristicSearch.OrderReport | app/page.tsx:155-164 | visitedOrder lists distinct node ids, starts with start, never holds end, and is empty exactly when start equals end |
| HeuristicSearch.SearchReport | app/page.tsx:186-196 | the reported path and g(end) form a valid route report; an exhausted openSet means end is unreachable |
| HeuristicSearch.FewerUnclosed | app/page.tsx:155-164 | each round closes one more node id, so the loop ends |
| HeuristicSearch.Round | app/page.tsx:157-183 | a round on a selected node other than end closes it, appends it to visitedOrder, removes it from openSet and then offers every edge in order to the callback, as recorded entry by entry; keeps every invariant, raises no g, and leaves closed nodes' f and predecessors unchanged |
| HeuristicSearch.AStarAlgorithm | app/page.tsx:131-201 | tag "astar"; steps equals the length of visitedOrder; visitedOrder closes distinct node ids, start first, never end (goal test at selection); the path is empty exactly when start equals end or end is unreachable, and otherwise is a walk from start to end of the reported cost; the distance is +Infinity exactly when end is unreachable |
| Navigator.Selected | app/page.tsx:55 | the guard's truthiness test on a selection that is a string or `null`: `null` and the empty string count as not selected, any other id as selected |
| Navigator.CalculatePath | app/page.tsx:55-65 | no result unless both ids are selected (null or empty counts as unselected); otherwise the selected algorithm's result with its tag, step count, route report, and for "dijkstra" the shortest distance |
| City.WalkAbovePotential | app/page.tsx:24-36 | a walk costs at least the drop of a potential (a node labelling that no edge drops by more than its weight) between its ends |
| City.TightSteps | app/page.tsx:24-36 | a walk that costs exactly the drop of a potential drops it by the full edge weight at every step |
| City.AirportRoute | app/page.tsx:27-35 | in the sample city every walk from A to G costs at least 2.2 (22000), and the only one of that cost is A, H, G |
| City.AirportReachable | app/page.tsx:27-35 | the shortest distance from A to G in the sample city is 22000 |
| City.ShortestAirportReport | app/page.tsx:27-35 | a shortest route report from A to G in the sample city is A, H, G at 22000 |
| City.UniformAirportRoute | app/page.tsx:13-36 | selecting A and G with "dijkstra" reports path A, H, G and distance 0.5 + 1.7 (22000) |
| City.HeuristicAirportRoute | app/page.tsx:13-36 | selecting A and G with "astar" finds a route, and it is no shorter than 22000 |

## Left out

- The React page itself is not modelled:
  - `useState` and the selection handlers;
  - `isCalculating`;
  - the 500 ms `setTimeout`;
  - `getNodeName`, the `toFixed` formatting and the JSX;
  - the Leaflet map component and the algorithm-stats panel.

  `calculatePath` is modelled as a method that returns the new `pathResult`, or nothing when the guard of line 55 returns early.
- Floating point is not modelled. Weights and coordinates are integers scaled by 1e4, and the heuristic is the Manhattan distance over the scaled coordinates.
- The `distance` and `time` fields of `GraphEdge` are left out. Neither search reads them; only `weight` is read.
- The node field `type` is called `category` in the model, because `type` is a Dafny keyword.
- HeuristicSearch.AStarAlgorithm: not claimed to find the shortest distance, only a reported walk of the reported cost. The closed set is never reopened, and the Manhattan heuristic is not consistent in general. Optimality would need a consistent heuristic and reopening-free reasoning; `HeuristicConsistent` only states when crossing an edge lowers the heuristic by at most its weight.
- HeuristicSearch.AStarAlgorithm: requires `start` to be a node id, because the two selects of the page (app/page.tsx:237-241 and 253-257) offer only node ids and the empty choice. For any other `start` the code would close it alone and return an empty path, distance +Infinity, one step and `visitedOrder = [start]`; the model does not cover that run.
- UniformCost.DijkstraAlgorithm and HeuristicSearch.AStarAlgorithm: require `end` to be a node id. In `dijkstraAlgorithm` another id leaves `previous[end]` `undefined` rather than `null`, so the reconstruction loop of lines 116-120 never ends. In `astarAlgorithm`, with `start` a node id, it makes `getHeuristic(start)` at line 148 read `.lat` of the missing end node (lines 134 and 137) and throw. The code has no error path for an unknown id, so the model requires one.
- Same-node queries: the code reports an empty path with distance 0 when start equals end, because of the `path.length > 1 ? path : []` rule. The model keeps this behaviour.
