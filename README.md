# City planner graphs and the bouncing ball, in Dafny

This project models two pieces of a Python coursework repository and proves
properties of them.

**The graph module** is `tests/group3/113511247/data_lec3/lecture3_graph.py`.
- Nodes are objects with a name. They are compared by identity, so two nodes may share a name.
- An edge is a pair of nodes.
- A `Digraph` is a dictionary from each registered node to the list of its children. Its subclass `Graph` is undirected: it stores every edge in both directions.
- The `CityPlanner` offers two searches:
  - a depth-first search with branch-and-bound pruning;
  - a breadth-first search over simple paths.
- It also offers path rendering (`A->B->C`) and a report on a search between two nodes looked up by name.
- Module-level `printPath`, `BFS` and `shortestPath` wrap these.
- The tests' seven-city road map is built through the graph's own operations. What every test asserts about it is proved.

**The ball** is `BouncyBall.py`. A ball moves by its velocity every frame. It reverses the velocity on an axis when, after the move, it touches a wall on that axis.

Files:
- `wrappers.dfy`: `Option`, `Result` and `Outcome`. A Python exception becomes a `Failure` or `Fail` value.
- `graph.dfy` (module `Graphs`):
  - `Node` is a class with one constant field, its name; nodes are objects compared by identity.
  - `Digraph` is a class whose fields its methods update.
  - The dictionary is a `map` plus the insertion `order`, which is the dictionary's iteration order.
- `paths.dfy` (module `Paths`): walks, paths, simple paths, reachability, shortest paths, and the cycle-cutting argument behind them.
- `planner.dfy` (module `Planner`): `CityPlanner` with both searches as loops and recursion over the graph object, plus the module-level functions.
- `city.dfy` (module `CityScenario`): the seven-city map and the tests' expectations.
- `ball.dfy` (module `BouncyBall`):
  - `Ball` holds two-element `array`s updated in place.
  - The motion is specified by a pure `Step` function.

What the searches are proved to return:
- Both searches return nothing exactly when the end cannot be reached. That includes the case where either node is not registered.
- Otherwise they return a shortest path, one with the fewest nodes among all paths and not only among simple ones.
- For the depth-first search, this holds although the search prunes a branch once the partial path is as long as the best path found so far. The invariant it keeps is that its result is no longer than the partial path followed by any simple continuation that avoids the partial path.
- For the breadth-first search, the queue holds simple paths in length order. Every simple path to the end extends a queued path.
- The breadth-first loop terminates. The proof uses a weight that decreases each round: a sum over queued paths of `b^(n - length)`.

## Model

| member | source | states |
|---|---|---|
| Graphs.Node.constructor | tests/group3/113511247/data_lec3/lecture3_graph.py:3-5 | a node carries the given name |
| Graphs.Edge.ToString | tests/group3/113511247/data_lec3/lecture3_graph.py:27-28 | the edge text is the source's name, `->`, then the destination's name, and splits back into the two names at that position |
| Graphs.Digraph.constructor | tests/group3/113511247/data_lec3/lecture3_graph.py:33-34 | a new graph is empty, directed and valid |
| Graphs.Digraph.Undirected | tests/group3/113511247/data_lec3/lecture3_graph.py:68-69 | a new undirected graph is empty and valid |
| Graphs.Digraph.AddNode | tests/group3/113511247/data_lec3/lecture3_graph.py:36-39 | a registered node is refused with a duplicate-node error and nothing changes; otherwise the node is registered last with no children; validity is kept |
| Graphs.Digraph.InsertEdge | tests/group3/113511247/data_lec3/lecture3_graph.py:41-46 | with both endpoints registered, the destination is appended to the source's children; otherwise a node-not-in-graph error and nothing changes |
| Graphs.Digraph.AddEdge | tests/group3/113511247/data_lec3/lecture3_graph.py:68-73 | a directed graph appends one edge; an undirected graph also appends the reverse edge; unregistered endpoints give an error and no change; an undirected graph stays symmetric |
| Graphs.BothWaysKeepsSymmetry | tests/group3/113511247/data_lec3/lecture3_graph.py:70-73 | adding an edge and its reverse keeps every child registered and every edge paired with its reverse |
| Graphs.Digraph.ChildrenOf | tests/group3/113511247/data_lec3/lecture3_graph.py:48-49 | succeeds exactly for registered nodes, with their child list, all of whose members are registered; otherwise a missing-key error |
| Graphs.Digraph.HasNode | tests/group3/113511247/data_lec3/lecture3_graph.py:51-52 | true exactly when that very node is registered |
| Graphs.FirstNamedIndex | tests/group3/113511247/data_lec3/lecture3_graph.py:54-58 | the position of the first node with the name, with no earlier node of that name; none exactly when no node has the name |
| Graphs.Digraph.GetNode | tests/group3/113511247/data_lec3/lecture3_graph.py:54-58 | returns the first registered node in insertion order with the name, or a name-not-found error carrying the name |
| Graphs.ChildLines | tests/group3/113511247/data_lec3/lecture3_graph.py:63-64 | one line per child, line k being the text of the edge from the source to child k |
| Graphs.JoinLines | tests/group3/113511247/data_lec3/lecture3_graph.py:65 | no lines give the empty text; otherwise the text ends with the last line |
| Graphs.TerminatedIsJoinedPlusNewline | tests/group3/113511247/data_lec3/lecture3_graph.py:61-65 | the accumulated newline-terminated text is empty exactly when there are no lines, and is otherwise the joined text plus one newline, so dropping the last character yields the joined text |
| Graphs.Digraph.ToString | tests/group3/113511247/data_lec3/lecture3_graph.py:60-65 | the graph text is the edge lines, in source insertion order and child order, joined by newlines with no trailing newline |
| Graphs.NoEdgeLines | tests/group3/113511247/data_lec3/lecture3_graph.py:62-64 | there are no edge lines exactly when no source has a child |
| Graphs.EdgeLines | tests/group3/113511247/data_lec3/lecture3_graph.py:62-64 | the edge lines of the sources in order, each source's children in list order; every line holds at least the arrow |
| Graphs.GraphTextEmpty | tests/group3/113511247/data_lec3/lecture3_graph.py:65 | the graph text is empty exactly when the graph has no edge |
| Paths.CutCycle | tests/group3/113511247/data_lec3/lecture3_graph.py:102 | removing the stretch between two visits of a node leaves a strictly shorter path between the same ends |
| Paths.Shortcut | tests/group3/113511247/data_lec3/lecture3_graph.py:102 | every path can be replaced by a simple path between the same ends that is no longer, so searching only simple paths loses nothing |
| Paths.ShortestAmongSimple | tests/group3/113511247/data_lec3/lecture3_graph.py:91-93 | a simple path that is shortest among simple paths is shortest among all paths |
| Paths.NoSimplePathUnreachable | tests/group3/113511247/data_lec3/lecture3_graph.py:109 | without a simple path the end is unreachable |
| Paths.DistinctBound | tests/group3/113511247/data_lec3/lecture3_graph.py:102 | a path without repeats is no longer than the number of registered nodes, which bounds the recursion depth |
| Paths.WalkStaysInClosedSet | tests/group3/113511247/data_lec3/test_additional_graph.py:27-31 | a walk from a set that no edge leaves stays in that set |
| Planner.PathText | tests/group3/113511247/data_lec3/lecture3_graph.py:159-166 | the names joined by `->`, so a path of n nodes has at least 2(n-1) characters |
| Planner.PathTextEnds | tests/group3/113511247/data_lec3/lecture3_graph.py:159-166 | the text of no path is empty; otherwise it begins with the first node's name and ends with the last node's name |
| Planner.PathTextConcat | tests/group3/113511247/data_lec3/lecture3_graph.py:159-166 | the text of two joined paths is their texts with one arrow between them |
| Planner.RenderPath | tests/group3/113511247/data_lec3/lecture3_graph.py:159-166 | the loop's result is the path text: the names joined by `->` |
| Planner.FoundMessage | tests/group3/113511247/data_lec3/lecture3_graph.py:153 | the found line: `Shortest path from `, the source name, ` to `, the destination name, ` is `, then the path text, as `print` separates its arguments by single spaces; its length is the parts' lengths plus 27 and it ends with the path text |
| Planner.NoPathMessage | tests/group3/113511247/data_lec3/lecture3_graph.py:155 | the no-path line: `There is no path from `, the source name, ` to `, the destination name; its length is the names' lengths plus 26 and it ends with the destination name |
| Planner.ReportsDiffer | tests/group3/113511247/data_lec3/lecture3_graph.py:152-155 | a found line never equals a no-path line, so the two outcomes of a report can be told apart |
| Planner.CityPlanner.constructor | tests/group3/113511247/data_lec3/lecture3_graph.py:77-79 | a new planner prints its queue and has no graph bound |
| Planner.CityPlanner.PrintPath | tests/group3/113511247/data_lec3/lecture3_graph.py:81-88 | the result is the path text |
| Planner.OnlyTrivialDetour | tests/group3/113511247/data_lec3/lecture3_graph.py:99-100 | when start is end, the path extended by start beats every continuation |
| Planner.ExploredChild | tests/group3/113511247/data_lec3/lecture3_graph.py:103-106 | after the recursive call on a child, the best path beats every continuation through that child |
| Planner.ExploredPruned | tests/group3/113511247/data_lec3/lecture3_graph.py:103 | a child skipped because the path is already as long as the best path cannot lead to a shorter path |
| Planner.ExploredVisited | tests/group3/113511247/data_lec3/lecture3_graph.py:102 | a child already on the path starts no simple continuation |
| Planner.ExploredAll | tests/group3/113511247/data_lec3/lecture3_graph.py:101-109 | once every child is done, the best path beats every continuation from start |
| Planner.TailOfDetour | tests/group3/113511247/data_lec3/lecture3_graph.py:104 | a continuation from start, without its first node, is a continuation from the child that avoids the extended path |
| Planner.CityPlanner.DFS | tests/group3/113511247/data_lec3/lecture3_graph.py:90-109 | the result is a simple path from the search's root to end, or nothing; it is never worse than the best path passed in; it is no longer than the partial path followed by any simple continuation that avoids it |
| Planner.InitialQueue | tests/group3/113511247/data_lec3/lecture3_graph.py:116-117 | the one-path queue `[[start]]` satisfies the loop invariants |
| Planner.FrontIsShortest | tests/group3/113511247/data_lec3/lecture3_graph.py:127-129 | a front path that ends at end is a shortest path |
| Planner.RestWithinLevel | tests/group3/113511247/data_lec3/lecture3_graph.py:123 | the paths behind the front have the front's length or one more node |
| Planner.ExpansionCovers | tests/group3/113511247/data_lec3/lecture3_graph.py:130-133 | replacing the front by its simple one-node extensions keeps every simple path to end covered by a queued prefix |
| Planner.Extensions | tests/group3/113511247/data_lec3/lecture3_graph.py:130-133 | the one-node extensions of the path by its children that it does not visit, in child order: at most one per child, each the path plus a child not on it |
| Planner.CityPlanner.EnqueueExtensions | tests/group3/113511247/data_lec3/lecture3_graph.py:130-133 | the new queue is the old one followed by the one-node extensions by every child not on the path, in child order; the queue stays simple and in level order, and its weight grows by at most one unit per child |
| Planner.ExpansionLowersWeight | tests/group3/113511247/data_lec3/lecture3_graph.py:118-133 | fewer than b extensions one node longer weigh less than the path they replace |
| Planner.ExpansionStep | tests/group3/113511247/data_lec3/lecture3_graph.py:118-133 | one round of the loop keeps its invariants and strictly lowers the queue's weight |
| Planner.CityPlanner.BFS | tests/group3/113511247/data_lec3/lecture3_graph.py:111-134 | nothing exactly when end is unreachable from start (including unregistered nodes); otherwise a shortest path |
| Planner.CityPlanner.ShortestPathDFS | tests/group3/113511247/data_lec3/lecture3_graph.py:136-138 | nothing exactly when end is unreachable; otherwise a shortest path, which is the one-node path when start is end |
| Planner.CityPlanner.ShortestPathBFS | tests/group3/113511247/data_lec3/lecture3_graph.py:140-142 | nothing exactly when end is unreachable; otherwise a shortest path |
| Planner.CityPlanner.GetShortestPath | tests/group3/113511247/data_lec3/lecture3_graph.py:144-155 | no graph bound gives no report; an unknown source name, and then an unknown destination name, gives the lookup error; otherwise the no-path line exactly when the destination is unreachable, and else the found line with the text of a shortest path |
| Planner.BFS | tests/group3/113511247/data_lec3/lecture3_graph.py:169-172 | nothing exactly when end is unreachable; otherwise a shortest path |
| Planner.ShortestPath | tests/group3/113511247/data_lec3/lecture3_graph.py:175-178 | nothing exactly when end is unreachable; otherwise a shortest path |
| CityScenario.Cities.Order | tests/group3/113511247/data_lec3/test_additional_graph.py:10-11 | seven cities, Boston first, Chicago fourth, Los Angeles last |
| CityScenario.CitiesDiffer | tests/group3/113511247/data_lec3/test_additional_graph.py:10-12 | the seven named nodes are pairwise different |
| CityScenario.AddCities | tests/group3/113511247/data_lec3/test_additional_graph.py:10-12 | registering the cities gives them in fixture order, each with no roads |
| CityScenario.AddRoadsFrom | tests/group3/113511247/data_lec3/test_additional_graph.py:13-22 | adding a city's roads one by one gives it exactly those children, in order |
| CityScenario.AddRoads | tests/group3/113511247/data_lec3/test_additional_graph.py:13-22 | the ten roads give the fixture's adjacency lists |
| CityScenario.BuildCityGraph | tests/group3/113511247/data_lec3/test_additional_graph.py:7-23 | the fixture is a valid directed graph with the seven named cities and the ten one-way roads |
| CityScenario.CityNames | tests/group3/113511247/data_lec3/test_additional_graph.py:28-30 | looking up Boston, Chicago and Phoenix by name finds positions 0, 3 and 5 |
| CityScenario.NoPathChicagoBoston | tests/group3/113511247/data_lec3/test_additional_graph.py:27-31 | Boston cannot be reached from Chicago |
| CityScenario.BostonPhoenixPaths | tests/group3/113511247/data_lec3/test_additional_graph.py:33-37 | every path from Boston to Phoenix has at least four nodes, and the only one with four goes through New York and Chicago |
| CityScenario.BostonPhoenixShortest | tests/group3/113511247/data_lec3/test_additional_graph.py:33-37 | Boston, New York, Chicago, Phoenix is the unique shortest path |
| CityScenario.ChicagoPhoenixShortest | tests/group3/113511247/data_lec3/test_additional_graph.py:41-45 | the direct road is the unique shortest path from Chicago to Phoenix |
| CityScenario.BostonPhoenixText | tests/group3/113511247/data_lec3/test_additional_graph.py:37 | that route renders as `Boston->New York->Chicago->Phoenix` |
| CityScenario.ChicagoPhoenixText | tests/group3/113511247/data_lec3/test_additional_graph.py:45 | the direct road renders as `Chicago->Phoenix` |
| CityScenario.DepthFirstOnCities | tests/group3/113511247/data_lec3/test_additional_graph.py:26-37 | the module-level depth-first search finds nothing from Chicago to Boston, and the route text from Boston to Phoenix |
| CityScenario.BreadthFirstChicagoPhoenix | tests/group3/113511247/data_lec3/test_additional_graph.py:40-45 | the module-level breadth-first search from Chicago to Phoenix renders as `Chicago->Phoenix` |
| CityScenario.BreadthFirstBostonPhoenix | tests/group3/113511247/data_lec3/test_additional_graph.py:47-50 | the module-level breadth-first search from Boston to Phoenix renders as the route text |
| CityScenario.PlannerDepthFirst | tests/group3/113511247/data_lec3/test_additional_graph.py:53-65 | the planner's depth-first search gives nothing from Chicago to Boston, and the route text from Boston to Phoenix |
| CityScenario.PlannerBreadthFirstChicago | tests/group3/113511247/data_lec3/test_additional_graph.py:68-74 | the planner's breadth-first search from Chicago to Phoenix renders as `Chicago->Phoenix` |
| CityScenario.PlannerBreadthFirstBoston | tests/group3/113511247/data_lec3/test_additional_graph.py:75-78 | the planner's breadth-first search from Boston to Phoenix renders as the route text |
| CityScenario.NoPathText | tests/group3/113511247/data_lec3/test_additional_graph.py:86 | the no-path line for Chicago and Boston is `There is no path from Chicago to Boston` |
| CityScenario.ReportChicagoBoston | tests/group3/113511247/data_lec3/test_additional_graph.py:81-86 | the report on Chicago to Boston is the no-path line |
| CityScenario.ReportBostonPhoenix | tests/group3/113511247/data_lec3/test_additional_graph.py:87-89 | the report on Boston to Phoenix is the found line with the route text |
| CityScenario.EmptyGraphSearch | tests/group3/113511247/data_lec3/test_additional_graph.py:92-96 | a depth-first search in an empty graph finds nothing |
| CityScenario.PrintPaths | tests/group3/113511247/data_lec3/test_additional_graph.py:99-103 | three nodes render as `A->B->C` and one node as `X` |
| BouncyBall.Ball.constructor | BouncyBall.py:5-10 | the ball holds the given radius and the caller's position and velocity lists |
| BouncyBall.Touches | BouncyBall.py:18 | the moved ball touches a wall of an axis exactly when it is not strictly inside on that axis |
| BouncyBall.Step | BouncyBall.py:14-23 | one frame: the position moves by the velocity; each velocity component is kept while the moved ball is strictly inside on that axis and reversed otherwise |
| BouncyBall.Ball.UpdateBall | BouncyBall.py:12-23 | the position moves by the velocity; each velocity component is negated exactly when the moved ball touches a wall on that axis; the new state is one `Step` of the old |
| BouncyBall.StepKeepsSpeed | BouncyBall.py:12-23 | a frame never changes the speed on either axis |
| BouncyBall.RunKeepsSpeed | BouncyBall.py:57-68 | any number of frames keeps both speeds |
| BouncyBall.StepAxesIndependent | BouncyBall.py:14-23 | the horizontal outcome depends only on the horizontal state and the width, and the vertical outcome only on the vertical state and the height |
| BouncyBall.StepTurnsBack | BouncyBall.py:17-23 | a ball that reaches a wall while moving toward it leaves the frame moving away from it |
| BouncyBall.StepKeepsOnScreen | BouncyBall.py:12-23 | a ball that is inside, or will be after its next move, stays so after a frame on both axes |
| BouncyBall.RunKeepsOnScreen | BouncyBall.py:57-68 | a contained ball stays contained for any number of frames |
| BouncyBall.DemoBallsStayOnScreen | BouncyBall.py:36-51 | both demo balls on the 800 by 600 screen stay contained for ever |
| BouncyBall.DemoFirstFrame | BouncyBall.py:36-42 | the first ball's first frame moves it from (400, 300) to (403, 303) with velocity (3, 3) |

## Left out

- Trace output: the `to_print`/`toPrint` flags and the lines they print (queue contents, current path, already visited) are not modelled. Those flags change only what is printed.
- Standard output: `get_shortest_path` prints its line. The model returns the line as a string in a `Result`. A lookup error, which Python raises as `NameError`, becomes a `Failure`.
- The `isinstance(self.g, Digraph)` guard: the bound graph is typed `Digraph?`, so only the no-graph case remains.
- The getters `get_name`, `get_source`, `get_destination` and `Node.__str__` are read as the fields they return.
- Graphs whose dictionary is changed other than through `add_node` and `add_edge` are not modelled. The graph operations and searches require the invariant those two keep: every key is listed once in `order`, and every child is registered.
- Planner.CityPlanner.DFS: when several shortest paths exist, the model does not say which one is returned. The code returns the last shortest path met in depth-first child order, because a later path of the same length still replaces the best one. The same holds for Planner.ShortestPath.
- Planner.CityPlanner.BFS: when several shortest paths exist, the model does not say which one is returned, the first in queue order. The same holds for Planner.BFS.
- Planner.CityPlanner.GetShortestPath: states that the found line holds the text of some shortest path, not which one.
- Planner.CityPlanner.GetShortestPath: the default `method='dfs'` is passed explicitly by callers.
- Planner.CityPlanner.constructor: `print_queue` is stored but never read by the searches.
- CityScenario.BuildCityGraph: the fixture looks up each endpoint by name with `get_node`. The model passes the city nodes directly. `CityScenario.CityNames` shows that the lookups used by the reports find those nodes.
- CityScenario.ReportBostonPhoenix: states the found line through `Planner.FoundMessage` applied to the route text, not as one spelled-out literal.
- The test substring checks (`in captured.out`) are stated as equality with the whole line. `print` adds a newline, which is not modelled.
- BouncyBall.Ball.UpdateBall: requires the position and velocity lists to be different objects. Shared lists would make the updates interfere.
- BouncyBall.Ball.UpdateBall: positions are unbounded integers. The source's lists may hold floats, and pygame draws at integer pixels.
- The screen, colour, `draw_ball`, `main` and the pygame event loop are not modelled. The loop is represented by `Run`, which applies `Step` `n` times.
- `tests/group13/testing_code/test_lec6_111701039.py` is not part of this model. It tests functions of another exercise whose source is not available.
