/**
 * The city planner: depth-first search with branch-and-bound pruning and
 * breadth-first search over simple paths, path rendering, and the report
 * of a search between two nodes looked up by name.
 *
 * Both searches are proved to return a shortest path (fewest edges) when the
 * end can be reached and nothing otherwise.
 */
module Planner {
  import opened Wrappers
  import opened Graphs
  import opened Paths

  /** The node names joined by `->`: one arrow between each two consecutive names. */
  function PathText(path: seq<Node>): (s: string)
    ensures path != [] ==> |s| >= 2 * (|path| - 1)
  {
    if path == [] then ""
    else if |path| == 1 then path[0].name
    else PathText(path[..|path| - 1]) + "->" + path[|path| - 1].name
  }

  /** The text of a path starts with the first node's name and ends with the last node's name; no path gives no text. */
  lemma {:induction false} PathTextEnds(path: seq<Node>)
    ensures path == [] ==> PathText(path) == ""
    ensures path != [] ==> |path[0].name| <= |PathText(path)| && PathText(path)[..|path[0].name|] == path[0].name
    ensures path != [] ==>
      |path[|path| - 1].name| <= |PathText(path)| &&
      PathText(path)[|PathText(path)| - |path[|path| - 1].name|..] == path[|path| - 1].name
  {
    if |path| > 1 {
      var init := path[..|path| - 1];
      PathTextEnds(init);
      var s := PathText(init);
      assert init[0] == path[0];
      assert PathText(path) == s + ("->" + path[|path| - 1].name);
      assert (s + ("->" + path[|path| - 1].name))[..|s|] == s;
    }
  }

  /** Rendering a concatenation puts exactly one arrow between the renderings of the two parts. */
  lemma {:induction false} PathTextConcat(p: seq<Node>, q: seq<Node>)
    requires p != [] && q != []
    ensures PathText(p + q) == PathText(p) + "->" + PathText(q)
    decreases |q|
  {
    if |q| == 1 {
      assert (p + q)[..|p + q| - 1] == p;
    } else {
      var init := q[..|q| - 1];
      var last := q[|q| - 1].name;
      PathTextConcat(p, init);
      assert (p + q)[..|p + q| - 1] == p + init;
      var a, m := PathText(p), PathText(init);
      assert PathText(p + q) == (a + "->" + m) + "->" + last;
      assert PathText(q) == m + "->" + last;
      ArrowsAssociate(a, m, last);
    }
  }

  lemma ArrowsAssociate(a: string, m: string, z: string)
    ensures (a + "->" + m) + "->" + z == a + "->" + (m + "->" + z)
  {
  }

  /** The module-level path rendering, built name by name with an arrow after every name but the last. */
  method RenderPath(path: seq<Node>) returns (s: string)
    ensures s == PathText(path)
  {
    s := "";
    for i := 0 to |path|
      invariant s == PathText(path[..i]) + (if 0 < i < |path| then "->" else "")
    {
      PathTextSnoc(path, i);
      s := s + path[i].name;
      if i != |path| - 1 {
        s := s + "->";
      }
    }
    assert path[..|path|] == path;
  }

  /** The text of the first `i + 1` nodes: the text of the first `i`, an arrow unless `i` is 0, and node `i`'s name. */
  lemma PathTextSnoc(path: seq<Node>, i: nat)
    requires i < |path|
    ensures i == 0 ==> PathText(path[..i + 1]) == path[0].name
    ensures i > 0 ==> PathText(path[..i + 1]) == PathText(path[..i]) + "->" + path[i].name
  {
    assert path[..i + 1][..i] == path[..i];
  }

  /** The line reported when a path is found: the two names and the path text between fixed words. */
  function FoundMessage(source: string, destination: string, pathText: string): (m: string)
    ensures |m| == |source| + |destination| + |pathText| + 27
    ensures m[..19] == "Shortest path from " && m[|m| - |pathText|..] == pathText
  {
    "Shortest path from " + source + " to " + destination + " is " + pathText
  }

  /** The line reported when there is no path: the two names between fixed words. */
  function NoPathMessage(source: string, destination: string): (m: string)
    ensures |m| == |source| + |destination| + 26
    ensures m[..22] == "There is no path from " && m[|m| - |destination|..] == destination
  {
    "There is no path from " + source + " to " + destination
  }

  /** The two lines a report can hold never coincide, whatever the names and the path. */
  lemma ReportsDiffer(source: string, destination: string, pathText: string, source': string, destination': string)
    ensures FoundMessage(source, destination, pathText) != NoPathMessage(source', destination')
  {
    var found, none := FoundMessage(source, destination, pathText), NoPathMessage(source', destination');
    assert found[0] == found[..19][0] == 'S';
    assert none[0] == none[..22][0] == 'T';
  }

  /** The node where a search started: the first node of the partial path, or `start` when that is empty. */
  function Root(path: seq<Node>, start: Node): Node {
    if path == [] then start else path[0]
  }

  /** No node of `s` occurs in `path`. */
  predicate Disjoint(s: seq<Node>, path: seq<Node>) {
    forall x :: x in s ==> x !in path
  }

  /** A node bound that every child list is shorter than (used only to prove that the breadth-first search ends). */
  ghost function DegreeBound(adj: map<Node, seq<Node>>, nodes: seq<Node>): (b: nat)
    requires forall k :: 0 <= k < |nodes| ==> nodes[k] in adj
    ensures b >= 1 && forall k :: 0 <= k < |nodes| ==> |adj[nodes[k]]| < b
  {
    if nodes == [] then 1
    else
      var b' := DegreeBound(adj, nodes[1..]);
      assert forall k :: 1 <= k < |nodes| ==> nodes[k] == nodes[1..][k - 1];
      if |adj[nodes[0]]| < b' then b' else |adj[nodes[0]]| + 1
  }

  ghost function Pow(b: nat, e: nat): (r: nat)
    ensures b >= 1 ==> r >= 1
  {
    if e == 0 then 1 else b * Pow(b, e - 1)
  }

  /** The weight of one queued path of `len` nodes in a graph of `n` nodes whose child lists are shorter than `b`. */
  ghost function PathWeight(len: nat, n: nat, b: nat): nat {
    if len <= n then Pow(b, n - len) else 0
  }

  ghost function QueueWeight(queue: seq<seq<Node>>, n: nat, b: nat): nat {
    if queue == [] then 0 else PathWeight(|queue[0]|, n, b) + QueueWeight(queue[1..], n, b)
  }

  lemma {:induction false} QueueWeightAppend(queue: seq<seq<Node>>, x: seq<Node>, n: nat, b: nat)
    ensures QueueWeight(queue + [x], n, b) == QueueWeight(queue, n, b) + PathWeight(|x|, n, b)
  {
    if queue != [] {
      assert (queue + [x])[1..] == queue[1..] + [x];
      QueueWeightAppend(queue[1..], x, n, b);
    } else {
      assert ([] + [x])[1..] == [];
    }
  }

  /** `count` copies of `w` added up. */
  ghost function Scaled(count: nat, w: nat): nat {
    if count == 0 then 0 else Scaled(count - 1, w) + w
  }

  lemma {:induction false} ScaledIsProduct(count: nat, w: nat)
    ensures Scaled(count, w) == count * w
  {
    if count > 0 {
      ScaledIsProduct(count - 1, w);
    }
  }

  /** Fewer copies add up to less, when each copy is positive. */
  lemma {:induction false} ScaledIncreasing(small: nat, large: nat, w: nat)
    requires small < large && w >= 1
    ensures Scaled(small, w) < Scaled(large, w)
    decreases large
  {
    if small < large - 1 {
      ScaledIncreasing(small, large - 1, w);
    }
  }

  /** Replacing a path of `len <= n` nodes by fewer than `b` paths one node longer lowers the weight. */
  lemma ExpansionLowersWeight(len: nat, count: nat, n: nat, b: nat)
    requires len <= n && count < b
    ensures Scaled(count, PathWeight(len + 1, n, b)) < PathWeight(len, n, b)
  {
    if len + 1 <= n {
      var w := Pow(b, n - (len + 1));
      ScaledIncreasing(count, b, w);
      ScaledIsProduct(b, w);
    } else {
      assert Scaled(count, 0) == 0 by {
        ScaledIsProduct(count, 0);
      }
    }
  }

  /**
   * One round of the breadth-first loop: the front path, which does not end
   * at `end`, replaced by its simple one-node extensions at the back keeps
   * the loop's invariants and lowers the queue's weight.
   */
  lemma ExpansionStep(adj: map<Node, seq<Node>>, previous: seq<seq<Node>>, queue: seq<seq<Node>>,
                      current: seq<Node>, children: seq<Node>, start: Node, end: Node, n: nat, b: nat)
    requires previous != [] && current == previous[0]
    requires QueuedFrom(adj, previous, start) && Covers(adj, previous, start, end)
    requires current[|current| - 1] != end && children == adj[current[|current| - 1]]
    requires n == |adj.Keys| && |children| < b
    requires Enqueued(adj, previous[1..], queue, current, children, |children|, start)
    requires QueueWeight(queue, n, b) <= QueueWeight(previous[1..], n, b) + Scaled(|children|, PathWeight(|current| + 1, n, b))
    ensures QueuedFrom(adj, queue, start) && LevelOrder(queue) && Covers(adj, queue, start, end)
    ensures QueueWeight(queue, n, b) < QueueWeight(previous, n, b)
  {
    assert current in previous;
    DistinctBound(current, adj.Keys);
    ExpansionLowersWeight(|current|, |children|, n, b);
    ExpansionCovers(adj, previous, queue, current, children, start, end);
  }

  class CityPlanner {
    var printQueue: bool
    /** The graph that reports are computed on, if one is bound. */
    var g: Digraph?

    constructor ()
      ensures printQueue && g == null
    {
      printQueue := true;
      g := null;
    }

    /** The path text: the node names joined by `->` (the same loop as `RenderPath`). */
    method PrintPath(path: seq<Node>) returns (s: string)
      ensures s == PathText(path)
    {
      s := RenderPath(path);
    }

    /**
     * Depth-first search from `start` toward `end`, extending the partial path
     * `path`, with `shortest` the best complete path found so far. A child
     * already on the path is skipped, and a child is explored only while the
     * path so far is shorter than the best one.
     *
     * The result is a simple path from the search's root to `end` or nothing;
     * it is never worse than `shortest`, and it is no longer than `path`
     * followed by any simple path from `start` to `end` that avoids `path`.
     */
    method DFS(graph: Digraph, start: Node, end: Node, path: seq<Node>, shortest: Option<seq<Node>>)
      returns (r: Option<seq<Node>>)
      requires graph.Valid()
      requires Distinct(path) && IsWalk(graph.edges, path)
      requires path != [] ==> start in graph.edges[path[|path| - 1]] && start !in path
      requires shortest.Some? ==>
        |path| < |shortest.value| && IsSimplePath(graph.edges, shortest.value, Root(path, start), end)
      ensures r.Some? ==> IsSimplePath(graph.edges, r.value, Root(path, start), end)
      ensures shortest.Some? ==> r.Some? && |r.value| <= |shortest.value|
      ensures BeatsDetours(graph.edges, r, start, end, path)
      decreases |graph.edges.Keys| - |path|
    {
      if !graph.HasNode(start) || !graph.HasNode(end) {
        return None;
      }
      var extended := path + [start];
      ExtendWalk(graph.edges, path, start);
      if start == end {
        OnlyTrivialDetour(graph.edges, start, path);
        return Some(extended);
      }
      var best := shortest;
      var children := graph.edges[start];
      for i := 0 to |children|
        invariant best.Some? ==> IsSimplePath(graph.edges, best.value, Root(path, start), end)
        invariant shortest.Some? ==> best.Some? && |best.value| <= |shortest.value|
        invariant Explored(graph.edges, best, start, end, path, children, i)
      {
        var node := children[i];
        if node !in extended {
          if best.None? || |extended| < |best.value| {
            ghost var before := best;
            var newPath := DFS(graph, node, end, extended, best);
            if newPath.Some? {
              best := newPath;
            }
            ExploredImproved(graph.edges, before, best, start, end, path, children, i);
            ExploredChild(graph.edges, best, start, end, path, children, i);
          } else {
            ExploredPruned(graph.edges, best, start, end, path, children, i);
          }
        } else {
          ExploredVisited(graph.edges, best, start, end, path, children, i);
        }
      }
      ExploredAll(graph.edges, best, start, end, path);
      r := best;
    }

    /**
     * Breadth-first search over simple paths from `start`: paths are taken
     * from the front of the queue and their one-node extensions that repeat
     * no node are added at the back; the first path that ends at `end` is
     * returned.
     */
    method BFS(graph: Digraph, start: Node, end: Node) returns (r: Option<seq<Node>>)
      requires graph.Valid()
      ensures SearchSpec(graph.edges, start, end, r)
    {
      if !graph.HasNode(start) || !graph.HasNode(end) {
        return None;
      }
      ghost var adj := graph.edges;
      ghost var n := |adj.Keys|;
      ghost var b := DegreeBound(adj, graph.order);
      var queue := [[start]];
      InitialQueue(adj, start, end);
      while queue != []
        invariant QueuedFrom(adj, queue, start) && LevelOrder(queue) && Covers(adj, queue, start, end)
        decreases QueueWeight(queue, n, b)
      {
        ghost var previous := queue;
        var current := queue[0];
        queue := queue[1..];
        var last := current[|current| - 1];
        if last == end {
          FrontIsShortest(adj, previous, start, end);
          return Some(current);
        }
        ghost var rest := queue;
        var children := graph.edges[last];
        assert |children| < b;
        RestWithinLevel(previous);
        queue := EnqueueExtensions(graph, current, children, queue, start, n, b);
        ExpansionStep(adj, previous, queue, current, children, start, end, n, b);
      }
      NoSimplePathUnreachable(adj, start, end);
      r := None;
    }

    /** Appends to `queue` every one-node extension of `current` that repeats no node, in child order. */
    method EnqueueExtensions(graph: Digraph, current: seq<Node>, children: seq<Node>, queue: seq<seq<Node>>,
                             ghost start: Node, ghost n: nat, ghost b: nat)
      returns (extended: seq<seq<Node>>)
      requires graph.Valid()
      requires |current| >= 1 && IsSimplePath(graph.edges, current, start, current[|current| - 1])
      requires children == graph.edges[current[|current| - 1]]
      requires QueuedFrom(graph.edges, queue, start) && LevelOrder(queue)
      requires forall q :: q in queue ==> |current| <= |q| <= |current| + 1
      ensures extended == queue + Extensions(current, children)
      ensures Enqueued(graph.edges, queue, extended, current, children, |children|, start)
      ensures QueueWeight(extended, n, b) <= QueueWeight(queue, n, b) + Scaled(|children|, PathWeight(|current| + 1, n, b))
    {
      ghost var adj := graph.edges;
      ghost var w := PathWeight(|current| + 1, n, b);
      extended := queue;
      for i := 0 to |children|
        invariant extended == queue + Extensions(current, children[..i])
        invariant Enqueued(adj, queue, extended, current, children, i, start)
        invariant QueueWeight(extended, n, b) <= QueueWeight(queue, n, b) + Scaled(i, w)
      {
        var next := children[i];
        ExtensionsStep(queue, extended, current, children, i);
        if next !in current {
          var longer := current + [next];
          EnqueuedPush(adj, queue, extended, current, children, i, start);
          PushWeight(queue, extended, longer, i, w, n, b);
          extended := extended + [longer];
        } else {
          EnqueuedSkip(adj, queue, extended, current, children, i, start, n, b);
        }
      }
      assert children[..|children|] == children;
    }

    /** The depth-first search from `start` with an empty partial path and no best path yet. */
    method ShortestPathDFS(graph: Digraph, start: Node, end: Node) returns (r: Option<seq<Node>>)
      requires graph.Valid()
      ensures SearchSpec(graph.edges, start, end, r)
      ensures start in graph.edges && start == end ==> r == Some([start])
    {
      r := DFS(graph, start, end, [], None);
      if r.Some? {
        ShortestAmongSimple(graph.edges, r.value, start, end);
      } else {
        NoSimplePathUnreachable(graph.edges, start, end);
      }
      if start in graph.edges && start == end {
        assert IsSimplePath(graph.edges, [start], start, end);
        assert r.value == [start] by {
          assert r.value[0] == start && |r.value| <= 1;
        }
      }
    }

    method ShortestPathBFS(graph: Digraph, start: Node, end: Node) returns (r: Option<seq<Node>>)
      requires graph.Valid()
      ensures SearchSpec(graph.edges, start, end, r)
    {
      r := BFS(graph, start, end);
    }

    /**
     * The report on a search between the first nodes named `source` and
     * `destination`: nothing when no graph is bound, the lookup error when a
     * name is not found (the source's name is looked up first), and
     * otherwise the found-path or no-path line.
     */
    method GetShortestPath(source: string, destination: string, searchMethod: string)
      returns (report: Result<Option<string>, GraphError>)
      requires g != null ==> g.Valid()
      ensures g == null ==> report == Success(None)
      ensures g != null && FirstNamedIndex(g.order, source).None? ==> report == Failure(NameNotFound(source))
      ensures g != null && FirstNamedIndex(g.order, source).Some? && FirstNamedIndex(g.order, destination).None? ==>
        report == Failure(NameNotFound(destination))
      ensures g != null && FirstNamedIndex(g.order, source).Some? && FirstNamedIndex(g.order, destination).Some? ==>
        var s := g.order[FirstNamedIndex(g.order, source).value];
        var d := g.order[FirstNamedIndex(g.order, destination).value];
        && report.Success? && report.value.Some?
        && (!Reachable(g.edges, s, d) ==> report.value.value == NoPathMessage(source, destination))
        && (Reachable(g.edges, s, d) ==>
              exists p :: IsShortestPath(g.edges, p, s, d) && report.value.value == FoundMessage(source, destination, PathText(p)))
    {
      if g == null {
        return Success(None);
      }
      var s := g.GetNode(source);
      if s.Failure? {
        return Failure(s.error);
      }
      var d := g.GetNode(destination);
      if d.Failure? {
        return Failure(d.error);
      }
      var sp;
      if searchMethod == "bfs" {
        sp := ShortestPathBFS(g, s.value, d.value);
      } else {
        sp := ShortestPathDFS(g, s.value, d.value);
      }
      if sp.Some? {
        var text := PrintPath(sp.value);
        report := Success(Some(FoundMessage(source, destination, text)));
      } else {
        report := Success(Some(NoPathMessage(source, destination)));
      }
    }
  }

  /**
   * A simple path from `start` to `end` that avoids the partial path `path`:
   * a completion of `path` the depth-first search must account for.
   */
  ghost predicate Detour(adj: map<Node, seq<Node>>, older s: seq<Node>, start: Node, end: Node, path: seq<Node>) {
    IsSimplePath(adj, s, start, end) && Disjoint(s, path)
  }

  /** `r` is no longer than `path` followed by any detour from `start` to `end`. */
  ghost predicate BeatsDetours(adj: map<Node, seq<Node>>, r: Option<seq<Node>>, start: Node, end: Node, path: seq<Node>) {
    forall s :: Detour(adj, s, start, end, path) ==> r.Some? && |r.value| <= |path| + |s|
  }

  /**
   * The depth-first loop's bound after `i` children of `start`: `best` beats
   * every detour that goes on from `start` to one of those children.
   */
  ghost predicate Explored(adj: map<Node, seq<Node>>, best: Option<seq<Node>>, start: Node, end: Node,
                           path: seq<Node>, children: seq<Node>, i: nat) {
    forall s, k :: 0 <= k < i && k < |children| && Detour(adj, s, start, end, path) && |s| >= 2 && s[1] == children[k] ==>
      best.Some? && |best.value| <= |path| + |s|
  }

  /** Extending a simple walk by a child of its last node that it does not visit gives a simple walk within the graph. */
  lemma ExtendWalk(adj: map<Node, seq<Node>>, path: seq<Node>, start: Node)
    requires Distinct(path) && IsWalk(adj, path) && start in adj
    requires path != [] ==> start in adj[path[|path| - 1]] && start !in path
    ensures IsWalk(adj, path + [start]) && Distinct(path + [start]) && |path + [start]| <= |adj.Keys|
  {
    var extended := path + [start];
    assert IsWalk(adj, extended);
    assert Distinct(extended);
    DistinctBound(extended, adj.Keys);
  }

  /** The only detour from a node to itself is the one-node path, so `path` plus that node beats them all. */
  lemma OnlyTrivialDetour(adj: map<Node, seq<Node>>, start: Node, path: seq<Node>)
    ensures BeatsDetours(adj, Some(path + [start]), start, start, path)
  {
    forall s | Detour(adj, s, start, start, path) ensures |s| == 1 {
      assert s[0] == s[|s| - 1];
    }
  }

  /** A better best path keeps every bound the old one met. */
  lemma ExploredImproved(adj: map<Node, seq<Node>>, best: Option<seq<Node>>, better: Option<seq<Node>>,
                         start: Node, end: Node, path: seq<Node>, children: seq<Node>, i: nat)
    requires Explored(adj, best, start, end, path, children, i)
    requires best.Some? ==> better.Some? && |better.value| <= |best.value|
    ensures Explored(adj, better, start, end, path, children, i)
  {
  }

  /** After searching below child `i`, the best path beats the detours through that child. */
  lemma ExploredChild(adj: map<Node, seq<Node>>, best: Option<seq<Node>>, start: Node, end: Node,
                      path: seq<Node>, children: seq<Node>, i: nat)
    requires i < |children| && Explored(adj, best, start, end, path, children, i)
    requires BeatsDetours(adj, best, children[i], end, path + [start])
    ensures Explored(adj, best, start, end, path, children, i + 1)
  {
    forall s | Detour(adj, s, start, end, path) && |s| >= 2 && s[1] == children[i]
      ensures best.Some? && |best.value| <= |path| + |s|
    {
      TailOfDetour(adj, s, start, end, path);
    }
  }

  /** A child skipped because the path so far is as long as the best path: the best path already beats its detours. */
  lemma ExploredPruned(adj: map<Node, seq<Node>>, best: Option<seq<Node>>, start: Node, end: Node,
                       path: seq<Node>, children: seq<Node>, i: nat)
    requires i < |children| && Explored(adj, best, start, end, path, children, i)
    requires best.Some? && |path + [start]| >= |best.value|
    ensures Explored(adj, best, start, end, path, children, i + 1)
  {
  }

  /** A child already on the path starts no detour. */
  lemma ExploredVisited(adj: map<Node, seq<Node>>, best: Option<seq<Node>>, start: Node, end: Node,
                        path: seq<Node>, children: seq<Node>, i: nat)
    requires i < |children| && Explored(adj, best, start, end, path, children, i)
    requires children[i] in path + [start]
    ensures Explored(adj, best, start, end, path, children, i + 1)
  {
    forall s | Detour(adj, s, start, end, path) && |s| >= 2 ensures s[1] != children[i] {
      assert s[1] != s[0];
      assert s[1] !in path;
    }
  }

  /** Once every child of `start` is done, the best path beats every detour from `start`. */
  lemma ExploredAll(adj: map<Node, seq<Node>>, best: Option<seq<Node>>, start: Node, end: Node, path: seq<Node>)
    requires start in adj && start != end && Explored(adj, best, start, end, path, adj[start], |adj[start]|)
    ensures BeatsDetours(adj, best, start, end, path)
  {
    forall s | Detour(adj, s, start, end, path) ensures best.Some? && |best.value| <= |path| + |s| {
      assert |s| >= 2;
      assert s[1] in adj[s[0]];
      var k :| 0 <= k < |adj[start]| && adj[start][k] == s[1];
    }
  }

  /** Without its first node, a detour from `start` is a detour from its second node that also avoids `start`. */
  lemma TailOfDetour(adj: map<Node, seq<Node>>, s: seq<Node>, start: Node, end: Node, path: seq<Node>)
    requires Detour(adj, s, start, end, path) && |s| >= 2
    ensures Detour(adj, s[1..], s[1], end, path + [start])
  {
    forall x | x in s[1..] ensures x !in path + [start] {
      var k :| 1 <= k < |s| && s[k] == x;
    }
  }

  /** Every queued path is a simple path from `start`. */
  ghost predicate QueuedFrom(adj: map<Node, seq<Node>>, queue: seq<seq<Node>>, start: Node) {
    forall q :: q in queue ==> |q| >= 1 && IsSimplePath(adj, q, start, q[|q| - 1])
  }

  /** Queued paths never get shorter toward the back, and differ in length by at most one node. */
  ghost predicate LevelOrder(queue: seq<seq<Node>>) {
    forall i, j :: 0 <= i < j < |queue| ==> |queue[i]| <= |queue[j]| <= |queue[i]| + 1
  }

  /** Every simple path from `start` to `end` extends some queued path. */
  ghost predicate Covers(adj: map<Node, seq<Node>>, queue: seq<seq<Node>>, start: Node, end: Node) {
    forall s :: IsSimplePath(adj, s, start, end) ==> exists q :: q in queue && IsPrefix(q, s)
  }

  lemma InitialQueue(adj: map<Node, seq<Node>>, start: Node, end: Node)
    requires start in adj
    ensures QueuedFrom(adj, [[start]], start) && LevelOrder([[start]]) && Covers(adj, [[start]], start, end)
  {
    assert IsWalk(adj, [start]);
    forall s | IsSimplePath(adj, s, start, end) ensures IsPrefix([start], s) {
      assert s[..1] == [start];
    }
  }

  /** A queued path that ends at `end` and is at the front is a shortest path. */
  lemma FrontIsShortest(adj: map<Node, seq<Node>>, queue: seq<seq<Node>>, start: Node, end: Node)
    requires queue != [] && QueuedFrom(adj, queue, start) && LevelOrder(queue) && Covers(adj, queue, start, end)
    requires queue[0][|queue[0]| - 1] == end
    ensures IsShortestPath(adj, queue[0], start, end)
  {
    forall s | IsSimplePath(adj, s, start, end) ensures |queue[0]| <= |s| {
      var q :| q in queue && IsPrefix(q, s);
      var j :| 0 <= j < |queue| && queue[j] == q;
    }
    ShortestAmongSimple(adj, queue[0], start, end);
  }

  /** The paths behind the front are the front's length or one node longer. */
  lemma RestWithinLevel(queue: seq<seq<Node>>)
    requires queue != [] && LevelOrder(queue)
    ensures forall q :: q in queue[1..] ==> |queue[0]| <= |q| <= |queue[0]| + 1
  {
    forall q | q in queue[1..] ensures |queue[0]| <= |q| <= |queue[0]| + 1 {
      var j :| 0 <= j < |queue[1..]| && queue[1..][j] == q;
      assert queue[j + 1] == q;
    }
  }

  /**
   * Replacing the front path, which does not end at `end`, by its simple
   * one-node extensions keeps every simple path from `start` to `end` covered.
   */
  lemma ExpansionCovers(adj: map<Node, seq<Node>>, previous: seq<seq<Node>>, queue: seq<seq<Node>>,
                         current: seq<Node>, children: seq<Node>, start: Node, end: Node)
    requires previous != [] && QueuedFrom(adj, previous, start) && Covers(adj, previous, start, end)
    requires current == previous[0] && current[|current| - 1] != end && children == adj[current[|current| - 1]]
    requires |previous| - 1 <= |queue| && queue[..|previous| - 1] == previous[1..]
    requires forall k :: 0 <= k < |children| && children[k] !in current ==> current + [children[k]] in queue
    ensures Covers(adj, queue, start, end)
  {
    forall s | IsSimplePath(adj, s, start, end) ensures exists q :: q in queue && IsPrefix(q, s) {
      var q :| q in previous && IsPrefix(q, s);
      if q in previous[1..] {
        assert q in queue[..|previous| - 1];
      } else {
        assert q == current;
        var c := s[|current|];
        assert c in children;
        var k :| 0 <= k < |children| && children[k] == c;
        assert c !in current;
        assert s[..|current| + 1] == current + [c];
      }
    }
  }

  /** The one-node extensions of `current` by those of `children` that it does not visit, in child order. */
  function Extensions(current: seq<Node>, children: seq<Node>): (r: seq<seq<Node>>)
    ensures |r| <= |children|
    ensures forall q :: q in r ==>
      |q| == |current| + 1 && q[..|current|] == current && q[|current|] in children && q[|current|] !in current
  {
    if children == [] then []
    else
      var next := children[|children| - 1];
      Extensions(current, children[..|children| - 1]) + (if next !in current then [current + [next]] else [])
  }

  /** Going on to child `i` appends its extension, if it has one, to the queue extended by the first `i` children. */
  lemma ExtensionsStep(queue: seq<seq<Node>>, extended: seq<seq<Node>>, current: seq<Node>, children: seq<Node>, i: nat)
    requires i < |children| && extended == queue + Extensions(current, children[..i])
    ensures children[i] !in current ==> extended + [current + [children[i]]] == queue + Extensions(current, children[..i + 1])
    ensures children[i] in current ==> extended == queue + Extensions(current, children[..i + 1])
  {
    assert children[..i + 1][..i] == children[..i];
  }

  /**
   * `extended` is `queue` followed by simple one-node extensions of `current`,
   * including one for each of the first `i` children that is not on `current`.
   */
  ghost predicate Enqueued(adj: map<Node, seq<Node>>, queue: seq<seq<Node>>, extended: seq<seq<Node>>,
                           current: seq<Node>, children: seq<Node>, i: nat, start: Node) {
    && |queue| <= |extended| && extended[..|queue|] == queue
    && QueuedFrom(adj, extended, start) && LevelOrder(extended)
    && (forall q :: q in extended ==> |current| <= |q| <= |current| + 1)
    && (forall k :: 0 <= k < i && k < |children| && children[k] !in current ==> current + [children[k]] in extended)
  }

  lemma EnqueuedPush(adj: map<Node, seq<Node>>, queue: seq<seq<Node>>, extended: seq<seq<Node>>,
                     current: seq<Node>, children: seq<Node>, i: nat, start: Node)
    requires Enqueued(adj, queue, extended, current, children, i, start)
    requires |current| >= 1 && IsSimplePath(adj, current, start, current[|current| - 1])
    requires i < |children| && children[i] in adj && children[i] in adj[current[|current| - 1]] && children[i] !in current
    ensures Enqueued(adj, queue, extended + [current + [children[i]]], current, children, i + 1, start)
  {
    var longer := current + [children[i]];
    assert IsSimplePath(adj, longer, start, children[i]);
    var pushed := extended + [longer];
    forall x, y | 0 <= x < y < |pushed| ensures |pushed[x]| <= |pushed[y]| <= |pushed[x]| + 1 {
      if y == |extended| {
        assert pushed[x] in extended;
      }
    }
    assert pushed[..|queue|] == queue by {
      assert pushed[..|extended|] == extended;
    }
  }

  /** Appending a path of weight `w` adds one more `w` to the bound. */
  lemma PushWeight(queue: seq<seq<Node>>, extended: seq<seq<Node>>, longer: seq<Node>, i: nat, w: nat, n: nat, b: nat)
    requires QueueWeight(extended, n, b) <= QueueWeight(queue, n, b) + Scaled(i, w) && PathWeight(|longer|, n, b) == w
    ensures QueueWeight(extended + [longer], n, b) <= QueueWeight(queue, n, b) + Scaled(i + 1, w)
  {
    QueueWeightAppend(extended, longer, n, b);
  }

  lemma EnqueuedSkip(adj: map<Node, seq<Node>>, queue: seq<seq<Node>>, extended: seq<seq<Node>>,
                     current: seq<Node>, children: seq<Node>, i: nat, start: Node, n: nat, b: nat)
    requires Enqueued(adj, queue, extended, current, children, i, start)
    requires QueueWeight(extended, n, b) <= QueueWeight(queue, n, b) + Scaled(i, PathWeight(|current| + 1, n, b))
    requires i < |children| && children[i] in current
    ensures Enqueued(adj, queue, extended, current, children, i + 1, start)
    ensures QueueWeight(extended, n, b) <= QueueWeight(queue, n, b) + Scaled(i + 1, PathWeight(|current| + 1, n, b))
  {
  }

  /** The module-level breadth-first search, run on a fresh planner. */
  method BFS(graph: Digraph, start: Node, end: Node) returns (r: Option<seq<Node>>)
    requires graph.Valid()
    ensures SearchSpec(graph.edges, start, end, r)
  {
    var cp := new CityPlanner();
    r := cp.BFS(graph, start, end);
  }

  /** The module-level depth-first shortest path, run on a fresh planner. */
  method ShortestPath(graph: Digraph, start: Node, end: Node) returns (r: Option<seq<Node>>)
    requires graph.Valid()
    ensures SearchSpec(graph.edges, start, end, r)
  {
    var cp := new CityPlanner();
    r := cp.ShortestPathDFS(graph, start, end);
  }
}
