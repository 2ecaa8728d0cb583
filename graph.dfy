/**
 * Nodes, edges and the adjacency-list graph of the city-planner exercise.
 *
 * A node is an object with a name; two nodes are equal only when they are the
 * same object, so two nodes may share a name. A digraph maps every registered
 * node to the list of its children and remembers the order in which nodes were
 * registered, which is the order in which the graph is scanned and printed.
 */
module Graphs {
  import opened Wrappers

  /** A vertex. Nodes are compared by identity, never by name. */
  class Node {
    const name: string

    constructor (name: string)
      ensures this.name == name
    {
      this.name := name;
    }
  }

  /** A directed edge from `src` to `dest`. */
  datatype Edge = Edge(src: Node, dest: Node) {

    /** The text `src->dest`: it splits back, at the arrow after the source's name, into both names. */
    function ToString(): (s: string)
      ensures |s| == |src.name| + 2 + |dest.name|
      ensures s[..|src.name|] == src.name
      ensures s[|src.name|..|src.name| + 2] == "->"
      ensures s[|src.name| + 2..] == dest.name
    {
      src.name + "->" + dest.name
    }
  }

  /** The errors the graph raises. */
  datatype GraphError =
    | DuplicateNode          // add_node on a node already registered
    | NodeNotInGraph         // add_edge with an endpoint that is not registered
    | NameNotFound(name: string)  // get_node with a name no registered node has
    | MissingKey             // children_of on a node that is not registered

  /** No element occurs twice. */
  predicate Distinct(s: seq<Node>) {
    forall i, j :: 0 <= i < j < |s| ==> s[i] != s[j]
  }

  /** The position of the first node in `nodes` whose name is `name`, if any. */
  function FirstNamedIndex(nodes: seq<Node>, name: string): (r: Option<nat>)
    ensures r.Some? ==> r.value < |nodes| && nodes[r.value].name == name
    ensures r.Some? ==> forall j :: 0 <= j < r.value ==> nodes[j].name != name
    ensures r.None? <==> forall j :: 0 <= j < |nodes| ==> nodes[j].name != name
  {
    if nodes == [] then None
    else if nodes[0].name == name then Some(0)
    else match FirstNamedIndex(nodes[1..], name)
      case None => None
      case Some(k) => Some(k + 1)
  }

  /** The text lines `src->dest` for the children of one source, in list order. */
  function ChildLines(src: Node, children: seq<Node>): (lines: seq<string>)
    ensures |lines| == |children|
    ensures forall k :: 0 <= k < |children| ==> lines[k] == Edge(src, children[k]).ToString()
  {
    if children == [] then []
    else ChildLines(src, children[..|children| - 1]) + [Edge(src, children[|children| - 1]).ToString()]
  }

  /** All edge lines: sources in the given order, each followed by its children in list order. Every line holds at least the arrow. */
  function EdgeLines(edges: map<Node, seq<Node>>, sources: seq<Node>): (lines: seq<string>)
    requires forall n :: n in sources ==> n in edges
    ensures forall k :: 0 <= k < |lines| ==> |lines[k]| >= 2
  {
    if sources == [] then []
    else
      var last := sources[|sources| - 1];
      EdgeLines(edges, sources[..|sources| - 1]) + ChildLines(last, edges[last])
  }

  /** The lines separated by newlines, with no newline after the last one. */
  function JoinLines(lines: seq<string>): (s: string)
    ensures lines == [] ==> s == ""
    ensures lines != [] ==> |lines[|lines| - 1]| <= |s| && s[|s| - |lines[|lines| - 1]|..] == lines[|lines| - 1]
  {
    if lines == [] then ""
    else if |lines| == 1 then lines[0]
    else JoinLines(lines[..|lines| - 1]) + "\n" + lines[|lines| - 1]
  }

  /** Every line followed by a newline: what the rendering loop accumulates. */
  function Terminated(lines: seq<string>): (s: string) {
    if lines == [] then ""
    else Terminated(lines[..|lines| - 1]) + lines[|lines| - 1] + "\n"
  }

  /** Accumulating newline-terminated lines gives the joined text plus one final newline. */
  lemma {:induction false} TerminatedIsJoinedPlusNewline(lines: seq<string>)
    ensures lines == [] <==> Terminated(lines) == ""
    ensures lines != [] ==> Terminated(lines) == JoinLines(lines) + "\n"
  {
    if lines != [] {
      var init := lines[..|lines| - 1];
      TerminatedIsJoinedPlusNewline(init);
      assert |Terminated(lines)| > 0;
    }
  }

  /** The adjacency map updated by appending `dest` to the child list of `src`. */
  function Appended(edges: map<Node, seq<Node>>, src: Node, dest: Node): (r: map<Node, seq<Node>>)
    requires src in edges
  {
    edges[src := edges[src] + [dest]]
  }

  /** Every edge has its reverse (with every child registered). */
  ghost predicate SymmetricEdges(edges: map<Node, seq<Node>>)
    requires forall n, c :: n in edges && c in edges[n] ==> c in edges
  {
    forall n, c :: n in edges && c in edges[n] ==> n in edges[c]
  }

  /** Adding an edge together with its reverse keeps every edge paired with its reverse. */
  lemma BothWaysKeepsSymmetry(edges: map<Node, seq<Node>>, src: Node, dest: Node)
    requires src in edges && dest in edges
    requires forall n, c :: n in edges && c in edges[n] ==> c in edges
    requires SymmetricEdges(edges)
    ensures var after := Appended(Appended(edges, src, dest), dest, src);
      (forall n, c :: n in after && c in after[n] ==> c in after) && SymmetricEdges(after)
  {
    var middle := Appended(edges, src, dest);
    var after := Appended(middle, dest, src);
    forall n, c | n in after && c in after[n] ensures c in after && n in after[c] {
      if (n == src && c == dest) || (n == dest && c == src) {
      } else {
        assert c in edges[n] by {
          if n == src {
            assert c in middle[n];
          }
        }
      }
    }
  }

  /**
   * A directed graph: a dictionary from each registered node to its children.
   * A graph built by the constructor `Undirected` is the source's subclass
   * Graph, whose add_edge also inserts the reverse edge.
   */
  class Digraph {
    /** Each registered node's children, in the order the edges were added. */
    var edges: map<Node, seq<Node>>
    /** The registered nodes in insertion order: the dictionary's iteration order. */
    var order: seq<Node>
    /** True for an undirected graph. */
    const undirected: bool

    /** The dictionary's keys are exactly the nodes of `order`, each once, and every child is registered. */
    ghost predicate Closed()
      reads this
    {
      && (forall n :: n in edges ==> n in order)
      && (forall k :: 0 <= k < |order| ==> order[k] in edges)
      && Distinct(order)
      && (forall n, c :: n in edges && c in edges[n] ==> c in edges)
    }

    /** Every edge of an undirected graph has its reverse. */
    ghost predicate Symmetric()
      reads this
      requires Closed()
    {
      SymmetricEdges(edges)
    }

    ghost predicate Valid()
      reads this
    {
      Closed() && (undirected ==> Symmetric())
    }

    /** An empty directed graph. */
    constructor ()
      ensures Valid() && edges == map[] && order == [] && !undirected
    {
      edges := map[];
      order := [];
      undirected := false;
    }

    /** An empty undirected graph. */
    constructor Undirected()
      ensures Valid() && edges == map[] && order == [] && undirected
    {
      edges := map[];
      order := [];
      undirected := true;
    }

    /** Registers `node` with no children; a node already registered is refused and nothing changes. */
    method AddNode(node: Node) returns (r: Outcome<GraphError>)
      requires Valid()
      modifies this
      ensures Valid()
      ensures old(node in edges) ==> r == Fail(DuplicateNode) && edges == old(edges) && order == old(order)
      ensures old(node !in edges) ==> r == Pass && edges == old(edges)[node := []] && order == old(order) + [node]
    {
      if node in edges {
        return Fail(DuplicateNode);
      }
      edges := edges[node := []];
      order := order + [node];
      r := Pass;
    }

    /** The directed insertion: appends `e.dest` to the children of `e.src` when both are registered. */
    method InsertEdge(e: Edge) returns (r: Outcome<GraphError>)
      requires Closed()
      modifies this`edges
      ensures Closed()
      ensures old(e.src in edges && e.dest in edges) ==> r == Pass && edges == Appended(old(edges), e.src, e.dest)
      ensures !old(e.src in edges && e.dest in edges) ==> r == Fail(NodeNotInGraph) && edges == old(edges)
    {
      if !(e.src in edges && e.dest in edges) {
        return Fail(NodeNotInGraph);
      }
      edges := edges[e.src := edges[e.src] + [e.dest]];
      r := Pass;
    }

    /**
     * Adds an edge; an undirected graph then adds the reverse edge as well.
     * Either both endpoints are registered and every insertion happens, or
     * nothing changes: the reverse insertion cannot fail once the first passed.
     */
    method AddEdge(e: Edge) returns (r: Outcome<GraphError>)
      requires Valid()
      modifies this`edges
      ensures Valid()
      ensures !old(e.src in edges && e.dest in edges) ==> r == Fail(NodeNotInGraph) && edges == old(edges)
      ensures old(e.src in edges && e.dest in edges) && !undirected ==>
        r == Pass && edges == Appended(old(edges), e.src, e.dest)
      ensures old(e.src in edges && e.dest in edges) && undirected ==>
        r == Pass && edges == Appended(Appended(old(edges), e.src, e.dest), e.dest, e.src)
    {
      ghost var before := edges;
      r := InsertEdge(e);
      if r.Fail? || !undirected {
        return;
      }
      r := InsertEdge(Edge(e.dest, e.src));
      BothWaysKeepsSymmetry(before, e.src, e.dest);
    }

    /** The children of a registered node; a node that is not registered is a missing key. */
    function ChildrenOf(node: Node): (r: Result<seq<Node>, GraphError>)
      reads this
      requires Closed()
      ensures r.Success? <==> node in order
      ensures r.Success? ==> r.value == edges[node] && forall c :: c in r.value ==> c in order
      ensures r.Failure? ==> r.error == MissingKey
    {
      if node in edges then Success(edges[node]) else Failure(MissingKey)
    }

    /** Whether `node` itself (not merely a node of the same name) is registered. */
    function HasNode(node: Node): (b: bool)
      reads this
      requires Closed()
      ensures b <==> node in order
    {
      node in edges
    }

    /** Scans the nodes in insertion order for the first one named `name`. */
    method GetNode(name: string) returns (r: Result<Node, GraphError>)
      requires Closed()
      ensures FirstNamedIndex(order, name).Some? ==> r == Success(order[FirstNamedIndex(order, name).value])
      ensures FirstNamedIndex(order, name).None? ==> r == Failure(NameNotFound(name))
      ensures r.Success? ==> r.value in edges && r.value.name == name
    {
      for i := 0 to |order|
        invariant forall j :: 0 <= j < i ==> order[j].name != name
      {
        if order[i].name == name {
          return Success(order[i]);
        }
      }
      return Failure(NameNotFound(name));
    }

    /** The text of the graph: one `src->dest` line per adjacency entry, joined by newlines. */
    method ToString() returns (s: string)
      requires Closed()
      ensures s == JoinLines(EdgeLines(edges, order))
    {
      var result := "";
      for i := 0 to |order|
        invariant result == Terminated(EdgeLines(edges, order[..i]))
      {
        var src := order[i];
        var children := edges[src];
        ghost var done := EdgeLines(edges, order[..i]);
        assert done + ChildLines(src, children[..0]) == done;
        for j := 0 to |children|
          invariant result == Terminated(done + ChildLines(src, children[..j]))
        {
          AppendLine(done, src, children, j);
          result := result + (src.name + "->" + children[j].name + "\n");
        }
        assert children[..|children|] == children;
        EdgeLinesStep(edges, order, i);
      }
      assert order[..|order|] == order;
      TerminatedIsJoinedPlusNewline(EdgeLines(edges, order));
      s := if result != "" then result[..|result| - 1] else "";
    }
  }

  /** There are no edge lines exactly when none of the sources has a child. */
  lemma {:induction false} NoEdgeLines(edges: map<Node, seq<Node>>, sources: seq<Node>)
    requires forall n :: n in sources ==> n in edges
    ensures EdgeLines(edges, sources) == [] <==> forall k :: 0 <= k < |sources| ==> edges[sources[k]] == []
  {
    if sources != [] {
      var init := sources[..|sources| - 1];
      NoEdgeLines(edges, init);
      assert forall k :: 0 <= k < |init| ==> init[k] == sources[k];
    }
  }

  /** The text of a graph is empty exactly when the graph has no edge. */
  lemma GraphTextEmpty(edges: map<Node, seq<Node>>, order: seq<Node>)
    requires forall n :: n in order ==> n in edges
    ensures JoinLines(EdgeLines(edges, order)) == "" <==> forall k :: 0 <= k < |order| ==> edges[order[k]] == []
  {
    NoEdgeLines(edges, order);
  }

  /** One more child line appended to the accumulated text. */
  lemma AppendLine(done: seq<string>, src: Node, children: seq<Node>, j: nat)
    requires j < |children|
    ensures Terminated(done + ChildLines(src, children[..j + 1]))
         == Terminated(done + ChildLines(src, children[..j])) + (src.name + "->" + children[j].name + "\n")
  {
    assert children[..j + 1][..j] == children[..j];
    var before := done + ChildLines(src, children[..j]);
    var line := Edge(src, children[j]).ToString();
    assert done + ChildLines(src, children[..j + 1]) == before + [line];
    assert (before + [line])[..|before|] == before;
  }

  /** The lines of the first `i + 1` sources extend those of the first `i` by the children of source `i`. */
  lemma EdgeLinesStep(edges: map<Node, seq<Node>>, order: seq<Node>, i: nat)
    requires i < |order| && forall n :: n in order ==> n in edges
    ensures EdgeLines(edges, order[..i + 1]) == EdgeLines(edges, order[..i]) + ChildLines(order[i], edges[order[i]])
  {
    assert order[..i + 1][..i] == order[..i];
  }
}
