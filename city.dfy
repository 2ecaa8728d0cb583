/**
 * The seven-city road map of the graph exercise's tests, built through the
 * graph's own operations, and the results the searches give on it.
 */
module CityScenario {
  import opened Wrappers
  import opened Graphs
  import opened Paths
  import opened Planner

  /** The seven city nodes. */
  datatype Cities = Cities(boston: Node, providence: Node, newYork: Node, chicago: Node,
                           denver: Node, phoenix: Node, losAngeles: Node)
  {
    /** The cities in the order they are registered. */
    function Order(): (s: seq<Node>)
      ensures |s| == 7 && s[0] == boston && s[3] == chicago && s[6] == losAngeles
    {
      [boston, providence, newYork, chicago, denver, phoenix, losAngeles]
    }

    /** The nodes carry the seven city names. */
    predicate WellNamed() {
      && boston.name == "Boston" && providence.name == "Providence" && newYork.name == "New York"
      && chicago.name == "Chicago" && denver.name == "Denver" && phoenix.name == "Phoenix"
      && losAngeles.name == "Los Angeles"
    }
  }

  /** Nodes with different names are different nodes, so the seven cities are seven nodes. */
  lemma CitiesDiffer(c: Cities)
    requires c.WellNamed()
    ensures Distinct(c.Order())
    ensures c.boston != c.providence && c.boston != c.newYork && c.boston != c.chicago
    ensures c.boston != c.denver && c.boston != c.phoenix && c.boston != c.losAngeles
    ensures c.providence != c.newYork && c.providence != c.chicago && c.providence != c.denver
    ensures c.providence != c.phoenix && c.providence != c.losAngeles
    ensures c.newYork != c.chicago && c.newYork != c.denver && c.newYork != c.phoenix && c.newYork != c.losAngeles
    ensures c.chicago != c.denver && c.chicago != c.phoenix && c.chicago != c.losAngeles
    ensures c.denver != c.phoenix && c.denver != c.losAngeles && c.phoenix != c.losAngeles
  {
    assert c.boston.name[0] != c.denver.name[0];
    assert c.chicago.name[0] != c.phoenix.name[0];
  }

  /** The one-way roads between the cities. */
  ghost predicate IsCityMap(adj: map<Node, seq<Node>>, c: Cities) {
    && (forall n :: n in adj ==> n in c.Order())
    && c.boston in adj && adj[c.boston] == [c.providence, c.newYork]
    && c.providence in adj && adj[c.providence] == [c.boston, c.newYork]
    && c.newYork in adj && adj[c.newYork] == [c.chicago]
    && c.chicago in adj && adj[c.chicago] == [c.denver, c.phoenix]
    && c.denver in adj && adj[c.denver] == [c.phoenix, c.newYork]
    && c.phoenix in adj && adj[c.phoenix] == []
    && c.losAngeles in adj && adj[c.losAngeles] == [c.boston]
  }

  /** Registers the seven cities and adds the ten roads, in the order of the tests' fixture. */
  method BuildCityGraph() returns (g: Digraph, c: Cities)
    ensures fresh(g) && g.Valid() && !g.undirected
    ensures c.WellNamed() && IsCityMap(g.edges, c) && g.order == c.Order()
  {
    g := new Digraph();
    var boston := new Node("Boston");
    var providence := new Node("Providence");
    var newYork := new Node("New York");
    var chicago := new Node("Chicago");
    var denver := new Node("Denver");
    var phoenix := new Node("Phoenix");
    var losAngeles := new Node("Los Angeles");
    c := Cities(boston, providence, newYork, chicago, denver, phoenix, losAngeles);
    AddCities(g, c);
    AddRoads(g, c);
  }

  /** Registers the seven cities in an empty graph. */
  method AddCities(g: Digraph, c: Cities)
    requires g.Valid() && !g.undirected && g.edges == map[] && g.order == [] && c.WellNamed()
    modifies g
    ensures g.Valid() && !g.undirected && g.order == c.Order()
    ensures forall n :: n in g.edges ==> g.edges[n] == []
  {
    var r;
    var cities := c.Order();
    for i := 0 to 7
      invariant g.Valid() && !g.undirected && g.order == cities[..i]
      invariant forall n :: n in g.edges ==> n in cities[..i] && g.edges[n] == []
    {
      r := g.AddNode(cities[i]);
      assert cities[..i + 1] == cities[..i] + [cities[i]];
    }
    assert cities[..7] == cities;
  }

  /** Adds the ten roads to the registered cities, source by source in the order of the tests' fixture. */
  method AddRoads(g: Digraph, c: Cities)
    requires g.Valid() && !g.undirected && c.WellNamed() && g.order == c.Order()
    requires forall n :: n in g.edges ==> g.edges[n] == []
    modifies g`edges
    ensures g.Valid() && IsCityMap(g.edges, c) && g.order == old(g.order)
  {
    CitiesDiffer(c);
    var cities := c.Order();
    assert cities[0] in g.edges && cities[1] in g.edges && cities[2] in g.edges && cities[3] in g.edges;
    assert cities[4] in g.edges && cities[5] in g.edges && cities[6] in g.edges;
    AddRoadsFrom(g, c.boston, [c.providence, c.newYork]);
    AddRoadsFrom(g, c.providence, [c.boston, c.newYork]);
    AddRoadsFrom(g, c.newYork, [c.chicago]);
    AddRoadsFrom(g, c.chicago, [c.denver, c.phoenix]);
    AddRoadsFrom(g, c.denver, [c.phoenix, c.newYork]);
    AddRoadsFrom(g, c.losAngeles, [c.boston]);
  }

  /** Adds a road from `src` to each of `dests` in turn; `src` had no roads before. */
  method AddRoadsFrom(g: Digraph, src: Node, dests: seq<Node>)
    requires g.Valid() && !g.undirected && src in g.edges && g.edges[src] == []
    requires forall d :: d in dests ==> d in g.edges
    modifies g`edges
    ensures g.Valid() && g.edges == old(g.edges)[src := dests]
  {
    ghost var before := g.edges;
    for i := 0 to |dests|
      invariant g.Valid() && g.edges == before[src := dests[..i]]
    {
      var r := g.AddEdge(Edge(src, dests[i]));
      assert dests[..i + 1] == dests[..i] + [dests[i]];
    }
    assert dests[..|dests|] == dests;
  }

  /** Chicago, Denver, Phoenix and New York: no road leads out of this group. */
  function West(c: Cities): set<Node> {
    {c.chicago, c.denver, c.phoenix, c.newYork}
  }

  /** Boston cannot be reached from Chicago: every road out of the western group stays in it. */
  lemma {:induction false} NoPathChicagoBoston(adj: map<Node, seq<Node>>, c: Cities)
    requires c.WellNamed() && IsCityMap(adj, c)
    ensures !Reachable(adj, c.chicago, c.boston)
  {
    CitiesDiffer(c);
    forall n, x | n in West(c) && n in adj && x in adj[n] ensures x in West(c) {
    }
    if Reachable(adj, c.chicago, c.boston) {
      var p :| IsPath(adj, p, c.chicago, c.boston);
      WalkStaysInClosedSet(adj, p, West(c));
    }
  }

  /** The route Boston, New York, Chicago, Phoenix. */
  function BostonPhoenixRoute(c: Cities): seq<Node> {
    [c.boston, c.newYork, c.chicago, c.phoenix]
  }

  /**
   * Every path from Boston to Phoenix has at least four nodes, and the only
   * one with four is the route through New York and Chicago.
   */
  lemma {:induction false} BostonPhoenixPaths(adj: map<Node, seq<Node>>, c: Cities, p: seq<Node>)
    requires c.WellNamed() && IsCityMap(adj, c) && IsPath(adj, p, c.boston, c.phoenix)
    ensures |p| >= 4 && (|p| == 4 ==> p == BostonPhoenixRoute(c))
  {
    CitiesDiffer(c);
    assert p[1] in adj[c.boston];
    if |p| <= 4 {
      assert |p| >= 2;
      assert p[1] == c.providence || p[1] == c.newYork;
      assert |p| >= 3;
      assert p[2] in adj[p[1]];
      assert p[2] == c.chicago;
      assert |p| == 4;
      assert p[3] == c.phoenix;
    }
  }

  /** The route through New York and Chicago is the unique shortest path from Boston to Phoenix. */
  lemma BostonPhoenixShortest(adj: map<Node, seq<Node>>, c: Cities)
    requires c.WellNamed() && IsCityMap(adj, c)
    ensures IsShortestPath(adj, BostonPhoenixRoute(c), c.boston, c.phoenix)
    ensures forall p :: IsShortestPath(adj, p, c.boston, c.phoenix) ==> p == BostonPhoenixRoute(c)
  {
    CitiesDiffer(c);
    var route := BostonPhoenixRoute(c);
    assert IsPath(adj, route, c.boston, c.phoenix);
    forall q | IsPath(adj, q, c.boston, c.phoenix) ensures |route| <= |q| {
      BostonPhoenixPaths(adj, c, q);
    }
    forall p | IsShortestPath(adj, p, c.boston, c.phoenix) ensures p == route {
      BostonPhoenixPaths(adj, c, p);
    }
  }

  /** The direct road is the unique shortest path from Chicago to Phoenix. */
  lemma ChicagoPhoenixShortest(adj: map<Node, seq<Node>>, c: Cities)
    requires c.WellNamed() && IsCityMap(adj, c)
    ensures IsShortestPath(adj, [c.chicago, c.phoenix], c.chicago, c.phoenix)
    ensures forall p :: IsShortestPath(adj, p, c.chicago, c.phoenix) ==> p == [c.chicago, c.phoenix]
  {
    CitiesDiffer(c);
    assert IsPath(adj, [c.chicago, c.phoenix], c.chicago, c.phoenix);
    forall q | IsPath(adj, q, c.chicago, c.phoenix) ensures 2 <= |q| {
      assert q[0] != q[|q| - 1];
    }
    forall p | IsShortestPath(adj, p, c.chicago, c.phoenix) ensures p == [c.chicago, c.phoenix] {
      assert |p| == 2;
    }
  }

  /** The rendering of the Boston to Phoenix route. */
  lemma BostonPhoenixText(c: Cities)
    requires c.WellNamed()
    ensures PathText(BostonPhoenixRoute(c)) == "Boston->New York->Chicago->Phoenix"
  {
    var route := BostonPhoenixRoute(c);
    var three := [c.boston, c.newYork, c.chicago];
    assert route[..3] == three && three[..2] == [c.boston, c.newYork] && [c.boston, c.newYork][..1] == [c.boston];
    assert PathText([c.boston, c.newYork]) == "Boston->New York";
    assert PathText(three) == "Boston->New York->Chicago";
  }

  /** The positions of the first nodes named Boston, Chicago and Phoenix in registration order. */
  lemma CityNames(c: Cities)
    requires c.WellNamed()
    ensures FirstNamedIndex(c.Order(), "Boston") == Some(0)
    ensures FirstNamedIndex(c.Order(), "Chicago") == Some(3)
    ensures FirstNamedIndex(c.Order(), "Phoenix") == Some(5)
  {
    var cities := c.Order();
    assert forall k :: 0 <= k < 6 ==> cities[k..][1..] == cities[k + 1..];
    assert "Boston" != "Chicago" && "Boston" != "Phoenix";
    assert "Chicago" != "Phoenix" && "Denver" != "Phoenix";
    assert FirstNamedIndex(cities[3..], "Chicago") == Some(0);
    assert FirstNamedIndex(cities[2..], "Chicago") == Some(1);
    assert FirstNamedIndex(cities[1..], "Chicago") == Some(2);
    assert FirstNamedIndex(cities[5..], "Phoenix") == Some(0);
    assert FirstNamedIndex(cities[4..], "Phoenix") == Some(1);
    assert FirstNamedIndex(cities[3..], "Phoenix") == Some(2);
    assert FirstNamedIndex(cities[2..], "Phoenix") == Some(3);
    assert FirstNamedIndex(cities[1..], "Phoenix") == Some(4);
  }

  /** The depth-first searches of the tests: no path from Chicago to Boston, and the route to Phoenix. */
  method DepthFirstOnCities() returns (toBoston: Option<seq<Node>>, toPhoenix: string)
    ensures toBoston == None
    ensures toPhoenix == "Boston->New York->Chicago->Phoenix"
  {
    var g, c := BuildCityGraph();
    toBoston := ShortestPath(g, c.chicago, c.boston);
    NoPathChicagoBoston(g.edges, c);
    var sp := ShortestPath(g, c.boston, c.phoenix);
    BostonPhoenixShortest(g.edges, c);
    BostonPhoenixText(c);
    toPhoenix := RenderPath(sp.value);
  }

  /** The module-level breadth-first search from Chicago to Phoenix takes the direct road. */
  method BreadthFirstChicagoPhoenix() returns (text: string)
    ensures text == "Chicago->Phoenix"
  {
    var g, c := BuildCityGraph();
    var sp := BFS(g, c.chicago, c.phoenix);
    ChicagoPhoenixShortest(g.edges, c);
    ChicagoPhoenixText(c);
    text := RenderPath(sp.value);
  }

  /** The module-level breadth-first search from Boston to Phoenix finds the route through New York and Chicago. */
  method BreadthFirstBostonPhoenix() returns (text: string)
    ensures text == "Boston->New York->Chicago->Phoenix"
  {
    var g, c := BuildCityGraph();
    var sp := BFS(g, c.boston, c.phoenix);
    BostonPhoenixShortest(g.edges, c);
    BostonPhoenixText(c);
    text := RenderPath(sp.value);
  }

  /** The planner's depth-first searches, with the planner bound to the city graph. */
  method PlannerDepthFirst() returns (toBoston: Option<seq<Node>>, toPhoenix: string)
    ensures toBoston == None
    ensures toPhoenix == "Boston->New York->Chicago->Phoenix"
  {
    var g, c := BuildCityGraph();
    var cp := new CityPlanner();
    cp.g := g;
    toBoston := cp.ShortestPathDFS(g, c.chicago, c.boston);
    NoPathChicagoBoston(g.edges, c);
    var sp := cp.ShortestPathDFS(g, c.boston, c.phoenix);
    BostonPhoenixShortest(g.edges, c);
    BostonPhoenixText(c);
    toPhoenix := cp.PrintPath(sp.value);
  }

  /** The planner's breadth-first search from Chicago to Phoenix, with the planner bound to the city graph. */
  method PlannerBreadthFirstChicago() returns (text: string)
    ensures text == "Chicago->Phoenix"
  {
    var g, c := BuildCityGraph();
    var cp := new CityPlanner();
    cp.g := g;
    var sp := cp.ShortestPathBFS(g, c.chicago, c.phoenix);
    ChicagoPhoenixShortest(g.edges, c);
    ChicagoPhoenixText(c);
    text := cp.PrintPath(sp.value);
  }

  /** The planner's breadth-first search from Boston to Phoenix, with the planner bound to the city graph. */
  method PlannerBreadthFirstBoston() returns (text: string)
    ensures text == "Boston->New York->Chicago->Phoenix"
  {
    var g, c := BuildCityGraph();
    var cp := new CityPlanner();
    cp.g := g;
    var sp := cp.ShortestPathBFS(g, c.boston, c.phoenix);
    BostonPhoenixShortest(g.edges, c);
    BostonPhoenixText(c);
    text := cp.PrintPath(sp.value);
  }

  /** The rendering of the direct road from Chicago to Phoenix. */
  lemma ChicagoPhoenixText(c: Cities)
    requires c.WellNamed()
    ensures PathText([c.chicago, c.phoenix]) == "Chicago->Phoenix"
  {
    assert [c.chicago, c.phoenix][..1] == [c.chicago];
  }

  /** The no-path line of the tests, spelled out. */
  lemma NoPathText()
    ensures NoPathMessage("Chicago", "Boston") == "There is no path from Chicago to Boston"
  {
    assert "There is no path from " + "Chicago" == "There is no path from Chicago";
    assert "There is no path from Chicago" + " to " == "There is no path from Chicago to ";
  }

  /** The report on Chicago to Boston: there is no path. */
  method ReportChicagoBoston() returns (report: Result<Option<string>, GraphError>)
    ensures report == Success(Some("There is no path from Chicago to Boston"))
  {
    var g, c := BuildCityGraph();
    var cp := new CityPlanner();
    cp.g := g;
    CityNames(c);
    NoPathChicagoBoston(g.edges, c);
    assert g.order[3] == c.chicago && g.order[0] == c.boston;
    report := cp.GetShortestPath("Chicago", "Boston", "dfs");
    NoPathText();
  }

  /** The report on Boston to Phoenix: the route through New York and Chicago. */
  method ReportBostonPhoenix() returns (report: Result<Option<string>, GraphError>)
    ensures report == Success(Some(FoundMessage("Boston", "Phoenix", "Boston->New York->Chicago->Phoenix")))
  {
    var g, c := BuildCityGraph();
    var cp := new CityPlanner();
    cp.g := g;
    CityNames(c);
    BostonPhoenixShortest(g.edges, c);
    BostonPhoenixText(c);
    assert g.order[0] == c.boston && g.order[5] == c.phoenix;
    report := cp.GetShortestPath("Boston", "Phoenix", "dfs");
    ghost var p :| IsShortestPath(g.edges, p, c.boston, c.phoenix)
      && report.value.value == FoundMessage("Boston", "Phoenix", PathText(p));
    assert p == BostonPhoenixRoute(c);
    assert PathText(p) == "Boston->New York->Chicago->Phoenix";
  }

  /** A depth-first search in an empty graph finds nothing. */
  method EmptyGraphSearch() returns (sp: Option<seq<Node>>)
    ensures sp == None
  {
    var cp := new CityPlanner();
    cp.g := new Digraph();
    var a := new Node("A");
    var b := new Node("B");
    sp := cp.ShortestPathDFS(cp.g, a, b);
  }

  /** The path texts of the tests. */
  method PrintPaths() returns (three: string, one: string)
    ensures three == "A->B->C" && one == "X"
  {
    var cp := new CityPlanner();
    var a := new Node("A");
    var b := new Node("B");
    var c := new Node("C");
    three := cp.PrintPath([a, b, c]);
    assert [a, b, c][..2] == [a, b] && [a, b][..1] == [a];
    assert PathText([a, b]) == "A->B";
    var x := new Node("X");
    one := cp.PrintPath([x]);
  }
}
