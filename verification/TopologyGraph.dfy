/** Reading a point-to-point topology: the graph, the checks on it, and maps over its directed edges. */
module TopologyGraph {
  import opened Options
  import opened Collections
  import opened ExpUtil
  import opened HopDistances
  import EcmpRouting

  type Config = map<string, string>

  datatype Graph = Graph(numNodes: nat, switches: set<nat>, tors: set<nat>, servers: set<nat>, edges: set<Edge>)
  {
    /** Every node is either a switch or a server, switches may be top-of-rack, and servers connect
        to those only. */
    ghost predicate Coherent() {
      && (forall x: nat :: x in servers || x in switches <==> x < numNodes)
      && servers !! switches
      && tors <= switches
      && (forall e :: e in edges ==> 0 <= e.0 < e.1 < numNodes)
      && (forall e :: e in edges ==> (e.0 in servers ==> e.1 in tors) && (e.1 in servers ==> e.0 in tors))
    }
  }

  // ---------- what a configuration describes ----------

  /** The value of a parameter; an absent one is as unreadable as an empty text. */
  function Param(config: Config, key: string): string {
    if key in config then config[key] else ""
  }

  /** Two numbers around a separator. */
  function PairOf(s: string, separator: string): Option<Edge>
    requires separator != []
  {
    var parts := Split(s, separator);
    if |parts| == 2 && ParsePositiveInt64(parts[0]).Some? && ParsePositiveInt64(parts[1]).Some? then
      Some((ParsePositiveInt64(parts[0]).value, ParsePositiveInt64(parts[1]).value))
    else
      None
  }

  function EdgeOf(s: string): Edge {
    var pair := PairOf(s, "-");
    if pair.Some? then pair.value else (0, 0)
  }

  predicate IsEdgeText(s: string, n: nat) {
    PairOf(s, "-").Some? && EdgeOf(s).0 < EdgeOf(s).1 < n
  }

  ghost predicate AllEdges(texts: set<string>, n: nat) {
    forall s :: s in texts ==> IsEdgeText(s, n)
  }

  /** The edges written in a text `set(a-b,...)`, none of them twice, whatever the spelling. */
  ghost function EdgeSetOf(str: string, n: nat): Option<set<Edge>> {
    match SetOf(str)
    case None => None
    case Some(texts) =>
      if AllEdges(texts, n) && Injective(texts, EdgeOf) then Some(Image(texts, EdgeOf)) else None
  }

  /** The parameters, as read on their own; None is one that cannot be read. */
  datatype Fields = Fields(numNodes: Option<nat>, numEdges: Option<nat>, switches: Option<set<nat>>,
    tors: Option<set<nat>>, servers: Option<set<nat>>)

  ghost function FieldsOf(config: Config): Fields {
    Fields(
      ParsePositiveInt64(Param(config, "num_nodes")),
      ParsePositiveInt64(Param(config, "num_undirected_edges")),
      NumberSetOf(Param(config, "switches")),
      NumberSetOf(Param(config, "switches_which_are_tors")),
      NumberSetOf(Param(config, "servers"))
    )
  }

  /** The graph is what the configuration says, is coherent, and has no more nodes than the 32-bit index of
      the loop over its nodes can count. */
  ghost predicate Describes(config: Config, g: Graph) {
    && FieldsOf(config)
       == Fields(Some(g.numNodes), Some(|g.edges|), Some(g.switches), Some(g.tors), Some(g.servers))
    && g.numNodes <= INT32_MAX
    && EdgeSetOf(Param(config, "undirected_edges"), g.numNodes) == Some(g.edges)
    && g.Coherent()
  }

  /** A configuration without one of the six parameters describes no graph. */
  lemma NoParameterIsMissing(config: Config, g: Graph)
    requires Describes(config, g)
    ensures "num_nodes" in config && "num_undirected_edges" in config && "switches" in config
    ensures "switches_which_are_tors" in config && "servers" in config && "undirected_edges" in config
  {
    var f := FieldsOf(config);
    assert f.numNodes.Some? && f.numEdges.Some? && f.switches.Some? && f.tors.Some? && f.servers.Some?;
    NothingIsRead(g.numNodes);
  }

  lemma NothingIsRead(n: nat)
    ensures ParsePositiveInt64("") == None && NumberSetOf("") == None && EdgeSetOf("", n) == None
  {
    NoDigitNoNumber("");
    assert SetOf("") == None;
  }

  ghost predicate Numbered(n: nat, switches: set<nat>, tors: set<nat>, servers: set<nat>) {
    forall x :: x in switches || x in tors || x in servers ==> x < n
  }

  /** Everything that is read before the loop over the nodes is in order, but the index of that loop
      overflows. */
  ghost predicate OverflowsIndex(config: Config) {
    var f := FieldsOf(config);
    && f.numNodes.Some? && f.numEdges.Some? && f.switches.Some? && f.tors.Some? && f.servers.Some?
    && Numbered(f.numNodes.value, f.switches.value, f.tors.value, f.servers.value)
    && f.numNodes.value > INT32_MAX
  }

  // ---------- counting ----------

  ghost function Range(n: nat): (r: set<nat>)
    ensures |r| == n && forall x: nat :: x in r <==> x < n
  {
    if n == 0 then {} else Range(n - 1) + {n - 1}
  }

  /** Counting decides whether servers and switches make up all nodes. */
  lemma NodesCovered(n: nat, servers: set<nat>, switches: set<nat>)
    requires forall x :: x in servers || x in switches ==> x < n
    ensures |servers + switches| == n <==> forall x: nat :: x in servers || x in switches <==> x < n
  {
    SubsetCount(servers + switches, Range(n));
    if |servers + switches| == n {
      forall x: nat | x < n
        ensures x in servers || x in switches
      {
        assert x in servers + switches;
      }
    }
    if forall x: nat :: x in servers || x in switches <==> x < n {
      assert servers + switches == Range(n);
    }
  }

  // ---------- edges ----------

  predicate Before(e: Edge, f: Edge) {
    e.0 < f.0 || (e.0 == f.0 && e.1 <= f.1)
  }

  predicate InOrder(s: seq<Edge>) {
    forall i, j :: 0 <= i < j < |s| ==> Before(s[i], s[j])
  }

  function Insert(s: seq<Edge>, e: Edge): (r: seq<Edge>)
    requires InOrder(s)
    ensures InOrder(r) && multiset(r) == multiset(s) + multiset{e}
  {
    if s == [] then [e]
    else if Before(e, s[0]) then [e] + s
    else
      var r := Insert(s[1..], e);
      InsertedBehind(s, e, r);
      [s[0]] + r
  }

  lemma InsertedBehind(s: seq<Edge>, e: Edge, r: seq<Edge>)
    requires s != [] && InOrder(s) && Before(s[0], e)
    requires InOrder(r) && multiset(r) == multiset(s[1..]) + multiset{e}
    ensures InOrder([s[0]] + r) && multiset([s[0]] + r) == multiset(s) + multiset{e}
  {
    forall i | 0 <= i < |r|
      ensures Before(s[0], r[i])
    {
      assert r[i] in multiset(r);
    }
    assert s == [s[0]] + s[1..];
  }

  /** Edges sorted by their ends. */
  method SortEdges(edges: seq<Edge>) returns (sorted: seq<Edge>)
    ensures InOrder(sorted) && multiset(sorted) == multiset(edges)
  {
    sorted := [];
    for i := 0 to |edges|
      invariant InOrder(sorted) && multiset(sorted) == multiset(edges[..i])
    {
      assert edges[..i + 1] == edges[..i] + [edges[i]];
      sorted := Insert(sorted, edges[i]);
    }
    assert edges[..|edges|] == edges;
  }

  /** The neighbours of each node. */
  ghost predicate IsAdjacency(adjacency: seq<set<nat>>, n: nat, edges: set<Edge>) {
    && |adjacency| == n
    && (forall a, b :: 0 <= a < n ==> (b in adjacency[a] <==> (a, b) in edges || (b, a) in edges))
  }

  datatype Edges = Edges(list: seq<Edge>, asSet: set<Edge>, adjacency: seq<set<nat>>)

  ghost predicate Collected(texts: set<string>, n: nat, e: Edges) {
    && AllEdges(texts, n)
    && |e.list| == |texts| && e.asSet == Members(e.list) && e.asSet == Image(texts, EdgeOf)
    && IsAdjacency(e.adjacency, n, e.asSet)
  }

  function AddEdge(e: Edges, edge: Edge): Edges
    requires 0 <= edge.0 < |e.adjacency| && 0 <= edge.1 < |e.adjacency|
  {
    var a: nat, b: nat := edge.0, edge.1;
    var left := e.adjacency[a := e.adjacency[a] + {b}];
    Edges(e.list + [edge], e.asSet + {edge}, left[b := left[b] + {a}])
  }

  lemma CollectsOneMore(texts: set<string>, n: nat, e: Edges, s: string)
    requires Collected(texts, n, e) && s !in texts && IsEdgeText(s, n)
    ensures Collected(texts + {s}, n, AddEdge(e, EdgeOf(s)))
  {
    ImageGrows(texts, s);
    AdjacencyGrows(n, e, EdgeOf(s));
  }

  lemma ImageGrows(texts: set<string>, s: string)
    ensures Image(texts + {s}, EdgeOf) == Image(texts, EdgeOf) + {EdgeOf(s)}
  {
  }

  lemma AdjacencyGrows(n: nat, e: Edges, edge: Edge)
    requires IsAdjacency(e.adjacency, n, e.asSet) && 0 <= edge.0 < edge.1 < n
    ensures IsAdjacency(AddEdge(e, edge).adjacency, n, e.asSet + {edge})
  {
    var adjacency := AddEdge(e, edge).adjacency;
    forall a, b | 0 <= a < n
      ensures b in adjacency[a] <==> (a, b) in e.asSet + {edge} || (b, a) in e.asSet + {edge}
    {
      assert b in adjacency[a] <==> b in e.adjacency[a] || (a, b) == edge || (b, a) == edge;
    }
  }

  method ParseEdge(s: string, n: nat) returns (r: Option<Edge>)
    ensures r == if IsEdgeText(s, n) then Some(EdgeOf(s)) else None
  {
    var parts := SplitString(s, "-");
    if |parts| != 2 || ParsePositiveInt64(parts[0]).None? || ParsePositiveInt64(parts[1]).None? {
      return None;
    }
    var a, b := ParsePositiveInt64(parts[0]).value, ParsePositiveInt64(parts[1]).value;
    if a == b || a >= n || b >= n || b < a {
      return None;
    }
    r := Some((a, b));
  }

  ghost predicate NoNeighbors(adjacency: seq<set<nat>>, n: nat) {
    |adjacency| == n && forall a :: 0 <= a < n ==> adjacency[a] == {}
  }

  /** All nodes, none with a neighbour; None is the overflow of the 32-bit loop index. */
  method EmptyAdjacency(n: nat) returns (r: Option<seq<set<nat>>>, nodes: set<nat>)
    ensures r.Some? <==> n < 0x8000_0000
    ensures r.Some? ==> NoNeighbors(r.value, n) && forall x: nat :: x in nodes <==> x < n
  {
    nodes := {};
    var adjacency: seq<set<nat>> := [];
    var i: nat := 0;
    while i < n
      invariant i <= n && i <= INT32_MAX
      invariant NoNeighbors(adjacency, i) && forall x: nat :: x in nodes <==> x < i
      decreases n - i
    {
      nodes := nodes + {i};
      adjacency := adjacency + [{}];
      if i == INT32_MAX {
        return None, nodes;
      }
      i := i + 1;
    }
    return Some(adjacency), nodes;
  }

  lemma NothingCollected(n: nat, adjacency: seq<set<nat>>)
    requires NoNeighbors(adjacency, n)
    ensures Collected({}, n, Edges([], {}, adjacency))
  {
    assert Image({}, EdgeOf) == {};
  }

  method CollectEdge(ghost done: set<string>, n: nat, edges: Edges, s: string) returns (r: Option<Edges>)
    requires Collected(done, n, edges) && s !in done
    ensures r.Some? <==> IsEdgeText(s, n)
    ensures r.Some? ==> Collected(done + {s}, n, r.value)
  {
    var edge := ParseEdge(s, n);
    if edge.None? {
      return None;
    }
    CollectsOneMore(done, n, edges, s);
    r := Some(AddEdge(edges, edge.value));
  }

  method CollectEdges(texts: set<string>, n: nat, adjacency: seq<set<nat>>) returns (r: Option<Edges>)
    requires NoNeighbors(adjacency, n)
    ensures r.Some? <==> AllEdges(texts, n)
    ensures r.Some? ==> Collected(texts, n, r.value)
  {
    NothingCollected(n, adjacency);
    r := Some(Edges([], {}, adjacency));
    var todo := texts;
    ghost var done: set<string> := {};
    while todo != {}
      invariant texts == done + todo && done !! todo
      invariant r.Some? && Collected(done, n, r.value)
    {
      var s :| s in todo;
      r := CollectEdge(done, n, r.value, s);
      if r.None? {
        NotAllEdges(texts, n, s);
        return;
      }
      MoveOver(texts, done, todo, s);
      todo, done := todo - {s}, done + {s};
    }
    assert done == texts;
  }

  lemma NotAllEdges(texts: set<string>, n: nat, s: string)
    requires s in texts && !IsEdgeText(s, n)
    ensures !AllEdges(texts, n)
  {
  }

  lemma MoveOver(all: set<string>, done: set<string>, todo: set<string>, s: string)
    requires all == done + todo && done !! todo && s in todo
    ensures all == (done + {s}) + (todo - {s}) && (done + {s}) !! (todo - {s})
  {
  }

  /** No repeated edge: counting the list against the set decides it. */
  lemma NoEdgeTwice(texts: set<string>, n: nat, e: Edges)
    requires Collected(texts, n, e)
    ensures |e.list| == |e.asSet| <==> Injective(texts, EdgeOf)
  {
    ImageCount(texts, EdgeOf);
  }

  lemma DistinctInOrderIsSorted(list: seq<Edge>, sorted: seq<Edge>)
    requires |list| == |Members(list)| && InOrder(sorted) && multiset(sorted) == multiset(list)
    ensures EcmpRouting.SortedEdges(sorted) && Members(sorted) == Members(list) && |sorted| == |list|
  {
    assert |sorted| == |multiset(sorted)| == |multiset(list)| == |list|;
    assert Members(sorted) == Members(list) by {
      forall e
        ensures e in sorted <==> e in list
      {
        assert e in multiset(sorted) <==> e in multiset(list);
      }
    }
    MembersCount(sorted);
  }

  // ---------- node types ----------

  method AllItemsAreLessThan(s: set<nat>, number: nat) returns (ok: bool)
    ensures ok <==> forall x :: x in s ==> x < number
  {
    var todo := s;
    while todo != {}
      invariant todo <= s && forall x :: x in s && x !in todo ==> x < number
    {
      var x :| x in todo;
      if x >= number {
        return false;
      }
      todo := todo - {x};
    }
    return true;
  }

  ghost predicate ServersConnectTo(servers: set<nat>, tors: set<nat>, adjacency: seq<set<nat>>)
    requires forall x :: x in servers ==> x < |adjacency|
  {
    forall x, y :: x in servers && y in adjacency[x] ==> y in tors
  }

  method OnlyTors(neighbors: set<nat>, tors: set<nat>) returns (ok: bool)
    ensures ok <==> forall y :: y in neighbors ==> y in tors
  {
    var todo := neighbors;
    while todo != {}
      invariant todo <= neighbors && forall y :: y in neighbors && y !in todo ==> y in tors
    {
      var y :| y in todo;
      if y !in tors {
        return false;
      }
      todo := todo - {y};
    }
    return true;
  }

  method CheckServers(servers: set<nat>, tors: set<nat>, adjacency: seq<set<nat>>) returns (ok: bool)
    requires forall x :: x in servers ==> x < |adjacency|
    ensures ok <==> ServersConnectTo(servers, tors, adjacency)
  {
    var todo := servers;
    while todo != {}
      invariant todo <= servers
      invariant forall x, y :: x in servers && x !in todo && y in adjacency[x] ==> y in tors
    {
      var x :| x in todo;
      var connected := OnlyTors(adjacency[x], tors);
      if !connected {
        return false;
      }
      todo := todo - {x};
    }
    return true;
  }

  /** The checks on node types accept exactly the coherent graphs. */
  method CheckHierarchy(g: Graph, adjacency: seq<set<nat>>) returns (ok: bool)
    requires forall x :: x in g.switches || x in g.tors || x in g.servers ==> x < g.numNodes
    requires forall e :: e in g.edges ==> 0 <= e.0 < e.1 < g.numNodes
    requires IsAdjacency(adjacency, g.numNodes, g.edges)
    ensures ok <==> g.Coherent()
  {
    if g.servers * g.switches != {} {
      return false;
    }
    NodesCovered(g.numNodes, g.servers, g.switches);
    if |g.servers + g.switches| != g.numNodes {
      return false;
    }
    SubsetCount(g.switches * g.tors, g.tors);
    if |g.switches * g.tors| != |g.tors| {
      return false;
    }
    ok := CheckServers(g.servers, g.tors, adjacency);
    ServerEdges(g, adjacency);
  }

  lemma ServerEdges(g: Graph, adjacency: seq<set<nat>>)
    requires forall x :: x in g.servers ==> x < g.numNodes
    requires forall e :: e in g.edges ==> 0 <= e.0 < e.1 < g.numNodes
    requires IsAdjacency(adjacency, g.numNodes, g.edges)
    ensures ServersConnectTo(g.servers, g.tors, adjacency) <==>
      forall e :: e in g.edges ==> (e.0 in g.servers ==> e.1 in g.tors) && (e.1 in g.servers ==> e.0 in g.tors)
  {
    if ServersConnectTo(g.servers, g.tors, adjacency) {
      forall e | e in g.edges
        ensures (e.0 in g.servers ==> e.1 in g.tors) && (e.1 in g.servers ==> e.0 in g.tors)
      {
        assert (e.0, e.1) in g.edges;
        assert e.1 in adjacency[e.0] && e.0 in adjacency[e.1];
      }
    }
  }

  // ---------- the topology ----------

  method ParseEdgeSet(str: string, n: nat, count: nat, adjacency: seq<set<nat>>) returns (r: Option<Edges>)
    requires NoNeighbors(adjacency, n)
    ensures r.Some? <==> EdgeSetOf(str, n).Some? && |EdgeSetOf(str, n).value| == count
    ensures r.Some? ==> Some(r.value.asSet) == EdgeSetOf(str, n)
    ensures r.Some? ==> EcmpRouting.SortedEdges(r.value.list) && Members(r.value.list) == r.value.asSet
    ensures r.Some? ==> IsAdjacency(r.value.adjacency, n, r.value.asSet)
    ensures r.Some? ==> forall e :: e in r.value.asSet ==> 0 <= e.0 < e.1 < n
  {
    var texts := ParseSetString(str);
    if texts.None? {
      return None;
    }
    var edges := CollectEdges(texts.value, n, adjacency);
    if edges.None? {
      return None;
    }
    NoEdgeTwice(texts.value, n, edges.value);
    var sorted := SortEdges(edges.value.list);
    if |edges.value.list| != count || |edges.value.list| != |edges.value.asSet| {
      return None;
    }
    DistinctInOrderIsSorted(edges.value.list, sorted);
    r := Some(edges.value.(list := sorted));
  }

  predicate Assigned(assignments: Option<nat>, n: nat) {
    assignments.None? || assignments.value == n
  }

  /** A configuration describes at most one graph. */
  lemma GraphIsUnique(config: Config, g: Graph, assignments: Option<nat>)
    requires Describes(config, g)
    ensures forall h :: Describes(config, h) ==> h == g
    ensures Acceptable(config, assignments) <==> Assigned(assignments, g.numNodes)
  {
  }

  ghost predicate Acceptable(config: Config, assignments: Option<nat>) {
    exists g :: Describes(config, g) && Assigned(assignments, g.numNodes)
  }

  datatype Parsed = Parsed(graph: Graph, edges: Edges, nodes: set<nat>)

  ghost predicate EdgesAgree(parsed: Parsed) {
    && parsed.edges.asSet == parsed.graph.edges && Members(parsed.edges.list) == parsed.graph.edges
    && EcmpRouting.SortedEdges(parsed.edges.list)
    && IsAdjacency(parsed.edges.adjacency, parsed.graph.numNodes, parsed.graph.edges)
    && (forall x: nat :: x in parsed.nodes <==> x < parsed.graph.numNodes)
  }

  ghost predicate Sound(parsed: Parsed) {
    parsed.graph.Coherent() && EdgesAgree(parsed)
  }

  ghost predicate SoundFor(config: Config, parsed: Parsed) {
    Describes(config, parsed.graph) && Sound(parsed)
  }

  /** How reading a topology ends: with a graph, with an exception, or in the overflow of the loop index. */
  datatype Reading = Read(parsed: Parsed) | Refused | IndexOverflows

  ghost predicate Describable(config: Config) {
    exists g :: Describes(config, g)
  }

  method ParseAssigned(config: Config, assignments: Option<nat>) returns (r: Reading)
    ensures r.Read? <==> Acceptable(config, assignments)
    ensures r.Read? ==> SoundFor(config, r.parsed)
    ensures r.IndexOverflows? <==> OverflowsIndex(config)
  {
    r := ParseGraph(config);
    if r.Read? {
      GraphIsUnique(config, r.parsed.graph, assignments);
      if assignments.Some? && assignments.value != r.parsed.graph.numNodes {
        return Refused;
      }
    }
  }

  /** What comes before the edges: the graph as far as it is known, and the nodes without neighbours. */
  datatype NodesReading =
    | NodesRead(bare: Graph, numEdges: nat, adjacency: seq<set<nat>>, nodes: set<nat>)
    | NodesRefused
    | NodesOverflow

  function BareFields(bare: Graph, numEdges: nat): Fields {
    Fields(Some(bare.numNodes), Some(numEdges), Some(bare.switches), Some(bare.tors), Some(bare.servers))
  }

  ghost predicate NodesReadable(config: Config) {
    var f := FieldsOf(config);
    && f.numNodes.Some? && f.numEdges.Some? && f.switches.Some? && f.tors.Some? && f.servers.Some?
    && Numbered(f.numNodes.value, f.switches.value, f.tors.value, f.servers.value)
    && f.numNodes.value <= INT32_MAX
  }

  method ParseNodes(config: Config) returns (r: NodesReading)
    ensures r.NodesRead? <==> NodesReadable(config)
    ensures r.NodesOverflow? <==> OverflowsIndex(config)
    ensures r.NodesRead? ==>
      && FieldsOf(config) == BareFields(r.bare, r.numEdges)
      && NoNeighbors(r.adjacency, r.bare.numNodes)
      && forall x: nat :: x in r.nodes <==> x < r.bare.numNodes
  {
    var f := ParseFields(config);
    if f.numNodes.None? || f.numEdges.None? || f.switches.None? || f.tors.None? || f.servers.None? {
      return NodesRefused;
    }
    var n := f.numNodes.value;
    var fits := NodesFit(n, f.switches.value, f.tors.value, f.servers.value);
    if !fits {
      return NodesRefused;
    }
    var adjacency, nodes := EmptyAdjacency(n);
    if adjacency.None? {
      return NodesOverflow;
    }
    return NodesRead(
        Graph(n, f.switches.value, f.tors.value, f.servers.value, {}), f.numEdges.value, adjacency.value, nodes);
  }

  lemma DescribableHasNodes(config: Config)
    requires Describable(config)
    ensures NodesReadable(config)
  {
    var g :| Describes(config, g);
    assert Numbered(g.numNodes, g.switches, g.tors, g.servers);
  }

  method ParseGraph(config: Config) returns (r: Reading)
    ensures r.Read? <==> Describable(config)
    ensures r.Read? ==> SoundFor(config, r.parsed)
    ensures r.IndexOverflows? <==> OverflowsIndex(config)
  {
    var nodes := ParseNodes(config);
    if Describable(config) {
      DescribableHasNodes(config);
    }
    match nodes {
      case NodesRefused => r := Refused;
      case NodesOverflow => r := IndexOverflows;
      case NodesRead(bare, numEdges, adjacency, ids) => r := ParseEdges(config, bare, numEdges, adjacency, ids);
    }
  }

  /** With these fields, it all depends on the edges. */
  lemma DescribableByEdges(config: Config, bare: Graph, numEdges: nat, edges: Option<set<Edge>>)
    requires FieldsOf(config) == BareFields(bare, numEdges)
    requires edges == EdgeSetOf(Param(config, "undirected_edges"), bare.numNodes) && bare.numNodes <= INT32_MAX
    ensures Describable(config)
      <==> edges.Some? && |edges.value| == numEdges && bare.(edges := edges.value).Coherent()
    ensures edges.Some? && Describable(config) ==> Describes(config, bare.(edges := edges.value))
  {
    if edges.Some? && |edges.value| == numEdges && bare.(edges := edges.value).Coherent() {
      assert Describes(config, bare.(edges := edges.value));
    }
  }

  method ParseEdges(config: Config, bare: Graph, numEdges: nat, adjacency: seq<set<nat>>, nodes: set<nat>)
    returns (r: Reading)
    requires FieldsOf(config) == BareFields(bare, numEdges)
    requires Numbered(bare.numNodes, bare.switches, bare.tors, bare.servers) && bare.numNodes <= INT32_MAX
    requires NoNeighbors(adjacency, bare.numNodes) && forall x: nat :: x in nodes <==> x < bare.numNodes
    ensures r.Read? <==> Describable(config)
    ensures r.Read? ==> SoundFor(config, r.parsed)
    ensures !r.IndexOverflows?
  {
    DescribableByEdges(config, bare, numEdges, EdgeSetOf(Param(config, "undirected_edges"), bare.numNodes));
    var edges := ParseEdgeSet(Param(config, "undirected_edges"), bare.numNodes, numEdges, adjacency);
    if edges.None? {
      return Refused;
    }
    r := ParseHierarchy(bare.(edges := edges.value.asSet), edges.value, nodes);
  }

  method ParseHierarchy(g: Graph, edges: Edges, nodes: set<nat>) returns (r: Reading)
    requires Numbered(g.numNodes, g.switches, g.tors, g.servers)
    requires forall e :: e in g.edges ==> 0 <= e.0 < e.1 < g.numNodes
    requires EdgesAgree(Parsed(g, edges, nodes))
    ensures r == if g.Coherent() then Read(Parsed(g, edges, nodes)) else Refused
  {
    var ok := CheckHierarchy(g, edges.adjacency);
    return if ok then Read(Parsed(g, edges, nodes)) else Refused;
  }

  /** The graph read is a network to route on: valid, with sorted edges, and with the neighbours that
      the adjacency list holds. */
  lemma ParsedNetwork(parsed: Parsed)
    requires Sound(parsed)
    ensures var net := Net(parsed.graph.numNodes, parsed.edges.list);
      && net.Valid() && EcmpRouting.SortedEdges(net.edges)
      && forall a, b :: net.Node(a) ==> (net.Adjacent(a, b) <==> b in parsed.edges.adjacency[a])
  {
    var edges := parsed.edges.list;
    assert forall e :: e in edges <==> e in Members(edges);
    assert IsAdjacency(parsed.edges.adjacency, parsed.graph.numNodes, parsed.graph.edges);
  }

  method ParseFields(config: Config) returns (fields: Fields)
    ensures fields == FieldsOf(config)
  {
    var switches := ParseSetPositiveInt64(Param(config, "switches"));
    var tors := ParseSetPositiveInt64(Param(config, "switches_which_are_tors"));
    var servers := ParseSetPositiveInt64(Param(config, "servers"));
    fields := Fields(
      ParsePositiveInt64(Param(config, "num_nodes")), ParsePositiveInt64(Param(config, "num_undirected_edges")),
      switches, tors, servers
    );
  }

  method NodesFit(n: nat, switches: set<nat>, tors: set<nat>, servers: set<nat>) returns (ok: bool)
    ensures ok <==> Numbered(n, switches, tors, servers)
  {
    ok := AllItemsAreLessThan(switches, n);
    if ok {
      ok := AllItemsAreLessThan(tors, n);
    }
    if ok {
      ok := AllItemsAreLessThan(servers, n);
    }
  }

  // ---------- maps over the directed edges ----------

  /** Both directions of every edge. */
  ghost function BothDirections(edges: set<Edge>): set<Edge> {
    edges + Image(edges, Flip)
  }

  function Flip(e: Edge): Edge {
    (e.1, e.0)
  }

  lemma BothDirectionsCount(edges: set<Edge>)
    requires forall e :: e in edges ==> e.0 < e.1
    ensures |BothDirections(edges)| == 2 * |edges|
  {
    ImageCount(edges, Flip);
    assert edges !! Image(edges, Flip);
  }

  lemma DirectionMember(edges: set<Edge>, p: Edge)
    requires forall e :: e in edges ==> e.0 < e.1
    ensures p in BothDirections(edges) <==> (if p.0 < p.1 then p.0 else p.1, if p.1 > p.0 then p.1 else p.0) in edges
  {
    if p.1 < p.0 && Flip(p) in edges {
      assert Flip(Flip(p)) == p;
    }
  }

  /** The text is two numbers, each without the separator, with the separator between them. */
  ghost predicate WrittenPair(s: string, separator: string, p: Edge) {
    exists left, right :: s == left + separator + right && IsPairText(left, right, separator, p)
  }

  ghost predicate IsPairText(left: string, right: string, separator: string, p: Edge) {
    && Clean(left, separator) && Find(right, separator) == -1
    && ParsePositiveInt64(left) == Some(p.0) && ParsePositiveInt64(right) == Some(p.1)
  }

  /** Exactly the pairs written in a text are read, the first number first. */
  lemma PairsAreRead(s: string, separator: string, p: Edge)
    requires separator != []
    ensures PairOf(s, separator) == Some(p) <==> WrittenPair(s, separator, p)
  {
    if PairOf(s, separator) == Some(p) {
      var parts := Split(s, separator);
      assert parts == [parts[0], parts[1]];
      SplitInTwo(s, separator, parts[0], parts[1]);
    }
    if WrittenPair(s, separator, p) {
      var left, right :| s == left + separator + right && IsPairText(left, right, separator, p);
      SplitInTwo(s, separator, left, right);
    }
  }

  lemma DecimalIsClean(n: nat, separator: string)
    requires separator != [] && separator[0] == '-'
    ensures Clean(Decimal(n), separator)
  {
    DecimalIsNumeral(n);
    NumeralIsPlain(Decimal(n));
    CleanWithout(Decimal(n), separator);
  }

  /** A pair of printed numbers is read back. */
  lemma PairRoundTrip(p: Edge, separator: string)
    requires 0 <= p.0 <= INT64_MAX && 0 <= p.1 <= INT64_MAX && separator != [] && separator[0] == '-'
    ensures PairOf(Decimal(p.0) + separator + Decimal(p.1), separator) == Some(p)
  {
    DecimalIsClean(p.0, separator);
    DecimalIsClean(p.1, separator);
    PlainNumberRoundTrip(p.0);
    PlainNumberRoundTrip(p.1);
    SplitInTwo(Decimal(p.0) + separator + Decimal(p.1), separator, Decimal(p.0), Decimal(p.1));
  }

  /** The text is these edges of a graph with `n` nodes, smaller end first, between `set(` and `)`. */
  ghost predicate WrittenEdges(str: string, n: nat, edges: seq<Edge>) {
    exists pieces :: WrittenSet(str, pieces) && AreEdges(pieces, n, edges)
  }

  ghost predicate AreEdges(pieces: seq<string>, n: nat, edges: seq<Edge>) {
    && |pieces| == |edges|
    && (forall i :: 0 <= i < |pieces| ==> PairOf(Trim(pieces[i]), "-") == Some(edges[i]))
    && (forall e :: e in edges ==> e.0 < e.1 < n)
  }

  /** Exactly the sets of edges are read: every piece must be an edge, and no two the same edge. */
  lemma EdgeSetsAreRead(str: string, n: nat, items: set<Edge>)
    ensures EdgeSetOf(str, n) == Some(items) <==>
      exists edges :: WrittenEdges(str, n, edges) && Distinct(edges) && items == Members(edges)
  {
    if EdgeSetOf(str, n) == Some(items) {
      var pieces := SetPieces(str);
      var edges := EdgesWritten(str, n, pieces);
      EdgesOfPieces(str, n, pieces, edges);
    }
    forall edges | WrittenEdges(str, n, edges)
      ensures EdgeSetOf(str, n) == if Distinct(edges) then Some(Members(edges)) else None
    {
      var pieces :| WrittenSet(str, pieces) && AreEdges(pieces, n, edges);
      EdgesOfPieces(str, n, pieces, edges);
    }
  }

  lemma EdgesWritten(str: string, n: nat, pieces: seq<string>) returns (edges: seq<Edge>)
    requires EdgeSetOf(str, n).Some? && WrittenSet(str, pieces)
    ensures AreEdges(pieces, n, edges)
  {
    WrittenSetIsRead(str, pieces);
    forall i | 0 <= i < |pieces|
      ensures IsEdgeText(Trim(pieces[i]), n)
    {
      assert TrimAll(pieces)[i] in Members(TrimAll(pieces));
    }
    edges := seq(|pieces|, i requires 0 <= i < |pieces| => EdgeOf(Trim(pieces[i])));
  }

  lemma EdgesOfPieces(str: string, n: nat, pieces: seq<string>, edges: seq<Edge>)
    requires WrittenSet(str, pieces) && AreEdges(pieces, n, edges)
    ensures EdgeSetOf(str, n) == if Distinct(edges) then Some(Members(edges)) else None
  {
    WrittenSetIsRead(str, pieces);
    var texts := TrimAll(pieces);
    forall i | 0 <= i < |texts|
      ensures EdgeOf(texts[i]) == edges[i] && IsEdgeText(texts[i], n)
    {
      assert edges[i] in edges;
    }
    DistinctThrough(texts, edges, EdgeOf);
  }

  datatype Entry = Entry(key: Option<Edge>, value: string)

  /** The entries with their keys read as pairs. */
  function ReadKeys(entries: seq<(string, string)>): seq<Entry> {
    seq(|entries|, i requires 0 <= i < |entries| => Entry(PairOf(entries[i].0, "->"), entries[i].1))
  }

  /** The first `n` entries, keys read as pairs, are the map; no pair occurs twice. */
  ghost predicate MapReads(entries: seq<Entry>, n: nat, m: map<Edge, string>) {
    && n <= |entries| && |m| == n
    && (forall i :: 0 <= i < n ==> EntryReads(entries[i], m))
    && (forall i, j :: 0 <= i < j < n ==> entries[i].key != entries[j].key)
  }

  ghost predicate EntryReads(entry: Entry, m: map<Edge, string>) {
    entry.key.Some? && entry.key.value in m && m[entry.key.value] == entry.value
  }

  ghost predicate CoversDirected(edges: set<Edge>, entries: seq<Entry>, m: map<Edge, string>) {
    MapReads(entries, |entries|, m) && m.Keys == BothDirections(edges)
  }

  /** The map that a text stands for. */
  ghost predicate DirectedMapOf(edges: set<Edge>, value: string, m: map<Edge, string>) {
    exists entries :: IsMapOf(value, entries) && CoversDirected(edges, ReadKeys(entries), m)
  }

  lemma MapIsUnique(value: string, entries: seq<(string, string)>, others: seq<(string, string)>)
    requires IsMapOf(value, entries) && IsMapOf(value, others)
    ensures entries == others
  {
    var inside := Inside(value, "map(").value;
    if Trim(inside) != [] {
      EntriesAreUnique(KeyValues(Split(inside, ",")), entries, others);
    }
  }

  lemma EntriesAreUnique(
    pieces: seq<Option<(string, string)>>, entries: seq<(string, string)>, others: seq<(string, string)>)
    requires EntriesOf(pieces, entries) && EntriesOf(pieces, others)
    ensures entries == others
  {
    forall i | 0 <= i < |pieces|
      ensures entries[i] == others[i]
    {
      assert pieces[i] == Some(entries[i]);
    }
  }

  method ParsePair(s: string) returns (r: Option<Edge>)
    ensures r == PairOf(s, "->")
  {
    var parts := SplitString(s, "->");
    if |parts| != 2 || ParsePositiveInt64(parts[0]).None? || ParsePositiveInt64(parts[1]).None? {
      return None;
    }
    r := Some((ParsePositiveInt64(parts[0]).value, ParsePositiveInt64(parts[1]).value));
  }

  ghost predicate PairAmong(entries: seq<Entry>, n: nat, p: Edge) {
    exists j :: 0 <= j < n <= |entries| && entries[j].key == Some(p)
  }

  ghost predicate AllAmong(entries: seq<Entry>, n: nat, m: map<Edge, string>) {
    forall p :: p in m ==> PairAmong(entries, n, p)
  }

  ghost predicate ReadSoFar(domain: set<Edge>, entries: seq<Entry>, i: nat, m: map<Edge, string>) {
    MapReads(entries, i, m) && m.Keys <= domain && AllAmong(entries, i, m)
  }

  lemma EntryStillReads(entry: Entry, m: map<Edge, string>, p: Edge, v: string)
    requires EntryReads(entry, m) && p !in m
    ensures EntryReads(entry, m[p := v]) && entry.key != Some(p)
  {
  }

  lemma AllStillAmong(entries: seq<Entry>, i: nat, m: map<Edge, string>, p: Edge, v: string)
    requires i < |entries| && AllAmong(entries, i, m) && entries[i].key == Some(p)
    ensures AllAmong(entries, i + 1, m[p := v])
  {
    var after := m[p := v];
    forall q | q in after
      ensures PairAmong(entries, i + 1, q)
    {
      if q != p {
        assert PairAmong(entries, i, q);
      }
    }
  }

  lemma MapReadsOneMore(entries: seq<Entry>, i: nat, m: map<Edge, string>, p: Edge)
    requires i < |entries| && MapReads(entries, i, m)
    requires entries[i].key == Some(p) && p !in m
    ensures MapReads(entries, i + 1, m[p := entries[i].value])
  {
    var after := m[p := entries[i].value];
    forall j | 0 <= j < i
      ensures EntryReads(entries[j], after) && entries[j].key != entries[i].key
    {
      EntryStillReads(entries[j], m, p, entries[i].value);
    }
    assert EntryReads(entries[i], after);
  }

  lemma ReadsOneMore(domain: set<Edge>, entries: seq<Entry>, i: nat, m: map<Edge, string>, p: Edge)
    requires i < |entries| && ReadSoFar(domain, entries, i, m)
    requires entries[i].key == Some(p) && p !in m && p in domain
    ensures ReadSoFar(domain, entries, i + 1, m[p := entries[i].value])
  {
    MapReadsOneMore(entries, i, m, p);
    AllStillAmong(entries, i, m, p, entries[i].value);
  }

  /** An entry that cannot be added is in the way of every map. */
  lemma NoSuchMap(edges: set<Edge>, entries: seq<Entry>, i: nat, m: map<Edge, string>)
    requires i < |entries| && ReadSoFar(BothDirections(edges), entries, i, m)
    requires var p := entries[i].key; p.None? || p.value in m || p.value !in BothDirections(edges)
    ensures forall m' :: !CoversDirected(edges, entries, m')
  {
    forall m'
      ensures !CoversDirected(edges, entries, m')
    {
      assert MapReads(entries, |entries|, m') ==> EntryReads(entries[i], m');
      if entries[i].key.Some? && entries[i].key.value in m {
        assert PairAmong(entries, i, entries[i].key.value);
      }
    }
  }

  method AddDirected(edges: set<Edge>, entries: seq<(string, string)>) returns (r: Option<map<Edge, string>>)
    requires forall e :: e in edges ==> e.0 < e.1
    ensures r.Some? ==> CoversDirected(edges, ReadKeys(entries), r.value)
    ensures r.None? ==> forall m :: !CoversDirected(edges, ReadKeys(entries), m)
  {
    var result: map<Edge, string> := map[];
    for i := 0 to |entries|
      invariant ReadSoFar(BothDirections(edges), ReadKeys(entries), i, result)
    {
      var pair := ParsePair(entries[i].0);
      if pair.None? {
        NoSuchMap(edges, ReadKeys(entries), i, result);
        return None;
      }
      var (a, b) := pair.value;
      DirectionMember(edges, (a, b));
      if (a, b) in result || (if a < b then a else b, if b > a then b else a) !in edges {
        NoSuchMap(edges, ReadKeys(entries), i, result);
        return None;
      }
      ReadsOneMore(BothDirections(edges), ReadKeys(entries), i, result, (a, b));
      result := result[(a, b) := entries[i].1];
    }
    BothDirectionsCount(edges);
    SubsetCount(result.Keys, BothDirections(edges));
    if |edges| * 2 != |result| {
      return None;
    }
    r := Some(result);
  }

  // ---------- the topology ----------

  datatype Status = Accepted | Invalid | Overflowed

  class TopologyPtop {
    var numNodes: nat
    var switches: set<nat>
    var tors: set<nat>
    var servers: set<nat>
    var allNodeIds: set<nat>
    var adjacencyList: seq<set<nat>>
    var undirectedEdges: seq<Edge>
    var undirectedEdgesSet: set<Edge>
    var hasZeroServers: bool

    ghost function State(): Parsed
      reads this
    {
      Parsed(Graph(numNodes, switches, tors, servers, undirectedEdgesSet),
             Edges(undirectedEdges, undirectedEdgesSet, adjacencyList), allNodeIds)
    }

    /** What holds of every topology that passed the checks. */
    ghost predicate Valid()
      reads this
    {
      && Sound(State())
      && (hasZeroServers <==> servers == {})
    }

    constructor () {
    }

    /** Reads the graph from the configuration. It is accepted exactly when the configuration describes
        a graph, which then is the graph read; `assignments` is the number of node-to-system
        assignments of a distributed run. */
    method ParseTopologyGraph(config: Config, assignments: Option<nat>) returns (status: Status)
      modifies this
      ensures status.Accepted? <==> Acceptable(config, assignments)
      ensures status.Accepted? ==> SoundFor(config, State()) && Valid()
      ensures status.Overflowed? <==> OverflowsIndex(config)
    {
      var reading := ParseAssigned(config, assignments);
      match reading {
        case Refused => status := Invalid;
        case IndexOverflows => status := Overflowed;
        case Read(parsed) =>
          Store(parsed);
          status := Accepted;
      }
    }

    method Store(parsed: Parsed)
      requires parsed.graph.edges == parsed.edges.asSet
      modifies this
      ensures State() == parsed && (hasZeroServers <==> servers == {})
    {
      var Parsed(g, edges, nodes) := parsed;
      numNodes, switches, tors, servers, allNodeIds := g.numNodes, g.switches, g.tors, g.servers, nodes;
      undirectedEdges, undirectedEdgesSet, adjacencyList := edges.list, edges.asSet, edges.adjacency;
      hasZeroServers := |servers| == 0;
    }

    /** The map of a text `map(a->b:value,...)`: accepted exactly when every direction of every edge
        has one entry, and nothing else has. */
    method ParseDirectedEdgeMap(value: string) returns (r: Option<map<Edge, string>>)
      requires Valid()
      ensures r.Some? ==> DirectedMapOf(undirectedEdgesSet, value, r.value)
      ensures r.None? ==> forall m :: !DirectedMapOf(undirectedEdgesSet, value, m)
    {
      var entries := ParseMapString(value);
      if entries.None? {
        return None;
      }
      r := AddDirected(undirectedEdgesSet, entries.value);
      forall others | IsMapOf(value, others)
        ensures others == entries.value
      {
        MapIsUnique(value, entries.value, others);
      }
    }
  }
}
