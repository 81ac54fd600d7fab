/** The leaf-spine topology as printed by the generator, and what the simulator reads from it. */
module LeafSpineTopology {
  import opened Options
  import opened Collections
  import opened ExpUtil
  import opened HopDistances
  import opened TopologyGraph
  import opened LeafSpine
  import EcmpRouting

  // ---------- printing ----------

  function NumberTexts(numbers: seq<nat>): seq<string> {
    seq(|numbers|, i requires 0 <= i < |numbers| => Decimal(numbers[i]))
  }

  function UpTo(lo: nat, hi: nat): seq<nat>
    requires lo <= hi
  {
    seq(hi - lo, i requires 0 <= i => lo + i)
  }

  function EdgeText(e: Edge): string
    requires e.0 >= 0 && e.1 >= 0
  {
    Decimal(e.0) + "-" + Decimal(e.1)
  }

  function EdgeTexts(edges: seq<Edge>): seq<string>
    requires forall e :: e in edges ==> e.0 >= 0 && e.1 >= 0
  {
    seq(|edges|, i requires 0 <= i < |edges| => assert edges[i] in edges; EdgeText(edges[i]))
  }

  lemma LinksArePositive(f: Fabric)
    requires f.Valid()
    ensures forall e :: e in Links(f) ==> e.0 >= 0 && e.1 >= 0
  {
    GeneratedLinks(f);
    forall e | e in Links(f)
      ensures e.0 >= 0 && e.1 >= 0
    {
      assert (e.0, e.1) in Links(f);
    }
  }

  /** The parameters the generator writes for a fabric. */
  function PrintedTopology(f: Fabric): Config
    requires f.Valid()
  {
    LinksArePositive(f);
    map[
      "num_nodes" := Decimal(f.NumNodes()),
      "num_undirected_edges" := Decimal(f.NumEdges()),
      "switches" := PrintSet(NumberTexts(UpTo(0, f.NumSwitches()))),
      "switches_which_are_tors" := PrintSet(NumberTexts(UpTo(0, f.numLeafs))),
      "servers" := PrintSet(NumberTexts(UpTo(f.NumSwitches(), f.NumNodes()))),
      "undirected_edges" := PrintSet(EdgeTexts(Links(f)))
    ]
  }

  // ---------- round trips ----------

  lemma DecimalIsElement(n: nat)
    ensures Element(Decimal(n)) && '-' !in Decimal(n)
  {
    DecimalIsNumeral(n);
    NumeralIsPlain(Decimal(n));
  }

  /** A printed set of numbers is read back as that set. */
  lemma NumberSetRoundTrip(numbers: seq<nat>)
    requires Distinct(numbers) && forall n :: n in numbers ==> n <= INT64_MAX
    ensures NumberSetOf(PrintSet(NumberTexts(numbers))) == Some(Members(numbers))
  {
    var texts := NumberTexts(numbers);
    forall i | 0 <= i < |texts|
      ensures Element(texts[i]) && ParsePositiveInt64(texts[i]) == Some(numbers[i]) && NumberOf(texts[i]) == numbers[i]
    {
      assert numbers[i] in numbers;
      DecimalIsElement(numbers[i]);
      PlainNumberRoundTrip(numbers[i]);
    }
    DistinctThrough(texts, numbers, NumberOf);
    SetRoundTrip(texts);
  }

  ghost predicate EdgesFit(edges: seq<Edge>, n: nat) {
    forall e :: e in edges ==> 0 <= e.0 < e.1 < n
  }

  lemma EdgeTextRoundTrip(e: Edge, n: nat)
    requires 0 <= e.0 < e.1 < n && n <= INT64_MAX
    ensures Element(EdgeText(e)) && PairOf(EdgeText(e), "-") == Some(e) && IsEdgeText(EdgeText(e), n)
  {
    var a, b := Decimal(e.0), Decimal(e.1);
    DecimalIsElement(e.0);
    DecimalIsElement(e.1);
    PairRoundTrip(e, "-");
  }

  /** A printed list of edges is read back as the set of those edges; one printed twice is refused. */
  lemma EdgeSetRoundTrip(edges: seq<Edge>, n: nat)
    requires EdgesFit(edges, n) && n <= INT64_MAX
    ensures EdgeSetOf(PrintSet(EdgeTexts(edges)), n) == if Distinct(edges) then Some(Members(edges)) else None
  {
    var texts := EdgeTexts(edges);
    forall i | 0 <= i < |texts|
      ensures Element(texts[i]) && IsEdgeText(texts[i], n) && EdgeOf(texts[i]) == edges[i]
    {
      assert edges[i] in edges;
      EdgeTextRoundTrip(edges[i], n);
    }
    DistinctThrough(texts, edges, EdgeOf);
    SetRoundTrip(texts);
    if !Distinct(edges) && Distinct(texts) {
      assert !Injective(Members(texts), EdgeOf);
    }
  }

  // ---------- the fabric ----------

  function Between(lo: nat, hi: nat): set<nat>
    requires lo <= hi
  {
    Members(UpTo(lo, hi))
  }

  function FabricGraph(f: Fabric): Graph {
    Graph(f.NumNodes(), Between(0, f.NumSwitches()), Between(0, f.numLeafs),
      Between(f.NumSwitches(), f.NumNodes()), Members(Links(f)))
  }

  /** The number of nodes can be counted with a 32-bit index. */
  predicate Fits(f: Fabric) {
    f.NumNodes() <= INT32_MAX
  }

  /** Both counts can be read as 64-bit numbers. */
  predicate CountsFit(f: Fabric) {
    f.NumNodes() <= INT64_MAX && f.NumEdges() <= INT64_MAX
  }

  /** Few nodes have few edges, so no further condition on the number of edges is needed. */
  lemma FewNodesFewEdges(f: Fabric)
    requires Fits(f)
    ensures CountsFit(f)
  {
    ProductBound(f.numLeafs, f.numSpines, INT32_MAX);
    TimesGrows(f.numSpines, 0, f.numLeafs);
    TimesGrows(f.serversPerLeaf, 0, f.numLeafs);
  }

  lemma ProductBound(a: nat, b: nat, max: nat)
    requires a <= max && b <= max
    ensures a * b <= max * max
  {
    TimesGrows(b, a, max);
    TimesGrows(max, b, max);
  }

  lemma BetweenIs(lo: nat, hi: nat)
    requires lo <= hi
    ensures forall x: nat :: x in Between(lo, hi) <==> lo <= x < hi
    ensures Distinct(UpTo(lo, hi))
  {
    forall x: nat | lo <= x < hi
      ensures x in Between(lo, hi)
    {
      assert UpTo(lo, hi)[x - lo] == x;
    }
  }

  lemma BetweenRoundTrip(lo: nat, hi: nat)
    requires lo <= hi <= INT64_MAX
    ensures NumberSetOf(PrintSet(NumberTexts(UpTo(lo, hi)))) == Some(Between(lo, hi))
  {
    BetweenIs(lo, hi);
    NumberSetRoundTrip(UpTo(lo, hi));
  }

  lemma SortedIsDistinct(edges: seq<Edge>)
    requires EcmpRouting.SortedEdges(edges)
    ensures Distinct(edges) && |Members(edges)| == |edges|
  {
    MembersCount(edges);
  }

  lemma LeafsWithOthersIsCoherent(leafs: nat, switches: nat, n: nat, links: seq<Edge>)
    requires leafs <= switches <= n
    requires forall e :: e in links ==> 0 <= e.0 < leafs <= e.1 < n
    ensures Graph(n, Between(0, switches), Between(0, leafs), Between(switches, n), Members(links)).Coherent()
  {
    BetweenIs(0, switches);
    BetweenIs(0, leafs);
    BetweenIs(switches, n);
  }

  lemma LinksLeadFromLeafs(f: Fabric)
    requires f.Valid()
    ensures f.numLeafs <= f.NumSwitches() <= f.NumNodes()
    ensures forall e :: e in Links(f) ==> 0 <= e.0 < f.numLeafs <= e.1 < f.NumNodes()
  {
    GeneratedLinks(f);
    forall e | e in Links(f)
      ensures 0 <= e.0 < f.numLeafs <= e.1 < f.NumNodes()
    {
      assert (e.0, e.1) in Links(f);
      assert f.Linked(e.0, e.1);
    }
  }

  lemma FabricIsCoherent(f: Fabric)
    requires f.Valid()
    ensures FabricGraph(f).Coherent() && EdgesFit(Links(f), f.NumNodes())
    ensures Distinct(Links(f)) && |Members(Links(f))| == f.NumEdges()
  {
    GeneratedLinks(f);
    SortedIsDistinct(Links(f));
    LinksLeadFromLeafs(f);
    LeafsWithOthersIsCoherent(f.numLeafs, f.NumSwitches(), f.NumNodes(), Links(f));
  }

  ghost function FabricFields(f: Fabric): Fields {
    var g := FabricGraph(f);
    Fields(Some(g.numNodes), Some(f.NumEdges()), Some(g.switches), Some(g.tors), Some(g.servers))
  }

  ghost predicate HasFabricParams(config: Config, f: Fabric) {
    && f.Valid()
    && Param(config, "num_nodes") == Decimal(f.NumNodes())
    && Param(config, "num_undirected_edges") == Decimal(f.NumEdges())
    && Param(config, "switches") == PrintSet(NumberTexts(UpTo(0, f.NumSwitches())))
    && Param(config, "switches_which_are_tors") == PrintSet(NumberTexts(UpTo(0, f.numLeafs)))
    && Param(config, "servers") == PrintSet(NumberTexts(UpTo(f.NumSwitches(), f.NumNodes())))
  }

  lemma PrintedParams(f: Fabric)
    requires f.Valid()
    ensures HasFabricParams(PrintedTopology(f), f)
  {
  }

  lemma CountsAreRead(config: Config, f: Fabric)
    requires HasFabricParams(config, f) && CountsFit(f)
    ensures ParsePositiveInt64(Param(config, "num_nodes")) == Some(f.NumNodes())
    ensures ParsePositiveInt64(Param(config, "num_undirected_edges")) == Some(f.NumEdges())
  {
    PlainNumberRoundTrip(f.NumNodes());
    PlainNumberRoundTrip(f.NumEdges());
  }

  lemma SwitchesAreRead(config: Config, f: Fabric)
    requires HasFabricParams(config, f) && CountsFit(f)
    ensures NumberSetOf(Param(config, "switches")) == Some(FabricGraph(f).switches)
    ensures NumberSetOf(Param(config, "switches_which_are_tors")) == Some(FabricGraph(f).tors)
  {
    BetweenRoundTrip(0, f.NumSwitches());
    BetweenRoundTrip(0, f.numLeafs);
  }

  lemma ServersAreRead(config: Config, f: Fabric)
    requires HasFabricParams(config, f) && CountsFit(f)
    ensures NumberSetOf(Param(config, "servers")) == Some(FabricGraph(f).servers)
  {
    BetweenRoundTrip(f.NumSwitches(), f.NumNodes());
  }

  lemma FabricFieldsAreRead(config: Config, f: Fabric)
    requires HasFabricParams(config, f) && CountsFit(f)
    ensures FieldsOf(config) == FabricFields(f)
  {
    CountsAreRead(config, f);
    SwitchesAreRead(config, f);
    ServersAreRead(config, f);
  }

  lemma FabricIsDescribed(f: Fabric)
    requires f.Valid() && Fits(f)
    ensures Describes(PrintedTopology(f), FabricGraph(f))
  {
    FewNodesFewEdges(f);
    LinksArePositive(f);
    PrintedParams(f);
    FabricFieldsAreRead(PrintedTopology(f), f);
    FabricIsCoherent(f);
    EdgeSetRoundTrip(Links(f), f.NumNodes());
  }

  lemma UnreadableCountsAreRefused(f: Fabric)
    requires f.Valid() && !CountsFit(f)
    ensures FieldsOf(PrintedTopology(f)).numNodes.None? || FieldsOf(PrintedTopology(f)).numEdges.None?
  {
    PrintedParams(f);
    PlainNumberRoundTrip(f.NumNodes());
    PlainNumberRoundTrip(f.NumEdges());
  }

  lemma FabricIsNumbered(f: Fabric)
    ensures var g := FabricGraph(f); Numbered(g.numNodes, g.switches, g.tors, g.servers)
  {
    BetweenIs(0, f.NumSwitches());
    BetweenIs(0, f.numLeafs);
    BetweenIs(f.NumSwitches(), f.NumNodes());
  }

  /** A generated topology whose counts can be read overflows the loop index exactly when it has 2^31 nodes
      or more. */
  lemma GeneratedTopologyOverflows(f: Fabric)
    requires f.Valid()
    ensures OverflowsIndex(PrintedTopology(f)) <==> CountsFit(f) && !Fits(f)
  {
    if CountsFit(f) {
      PrintedParams(f);
      FabricFieldsAreRead(PrintedTopology(f), f);
      FabricIsNumbered(f);
    } else {
      UnreadableCountsAreRefused(f);
    }
  }

  lemma TooLargeIsNotDescribed(f: Fabric, g: Graph)
    requires f.Valid() && !Fits(f)
    ensures !Describes(PrintedTopology(f), g)
  {
    if CountsFit(f) {
      PrintedParams(f);
      FabricFieldsAreRead(PrintedTopology(f), f);
    } else {
      UnreadableCountsAreRefused(f);
    }
  }

  /** A generated topology passes every check on the topology graph, and exactly the fabric's graph is read
      from it, if and only if it has at most 2^31 - 1 nodes. Routing has its own limit, which is lower. */
  lemma GeneratedTopologyIsAccepted(f: Fabric, g: Graph)
    requires f.Valid()
    ensures Describes(PrintedTopology(f), g) <==> f.NumNodes() < 0x8000_0000 && g == FabricGraph(f)
  {
    if Fits(f) {
      FabricIsDescribed(f);
      GraphIsUnique(PrintedTopology(f), FabricGraph(f), None);
    } else {
      TooLargeIsNotDescribed(f, g);
    }
  }

  /** One leaf, one spine and 2^31 - 2 servers: every count is readable, and reading does not come to an end. */
  lemma OneLeafCanBeTooLarge(f: Fabric)
    requires f == Fabric(1, 1, 0x7FFF_FFFE)
    ensures f.Valid() && CountsFit(f) && f.NumNodes() == 0x8000_0000
    ensures OverflowsIndex(PrintedTopology(f)) && !Describable(PrintedTopology(f))
  {
    assert f.numLeafs == 1 && f.numSpines == 1;
    assert f.NumNodes() == 2 + f.serversPerLeaf && f.NumEdges() == 1 + f.serversPerLeaf;
    GeneratedTopologyOverflows(f);
    forall g
      ensures !Describes(PrintedTopology(f), g)
    {
      TooLargeIsNotDescribed(f, g);
    }
  }

  lemma {:induction false} SortedEdgesAreUnique(s: seq<Edge>, r: seq<Edge>)
    requires EcmpRouting.SortedEdges(s) && EcmpRouting.SortedEdges(r)
    requires Members(s) == Members(r)
    ensures s == r
    decreases |s|
  {
    assert forall e :: e in s <==> e in Members(s);
    assert forall e :: e in r <==> e in Members(r);
    assert s != [] ==> s[0] in Members(s);
    assert r != [] ==> r[0] in Members(r);
    if s != [] && r != [] {
      assert s[0] in s && s[0] in r && r[0] in s && r[0] in r;
      assert s == [s[0]] + s[1..] && r == [r[0]] + r[1..];
      assert Members(s[1..]) == Members(r[1..]) by {
        forall e
          ensures e in s[1..] <==> e in r[1..]
        {
          assert e in s <==> e == s[0] || e in s[1..];
          assert e in r <==> e == r[0] || e in r[1..];
        }
      }
      SortedEdgesAreUnique(s[1..], r[1..]);
    }
  }

  /** So the network the simulator routes on is the generated one, its sorted edge list the list of
      links in the order they were generated. */
  lemma SimulatedNetworkIsTheFabric(f: Fabric, parsed: Parsed)
    requires f.Valid() && SoundFor(PrintedTopology(f), parsed)
    ensures Net(parsed.graph.numNodes, parsed.edges.list) == NetOf(f)
    ensures parsed.graph == FabricGraph(f)
  {
    GeneratedTopologyIsAccepted(f, parsed.graph);
    GeneratedLinks(f);
    SortedEdgesAreUnique(parsed.edges.list, Links(f));
  }
}
