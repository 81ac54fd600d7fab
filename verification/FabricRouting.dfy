/** A generated leaf-spine topology from its text to the delivery of packets. */
module FabricRouting {
  import opened Options
  import opened HopDistances
  import opened EcmpRouting
  import opened LeafSpine
  import opened LeafSpineTopology
  import TopologyGraph

  /** Reads the printed topology and sets up routing on what was read. */
  method SetUp(f: Fabric, ifs: Interfaces) returns (r: Option<seq<Arbiter>>, ghost routing: Routing)
    requires f.Valid() && ValidInterfaces(NetOf(f), ifs)
    ensures r.Some? <==> f.NumNodes() <= 40000
    ensures r.Some? ==> routing.Valid() && routing.net == NetOf(f) && |r.value| == f.NumNodes()
    ensures r.Some? ==>
      forall i :: 0 <= i < f.NumNodes() ==> Holds(r.value[i], i, f.NumNodes(), routing.c[i], routing.tables[i])
  {
    GeneratedLinks(f);
    var reading := TopologyGraph.ParseGraph(PrintedTopology(f));
    GeneratedTopologyIsAccepted(f, FabricGraph(f));
    match reading {
      case Read(parsed) =>
        SimulatedNetworkIsTheFabric(f, parsed);
        r, routing := InstallArbiters(Net(parsed.graph.numNodes, parsed.edges.list), ifs);
      case Refused =>
        r, routing := None, Routing(NetOf(f), ifs, [], [], []);
      case IndexOverflows =>
        r, routing := None, Routing(NetOf(f), ifs, [], [], []);
    }
  }

  /** A packet from one server to another, whatever the hashes, takes at most 2 hops under one leaf and at
      most 4 otherwise, is at the target exactly when it has taken that many, and visits no node twice. */
  lemma ServersDeliver(f: Fabric, r: Routing, s: int, t: int, visited: seq<int>, hashes: seq<nat>)
    requires f.Valid() && r.Valid() && r.net == NetOf(f)
    requires f.IsServer(s) && f.IsServer(t) && s != t
    requires Journey(r, t, visited, hashes) && visited[0] == s
    ensures var hops := if f.LeafOf(s) == f.LeafOf(t) then 2 else 4;
      |hashes| <= hops && (visited[|hashes|] == t <==> |hashes| == hops)
    ensures forall i, j :: 0 <= i < j < |visited| ==> visited[i] != visited[j]
  {
    var hops := if f.LeafOf(s) == f.LeafOf(t) then 2 else 4;
    ServerDistances(f, s, t);
    JourneysDeliver(r, t, visited, hashes, hops);
  }

  /** And it gets there: short of the target, any next hash takes it on. */
  lemma ServersContinue(f: Fabric, r: Routing, s: int, t: int, visited: seq<int>, hashes: seq<nat>, hash: nat)
    returns (next: int)
    requires f.Valid() && r.Valid() && r.net == NetOf(f)
    requires f.IsServer(s) && f.IsServer(t) && s != t
    requires Journey(r, t, visited, hashes) && visited[0] == s && visited[|hashes|] != t
    ensures Journey(r, t, visited + [next], hashes + [hash])
  {
    var hops := if f.LeafOf(s) == f.LeafOf(t) then 2 else 4;
    ServerDistances(f, s, t);
    JourneysDeliver(r, t, visited, hashes, hops);
    next := JourneysContinue(r, t, visited, hashes, hops, hash);
  }

  /** A leaf spreads the packets for servers under other leafs over all spines: the hash numbers the spine. */
  lemma LeafsSpread(f: Fabric, r: Routing, leaf: int, t: int, hash: nat, b: int)
    requires f.Valid() && r.Valid() && r.net == NetOf(f)
    requires f.IsLeaf(leaf) && f.IsServer(t) && leaf != f.LeafOf(t)
    ensures Moves(r, t, leaf, hash, b) <==> b == f.Spine(hash % f.numSpines)
  {
    GeneratedLinks(f);
    FabricCandidates(f, r.m, r.c, leaf, t);
    CandidatesEmpty(r.net, r.m, r.c, leaf, t);
    HashSelectsCandidate(r, t, leaf, hash, b);
  }

  /** Fabric(1, 1, 40000) has 40002 nodes: its topology is accepted, but it is not routed. */
  lemma AcceptedButNotRouted(f: Fabric)
    requires f == Fabric(1, 1, 40000)
    ensures f.Valid() && f.NumNodes() > 40000
    ensures TopologyGraph.Describes(PrintedTopology(f), FabricGraph(f))
  {
    assert f.numLeafs == 1 && f.NumNodes() == 2 + f.serversPerLeaf;
    GeneratedTopologyIsAccepted(f, FabricGraph(f));
  }
}
