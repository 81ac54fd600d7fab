/** Equal-cost multi-path routing: candidate next hops from the distance matrix, the per-node arbiter
    that turns a hash into an outgoing interface, and the journey of a packet through the network. */
module EcmpRouting {
  import opened Options
  import opened HopDistances
  import opened FloydWarshall

  /** candidates[node][target] lists the next hops. */
  type Candidates = seq<seq<seq<int>>>

  datatype GlobalState = TooManyNodes | Calculated(candidates: Candidates)

  // ---------- candidate lists ----------

  /** The distance of `b` from `t` is one less than that of `a`. */
  predicate OneCloser(m: seq<int32>, n: nat, b: int, a: int, t: int)
    requires |m| == n * n && 0 <= a < n && 0 <= b < n && 0 <= t < n
  {
    At(m, n, a, t) as int - 1 == At(m, n, b, t) as int
  }

  /** The hop this edge contributes to the list of `a` for target `t`, if any. */
  function Contribution(net: Net, m: seq<int32>, a: int, t: int, e: nat): seq<int>
    requires net.Valid() && e < |net.edges| && net.Node(a) && net.Node(t)
    requires |m| == net.n * net.n
  {
    var edge := net.edges[e];
    assert edge in net.edges;
    if edge.0 == a && OneCloser(m, net.n, edge.1, a, t) then [edge.1]
    else if edge.1 == a && OneCloser(m, net.n, edge.0, a, t) then [edge.0]
    else []
  }

  /** The list of `a` for target `t` after the first `e` edges. */
  function ListAfter(net: Net, m: seq<int32>, a: int, t: int, e: nat): seq<int>
    requires net.Valid() && e <= |net.edges| && net.Node(a) && net.Node(t)
    requires |m| == net.n * net.n
  {
    if e == 0 then [] else ListAfter(net, m, a, t, e - 1) + Contribution(net, m, a, t, e - 1)
  }

  ghost predicate Shape(net: Net, c: Candidates) {
    |c| == net.n && forall a :: 0 <= a < net.n ==> |c[a]| == net.n
  }

  /** The candidate lists when edge `e` has been handled for the targets below `j`. */
  ghost predicate ListsUpTo(net: Net, m: seq<int32>, c: Candidates, e: nat, j: int)
    requires net.Valid() && e <= |net.edges| && (j > 0 ==> e < |net.edges|)
    requires |m| == net.n * net.n
  {
    && Shape(net, c)
    && forall a, t {:trigger c[a][t]} :: net.Node(a) && net.Node(t) ==>
         c[a][t] == ListAfter(net, m, a, t, if t < j then e + 1 else e)
  }

  /** The candidate lists when the first `e` edges have been handled for all targets. */
  ghost predicate EdgesHandled(net: Net, m: seq<int32>, c: Candidates, e: nat)
    requires net.Valid() && e <= |net.edges|
    requires |m| == net.n * net.n
  {
    ListsUpTo(net, m, c, e, 0)
  }

  function Push(c: Candidates, a: int, t: int, b: int): Candidates
    requires 0 <= a < |c| && 0 <= t < |c[a]|
  {
    c[a := c[a][t := c[a][t] + [b]]]
  }

  ghost predicate IsCandidateState(net: Net, m: seq<int32>, c: Candidates) {
    && net.Valid() && Shape(net, c) && |m| == net.n * net.n
    && forall a, t {:trigger c[a][t]} :: net.Node(a) && net.Node(t) ==> c[a][t] == ListAfter(net, m, a, t, |net.edges|)
  }

  lemma PushedList(net: Net, m: seq<int32>, a: int, t: int, e: nat, j: int, before: seq<int>, after: seq<int>)
    requires net.Valid() && |m| == net.n * net.n && e < |net.edges| && net.Node(a) && net.Node(t)
    requires before == ListAfter(net, m, a, t, if t < j then e + 1 else e)
    requires after == if t == j then before + Contribution(net, m, a, t, e) else before
    ensures after == ListAfter(net, m, a, t, if t < j + 1 then e + 1 else e)
  {
  }

  lemma PushedLists(net: Net, m: seq<int32>, c0: Candidates, c: Candidates, e: nat, j: int)
    requires net.Valid() && e < |net.edges| && net.Node(j)
    requires |m| == net.n * net.n && ListsUpTo(net, m, c0, e, j) && Shape(net, c)
    requires forall a, t :: net.Node(a) && net.Node(t) ==>
      c[a][t] == if t == j then c0[a][t] + Contribution(net, m, a, t, e) else c0[a][t]
    ensures ListsUpTo(net, m, c, e, j + 1)
  {
    forall a, t | net.Node(a) && net.Node(t)
      ensures c[a][t] == ListAfter(net, m, a, t, if t < j + 1 then e + 1 else e)
    {
      PushedList(net, m, a, t, e, j, c0[a][t], c[a][t]);
    }
  }

  lemma NextEdge(net: Net, m: seq<int32>, c: Candidates, e: nat)
    requires net.Valid() && e < |net.edges| && |m| == net.n * net.n
    requires ListsUpTo(net, m, c, e, net.n)
    ensures ListsUpTo(net, m, c, e + 1, 0)
  {
    forall a, t | net.Node(a) && net.Node(t)
      ensures c[a][t] == ListAfter(net, m, a, t, e + 1)
    {
    }
  }

  /** Handle one edge for one target: each end may be a next hop of the other. */
  method PushEdge(net: Net, dist: array<int32>, ghost m: seq<int32>, c0: Candidates, e: nat, j: int)
    returns (c: Candidates)
    requires net.Valid() && e < |net.edges| && net.Node(j)
    requires dist[..] == m && Exact(net, m) && ListsUpTo(net, m, c0, e, j)
    ensures ListsUpTo(net, m, c, e, j + 1)
  {
    var n := net.n;
    var edge := net.edges[e];
    assert edge in net.edges;
    var left := Read(dist, n, edge.0, j);
    var right := Read(dist, n, edge.1, j);
    assert 0 <= At(m, n, edge.0, j) && 0 <= At(m, n, edge.1, j);
    c := c0;
    if left - 1 == right {
      c := Push(c, edge.0, j, edge.1);
    }
    if right - 1 == left {
      c := Push(c, edge.1, j, edge.0);
    }
    PushedContributions(net, m, c0, c, e, j);
    PushedLists(net, m, c0, c, e, j);
  }

  lemma PushedContributions(net: Net, m: seq<int32>, c0: Candidates, c: Candidates, e: nat, j: int)
    requires net.Valid() && e < |net.edges| && net.Node(j)
    requires |m| == net.n * net.n && Shape(net, c0)
    requires var edge := net.edges[e];
      && edge in net.edges
      && var c1 := if OneCloser(m, net.n, edge.1, edge.0, j) then Push(c0, edge.0, j, edge.1) else c0;
         c == if OneCloser(m, net.n, edge.0, edge.1, j) then Push(c1, edge.1, j, edge.0) else c1
    ensures Shape(net, c)
    ensures forall a, t :: net.Node(a) && net.Node(t) ==>
      c[a][t] == if t == j then c0[a][t] + Contribution(net, m, a, t, e) else c0[a][t]
  {
  }

  function EmptyLists(n: nat): (c: Candidates)
    ensures |c| == n
    ensures forall a :: 0 <= a < n ==> |c[a]| == n && forall t :: 0 <= t < n ==> c[a][t] == []
  {
    var row: seq<seq<int>> := seq(n, _ => []);
    seq(n, _ => row)
  }

  lemma AllEdgesHandled(net: Net, m: seq<int32>, c: Candidates)
    requires net.Valid() && |m| == net.n * net.n && EdgesHandled(net, m, c, |net.edges|)
    ensures IsCandidateState(net, m, c)
  {
    forall a, t | net.Node(a) && net.Node(t)
      ensures c[a][t] == ListAfter(net, m, a, t, |net.edges|)
    {
    }
  }

  /** Handle one edge for all targets. */
  method PushEdgeForAll(net: Net, dist: array<int32>, ghost m: seq<int32>, c0: Candidates, e: nat)
    returns (c: Candidates)
    requires net.Valid() && e < |net.edges|
    requires dist[..] == m && Exact(net, m) && EdgesHandled(net, m, c0, e)
    ensures EdgesHandled(net, m, c, e + 1)
  {
    c := c0;
    for j := 0 to net.n
      invariant ListsUpTo(net, m, c, e, j)
    {
      c := PushEdge(net, dist, m, c, e, j);
    }
    NextEdge(net, m, c, e);
  }

  /** All candidate lists, or the refusal to handle so many nodes that the matrix would be too large. */
  method CalculateGlobalState(net: Net) returns (r: GlobalState, ghost m: seq<int32>)
    requires net.Valid()
    ensures r.TooManyNodes? <==> net.n > 40000
    ensures r.Calculated? ==> Exact(net, m) && IsCandidateState(net, m, r.candidates)
  {
    var n := net.n;
    if n > MAX_NODES {
      return TooManyNodes, [];
    }
    var dist := HopDistanceMatrix(net);
    m := dist[..];
    var c := CandidateLists(net, dist, m);
    r := Calculated(c);
  }

  method CandidateLists(net: Net, dist: array<int32>, ghost m: seq<int32>) returns (c: Candidates)
    requires net.Valid() && dist[..] == m && Exact(net, m)
    ensures IsCandidateState(net, m, c)
  {
    c := EmptyLists(net.n);
    for e := 0 to |net.edges|
      invariant EdgesHandled(net, m, c, e)
    {
      c := PushEdgeForAll(net, dist, m, c, e);
    }
    AllEdgesHandled(net, m, c);
  }

  // ---------- what the candidate lists are ----------

  /** `b` is the first node after `a` on some shortest walk to `t`. */
  ghost predicate OnShortestWalk(net: Net, a: int, b: int, t: int) {
    net.Adjacent(a, b) && exists d :: HasDistance(net, a, t, d) && HasDistance(net, b, t, d - 1)
  }

  ghost predicate Increasing(s: seq<int>) {
    forall i, j :: 0 <= i < j < |s| ==> s[i] < s[j]
  }

  ghost predicate SortedEdges(edges: seq<Edge>) {
    forall i, j :: 0 <= i < j < |edges| ==>
      edges[i].0 < edges[j].0 || (edges[i].0 == edges[j].0 && edges[i].1 < edges[j].1)
  }

  lemma NeighborConnected(net: Net, a: int, b: int, t: int)
    requires net.Valid() && net.Adjacent(a, b) && Connected(net, a, t)
    ensures Connected(net, b, t)
  {
    var w :| Walk(net, w, a, t);
    assert Walk(net, [b, a], b, a);
    Concatenate(net, [b, a], w, b, a, t);
  }

  /** The distance test on the matrix is the shortest-walk test. */
  lemma DistanceTest(net: Net, m: seq<int32>, a: int, b: int, t: int)
    requires net.Valid() && Exact(net, m) && net.Node(t) && net.Adjacent(a, b)
    requires net.Node(a) && net.Node(b)
    ensures OneCloser(m, net.n, b, a, t) <==> OnShortestWalk(net, a, b, t)
  {
    var da, db := At(m, net.n, a, t), At(m, net.n, b, t);
    if OnShortestWalk(net, a, b, t) {
      var d :| HasDistance(net, a, t, d) && HasDistance(net, b, t, d - 1);
      assert Connected(net, a, t) && Connected(net, b, t);
      DistanceIsUnique(net, a, t, d, da as int);
      DistanceIsUnique(net, b, t, d - 1, db as int);
    }
    if OneCloser(m, net.n, b, a, t) {
      if Connected(net, b, t) {
        NeighborConnected(net, b, a, t);
      }
      assert HasDistance(net, a, t, da as int) && HasDistance(net, b, t, da as int - 1);
    }
  }

  lemma ContributionMembers(net: Net, m: seq<int32>, a: int, b: int, t: int, e: nat)
    requires net.Valid() && Exact(net, m)
    requires net.Node(a) && net.Node(t) && e < |net.edges|
    ensures b in Contribution(net, m, a, t, e) <==>
            (net.edges[e] == (a, b) || net.edges[e] == (b, a)) && OnShortestWalk(net, a, b, t)
  {
    var edge := net.edges[e];
    assert edge in net.edges;
    if edge == (a, b) || edge == (b, a) {
      DistanceTest(net, m, a, b, t);
    }
  }

  lemma {:induction false} ListMembers(net: Net, m: seq<int32>, a: int, b: int, t: int, e: nat)
    requires net.Valid() && |m| == net.n * net.n && net.Node(a) && net.Node(t) && e <= |net.edges|
    ensures b in ListAfter(net, m, a, t, e) <==> exists i :: 0 <= i < e && b in Contribution(net, m, a, t, i)
  {
    if e > 0 {
      ListMembers(net, m, a, b, t, e - 1);
    }
  }

  /** Candidate lists are exact: the next hops are the neighbours on shortest walks, and only those. */
  lemma CandidatesAreExact(net: Net, m: seq<int32>, c: Candidates, a: int, b: int, t: int)
    requires Exact(net, m) && IsCandidateState(net, m, c) && net.Node(a) && net.Node(t)
    ensures b in c[a][t] <==> OnShortestWalk(net, a, b, t)
  {
    ListMembers(net, m, a, b, t, |net.edges|);
    forall i | 0 <= i < |net.edges|
      ensures b in Contribution(net, m, a, t, i) <==>
              (net.edges[i] == (a, b) || net.edges[i] == (b, a)) && OnShortestWalk(net, a, b, t)
    {
      ContributionMembers(net, m, a, b, t, i);
    }
  }

  lemma IncreasingAppend(s: seq<int>, more: seq<int>)
    requires Increasing(s) && |more| <= 1 && forall b :: b in s && more != [] ==> b < more[0]
    ensures Increasing(s + more)
  {
    var r := s + more;
    forall i, j | 0 <= i < j < |r|
      ensures r[i] < r[j]
    {
      if j == |s| {
        assert s[i] in s;
      }
    }
  }

  /** The edge between `a` and `b` is among the first `e`. */
  ghost predicate EdgeAmong(net: Net, a: int, b: int, e: nat)
    requires e <= |net.edges|
  {
    exists i :: 0 <= i < e && net.edges[i] == if a < b then (a, b) else (b, a)
  }

  lemma LaterEdgeLargerHop(net: Net, a: int, b: int, b': int, e: nat)
    requires net.Valid() && SortedEdges(net.edges) && e < |net.edges|
    requires EdgeAmong(net, a, b, e) && net.edges[e] == if a < b' then (a, b') else (b', a)
    ensures b < b'
  {
    var i :| 0 <= i < e && net.edges[i] == if a < b then (a, b) else (b, a);
    assert net.edges[i] in net.edges && net.edges[e] in net.edges;
  }

  lemma ContributionEdge(net: Net, m: seq<int32>, a: int, t: int, e: nat)
    requires net.Valid() && |m| == net.n * net.n && net.Node(a) && net.Node(t) && e < |net.edges|
    ensures var more := Contribution(net, m, a, t, e);
      |more| <= 1 && (more != [] ==> net.edges[e] == if a < more[0] then (a, more[0]) else (more[0], a))
  {
    assert net.edges[e] in net.edges;
  }

  lemma {:induction false} ListedAreAmong(net: Net, m: seq<int32>, a: int, t: int, e: nat)
    requires net.Valid() && |m| == net.n * net.n
    requires net.Node(a) && net.Node(t) && e <= |net.edges|
    ensures forall b :: b in ListAfter(net, m, a, t, e) ==> EdgeAmong(net, a, b, e)
  {
    if e > 0 {
      ListedAreAmong(net, m, a, t, e - 1);
      ContributionEdge(net, m, a, t, e - 1);
      AmongMore(net, a, ListAfter(net, m, a, t, e - 1), Contribution(net, m, a, t, e - 1), e - 1);
    }
  }

  /** Hops are listed in the order of their edges. */
  lemma {:induction false} ListIncreases(net: Net, m: seq<int32>, a: int, t: int, e: nat)
    requires net.Valid() && SortedEdges(net.edges) && |m| == net.n * net.n
    requires net.Node(a) && net.Node(t) && e <= |net.edges|
    ensures Increasing(ListAfter(net, m, a, t, e))
  {
    if e > 0 {
      ListIncreases(net, m, a, t, e - 1);
      NextHopIsLarger(net, m, a, t, e - 1);
      IncreasingAppend(ListAfter(net, m, a, t, e - 1), Contribution(net, m, a, t, e - 1));
    }
  }

  lemma NextHopIsLarger(net: Net, m: seq<int32>, a: int, t: int, e: nat)
    requires net.Valid() && SortedEdges(net.edges) && |m| == net.n * net.n
    requires net.Node(a) && net.Node(t) && e < |net.edges|
    ensures var more := Contribution(net, m, a, t, e);
      |more| <= 1 && forall b :: b in ListAfter(net, m, a, t, e) && more != [] ==> b < more[0]
  {
    ListedAreAmong(net, m, a, t, e);
    ContributionEdge(net, m, a, t, e);
    var before, more := ListAfter(net, m, a, t, e), Contribution(net, m, a, t, e);
    forall b | b in before && more != []
      ensures b < more[0]
    {
      LaterEdgeLargerHop(net, a, b, more[0], e);
    }
  }

  lemma AmongMore(net: Net, a: int, before: seq<int>, more: seq<int>, e: nat)
    requires e < |net.edges| && |more| <= 1
    requires forall b :: b in before ==> EdgeAmong(net, a, b, e)
    requires more != [] ==> net.edges[e] == if a < more[0] then (a, more[0]) else (more[0], a)
    ensures forall b :: b in before + more ==> EdgeAmong(net, a, b, e + 1)
  {
    forall b | b in before + more
      ensures EdgeAmong(net, a, b, e + 1)
    {
      assert b in before ==> EdgeAmong(net, a, b, e);
    }
  }

  /** With sorted edges the lists are strictly ascending, so they hold no duplicates. */
  lemma CandidatesAscend(net: Net, m: seq<int32>, c: Candidates, a: int, t: int)
    requires IsCandidateState(net, m, c) && SortedEdges(net.edges) && net.Node(a) && net.Node(t)
    ensures Increasing(c[a][t])
  {
    ListIncreases(net, m, a, t, |net.edges|);
  }

  /** A list is empty exactly when there is nowhere to go: at the target, or cut off from it. */
  lemma CandidatesEmpty(net: Net, m: seq<int32>, c: Candidates, a: int, t: int)
    requires Exact(net, m) && IsCandidateState(net, m, c) && net.Node(a) && net.Node(t)
    ensures c[a][t] == [] <==> a == t || !Connected(net, a, t)
  {
    if c[a][t] != [] {
      var b := c[a][t][0];
      CandidatesAreExact(net, m, c, a, b, t);
      ShortestWalkLeaves(net, a, b, t);
    } else if a != t && Connected(net, a, t) {
      var b := NextHopExists(net, a, t);
      CandidatesAreExact(net, m, c, a, b, t);
    }
  }

  lemma ShortestWalkLeaves(net: Net, a: int, b: int, t: int)
    requires net.Node(a) && OnShortestWalk(net, a, b, t)
    ensures a != t && Connected(net, a, t)
  {
    var d :| HasDistance(net, a, t, d) && HasDistance(net, b, t, d - 1);
    DistanceZero(net, a, t, d);
    var w :| Walk(net, w, b, t) && |w| - 1 == d - 1;
  }

  lemma NextHopExists(net: Net, a: int, t: int) returns (b: int)
    requires net.Valid() && a != t && Connected(net, a, t)
    ensures OnShortestWalk(net, a, b, t)
  {
    var d := DistanceExists(net, a, t);
    var w :| Walk(net, w, a, t) && |w| - 1 == d;
    b := w[1];
    Cut(net, w, a, t, 1);
    forall v | Walk(net, v, b, t)
      ensures d - 1 <= |v| - 1
    {
      assert Walk(net, [a, b], a, b);
      Concatenate(net, [a, b], v, a, b, t);
    }
    assert Walk(net, w[1..], b, t);
  }

  // ---------- the arbiter of one node ----------

  /** Interface indices of every edge, for its two ends. */
  type Interfaces = seq<(nat, nat)>

  /** The interface that edge `e` has at node `a`. */
  function InterfaceAt(net: Net, ifs: Interfaces, e: int, a: int): nat
    requires |ifs| == |net.edges| && 0 <= e < |ifs|
  {
    if net.edges[e].0 == a then ifs[e].0 else ifs[e].1
  }

  ghost predicate Touches(net: Net, e: int, a: int)
    requires 0 <= e < |net.edges|
  {
    net.edges[e].0 == a || net.edges[e].1 == a
  }

  /** Interface 0 is not used by edges, and a node uses each interface for one edge only. */
  ghost predicate ValidInterfaces(net: Net, ifs: Interfaces) {
    && |ifs| == |net.edges|
    && (forall e :: 0 <= e < |ifs| ==> ifs[e].0 > 0 && ifs[e].1 > 0)
    && (forall e, h, a :: 0 <= e < h < |ifs| && Touches(net, e, a) && Touches(net, h, a) ==>
          InterfaceAt(net, ifs, e, a) != InterfaceAt(net, ifs, h, a))
  }

  /** `b` is at the other end of the edge that node `a` has on interface `k`. */
  ghost predicate Behind(net: Net, ifs: Interfaces, a: int, k: nat, b: int)
    requires |ifs| == |net.edges|
  {
    exists e :: 0 <= e < |ifs| && (net.edges[e] == (a, b) || net.edges[e] == (b, a)) && InterfaceAt(net, ifs, e, a) == k
  }

  /** An error, no route (a selected node of -1), or an interface. */
  datatype Decision = NoCandidates | OutOfRange | NotANeighbor | NoRoute | Send(interface: nat)

  /** The decision of a node with this table and these candidate lists. */
  function Decide(table: seq<nat>, candidates: seq<seq<int>>, t: int, hash: nat): Decision
    requires 0 <= t < |candidates|
  {
    var s := |candidates[t]|;
    if s == 0 then NoCandidates
    else
      var next := candidates[t][hash % s];
      if next == -1 then NoRoute
      else if next < 0 || next >= |table| then OutOfRange
      else if table[next] == 0 then NotANeighbor
      else Send(table[next])
  }

  /** The table leads every neighbour to its interface, and everybody else to none. */
  ghost predicate TableOf(net: Net, ifs: Interfaces, a: int, table: seq<nat>)
    requires |ifs| == |net.edges|
  {
    && |table| == net.n
    && (forall b :: 0 <= b < net.n ==> if net.Adjacent(a, b) then Behind(net, ifs, a, table[b], b) else table[b] == 0)
  }

  class Arbiter {
    const nodeId: int
    const numNodes: nat
    const interfaceOf: array<nat>
    const candidates: seq<seq<int>>

    constructor (net: Net, ifs: Interfaces, nodeId: int, candidates: seq<seq<int>>)
      requires net.Valid() && |ifs| == |net.edges|
      ensures this.nodeId == nodeId && numNodes == net.n && this.candidates == candidates
      ensures fresh(interfaceOf) && TableOf(net, ifs, nodeId, interfaceOf[..])
    {
      this.nodeId, this.numNodes, this.candidates := nodeId, net.n, candidates;
      interfaceOf := new nat[net.n](_ => 0);
      new;
      for i := 0 to |net.edges|
        invariant fresh(interfaceOf) && interfaceOf.Length == net.n
        invariant forall b :: 0 <= b < net.n ==>
          if (nodeId, b) in net.edges[..i] || (b, nodeId) in net.edges[..i]
          then Behind(net, ifs, nodeId, interfaceOf[b], b) else interfaceOf[b] == 0
      {
        var edge := net.edges[i];
        assert edge in net.edges && net.edges[..i + 1] == net.edges[..i] + [edge];
        if edge.0 == nodeId {
          assert InterfaceAt(net, ifs, i, nodeId) == ifs[i].0;
          interfaceOf[edge.1] := ifs[i].0;
        } else if edge.1 == nodeId {
          assert InterfaceAt(net, ifs, i, nodeId) == ifs[i].1;
          interfaceOf[edge.0] := ifs[i].1;
        }
      }
      assert net.edges[..|net.edges|] == net.edges;
    }

    method DecideNext(t: int, hash: nat) returns (d: Decision)
      requires interfaceOf.Length == numNodes && 0 <= t < |candidates|
      ensures d == Decide(interfaceOf[..], candidates, t, hash)
      ensures d.NoCandidates? <==> candidates[t] == []
      ensures candidates[t] != [] ==>
        var next := candidates[t][hash % |candidates[t]|];
        && (d.NoRoute? <==> next == -1)
        && (d.OutOfRange? <==> next < -1 || next >= numNodes)
        && (d.NotANeighbor? <==> 0 <= next < numNodes && interfaceOf[next] == 0)
        && (d.Send? ==> d.interface == interfaceOf[next] > 0)
    {
      var s := |candidates[t]|;
      if s == 0 {
        return NoCandidates;
      }
      var selected := candidates[t][hash % s];
      if selected == -1 {
        return NoRoute;
      }
      if selected < 0 || selected >= numNodes {
        return OutOfRange;
      }
      var interface := interfaceOf[selected];
      if interface == 0 {
        return NotANeighbor;
      }
      return Send(interface);
    }
  }

  // ---------- the routing state ----------

  /** Candidate lists from an exact matrix, and a table on every node. */
  datatype Routing = Routing(net: Net, ifs: Interfaces, m: seq<int32>, c: Candidates, tables: seq<seq<nat>>) {
    ghost predicate Valid() {
      && Exact(net, m) && IsCandidateState(net, m, c) && ValidInterfaces(net, ifs)
      && |tables| == net.n && forall a :: 0 <= a < net.n ==> TableOf(net, ifs, a, tables[a])
    }
  }

  /** The arbiter of a node, with its candidate lists and its table. */
  ghost predicate Holds(arbiter: Arbiter, nodeId: int, n: nat, candidates: seq<seq<int>>, table: seq<nat>)
    reads arbiter.interfaceOf
  {
    && arbiter.nodeId == nodeId && arbiter.numNodes == n
    && arbiter.candidates == candidates && arbiter.interfaceOf[..] == table
  }

  /** Sets up routing: the candidate lists of all nodes, and an arbiter on each node. What is installed is
      a valid routing, which is what the statements below are about. */
  method InstallArbiters(net: Net, ifs: Interfaces) returns (r: Option<seq<Arbiter>>, ghost routing: Routing)
    requires net.Valid() && ValidInterfaces(net, ifs)
    ensures r.None? <==> net.n > 40000
    ensures r.Some? ==> routing.Valid() && routing.net == net && routing.ifs == ifs && |r.value| == net.n
    ensures r.Some? ==> forall i :: 0 <= i < net.n ==> Holds(r.value[i], i, net.n, routing.c[i], routing.tables[i])
  {
    var state;
    ghost var m;
    state, m := CalculateGlobalState(net);
    if state.TooManyNodes? {
      return None, Routing(net, ifs, [], [], []);
    }
    var arbiters: seq<Arbiter> := [];
    ghost var tables: seq<seq<nat>> := [];
    for i := 0 to net.n
      invariant |arbiters| == |tables| == i
      invariant forall k :: 0 <= k < i ==> TableOf(net, ifs, k, tables[k])
      invariant forall k :: 0 <= k < i ==> Holds(arbiters[k], k, net.n, state.candidates[k], tables[k])
    {
      var arbiter := new Arbiter(net, ifs, i, state.candidates[i]);
      arbiters, tables := arbiters + [arbiter], tables + [arbiter.interfaceOf[..]];
    }
    return Some(arbiters), Routing(net, ifs, m, state.candidates, tables);
  }

  // ---------- the journey of a packet ----------

  /** Whatever the hash, a node that is connected to the target selects a neighbour one hop closer. */
  lemma SelectionIsCloser(net: Net, m: seq<int32>, c: Candidates, a: int, t: int, hash: nat, d: int) returns (next: int)
    requires Exact(net, m) && IsCandidateState(net, m, c)
    requires net.Node(a) && net.Node(t) && a != t && HasDistance(net, a, t, d)
    ensures |c[a][t]| > 0 && next == c[a][t][hash % |c[a][t]|]
    ensures net.Node(next) && net.Adjacent(a, next) && HasDistance(net, next, t, d - 1)
  {
    CandidatesEmpty(net, m, c, a, t);
    assert Connected(net, a, t);
    next := c[a][t][hash % |c[a][t]|];
    assert next in c[a][t];
    CandidatesAreExact(net, m, c, a, next, t);
    var d' :| HasDistance(net, a, t, d') && HasDistance(net, next, t, d' - 1);
    DistanceIsUnique(net, a, t, d, d');
  }

  /** Whatever the hash, a node that is connected to the target sends the packet to exactly one
      neighbour, and that neighbour is one hop closer. */
  lemma EveryDecisionGetsCloser(r: Routing, a: int, t: int, hash: nat, d: int) returns (k: nat, next: int)
    requires r.Valid() && r.net.Node(a) && r.net.Node(t) && a != t && HasDistance(r.net, a, t, d)
    ensures Decide(r.tables[a], r.c[a], t, hash) == Send(k)
    ensures forall b :: Behind(r.net, r.ifs, a, k, b) <==> b == next
    ensures r.c[a][t] != [] && next == r.c[a][t][hash % |r.c[a][t]|]
    ensures r.net.Node(next) && r.net.Adjacent(a, next) && HasDistance(r.net, next, t, d - 1)
  {
    next := SelectionIsCloser(r.net, r.m, r.c, a, t, hash, d);
    k := r.tables[a][next];
    assert TableOf(r.net, r.ifs, a, r.tables[a]);
    OneNodeBehind(r.net, r.ifs, a, k, next, next);
    forall b | Behind(r.net, r.ifs, a, k, b)
      ensures b == next
    {
      OneNodeBehind(r.net, r.ifs, a, k, b, next);
    }
  }

  lemma OneNodeBehind(net: Net, ifs: Interfaces, a: int, k: nat, b: int, b': int)
    requires net.Valid() && ValidInterfaces(net, ifs)
    requires Behind(net, ifs, a, k, b) && Behind(net, ifs, a, k, b')
    ensures b == b' && k > 0
  {
    var e :| 0 <= e < |ifs| && (net.edges[e] == (a, b) || net.edges[e] == (b, a)) && InterfaceAt(net, ifs, e, a) == k;
    var h :| 0 <= h < |ifs| && (net.edges[h] == (a, b') || net.edges[h] == (b', a)) && InterfaceAt(net, ifs, h, a) == k;
    assert Touches(net, e, a) && Touches(net, h, a);
    assert net.edges[e] in net.edges;
  }

  /** The packet for `t` is at `a`, and with this hash comes out at `b`. */
  ghost predicate Moves(r: Routing, t: int, a: int, hash: nat, b: int)
    requires r.Valid() && r.net.Node(t)
  {
    && r.net.Node(a) && a != t
    && var decision := Decide(r.tables[a], r.c[a], t, hash);
       decision.Send? && Behind(r.net, r.ifs, a, decision.interface, b)
  }

  /** The packet comes out at the candidate that the hash selects, and nowhere else. */
  lemma HashSelectsCandidate(r: Routing, t: int, a: int, hash: nat, b: int)
    requires r.Valid() && r.net.Node(a) && r.net.Node(t) && a != t && Connected(r.net, a, t)
    ensures r.c[a][t] != [] && (Moves(r, t, a, hash, b) <==> b == r.c[a][t][hash % |r.c[a][t]|])
  {
    var d := DistanceExists(r.net, a, t);
    var k, next := EveryDecisionGetsCloser(r, a, t, hash, d);
  }

  /** Routing is multi-path: some hash takes the packet to each neighbour on a shortest walk, and none takes
      it to any other node. */
  lemma HashesTakeAllShortestWalks(r: Routing, t: int, a: int, b: int)
    requires r.Valid() && r.net.Node(a) && r.net.Node(t)
    ensures OnShortestWalk(r.net, a, b, t) <==> exists hash: nat :: Moves(r, t, a, hash, b)
  {
    CandidatesAreExact(r.net, r.m, r.c, a, b, t);
    CandidatesEmpty(r.net, r.m, r.c, a, t);
    if OnShortestWalk(r.net, a, b, t) {
      var hash := HashFor(r, t, a, b);
    }
    forall hash: nat | Moves(r, t, a, hash, b)
      ensures b in r.c[a][t]
    {
      HashSelectsCandidate(r, t, a, hash, b);
    }
  }

  lemma HashFor(r: Routing, t: int, a: int, b: int) returns (hash: nat)
    requires r.Valid() && r.net.Node(a) && r.net.Node(t) && OnShortestWalk(r.net, a, b, t)
    ensures hash < |r.c[a][t]| && r.c[a][t][hash] == b && Moves(r, t, a, hash, b)
  {
    ShortestWalkLeaves(r.net, a, b, t);
    CandidatesAreExact(r.net, r.m, r.c, a, b, t);
    hash :| hash < |r.c[a][t]| && r.c[a][t][hash] == b;
    RemainderIs(hash, 0, hash, |r.c[a][t]|);
    HashSelectsCandidate(r, t, a, hash, b);
  }

  lemma MultipleGrows(k: int, s: int)
    requires s > 0
    ensures (k >= 1 ==> k * s >= s) && (k <= -1 ==> k * s <= -s)
  {
    assert k * s == (k - 1) * s + s == (k + 1) * s - s;
  }

  lemma RemainderIs(x: int, m: int, y: int, s: int)
    requires 0 <= y < s && x == m * s + y
    ensures x % s == y
  {
    assert x == (x / s) * s + x % s;
    assert (m - x / s) * s == x % s - y;
    MultipleGrows(m - x / s, s);
  }

  /** Of `s` consecutive numbers, one has this remainder. */
  lemma NextWithRemainder(from: nat, k: nat, s: nat) returns (x: nat)
    requires k < s
    ensures from <= x < from + s && x % s == k
  {
    var m := (k - from) / s;
    assert k - from == m * s + (k - from) % s;
    x := from + (k - from) % s;
    assert x == -m * s + k;
    RemainderIs(x, -m, k, s);
  }

  lemma OnlyOneWithRemainder(x: nat, y: nat, s: nat)
    requires s > 0 && x % s == y % s && x - s < y < x + s
    ensures x == y
  {
    assert x == (x / s) * s + x % s && y == (y / s) * s + y % s;
    assert (x / s - y / s) * s == x - y;
    MultipleGrows(x / s - y / s, s);
  }

  lemma SameSelection(c: seq<int>, x: nat, y: nat)
    requires Increasing(c) && c != [] && c[x % |c|] == c[y % |c|] && x - |c| < y < x + |c|
    ensures x == y
  {
    assert x % |c| == y % |c|;
    OnlyOneWithRemainder(x, y, |c|);
  }

  /** On sorted edges, as many consecutive hashes as there are candidates take each of them once. */
  lemma ConsecutiveHashesTakeEachOnce(r: Routing, t: int, a: int, b: int, from: nat) returns (one: nat)
    requires r.Valid() && SortedEdges(r.net.edges) && r.net.Node(a) && r.net.Node(t) && OnShortestWalk(r.net, a, b, t)
    ensures from <= one < from + |r.c[a][t]| && Moves(r, t, a, one, b)
    ensures forall hash: nat :: from <= hash < from + |r.c[a][t]| && Moves(r, t, a, hash, b) ==> hash == one
  {
    ShortestWalkLeaves(r.net, a, b, t);
    CandidatesAscend(r.net, r.m, r.c, a, t);
    var k := HashFor(r, t, a, b);
    one := NextWithRemainder(from, k, |r.c[a][t]|);
    HashSelectsCandidate(r, t, a, one, b);
    forall hash: nat | from <= hash < from + |r.c[a][t]| && Moves(r, t, a, hash, b)
      ensures hash == one
    {
      HashSelectsCandidate(r, t, a, hash, b);
      SameSelection(r.c[a][t], hash, one);
    }
  }

  /** A packet for `t` moves from node to node: at each, some hash picks the interface, and the packet
      comes out at a node behind it. */
  ghost predicate Journey(r: Routing, t: int, visited: seq<int>, hashes: seq<nat>)
    requires r.Valid() && r.net.Node(t)
  {
    && |visited| == |hashes| + 1
    && forall i :: 0 <= i < |hashes| ==> Moves(r, t, visited[i], hashes[i], visited[i + 1])
  }

  lemma MoveGetsCloser(r: Routing, t: int, a: int, hash: nat, b: int, d: int)
    requires r.Valid() && r.net.Node(t) && Moves(r, t, a, hash, b) && HasDistance(r.net, a, t, d)
    ensures r.net.Node(b) && r.net.Adjacent(a, b) && HasDistance(r.net, b, t, d - 1)
  {
    var k, next := EveryDecisionGetsCloser(r, a, t, hash, d);
  }

  /** Each step of a journey takes the packet one hop closer. */
  lemma {:induction false} JourneyDistances(r: Routing, t: int, visited: seq<int>, hashes: seq<nat>, d: int, i: nat)
    requires r.Valid() && r.net.Node(t) && Journey(r, t, visited, hashes)
    requires r.net.Node(visited[0]) && HasDistance(r.net, visited[0], t, d) && i <= |hashes|
    ensures r.net.Node(visited[i]) && HasDistance(r.net, visited[i], t, d - i)
  {
    if i > 0 {
      var a, b := visited[i - 1], visited[i];
      assert Moves(r, t, a, hashes[i - 1], b);
      JourneyDistances(r, t, visited, hashes, d, i - 1);
      MoveGetsCloser(r, t, a, hashes[i - 1], b, d - (i - 1));
    }
  }

  lemma OtherDistanceOtherNode(net: Net, a: int, b: int, t: int, d: int, e: int)
    requires HasDistance(net, a, t, d) && HasDistance(net, b, t, e) && d != e
    ensures a != b
  {
    if a == b {
      DistanceIsUnique(net, a, t, d, e);
    }
  }

  lemma DistanceZero(net: Net, a: int, t: int, d: int)
    requires HasDistance(net, a, t, d) && net.Node(a)
    ensures d >= 0 && (d == 0 <==> a == t)
  {
    if a == t {
      assert Walk(net, [a], a, t);
    }
  }

  /** Delivery: from a node at distance `d`, whatever the hashes, a journey never visits a node twice,
      never takes more than `d` hops, and is at the target exactly when it has taken `d`. */
  lemma JourneysDeliver(r: Routing, t: int, visited: seq<int>, hashes: seq<nat>, d: int)
    requires r.Valid() && r.net.Node(t) && Journey(r, t, visited, hashes)
    requires r.net.Node(visited[0]) && HasDistance(r.net, visited[0], t, d)
    ensures |hashes| <= d
    ensures visited[|hashes|] == t <==> |hashes| == d
    ensures forall i, j :: 0 <= i < j < |visited| ==> visited[i] != visited[j]
    ensures Walk(r.net, visited, visited[0], visited[|hashes|])
  {
    forall i | 0 <= i <= |hashes|
      ensures r.net.Node(visited[i]) && HasDistance(r.net, visited[i], t, d - i)
    {
      JourneyDistances(r, t, visited, hashes, d, i);
    }
    DistanceZero(r.net, visited[|hashes|], t, d - |hashes|);
    forall i, j | 0 <= i < j < |visited|
      ensures visited[i] != visited[j]
    {
      OtherDistanceOtherNode(r.net, visited[i], visited[j], t, d - i, d - j);
    }
    forall i | 0 <= i < |visited| - 1
      ensures r.net.Adjacent(visited[i], visited[i + 1])
    {
      MoveGetsCloser(r, t, visited[i], hashes[i], visited[i + 1], d - i);
    }
  }

  /** No journey gets stuck: short of the target, any next hash extends it. */
  lemma JourneysContinue(r: Routing, t: int, visited: seq<int>, hashes: seq<nat>, d: int, hash: nat)
    returns (next: int)
    requires r.Valid() && r.net.Node(t) && Journey(r, t, visited, hashes)
    requires r.net.Node(visited[0]) && HasDistance(r.net, visited[0], t, d) && |hashes| < d
    ensures Journey(r, t, visited + [next], hashes + [hash])
  {
    var i := |hashes|;
    JourneyDistances(r, t, visited, hashes, d, i);
    DistanceZero(r.net, visited[i], t, d - i);
    var k;
    k, next := EveryDecisionGetsCloser(r, visited[i], t, hash, d - i);
    ExtendJourney(r, t, visited, hashes, next, hash);
  }

  lemma ExtendJourney(r: Routing, t: int, visited: seq<int>, hashes: seq<nat>, next: int, hash: nat)
    requires r.Valid() && r.net.Node(t) && Journey(r, t, visited, hashes)
    requires Moves(r, t, visited[|hashes|], hash, next)
    ensures Journey(r, t, visited + [next], hashes + [hash])
  {
    var longer, more := visited + [next], hashes + [hash];
    forall x | 0 <= x < |more|
      ensures Moves(r, t, longer[x], more[x], longer[x + 1])
    {
      if x < |hashes| {
        assert Moves(r, t, visited[x], hashes[x], visited[x + 1]);
      }
    }
  }

  /** From a node that is cut off from the target the packet does not leave: there is no candidate. */
  lemma CutOffIsNoCandidates(r: Routing, a: int, t: int, hash: nat)
    requires r.Valid() && r.net.Node(a) && r.net.Node(t) && a != t
    ensures Decide(r.tables[a], r.c[a], t, hash).NoCandidates? <==> !Connected(r.net, a, t)
  {
    CandidatesEmpty(r.net, r.m, r.c, a, t);
  }
}
