/** The leaf-spine topology generator, the hop distances in the networks it generates, and what
    equal-cost routing does on them. */
module LeafSpine {
  import opened HopDistances
  import opened FloydWarshall
  import opened EcmpRouting

  datatype Fabric = Fabric(numLeafs: nat, numSpines: nat, serversPerLeaf: nat) {
    predicate Valid() {
      numLeafs >= 1 && numSpines >= 1 && serversPerLeaf >= 1
    }

    function NumSwitches(): nat { numLeafs + numSpines }

    function NumNodes(): (n: nat)
      ensures n >= NumSwitches()
    {
      numLeafs + numSpines + numLeafs * serversPerLeaf
    }

    function NumEdges(): nat { numLeafs * numSpines + numLeafs * serversPerLeaf }

    predicate IsLeaf(x: int) { 0 <= x < numLeafs }

    predicate IsSpine(x: int) { numLeafs <= x < NumSwitches() }

    predicate IsServer(x: int) { NumSwitches() <= x < NumNodes() }

    function Spine(i: int): int { numLeafs + i }

    function Server(leaf: int, i: int): int { numLeafs + numSpines + leaf * serversPerLeaf + i }

    /** The leaf a server hangs under. */
    function LeafOf(server: int): int
      requires serversPerLeaf > 0
    {
      (server - NumSwitches()) / serversPerLeaf
    }

    /** What the links should be: every leaf with every spine, and every server with its leaf. */
    predicate Linked(a: int, b: int)
      requires serversPerLeaf > 0
    {
      IsLeaf(a) && (IsSpine(b) || (IsServer(b) && LeafOf(b) == a))
    }
  }

  // ---------- the generator ----------

  /** The links of one leaf: first all spines, then its servers. */
  function LeafLinks(f: Fabric, leaf: int, spines: nat, servers: nat): seq<Edge> {
    seq(spines, i => (leaf, f.Spine(i))) + seq(servers, i => (leaf, f.Server(leaf, i)))
  }

  function LinksOfFirst(f: Fabric, n: nat): seq<Edge> {
    if n == 0 then [] else LinksOfFirst(f, n - 1) + LeafLinks(f, n - 1, f.numSpines, f.serversPerLeaf)
  }

  function Links(f: Fabric): seq<Edge> {
    LinksOfFirst(f, f.numLeafs)
  }

  method GenerateLinks(f: Fabric) returns (links: seq<Edge>)
    ensures links == Links(f)
  {
    links := [];
    for leaf := 0 to f.numLeafs
      invariant links == LinksOfFirst(f, leaf)
    {
      for spine := 0 to f.numSpines
        invariant links == LinksOfFirst(f, leaf) + LeafLinks(f, leaf, spine, 0)
      {
        links := links + [(leaf, f.numLeafs + spine)];
      }
      for server := 0 to f.serversPerLeaf
        invariant links == LinksOfFirst(f, leaf) + LeafLinks(f, leaf, f.numSpines, server)
      {
        links := links + [(leaf, f.numLeafs + f.numSpines + leaf * f.serversPerLeaf + server)];
      }
    }
  }

  // ---------- server ids ----------

  lemma TimesGrows(n: nat, a: int, b: int)
    requires a <= b
    ensures a * n <= b * n
  {
  }

  lemma ServerIds(f: Fabric, leaf: int, i: int)
    requires f.IsLeaf(leaf) && 0 <= i < f.serversPerLeaf
    ensures f.IsServer(f.Server(leaf, i)) && f.LeafOf(f.Server(leaf, i)) == leaf
  {
    var p := f.serversPerLeaf;
    TimesGrows(p, 0, leaf);
    TimesGrows(p, leaf + 1, f.numLeafs);
    DivideBlock(p, leaf, i);
  }

  lemma DivideBlock(p: nat, q: int, r: int)
    requires 0 <= r < p
    ensures (q * p + r) / p == q
  {
    if (q * p + r) / p < q {
      TimesGrows(p, (q * p + r) / p + 1, q);
    } else if (q * p + r) / p > q {
      TimesGrows(p, q + 1, (q * p + r) / p);
    }
  }

  lemma ServerHasPlace(f: Fabric, x: int) returns (leaf: int, i: int)
    requires f.Valid() && f.IsServer(x)
    ensures f.IsLeaf(leaf) && 0 <= i < f.serversPerLeaf && x == f.Server(leaf, i) && leaf == f.LeafOf(x)
  {
    var p := f.serversPerLeaf;
    var offset := x - f.NumSwitches();
    leaf, i := offset / p, offset % p;
    assert offset == p * leaf + i;
    if leaf >= f.numLeafs {
      TimesGrows(p, f.numLeafs, leaf);
    }
  }

  // ---------- the generated links ----------

  lemma {:induction false} LinksAre(f: Fabric, n: nat, a: int, b: int)
    requires f.Valid() && n <= f.numLeafs
    ensures (a, b) in LinksOfFirst(f, n) <==> a < n && f.Linked(a, b)
  {
    if n > 0 {
      LinksAre(f, n - 1, a, b);
      LeafLinksAre(f, n - 1, a, b);
    }
  }

  lemma LeafLinksAre(f: Fabric, leaf: int, a: int, b: int)
    requires f.Valid() && f.IsLeaf(leaf)
    ensures (a, b) in LeafLinks(f, leaf, f.numSpines, f.serversPerLeaf) <==> a == leaf && f.Linked(a, b)
  {
    var links := LeafLinks(f, leaf, f.numSpines, f.serversPerLeaf);
    if (a, b) in links {
      var i :| 0 <= i < |links| && links[i] == (a, b);
      if i >= f.numSpines {
        ServerIds(f, leaf, i - f.numSpines);
      }
    }
    if a == leaf && f.Linked(a, b) {
      if f.IsSpine(b) {
        assert links[b - f.numLeafs] == (a, b);
      } else {
        var l, i := ServerHasPlace(f, b);
        assert links[f.numSpines + i] == (a, b);
      }
    }
  }

  lemma LeafLinksSorted(f: Fabric, leaf: int)
    requires f.Valid() && f.IsLeaf(leaf)
    ensures SortedEdges(LeafLinks(f, leaf, f.numSpines, f.serversPerLeaf))
  {
    var links := LeafLinks(f, leaf, f.numSpines, f.serversPerLeaf);
    forall i, j | 0 <= i < j < |links|
      ensures links[i].0 == links[j].0 && links[i].1 < links[j].1
    {
      if i < f.numSpines <= j {
        ServerIds(f, leaf, j - f.numSpines);
      }
    }
  }

  lemma {:induction false} LinksSorted(f: Fabric, n: nat)
    requires f.Valid() && n <= f.numLeafs
    ensures SortedEdges(LinksOfFirst(f, n))
  {
    if n > 0 {
      LinksSorted(f, n - 1);
      LeafLinksSorted(f, n - 1);
      var before := LinksOfFirst(f, n - 1);
      forall i | 0 <= i < |before|
        ensures before[i].0 < n - 1
      {
        LinksAre(f, n - 1, before[i].0, before[i].1);
        assert before[i] in before;
      }
      SortedConcat(before, LeafLinks(f, n - 1, f.numSpines, f.serversPerLeaf));
    }
  }

  lemma {:induction false} LinksCount(f: Fabric, n: nat)
    ensures |LinksOfFirst(f, n)| == n * f.numSpines + n * f.serversPerLeaf
  {
    if n > 0 {
      LinksCount(f, n - 1);
      OneMoreTimes(n - 1, f.numSpines);
      OneMoreTimes(n - 1, f.serversPerLeaf);
    }
  }

  lemma OneMoreTimes(n: nat, k: nat)
    ensures (n + 1) * k == n * k + k
  {
  }

  lemma SortedConcat(s: seq<Edge>, r: seq<Edge>)
    requires SortedEdges(s) && SortedEdges(r)
    requires forall i, j :: 0 <= i < |s| && 0 <= j < |r| ==> s[i].0 < r[j].0
    ensures SortedEdges(s + r)
  {
  }

  /** The network a fabric stands for. */
  function NetOf(f: Fabric): Net {
    Net(f.NumNodes(), Links(f))
  }

  /** The generated links join exactly the linked pairs, each once, in sorted order and as many as declared. */
  lemma GeneratedLinks(f: Fabric)
    requires f.Valid()
    ensures forall a, b :: (a, b) in Links(f) <==> f.Linked(a, b)
    ensures SortedEdges(Links(f)) && |Links(f)| == f.NumEdges()
    ensures NetOf(f).Valid()
  {
    forall a, b
      ensures (a, b) in Links(f) <==> f.Linked(a, b)
    {
      LinksAre(f, f.numLeafs, a, b);
    }
    LinksSorted(f, f.numLeafs);
    LinksCount(f, f.numLeafs);
    TimesGrows(f.serversPerLeaf, 1, f.numLeafs);
  }

  // ---------- distances ----------

  /** Hops from a node to the server `t`. */
  function Hops(f: Fabric, a: int, t: int): nat
    requires f.Valid()
  {
    if a == t then 0
    else if f.IsLeaf(a) then if a == f.LeafOf(t) then 1 else 3
    else if f.IsSpine(a) then 2
    else if f.LeafOf(a) == f.LeafOf(t) then 2
    else 4
  }

  /** Hops change by at most one along a link. */
  lemma HopsAreGradual(f: Fabric, a: int, b: int, t: int)
    requires f.Valid() && f.IsServer(t) && NetOf(f).Adjacent(a, b)
    ensures Hops(f, a, t) <= Hops(f, b, t) + 1
  {
    GeneratedLinks(f);
  }

  lemma {:induction false} WalksAreAsLongAsHops(f: Fabric, w: seq<int>, a: int, t: int)
    requires f.Valid() && f.IsServer(t) && Walk(NetOf(f), w, a, t)
    ensures Hops(f, a, t) <= |w| - 1
    decreases |w|
  {
    if |w| > 1 {
      Cut(NetOf(f), w, a, t, 1);
      WalksAreAsLongAsHops(f, w[1..], w[1], t);
      HopsAreGradual(f, a, w[1], t);
    }
  }

  /** From every other node some link leads one hop closer. */
  lemma StepCloser(f: Fabric, a: int, t: int) returns (b: int)
    requires f.Valid() && f.IsServer(t) && NetOf(f).Node(a) && a != t
    ensures NetOf(f).Node(b) && NetOf(f).Adjacent(a, b) && Hops(f, b, t) == Hops(f, a, t) - 1
  {
    GeneratedLinks(f);
    var leaf, i := ServerHasPlace(f, t);
    if f.IsLeaf(a) {
      b := if a == leaf then t else f.Spine(0);
    } else if f.IsSpine(a) {
      b := leaf;
    } else {
      var l, j := ServerHasPlace(f, a);
      b := l;
    }
  }

  lemma {:induction false} WalkDown(f: Fabric, a: int, t: int) returns (w: seq<int>)
    requires f.Valid() && f.IsServer(t) && NetOf(f).Node(a)
    ensures Walk(NetOf(f), w, a, t) && |w| - 1 == Hops(f, a, t)
    decreases Hops(f, a, t)
  {
    if a == t {
      w := [a];
    } else {
      var b := StepCloser(f, a, t);
      var v := WalkDown(f, b, t);
      assert Walk(NetOf(f), [a, b], a, b);
      Concatenate(NetOf(f), [a, b], v, a, b, t);
      w := [a, b] + v[1..];
    }
  }

  /** The distance from any node to a server; between servers it is 2 under one leaf and 4 otherwise. */
  lemma DistanceToServer(f: Fabric, a: int, t: int)
    requires f.Valid() && f.IsServer(t) && NetOf(f).Node(a)
    ensures HasDistance(NetOf(f), a, t, Hops(f, a, t))
  {
    var w := WalkDown(f, a, t);
    forall v | Walk(NetOf(f), v, a, t)
      ensures Hops(f, a, t) <= |v| - 1
    {
      WalksAreAsLongAsHops(f, v, a, t);
    }
  }

  lemma ServerDistances(f: Fabric, s: int, t: int)
    requires f.Valid() && f.IsServer(s) && f.IsServer(t) && s != t
    ensures HasDistance(NetOf(f), s, t, if f.LeafOf(s) == f.LeafOf(t) then 2 else 4)
  {
    DistanceToServer(f, s, t);
  }

  // ---------- equal-cost routing ----------

  /** The next hops a node should have towards the server `t`. */
  function NextHops(f: Fabric, a: int, t: int): seq<int>
    requires f.Valid()
  {
    if a == t then []
    else if f.IsLeaf(a) then if a == f.LeafOf(t) then [t] else seq(f.numSpines, i => f.Spine(i))
    else if f.IsSpine(a) then [f.LeafOf(t)]
    else [f.LeafOf(a)]
  }

  lemma NextHopsAre(f: Fabric, a: int, b: int, t: int)
    requires f.Valid() && f.IsServer(t) && NetOf(f).Node(a)
    ensures OnShortestWalk(NetOf(f), a, b, t) <==> b in NextHops(f, a, t)
  {
    GeneratedLinks(f);
    DistanceToServer(f, a, t);
    var leaf, i := ServerHasPlace(f, t);
    if f.IsServer(a) {
      var l, j := ServerHasPlace(f, a);
    }
    if NetOf(f).Adjacent(a, b) {
      DistanceToServer(f, b, t);
      if OnShortestWalk(NetOf(f), a, b, t) {
        var d :| HasDistance(NetOf(f), a, t, d) && HasDistance(NetOf(f), b, t, d - 1);
        DistanceIsUnique(NetOf(f), a, t, d, Hops(f, a, t));
        DistanceIsUnique(NetOf(f), b, t, d - 1, Hops(f, b, t));
      }
    }
    var hops := NextHops(f, a, t);
    assert f.IsLeaf(a) && a != leaf ==> (b in hops <==> f.IsSpine(b)) by {
      if f.IsSpine(b) {
        assert seq(f.numSpines, i => f.Spine(i))[b - f.numLeafs] == b;
      }
    }
  }

  lemma {:induction false} SameMembersSameList(s: seq<int>, r: seq<int>)
    requires Increasing(s) && Increasing(r)
    requires forall b :: b in s <==> b in r
    ensures s == r
    decreases |s|
  {
    assert r != [] ==> r[0] in r;
    if s != [] {
      assert s[0] in s && s[0] in r && r[0] in s;
      forall b
        ensures b in s[1..] <==> b in r[1..]
      {
        assert b in s <==> b == s[0] || b in s[1..];
        assert b in r <==> b == r[0] || b in r[1..];
      }
      SameMembersSameList(s[1..], r[1..]);
      assert s == [s[0]] + s[1..] && r == [r[0]] + r[1..];
    }
  }

  /** The candidate lists towards a server: a leaf elsewhere lists all spines and only those, the
      others have the one way there is. */
  lemma FabricCandidates(f: Fabric, m: seq<int32>, c: Candidates, a: int, t: int)
    requires f.Valid() && f.IsServer(t) && NetOf(f).Node(a)
    requires Exact(NetOf(f), m) && IsCandidateState(NetOf(f), m, c)
    ensures c[a][t] == NextHops(f, a, t)
  {
    GeneratedLinks(f);
    CandidatesAscend(NetOf(f), m, c, a, t);
    forall b
      ensures b in c[a][t] <==> b in NextHops(f, a, t)
    {
      CandidatesAreExact(NetOf(f), m, c, a, b, t);
      NextHopsAre(f, a, b, t);
    }
    SameMembersSameList(c[a][t], NextHops(f, a, t));
  }
}
