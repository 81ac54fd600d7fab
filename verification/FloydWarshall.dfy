/** All-pairs hop distances, computed in place on one flat 32-bit matrix. */
module FloydWarshall {
  import opened HopDistances

  newtype int32 = x: int | -0x8000_0000 <= x < 0x8000_0000

  const INFINITE: int32 := 100000000
  const MAX_NODES: int := 40000

  // ---------- the flat matrix ----------

  lemma CellInRange(n: int, i: int, j: int)
    requires 0 <= i < n && 0 <= j < n
    ensures 0 <= n * i + j < n * n
  {
    assert n * (i + 1) <= n * n;
  }

  lemma CellsDiffer(n: int, i: int, j: int, a: int, b: int)
    requires 0 <= j < n && 0 <= b < n && (i, j) != (a, b)
    ensures n * i + j != n * a + b
  {
    if i < a {
      assert n * (i + 1) <= n * a;
    } else if a < i {
      assert n * (a + 1) <= n * i;
    }
  }

  /** The matrix entry of row `i` and column `j`. */
  function At(m: seq<int32>, n: nat, i: int, j: int): int32
    requires |m| == n * n && 0 <= i < n && 0 <= j < n
  {
    CellInRange(n, i, j);
    m[n * i + j]
  }

  function Put(m: seq<int32>, n: nat, i: int, j: int, v: int32): (r: seq<int32>)
    requires |m| == n * n && 0 <= i < n && 0 <= j < n
    ensures |r| == n * n
    ensures forall a, b {:trigger At(r, n, a, b)} :: 0 <= a < n && 0 <= b < n ==>
      At(r, n, a, b) == if (a, b) == (i, j) then v else At(m, n, a, b)
  {
    CellInRange(n, i, j);
    var r := m[n * i + j := v];
    assert forall a, b :: 0 <= a < n && 0 <= b < n ==>
        At(r, n, a, b) == if (a, b) == (i, j) then v else At(m, n, a, b) by {
      forall a, b | 0 <= a < n && 0 <= b < n
        ensures At(r, n, a, b) == if (a, b) == (i, j) then v else At(m, n, a, b)
      {
        CellInRange(n, a, b);
        if (a, b) != (i, j) {
          CellsDiffer(n, a, b, i, j);
        }
      }
    }
    r
  }

  method Write(dist: array<int32>, n: nat, i: int, j: int, v: int32)
    requires dist.Length == n * n && 0 <= i < n && 0 <= j < n
    modifies dist
    ensures dist[..] == Put(old(dist[..]), n, i, j, v)
  {
    CellInRange(n, i, j);
    dist[n * i + j] := v;
  }

  method Read(dist: array<int32>, n: nat, i: int, j: int) returns (v: int32)
    requires dist.Length == n * n && 0 <= i < n && 0 <= j < n
    ensures v == At(dist[..], n, i, j)
  {
    CellInRange(n, i, j);
    v := dist[n * i + j];
  }

  // ---------- what the matrix means ----------

  /** Every finite entry is the length of some walk, and no entry is negative or above infinity. */
  ghost predicate Sound(net: Net, m: seq<int32>) {
    && |m| == net.n * net.n
    && forall i, j {:trigger At(m, net.n, i, j)} :: net.Node(i) && net.Node(j) ==>
         && 0 <= At(m, net.n, i, j) <= INFINITE
         && (At(m, net.n, i, j) < INFINITE ==>
               exists w :: Walk(net, w, i, j) && |w| - 1 == At(m, net.n, i, j) as int)
  }

  /** All nodes strictly inside the walk are below `k`. */
  ghost predicate Inside(w: seq<int>, k: int) {
    forall i :: 0 < i < |w| - 1 ==> w[i] < k
  }

  /** The entry is no more than the length of any walk whose inner nodes are below `k`. */
  ghost predicate Covers(net: Net, m: seq<int32>, i: int, j: int, k: int)
    requires |m| == net.n * net.n && net.Node(i) && net.Node(j)
  {
    forall w :: Walk(net, w, i, j) && Inside(w, k) ==> At(m, net.n, i, j) as int <= |w| - 1
  }

  ghost predicate CoversAll(net: Net, m: seq<int32>, k: int)
    requires |m| == net.n * net.n
  {
    forall i, j :: net.Node(i) && net.Node(j) ==> Covers(net, m, i, j, k)
  }

  /** In round `k`, the pairs before row `i`, column `j` cover one more inner node. */
  ghost predicate CoversBefore(net: Net, m: seq<int32>, k: int, i: int, j: int)
    requires |m| == net.n * net.n
  {
    forall a, b :: net.Node(a) && net.Node(b) && (a < i || (a == i && b < j)) ==> Covers(net, m, a, b, k + 1)
  }

  /** Distances where there is a walk, infinity where there is none. */
  ghost predicate Exact(net: Net, m: seq<int32>) {
    && |m| == net.n * net.n
    && forall i, j {:trigger At(m, net.n, i, j)} :: net.Node(i) && net.Node(j) ==>
         if Connected(net, i, j) then At(m, net.n, i, j) < INFINITE && HasDistance(net, i, j, At(m, net.n, i, j) as int)
         else At(m, net.n, i, j) == INFINITE
  }

  // ---------- one relaxation ----------

  function Relax(m: seq<int32>, n: nat, k: int, i: int, j: int): (r: seq<int32>)
    requires |m| == n * n && 0 <= k < n && 0 <= i < n && 0 <= j < n
    requires 0 <= At(m, n, i, k) <= INFINITE && 0 <= At(m, n, k, j) <= INFINITE
    ensures |r| == n * n
  {
    var through := At(m, n, i, k) + At(m, n, k, j);
    if At(m, n, i, j) > through then Put(m, n, i, j, through) else m
  }

  lemma RelaxIsSound(net: Net, m: seq<int32>, k: int, i: int, j: int)
    requires Sound(net, m) && net.Node(k) && net.Node(i) && net.Node(j)
    ensures Sound(net, Relax(m, net.n, k, i, j))
  {
    var n := net.n;
    var through := At(m, n, i, k) + At(m, n, k, j);
    if At(m, n, i, j) > through {
      var w :| Walk(net, w, i, k) && |w| - 1 == At(m, n, i, k) as int;
      var v :| Walk(net, v, k, j) && |v| - 1 == At(m, n, k, j) as int;
      Concatenate(net, w, v, i, k, j);
      var u := w + v[1..];
      assert Walk(net, u, i, j) && |u| - 1 == through as int;
    }
  }

  /** A walk through `k` splits at its first and its last visit of `k`. */
  lemma SplitAtLargest(net: Net, w: seq<int>, i: int, j: int, k: int) returns (head: seq<int>, tail: seq<int>)
    requires Walk(net, w, i, j) && Inside(w, k + 1) && !Inside(w, k)
    ensures Walk(net, head, i, k) && Inside(head, k)
    ensures Walk(net, tail, k, j) && Inside(tail, k)
    ensures |head| - 1 + |tail| - 1 <= |w| - 1
  {
    var p := 1;
    while w[p] != k
      invariant 1 <= p < |w| - 1
      invariant forall x :: 0 < x < p ==> w[x] < k
      invariant exists x :: p <= x < |w| - 1 && w[x] == k
      decreases |w| - p
    {
      p := p + 1;
    }
    var q := |w| - 2;
    while w[q] != k
      invariant p <= q < |w| - 1
      invariant forall x :: q < x < |w| - 1 ==> w[x] < k
      decreases q
    {
      q := q - 1;
    }
    Cut(net, w, i, j, p);
    Cut(net, w, i, j, q);
    head, tail := w[..p + 1], w[q..];
  }

  /** A relaxation keeps what is covered, never raises an entry, and covers walks through `k`. */
  lemma RelaxCovers(net: Net, m: seq<int32>, k: int, i: int, j: int)
    requires Sound(net, m) && CoversAll(net, m, k)
    requires net.Node(k) && net.Node(i) && net.Node(j)
    ensures var r := Relax(m, net.n, k, i, j);
      && CoversAll(net, r, k)
      && Covers(net, r, i, j, k + 1)
      && forall a, b, l :: net.Node(a) && net.Node(b) && Covers(net, m, a, b, l) ==> Covers(net, r, a, b, l)
  {
    var n := net.n;
    var r := Relax(m, n, k, i, j);
    assert forall a, b :: net.Node(a) && net.Node(b) ==> At(r, n, a, b) <= At(m, n, a, b);
    forall w | Walk(net, w, i, j) && Inside(w, k + 1)
      ensures At(r, n, i, j) as int <= |w| - 1
    {
      if Inside(w, k) {
        assert Covers(net, m, i, j, k);
      } else {
        var head, tail := SplitAtLargest(net, w, i, j, k);
        assert Covers(net, m, i, k, k) && Covers(net, m, k, j, k);
      }
    }
    forall a, b, l | net.Node(a) && net.Node(b) && Covers(net, m, a, b, l)
      ensures Covers(net, r, a, b, l)
    {
    }
  }

  /** What holds in round `k` when row `i`, column `j` is next. */
  ghost predicate Progress(net: Net, m: seq<int32>, k: int, i: int, j: int) {
    Sound(net, m) && CoversAll(net, m, k) && CoversBefore(net, m, k, i, j)
  }

  /** One step of the triple loop. */
  lemma RelaxStep(net: Net, m: seq<int32>, k: int, i: int, j: int)
    requires Progress(net, m, k, i, j)
    requires net.Node(k) && net.Node(i) && net.Node(j)
    ensures Progress(net, Relax(m, net.n, k, i, j), k, i, j + 1)
  {
    RelaxIsSound(net, m, k, i, j);
    RelaxCovers(net, m, k, i, j);
  }

  lemma NextRow(net: Net, m: seq<int32>, k: int, i: int)
    requires Progress(net, m, k, i, net.n)
    ensures Progress(net, m, k, i + 1, 0)
  {
  }

  lemma NextRound(net: Net, m: seq<int32>, k: int)
    requires Progress(net, m, k, net.n, 0)
    ensures Progress(net, m, k + 1, 0, 0)
  {
  }

  // ---------- the matrix before and after ----------

  ghost predicate Initial(net: Net, m: seq<int32>) {
    && |m| == net.n * net.n
    && forall i, j {:trigger At(m, net.n, i, j)} :: net.Node(i) && net.Node(j) ==>
         At(m, net.n, i, j) == if i == j then 0 else if net.Adjacent(i, j) then 1 else INFINITE
  }

  lemma LongWalksHaveInnerNodes(net: Net, w: seq<int>, i: int, j: int)
    requires Walk(net, w, i, j) && |w| > 2
    ensures !Inside(w, 0)
  {
    assert net.Node(w[1]);
  }

  lemma InitialCovers(net: Net, m: seq<int32>)
    requires Initial(net, m)
    ensures Progress(net, m, 0, 0, 0)
  {
    var n := net.n;
    forall i, j | net.Node(i) && net.Node(j)
      ensures At(m, n, i, j) < INFINITE ==> exists w :: Walk(net, w, i, j) && |w| - 1 == At(m, n, i, j) as int
      ensures Covers(net, m, i, j, 0)
    {
      if i == j {
        assert Walk(net, [i], i, j);
      } else if net.Adjacent(i, j) {
        assert Walk(net, [i, j], i, j);
      }
      forall w | Walk(net, w, i, j) && Inside(w, 0)
        ensures At(m, n, i, j) as int <= |w| - 1
      {
        if |w| > 2 {
          LongWalksHaveInnerNodes(net, w, i, j);
        } else if |w| == 2 {
          assert net.Adjacent(w[0], w[1]);
        }
      }
    }
  }

  /** Once all nodes may be inner nodes the matrix is exact: distances stay below the number of nodes,
      so they can not be confused with infinity. */
  lemma CoveredIsExact(net: Net, m: seq<int32>)
    requires net.n <= MAX_NODES
    requires Progress(net, m, net.n, 0, 0)
    ensures Exact(net, m)
  {
    var n := net.n;
    forall i, j | net.Node(i) && net.Node(j)
      ensures if Connected(net, i, j) then At(m, n, i, j) < INFINITE && HasDistance(net, i, j, At(m, n, i, j) as int)
              else At(m, n, i, j) == INFINITE
    {
      assert Covers(net, m, i, j, n);
      forall w | Walk(net, w, i, j)
        ensures Inside(w, n)
      {
      }
      if Connected(net, i, j) {
        var w :| Walk(net, w, i, j);
        var v := ShortWalk(net, w, i, j);
        assert At(m, n, i, j) as int <= |v| - 1;
      }
    }
  }

  // ---------- the loops ----------

  method InitialMatrix(net: Net) returns (dist: array<int32>)
    requires net.Valid() && net.n <= MAX_NODES
    ensures fresh(dist) && dist.Length == net.n * net.n && Initial(net, dist[..])
  {
    var n := net.n;
    dist := new int32[n * n];
    for i := 0 to n
      invariant forall a, b {:trigger At(dist[..], n, a, b)} :: 0 <= a < i && 0 <= b < n ==>
        At(dist[..], n, a, b) == if a == b then 0 else INFINITE
    {
      for j := 0 to n
        invariant forall a, b {:trigger At(dist[..], n, a, b)} ::
          0 <= a < n && 0 <= b < n && (a < i || (a == i && b < j)) ==>
          At(dist[..], n, a, b) == if a == b then 0 else INFINITE
      {
        Write(dist, n, i, j, if i == j then 0 else INFINITE);
      }
    }
    for e := 0 to |net.edges|
      invariant forall a, b {:trigger At(dist[..], n, a, b)} :: 0 <= a < n && 0 <= b < n ==>
        At(dist[..], n, a, b) ==
        if a == b then 0 else if (a, b) in net.edges[..e] || (b, a) in net.edges[..e] then 1 else INFINITE
    {
      var edge := net.edges[e];
      assert edge in net.edges && net.edges[..e + 1] == net.edges[..e] + [edge];
      Write(dist, n, edge.0, edge.1, 1);
      Write(dist, n, edge.1, edge.0, 1);
    }
    assert net.edges[..|net.edges|] == net.edges;
  }

  method RelaxCell(dist: array<int32>, n: nat, k: int, i: int, j: int)
    requires dist.Length == n * n && 0 <= k < n && 0 <= i < n && 0 <= j < n
    requires 0 <= At(dist[..], n, i, k) <= INFINITE && 0 <= At(dist[..], n, k, j) <= INFINITE
    modifies dist
    ensures dist[..] == Relax(old(dist[..]), n, k, i, j)
  {
    var direct := Read(dist, n, i, j);
    var first := Read(dist, n, i, k);
    var second := Read(dist, n, k, j);
    if direct > first + second {
      Write(dist, n, i, j, first + second);
    }
  }

  /** The triple loop; every 32-bit sum stays in range because no entry exceeds infinity. */
  method HopDistanceMatrix(net: Net) returns (dist: array<int32>)
    requires net.Valid() && net.n <= MAX_NODES
    ensures fresh(dist) && dist.Length == net.n * net.n && Exact(net, dist[..])
    ensures forall i, j {:trigger At(dist[..], net.n, i, j)} ::
      net.Node(i) && net.Node(j) && !Connected(net, i, j) ==> At(dist[..], net.n, i, j) == 100000000
  {
    var n := net.n;
    dist := InitialMatrix(net);
    InitialCovers(net, dist[..]);
    for k := 0 to n
      invariant Progress(net, dist[..], k, 0, 0)
    {
      for i := 0 to n
        invariant Progress(net, dist[..], k, i, 0)
      {
        for j := 0 to n
          invariant Progress(net, dist[..], k, i, j)
        {
          RelaxStep(net, dist[..], k, i, j);
          RelaxCell(dist, n, k, i, j);
        }
        NextRow(net, dist[..], k, i);
      }
      NextRound(net, dist[..], k);
    }
    CoveredIsExact(net, dist[..]);
  }
}
