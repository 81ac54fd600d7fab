/** Undirected networks, walks through them, and the number of hops between nodes. */
module HopDistances {

  type Edge = (int, int)

  /** Nodes 0 .. n-1 and undirected edges, each written with its smaller end first. */
  datatype Net = Net(n: nat, edges: seq<Edge>) {
    ghost predicate Valid() {
      forall e :: e in edges ==> 0 <= e.0 < e.1 < n
    }

    predicate Adjacent(a: int, b: int) {
      (a, b) in edges || (b, a) in edges
    }

    predicate Node(a: int) {
      0 <= a < n
    }
  }

  /** A nonempty sequence of nodes from `a` to `b`, each adjacent to the next. */
  ghost predicate Walk(net: Net, w: seq<int>, a: int, b: int) {
    && |w| > 0 && w[0] == a && w[|w| - 1] == b
    && (forall i :: 0 <= i < |w| ==> net.Node(w[i]))
    && (forall i :: 0 <= i < |w| - 1 ==> net.Adjacent(w[i], w[i + 1]))
  }

  ghost predicate Connected(net: Net, a: int, b: int) {
    exists w :: Walk(net, w, a, b)
  }

  /** The least number of hops of any walk. */
  ghost predicate HasDistance(net: Net, a: int, b: int, d: int) {
    && (exists w :: Walk(net, w, a, b) && |w| - 1 == d)
    && (forall w :: Walk(net, w, a, b) ==> d <= |w| - 1)
  }

  lemma DistanceIsUnique(net: Net, a: int, b: int, d: int, e: int)
    requires HasDistance(net, a, b, d) && HasDistance(net, a, b, e)
    ensures d == e
  {
    var w :| Walk(net, w, a, b) && |w| - 1 == d;
    var v :| Walk(net, v, a, b) && |v| - 1 == e;
  }

  lemma Concatenate(net: Net, w: seq<int>, v: seq<int>, a: int, b: int, c: int)
    requires Walk(net, w, a, b) && Walk(net, v, b, c)
    ensures Walk(net, w + v[1..], a, c)
  {
    var u := w + v[1..];
    forall i | 0 <= i < |u| - 1
      ensures net.Adjacent(u[i], u[i + 1])
    {
      if i >= |w| - 1 {
        assert u[i] == v[i - |w| + 1] && u[i + 1] == v[i - |w| + 2];
      }
    }
  }

  lemma Cut(net: Net, w: seq<int>, a: int, b: int, p: int)
    requires Walk(net, w, a, b) && 0 <= p < |w|
    ensures Walk(net, w[..p + 1], a, w[p]) && Walk(net, w[p..], w[p], b)
  {
  }

  // ---------- walks can be shortened until no node repeats ----------

  lemma {:induction false} DistinctFits(w: seq<int>, n: nat)
    requires forall i :: 0 <= i < |w| ==> 0 <= w[i] < n
    requires forall i, j :: 0 <= i < j < |w| ==> w[i] != w[j]
    ensures |w| <= n
  {
    if w != [] {
      assert 0 <= w[0] < n;
      if p :| 0 <= p < |w| && w[p] == n - 1 {
        var v := w[..p] + w[p + 1..];
        DistinctFits(v, n - 1);
      } else {
        DistinctFits(w, n - 1);
      }
    }
  }

  /** Connected nodes are connected by a walk of fewer than `n` hops. */
  lemma {:induction false} ShortWalk(net: Net, w: seq<int>, a: int, b: int) returns (v: seq<int>)
    requires Walk(net, w, a, b)
    ensures Walk(net, v, a, b) && |v| <= net.n && |v| <= |w|
    decreases |w|
  {
    if p, q :| 0 <= p < q < |w| && w[p] == w[q] {
      Cut(net, w, a, b, p);
      Cut(net, w, a, b, q);
      Concatenate(net, w[..p + 1], w[q..], a, w[p], b);
      v := ShortWalk(net, w[..p + 1] + w[q..][1..], a, b);
    } else {
      DistinctFits(w, net.n);
      v := w;
    }
  }

  /** Connected nodes have a distance, and it is less than `n`. */
  lemma DistanceExists(net: Net, a: int, b: int) returns (d: nat)
    requires Connected(net, a, b)
    ensures HasDistance(net, a, b, d) && d < net.n
  {
    var w :| Walk(net, w, a, b);
    var v := Shortest(net, w, a, b);
    var u := ShortWalk(net, v, a, b);
    d := |v| - 1;
  }

  lemma {:induction false} Shortest(net: Net, w: seq<int>, a: int, b: int) returns (v: seq<int>)
    requires Walk(net, w, a, b)
    ensures Walk(net, v, a, b) && |v| <= |w| && forall u :: Walk(net, u, a, b) ==> |v| <= |u|
    decreases |w|
  {
    if u :| Walk(net, u, a, b) && |u| < |w| {
      v := Shortest(net, u, a, b);
    } else {
      v := w;
    }
  }
}
