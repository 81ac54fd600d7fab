/** What it means for an allocation of rates to flows to be max-min fair, and the theory that
    makes progressive filling correct: fairness is the same as every flow having a bottleneck
    link, and there is at most one fair allocation. */
module MaxMinFairness {

  /** A directed link from one node to another. */
  type Link = (int, int)

  /** The nodes a flow visits, in order. */
  type Path = seq<int>

  /** The directed topology: its links, in the order in which they are enumerated, with capacities. */
  datatype Graph = Graph(links: seq<Link>, capacity: map<Link, real>) {
    ghost predicate Valid() {
      && (forall i, j :: 0 <= i < j < |links| ==> links[i] != links[j])
      && (forall l :: l in links <==> l in capacity)
      && (forall l :: l in capacity ==> capacity[l] >= 0.0)
    }
  }

  function Hop(path: Path, i: int): Link
    requires 0 <= i < |path| - 1
  {
    (path[i], path[i + 1])
  }

  ghost predicate Crosses(path: Path, link: Link) {
    exists i :: 0 <= i < |path| - 1 && Hop(path, i) == link
  }

  /** Every hop of the path is a link of the graph; the check made when flow paths are read. */
  ghost predicate ValidPath(g: Graph, path: Path) {
    |path| > 0 && forall i :: 0 <= i < |path| - 1 ==> Hop(path, i) in g.capacity
  }

  ghost predicate ValidPaths(g: Graph, paths: seq<Path>) {
    forall f :: 0 <= f < |paths| ==> ValidPath(g, paths[f])
  }

  /** Total rate of the first `n` flows over a link. */
  ghost function Load(paths: seq<Path>, rates: seq<real>, link: Link, n: nat): real
    requires n <= |paths| == |rates|
  {
    if n == 0 then 0.0
    else Load(paths, rates, link, n - 1) + if Crosses(paths[n - 1], link) then rates[n - 1] else 0.0
  }

  ghost function TotalLoad(paths: seq<Path>, rates: seq<real>, link: Link): real
    requires |paths| == |rates|
  {
    Load(paths, rates, link, |paths|)
  }

  ghost predicate Feasible(g: Graph, paths: seq<Path>, rates: seq<real>) {
    && |rates| == |paths|
    && (forall f :: 0 <= f < |rates| ==> rates[f] >= 0.0)
    && (forall l :: l in g.capacity ==> TotalLoad(paths, rates, l) <= g.capacity[l])
  }

  /** Some flow with no more than `f` gets less under the other rates. */
  ghost predicate SomebodyPays(rates: seq<real>, other: seq<real>, f: int)
    requires 0 <= f < |rates| == |other|
  {
    exists h :: 0 <= h < |rates| && rates[h] <= rates[f] && other[h] < rates[h]
  }

  /** Nobody can be given more without giving less to somebody who had no more. */
  ghost predicate MaxMinFair(g: Graph, paths: seq<Path>, rates: seq<real>) {
    && Feasible(g, paths, rates)
    && forall other, f {:trigger SomebodyPays(rates, other, f)} ::
         Feasible(g, paths, other) && 0 <= f < |rates| && other[f] > rates[f] ==> SomebodyPays(rates, other, f)
  }

  /** The link is saturated, the flow crosses it, and no flow on it has a larger rate. */
  ghost predicate IsBottleneck(g: Graph, paths: seq<Path>, rates: seq<real>, f: int, link: Link)
    requires |rates| == |paths| && 0 <= f < |paths|
  {
    && link in g.capacity
    && Crosses(paths[f], link)
    && TotalLoad(paths, rates, link) == g.capacity[link]
    && forall h :: 0 <= h < |paths| && Crosses(paths[h], link) ==> rates[h] <= rates[f]
  }

  ghost predicate Bottlenecked(g: Graph, paths: seq<Path>, rates: seq<real>, f: int)
    requires |rates| == |paths| && 0 <= f < |paths|
  {
    exists l :: IsBottleneck(g, paths, rates, f, l)
  }

  ghost predicate EveryFlowBottlenecked(g: Graph, paths: seq<Path>, rates: seq<real>)
    requires |rates| == |paths|
  {
    forall f :: 0 <= f < |paths| ==> Bottlenecked(g, paths, rates, f)
  }

  // ---------- loads ----------

  /** A link whose flows all get at least as much, and one of them more, carries more. */
  lemma {:induction false} LoadGrows(paths: seq<Path>, a: seq<real>, b: seq<real>, link: Link, f: int, n: nat)
    requires n <= |paths| == |a| == |b|
    requires forall h :: 0 <= h < n && Crosses(paths[h], link) ==> a[h] <= b[h]
    ensures Load(paths, a, link, n) <= Load(paths, b, link, n)
    ensures 0 <= f < n && Crosses(paths[f], link) ==>
              Load(paths, a, link, n) + (b[f] - a[f]) <= Load(paths, b, link, n)
  {
    if n > 0 {
      LoadGrows(paths, a, b, link, f, n - 1);
    }
  }

  // ---------- bottlenecks give fairness ----------

  lemma BottleneckBlocks(g: Graph, paths: seq<Path>, rates: seq<real>, other: seq<real>, f: int, link: Link)
    requires |rates| == |paths| && 0 <= f < |paths|
    requires IsBottleneck(g, paths, rates, f, link)
    requires Feasible(g, paths, other) && other[f] > rates[f]
    ensures SomebodyPays(rates, other, f)
  {
    if forall h :: 0 <= h < |paths| && Crosses(paths[h], link) ==> rates[h] <= other[h] {
      LoadGrows(paths, rates, other, link, f, |paths|);
      assert false;
    } else {
      var h :| 0 <= h < |paths| && Crosses(paths[h], link) && other[h] < rates[h];
      assert rates[h] <= rates[f];
    }
  }

  lemma BottlenecksGiveFairness(g: Graph, paths: seq<Path>, rates: seq<real>)
    requires Feasible(g, paths, rates) && EveryFlowBottlenecked(g, paths, rates)
    ensures MaxMinFair(g, paths, rates)
  {
    forall other, f | Feasible(g, paths, other) && 0 <= f < |rates| && other[f] > rates[f]
      ensures SomebodyPays(rates, other, f)
    {
      assert Bottlenecked(g, paths, rates, f);
      var l :| IsBottleneck(g, paths, rates, f, l);
      BottleneckBlocks(g, paths, rates, other, f, l);
    }
  }

  // ---------- fairness gives bottlenecks ----------

  /** Give flow `f` a little more, and take the same from every flow that has more than `f`. */
  ghost function Shift(rates: seq<real>, f: int, delta: real): (r: seq<real>)
    requires 0 <= f < |rates|
  {
    seq(|rates|, h requires 0 <= h < |rates| =>
      if h == f then rates[h] + delta else if rates[h] > rates[f] then rates[h] - delta else rates[h])
  }

  lemma {:induction false} SmallStepForFlows(rates: seq<real>, f: int, n: nat) returns (delta: real)
    requires 0 <= f < |rates| && n <= |rates|
    ensures delta > 0.0
    ensures forall h :: 0 <= h < n && rates[h] > rates[f] ==> delta <= rates[h] - rates[f]
  {
    if n == 0 {
      delta := 1.0;
    } else {
      delta := SmallStepForFlows(rates, f, n - 1);
      if rates[n - 1] > rates[f] && rates[n - 1] - rates[f] < delta {
        delta := rates[n - 1] - rates[f];
      }
    }
  }

  ghost predicate SmallForLink(g: Graph, paths: seq<Path>, rates: seq<real>, link: Link, delta: real)
    requires |rates| == |paths|
  {
    link in g.capacity && TotalLoad(paths, rates, link) < g.capacity[link] ==>
      delta <= g.capacity[link] - TotalLoad(paths, rates, link)
  }

  lemma {:induction false} SmallStepForLinks(g: Graph, paths: seq<Path>, rates: seq<real>, start: real, n: nat)
    returns (delta: real)
    requires |rates| == |paths| && n <= |g.links| && start > 0.0
    ensures 0.0 < delta <= start
    ensures forall i :: 0 <= i < n ==> SmallForLink(g, paths, rates, g.links[i], delta)
  {
    if n == 0 {
      delta := start;
    } else {
      delta := SmallStepForLinks(g, paths, rates, start, n - 1);
      var l := g.links[n - 1];
      var load := TotalLoad(paths, rates, l);
      if l in g.capacity && load < g.capacity[l] && g.capacity[l] - load < delta {
        delta := g.capacity[l] - load;
      }
    }
  }

  /** On any link the shift adds at most `delta`, nothing when `f` is not on it, and nothing when a
      larger flow is on it. */
  lemma {:induction false} ShiftLoad(paths: seq<Path>, rates: seq<real>, f: int, delta: real, link: Link, n: nat)
    requires n <= |paths| == |rates| && 0 <= f < |rates| && delta > 0.0
    ensures var before, after := Load(paths, rates, link, n), Load(paths, Shift(rates, f, delta), link, n);
            && after <= before + (if f < n && Crosses(paths[f], link) then delta else 0.0)
            && ((exists h :: 0 <= h < n && Crosses(paths[h], link) && rates[h] > rates[f]) ==>
                  after <= before - (if f < n && Crosses(paths[f], link) then 0.0 else delta))
  {
    if n > 0 {
      ShiftLoad(paths, rates, f, delta, link, n - 1);
      if h :| 0 <= h < n && Crosses(paths[h], link) && rates[h] > rates[f] {
        assert h == n - 1 || exists h' :: 0 <= h' < n - 1 && Crosses(paths[h'], link) && rates[h'] > rates[f];
      }
    }
  }

  lemma FairnessGivesBottlenecks(g: Graph, paths: seq<Path>, rates: seq<real>)
    requires g.Valid() && ValidPaths(g, paths)
    requires MaxMinFair(g, paths, rates)
    ensures EveryFlowBottlenecked(g, paths, rates)
  {
    forall f | 0 <= f < |paths|
      ensures Bottlenecked(g, paths, rates, f)
    {
      if !Bottlenecked(g, paths, rates, f) {
        var other := UnblockedFlowCanGrow(g, paths, rates, f);
      }
    }
  }

  /** A flow without a bottleneck can be given more at the cost of larger flows only. */
  lemma UnblockedFlowCanGrow(g: Graph, paths: seq<Path>, rates: seq<real>, f: int) returns (other: seq<real>)
    requires g.Valid() && Feasible(g, paths, rates) && 0 <= f < |paths|
    requires !Bottlenecked(g, paths, rates, f)
    ensures Feasible(g, paths, other) && other[f] > rates[f]
    ensures forall h :: 0 <= h < |rates| && other[h] < rates[h] ==> rates[h] > rates[f]
    ensures !MaxMinFair(g, paths, rates)
  {
    var delta := SmallStepForFlows(rates, f, |rates|);
    delta := SmallStepForLinks(g, paths, rates, delta, |g.links|);
    other := Shift(rates, f, delta);
    forall l | l in g.capacity
      ensures TotalLoad(paths, other, l) <= g.capacity[l]
    {
      ShiftLoad(paths, rates, f, delta, l, |paths|);
      assert l in g.links;
      assert SmallForLink(g, paths, rates, l, delta);
      assert !IsBottleneck(g, paths, rates, f, l);
    }
    assert Feasible(g, paths, other);
    assert other[f] > rates[f];
    assert !SomebodyPays(rates, other, f);
  }

  /** The bottleneck theorem: a feasible allocation is max-min fair exactly when every flow crosses a
      saturated link on which no flow has a larger rate. */
  lemma BottleneckTheorem(g: Graph, paths: seq<Path>, rates: seq<real>)
    requires g.Valid() && ValidPaths(g, paths) && Feasible(g, paths, rates)
    ensures MaxMinFair(g, paths, rates) <==> EveryFlowBottlenecked(g, paths, rates)
  {
    if MaxMinFair(g, paths, rates) {
      FairnessGivesBottlenecks(g, paths, rates);
    }
    if EveryFlowBottlenecked(g, paths, rates) {
      BottlenecksGiveFairness(g, paths, rates);
    }
  }

  // ---------- uniqueness ----------

  function Min(x: real, y: real): real {
    if x <= y then x else y
  }

  /** Among the flows on which two allocations differ, one whose smaller rate is least. */
  lemma {:induction false} LeastDifference(a: seq<real>, b: seq<real>, n: nat) returns (f: int)
    requires n <= |a| == |b|
    requires exists h :: 0 <= h < n && a[h] != b[h]
    ensures 0 <= f < n && a[f] != b[f]
    ensures forall h :: 0 <= h < n && a[h] != b[h] ==> Min(a[f], b[f]) <= Min(a[h], b[h])
  {
    if forall h :: 0 <= h < n - 1 ==> a[h] == b[h] {
      f := n - 1;
    } else {
      f := LeastDifference(a, b, n - 1);
      if a[n - 1] != b[n - 1] && Min(a[n - 1], b[n - 1]) < Min(a[f], b[f]) {
        f := n - 1;
      }
    }
  }

  /** The allocations differ on another flow with a smaller least rate. */
  ghost predicate Undercut(a: seq<real>, b: seq<real>, f: int)
    requires 0 <= f < |a| == |b|
  {
    exists h :: 0 <= h < |a| && a[h] != b[h] && Min(a[h], b[h]) < Min(a[f], b[f])
  }

  lemma FairnessUndercuts(g: Graph, paths: seq<Path>, a: seq<real>, b: seq<real>, f: int)
    requires MaxMinFair(g, paths, a) && Feasible(g, paths, b)
    requires 0 <= f < |a| && a[f] < b[f]
    ensures Undercut(a, b, f) && Undercut(b, a, f)
  {
    assert SomebodyPays(a, b, f);
    var h :| 0 <= h < |a| && a[h] <= a[f] && b[h] < a[h];
  }

  lemma NoEndlessUndercutting(a: seq<real>, b: seq<real>)
    requires |a| == |b|
    requires forall f :: 0 <= f < |a| && a[f] != b[f] ==> Undercut(a, b, f)
    ensures a == b
  {
    if exists h :: 0 <= h < |a| && a[h] != b[h] {
      var f := LeastDifference(a, b, |a|);
      assert false;
    }
  }

  /** There is at most one max-min fair allocation, so neither the choice among equally tight links
      nor the order in which affected links are revisited can show in the result. */
  lemma FairAllocationIsUnique(g: Graph, paths: seq<Path>, a: seq<real>, b: seq<real>)
    requires MaxMinFair(g, paths, a) && MaxMinFair(g, paths, b)
    ensures a == b
  {
    forall f | 0 <= f < |a| && a[f] != b[f]
      ensures Undercut(a, b, f)
    {
      if a[f] < b[f] {
        FairnessUndercuts(g, paths, a, b, f);
      } else {
        FairnessUndercuts(g, paths, b, a, f);
      }
    }
    NoEndlessUndercutting(a, b);
  }

  /** Flows with the same path get the same rate. */
  lemma SamePathSameRate(g: Graph, paths: seq<Path>, rates: seq<real>, f: int, h: int)
    requires g.Valid() && ValidPaths(g, paths) && MaxMinFair(g, paths, rates)
    requires 0 <= f < |paths| && 0 <= h < |paths| && paths[f] == paths[h]
    ensures rates[f] == rates[h]
  {
    FairnessGivesBottlenecks(g, paths, rates);
    assert Bottlenecked(g, paths, rates, f) && Bottlenecked(g, paths, rates, h);
    var lf :| IsBottleneck(g, paths, rates, f, lf);
    var lh :| IsBottleneck(g, paths, rates, h, lh);
  }
}
