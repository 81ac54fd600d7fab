/** The per-link tables of progressive filling, and what they hold as functions of the flow paths and
    of the rates fixed so far. */
module MmfaTables {
  import opened Collections
  import opened MaxMinFairness

  datatype TightnessError = AllFlowsFixed | NonPositive
  datatype Tightness = Tight(value: real) | Failed(error: TightnessError)

  type Entry = (real, Link)

  /** The per-link dictionaries: flows present, how often fixed flows cross it, and what is left. */
  datatype Tables = Tables(present: map<Link, seq<int>>, numFixed: map<Link, int>, remainder: map<Link, real>) {
    predicate Covers(l: Link) {
      l in present && l in numFixed && l in remainder
    }

    /** Flows still to be fixed, as the counters see it. */
    function Unfixed(l: Link): int
      requires Covers(l)
    {
      |present[l]| - numFixed[l]
    }

    function TightnessOf(l: Link): Tightness
      requires Covers(l)
    {
      CalculateTightness(remainder[l], |present[l]|, numFixed[l])
    }

    /** What would remain of the link if each unfixed flow took `level`. */
    ghost function Slack(l: Link, level: real): real
      requires Covers(l)
    {
      remainder[l] - Times(level, Unfixed(l))
    }
  }

  /** The `n`-fold of a rate; `n` can be negative. */
  ghost function Times(x: real, n: int): real
    decreases if n < 0 then -n else n
  {
    if n == 0 then 0.0 else if n > 0 then Times(x, n - 1) + x else Times(x, n + 1) - x
  }

  lemma {:induction false} TimesMinus(x: real, n: int, k: nat)
    ensures Times(x, n - k) == Times(x, n) - Times(x, k)
  {
    if k > 0 {
      TimesMinus(x, n, k - 1);
    }
  }

  lemma {:induction false} TimesIsProduct(x: real, n: nat)
    ensures Times(x, n) == x * (n as real)
  {
    if n > 0 {
      TimesIsProduct(x, n - 1);
    }
  }

  function CalculateTightness(remainder: real, numPresent: int, numFixed: int): Tightness {
    if numFixed == numPresent then Failed(AllFlowsFixed)
    else
      var value := remainder / ((numPresent - numFixed) as real);
      if value <= 0.0 then Failed(NonPositive) else Tight(value)
  }

  // ---------- how often paths cross links ----------

  /** How many of the first `n` hops are this link. */
  ghost function HopCount(path: Path, link: Link, n: nat): nat
    requires n == 0 || n < |path|
  {
    if n == 0 then 0 else HopCount(path, link, n - 1) + if Hop(path, n - 1) == link then 1 else 0
  }

  ghost function Crossings(path: Path, link: Link): nat
    requires |path| > 0
  {
    HopCount(path, link, |path| - 1)
  }

  ghost predicate CrossesEachLinkOnce(path: Path) {
    forall i, j :: 0 <= i < j < |path| - 1 ==> Hop(path, i) != Hop(path, j)
  }

  ghost predicate AllCrossOnce(paths: seq<Path>) {
    forall f :: 0 <= f < |paths| ==> CrossesEachLinkOnce(paths[f])
  }

  lemma {:induction false} HopCountFacts(path: Path, link: Link, n: nat)
    requires n == 0 || n < |path|
    ensures HopCount(path, link, n) > 0 <==> exists i :: 0 <= i < n && Hop(path, i) == link
    ensures CrossesEachLinkOnce(path) ==> HopCount(path, link, n) <= 1
  {
    if n > 0 {
      HopCountFacts(path, link, n - 1);
    }
  }

  lemma CrossingsFacts(path: Path, link: Link)
    requires |path| > 0
    ensures Crossings(path, link) > 0 <==> Crosses(path, link)
    ensures CrossesEachLinkOnce(path) ==> Crossings(path, link) <= 1
  {
    HopCountFacts(path, link, |path| - 1);
  }

  lemma {:induction false} HopCountGrows(path: Path, link: Link, i: nat, n: nat)
    requires i <= n < |path|
    ensures HopCount(path, link, i) <= HopCount(path, link, n)
    decreases n - i
  {
    if i < n {
      HopCountGrows(path, link, i, n - 1);
    }
  }

  lemma RepeatedHopIsCountedTwice(path: Path)
    requires |path| > 0 && !CrossesEachLinkOnce(path)
    ensures exists link :: Crossings(path, link) > 1 && Crosses(path, link)
  {
    var i, j :| 0 <= i < j < |path| - 1 && Hop(path, i) == Hop(path, j);
    var link := Hop(path, i);
    HopCountFacts(path, link, j);
    HopCountGrows(path, link, j + 1, |path| - 1);
    assert Crossings(path, link) > 1;
  }

  // ---------- what the tables hold, as functions of the paths and the rates fixed so far ----------

  ghost predicate NonEmptyPaths(paths: seq<Path>) {
    forall f :: 0 <= f < |paths| ==> |paths[f]| > 0
  }

  /** The flows among the first `n` that cross the link, in order. */
  ghost function PresentFlows(paths: seq<Path>, link: Link, n: nat): seq<int>
    requires n <= |paths|
  {
    if n == 0 then []
    else PresentFlows(paths, link, n - 1) + if Crosses(paths[n - 1], link) then [n - 1] else []
  }

  /** How often fixed flows cross the link. */
  ghost function FixedCrossings(paths: seq<Path>, fixed: set<int>, link: Link, n: nat): nat
    requires n <= |paths| && NonEmptyPaths(paths)
  {
    if n == 0 then 0
    else FixedCrossings(paths, fixed, link, n - 1) + if n - 1 in fixed then Crossings(paths[n - 1], link) else 0
  }

  /** What fixed flows take from the link, once per crossing. */
  ghost function FixedLoad(paths: seq<Path>, rates: map<int, real>, link: Link, n: nat): real
    requires n <= |paths| && NonEmptyPaths(paths)
  {
    if n == 0 then 0.0
    else FixedLoad(paths, rates, link, n - 1) +
         if n - 1 in rates then Times(rates[n - 1], Crossings(paths[n - 1], link)) else 0.0
  }

  lemma {:induction false} PresentFlowsAre(paths: seq<Path>, link: Link, n: nat)
    requires n <= |paths|
    ensures forall f :: f in PresentFlows(paths, link, n) <==> 0 <= f < n && Crosses(paths[f], link)
  {
    if n > 0 {
      PresentFlowsAre(paths, link, n - 1);
    }
  }

  lemma {:induction false} CountOneFlow(paths: seq<Path>, fixed: set<int>, f: int, link: Link, n: nat)
    requires n <= |paths| && NonEmptyPaths(paths)
    requires 0 <= f < |paths| && f !in fixed
    ensures FixedCrossings(paths, fixed + {f}, link, n) ==
            FixedCrossings(paths, fixed, link, n) + if f < n then Crossings(paths[f], link) else 0
  {
    if n > 0 {
      CountOneFlow(paths, fixed, f, link, n - 1);
    }
  }

  lemma {:induction false} LoadOneFlow(
    paths: seq<Path>, rates: map<int, real>, rate: real, f: int, link: Link, n: nat)
    requires n <= |paths| && NonEmptyPaths(paths)
    requires 0 <= f < |paths| && f !in rates
    ensures FixedLoad(paths, rates[f := rate], link, n) ==
            FixedLoad(paths, rates, link, n) + if f < n then Times(rate, Crossings(paths[f], link)) else 0.0
  {
    if n > 0 {
      LoadOneFlow(paths, rates, rate, f, link, n - 1);
    }
  }

  lemma {:induction false} NothingFixedYet(paths: seq<Path>, link: Link, n: nat)
    requires n <= |paths| && NonEmptyPaths(paths)
    ensures FixedCrossings(paths, {}, link, n) == 0
    ensures FixedLoad(paths, map[], link, n) == 0.0
  {
    if n > 0 {
      NothingFixedYet(paths, link, n - 1);
    }
  }

  /** The flows among the first `n` that cross the link and are fixed. */
  ghost function FixedPresent(paths: seq<Path>, fixed: set<int>, link: Link, n: nat): set<int>
    requires n <= |paths|
  {
    set f | 0 <= f < n && Crosses(paths[f], link) && f in fixed
  }

  lemma FixedPresentGrows(paths: seq<Path>, fixed: set<int>, link: Link, n: nat)
    requires n < |paths|
    ensures |FixedPresent(paths, fixed, link, n + 1)|
      == |FixedPresent(paths, fixed, link, n)| + if Crosses(paths[n], link) && n in fixed then 1 else 0
  {
    var before, after := FixedPresent(paths, fixed, link, n), FixedPresent(paths, fixed, link, n + 1);
    assert after == if Crosses(paths[n], link) && n in fixed then before + {n} else before;
  }

  /** The counter of a link is at least the number of fixed flows on it, and it is exactly that number
      if and only if none of these flows crosses the link more than once. */
  lemma {:induction false} CounterCountsFixedFlows(paths: seq<Path>, fixed: set<int>, link: Link, n: nat)
    requires n <= |paths| && NonEmptyPaths(paths)
    ensures FixedCrossings(paths, fixed, link, n) >= |FixedPresent(paths, fixed, link, n)|
    ensures FixedCrossings(paths, fixed, link, n) == |FixedPresent(paths, fixed, link, n)| <==>
            forall f :: 0 <= f < n && f in fixed ==> Crossings(paths[f], link) <= 1
  {
    if n > 0 {
      CounterCountsFixedFlows(paths, fixed, link, n - 1);
      FixedPresentGrows(paths, fixed, link, n - 1);
      CrossingsFacts(paths[n - 1], link);
    } else {
      assert FixedPresent(paths, fixed, link, 0) == {};
    }
  }

  /** The list of present flows holds each once, in ascending order. */
  lemma {:induction false} PresentFlowsAscend(paths: seq<Path>, link: Link, n: nat)
    requires n <= |paths|
    ensures forall i, j :: 0 <= i < j < |PresentFlows(paths, link, n)| ==>
      PresentFlows(paths, link, n)[i] < PresentFlows(paths, link, n)[j]
  {
    if n > 0 {
      PresentFlowsAscend(paths, link, n - 1);
      var before := PresentFlows(paths, link, n - 1);
      forall i | 0 <= i < |before|
        ensures before[i] < n - 1
      {
        PresentFlowsAre(paths, link, n - 1);
        assert before[i] in before;
      }
    }
  }

  /** With no repeated crossing the counter reaches the number of present flows exactly when all of
      them are fixed. */
  lemma {:induction false} CounterIsExactWithoutRepeats(paths: seq<Path>, fixed: set<int>, link: Link, n: nat)
    requires n <= |paths| && NonEmptyPaths(paths) && AllCrossOnce(paths)
    ensures FixedCrossings(paths, fixed, link, n) == |FixedPresent(paths, fixed, link, n)|
    ensures FixedCrossings(paths, fixed, link, n) <= |PresentFlows(paths, link, n)|
    ensures FixedCrossings(paths, fixed, link, n) == |PresentFlows(paths, link, n)| <==>
            forall f :: 0 <= f < n && Crosses(paths[f], link) ==> f in fixed
  {
    if n > 0 {
      CounterIsExactWithoutRepeats(paths, fixed, link, n - 1);
      FixedPresentGrows(paths, fixed, link, n - 1);
      CrossingsFacts(paths[n - 1], link);
    } else {
      assert FixedPresent(paths, fixed, link, 0) == {};
    }
  }

  /** With all flows fixed the counter equals the number of present flows only if nobody crosses the
      link more than once. */
  lemma {:induction false} CounterOvershootsOnRepeats(paths: seq<Path>, fixed: set<int>, link: Link, n: nat)
    requires n <= |paths| && NonEmptyPaths(paths)
    requires forall f :: 0 <= f < n ==> f in fixed
    ensures FixedCrossings(paths, fixed, link, n) >= |PresentFlows(paths, link, n)|
    ensures FixedCrossings(paths, fixed, link, n) == |PresentFlows(paths, link, n)| ==>
            forall f :: 0 <= f < n ==> Crossings(paths[f], link) <= 1
  {
    if n > 0 {
      CounterOvershootsOnRepeats(paths, fixed, link, n - 1);
      CrossingsFacts(paths[n - 1], link);
    }
  }

  /** Once all flows on a link are fixed, fixing others changes nothing on it. */
  lemma {:induction false} SettledLoad(
    paths: seq<Path>, rates: map<int, real>, more: map<int, real>, link: Link, n: nat)
    requires n <= |paths| && NonEmptyPaths(paths)
    requires forall f :: f in rates ==> f in more && more[f] == rates[f]
    requires forall f :: 0 <= f < n && Crosses(paths[f], link) ==> f in rates
    ensures FixedLoad(paths, more, link, n) == FixedLoad(paths, rates, link, n)
  {
    if n > 0 {
      SettledLoad(paths, rates, more, link, n - 1);
      if n - 1 in more && n - 1 !in rates {
        CrossingsFacts(paths[n - 1], link);
        assert Times(more[n - 1], 0) == 0.0;
      }
    }
  }

  /** The rates as a sequence, once every flow has one. */
  ghost function AsSeq(rates: map<int, real>, n: nat): seq<real>
    requires forall f :: 0 <= f < n ==> f in rates
  {
    seq(n, f requires 0 <= f < n => rates[f])
  }

  lemma {:induction false} FixedLoadIsLoad(paths: seq<Path>, rates: map<int, real>, link: Link, n: nat)
    requires n <= |paths| && NonEmptyPaths(paths) && AllCrossOnce(paths)
    requires forall f :: 0 <= f < |paths| ==> f in rates
    ensures FixedLoad(paths, rates, link, n) == Load(paths, AsSeq(rates, |paths|), link, n)
  {
    if n > 0 {
      FixedLoadIsLoad(paths, rates, link, n - 1);
      CrossingsFacts(paths[n - 1], link);
    }
  }

  // ---------- invariants of the filling loop ----------

  ghost predicate Used(paths: seq<Path>, link: Link) {
    exists f :: 0 <= f < |paths| && Crosses(paths[f], link)
  }

  /** The links that get an entry in the tables. */
  ghost function UsedLinks(g: Graph, paths: seq<Path>): set<Link> {
    set l | l in g.capacity && Used(paths, l)
  }

  ghost predicate HopsCovered(paths: seq<Path>, links: set<Link>) {
    forall f, j :: 0 <= f < |paths| && 0 <= j < |paths[f]| - 1 ==> Hop(paths[f], j) in links
  }

  lemma UsedLinksCoverHops(g: Graph, paths: seq<Path>)
    requires ValidPaths(g, paths)
    ensures HopsCovered(paths, UsedLinks(g, paths))
  {
    forall f, j | 0 <= f < |paths| && 0 <= j < |paths[f]| - 1
      ensures Hop(paths[f], j) in UsedLinks(g, paths)
    {
      assert ValidPath(g, paths[f]);
      assert Crosses(paths[f], Hop(paths[f], j));
    }
  }

  /** The tables say exactly what follows from the rates fixed so far. */
  ghost predicate TablesExact(g: Graph, paths: seq<Path>, t: Tables, rates: map<int, real>)
    requires NonEmptyPaths(paths)
  {
    && t.numFixed.Keys == t.present.Keys == t.remainder.Keys <= g.capacity.Keys
    && (forall l :: l in t.present ==>
          && t.present[l] == PresentFlows(paths, l, |paths|)
          && t.numFixed[l] == FixedCrossings(paths, rates.Keys, l, |paths|)
          && t.remainder[l] == g.capacity[l] - FixedLoad(paths, rates, l, |paths|))
  }

  ghost predicate Listed(entries: seq<Entry>, l: Link) {
    exists i :: 0 <= i < |entries| && entries[i].1 == l
  }

  ghost predicate UpToDate(t: Tables, e: Entry) {
    t.Covers(e.1) && t.TightnessOf(e.1) == Tight(e.0)
  }

  /** Outside `todo`, the list holds one up-to-date entry per link whose counter is not full. */
  ghost predicate ListExact(t: Tables, entries: seq<Entry>, todo: set<Link>) {
    && t.numFixed.Keys == t.present.Keys == t.remainder.Keys
    && (forall i, j :: 0 <= i < j < |entries| ==> entries[i].1 != entries[j].1)
    && (forall i :: 0 <= i < |entries| ==> entries[i].1 in t.present)
    && (forall i :: 0 <= i < |entries| && entries[i].1 !in todo ==> UpToDate(t, entries[i]))
    && (forall l :: l in t.present && l !in todo && t.Unfixed(l) != 0 ==> Listed(entries, l))
  }

  /** Every link can still give each of its unfixed flows `level`, and nobody got more than that. */
  ghost predicate Levelled(t: Tables, rates: map<int, real>, level: real) {
    && t.numFixed.Keys == t.present.Keys == t.remainder.Keys
    && level >= 0.0
    && (forall l :: l in t.present ==> t.Slack(l, level) >= 0.0)
    && (forall f :: f in rates ==> 0.0 <= rates[f] <= level)
  }

  /** All flows on the link are fixed, they fill it, and none of them has more than `f`. */
  ghost predicate SettledBottleneck(g: Graph, paths: seq<Path>, rates: map<int, real>, f: int, l: Link)
    requires NonEmptyPaths(paths) && f in rates && 0 <= f < |paths|
  {
    && l in g.capacity
    && Crosses(paths[f], l)
    && (forall h :: 0 <= h < |paths| && Crosses(paths[h], l) ==> h in rates && rates[h] <= rates[f])
    && FixedLoad(paths, rates, l, |paths|) == g.capacity[l]
  }

  ghost predicate Settled(g: Graph, paths: seq<Path>, rates: map<int, real>, f: int)
    requires NonEmptyPaths(paths) && f in rates && 0 <= f < |paths|
  {
    exists l :: SettledBottleneck(g, paths, rates, f, l)
  }

  ghost predicate FlowsOf(paths: seq<Path>, rates: map<int, real>) {
    forall f :: f in rates ==> 0 <= f < |paths|
  }

  ghost predicate AllSettled(g: Graph, paths: seq<Path>, rates: map<int, real>)
    requires NonEmptyPaths(paths) && FlowsOf(paths, rates)
  {
    forall f :: f in rates ==> Settled(g, paths, rates, f)
  }

  /** The rates after fixing the flows in `done` at `tight`. */
  ghost predicate RatesFixed(tight: real, rates0: map<int, real>, rates: map<int, real>, done: seq<int>) {
    && (forall f :: f in rates <==> f in rates0 || f in done)
    && (forall f :: f in rates ==> rates[f] == if f in rates0 then rates0[f] else tight)
  }

  /** The tables after fixing some flows at `tight`: only affected links changed, and no link's slack did. */
  ghost predicate TablesCharged(tight: real, t0: Tables, t: Tables, affected: set<Link>) {
    && t.present == t0.present
    && t0.numFixed.Keys == t0.present.Keys == t0.remainder.Keys
    && t.numFixed.Keys == t.present.Keys == t.remainder.Keys
    && affected <= t.present.Keys
    && (forall l :: l in t.present && l !in affected ==>
          t.numFixed[l] == t0.numFixed[l] && t.remainder[l] == t0.remainder[l])
    && (forall l :: l in t.present ==> t.Slack(l, tight) == t0.Slack(l, tight))
  }

  /** The order of the sorted list: by tightness, then by link. */
  predicate NotAfter(a: Entry, b: Entry) {
    a.0 < b.0 || (a.0 == b.0 && (a.1.0 < b.1.0 || (a.1.0 == b.1.0 && a.1.1 <= b.1.1)))
  }

  // ---------- one round, when no path repeats a link ----------

  /** The tightest link bounds what every link can still give, and its own flows use it up. */
  lemma TightestRaisesLevel(
    g: Graph, paths: seq<Path>, t: Tables, entries: seq<Entry>, rates: map<int, real>, level: real, head: Entry)
    requires NonEmptyPaths(paths) && AllCrossOnce(paths)
    requires TablesExact(g, paths, t, rates) && ListExact(t, entries, {})
    requires Levelled(t, rates, level)
    requires head in entries && forall i :: 0 <= i < |entries| ==> NotAfter(head, entries[i])
    ensures level <= head.0 && Levelled(t, rates, head.0)
    ensures head.1 in t.present && t.Unfixed(head.1) != 0 && t.Slack(head.1, head.0) == 0.0
  {
    var k :| 0 <= k < |entries| && entries[k] == head;
    assert UpToDate(t, entries[k]);
    UnfixedIsNatural(g, paths, t, rates, head.1);
    TightMeansQuotient(t, head);
    SlackAt(t, head, level);
    SlackAt(t, head, head.0);
    forall l | l in t.present
      ensures t.Slack(l, head.0) >= 0.0
    {
      if t.Unfixed(l) == 0 {
        assert t.Slack(l, level) == t.remainder[l];
      } else {
        assert Listed(entries, l);
        var i :| 0 <= i < |entries| && entries[i].1 == l;
        assert UpToDate(t, entries[i]);
        UnfixedIsNatural(g, paths, t, rates, l);
        SlackAt(t, entries[i], head.0);
      }
    }
  }

  lemma UnfixedIsNatural(g: Graph, paths: seq<Path>, t: Tables, rates: map<int, real>, l: Link)
    requires NonEmptyPaths(paths) && AllCrossOnce(paths)
    requires TablesExact(g, paths, t, rates) && l in t.present
    ensures t.Unfixed(l) >= 0
    ensures t.Unfixed(l) == 0 <==> forall f :: 0 <= f < |paths| && Crosses(paths[f], l) ==> f in rates
  {
    CounterIsExactWithoutRepeats(paths, rates.Keys, l, |paths|);
  }

  lemma TightMeansQuotient(t: Tables, e: Entry)
    requires UpToDate(t, e)
    ensures t.Unfixed(e.1) != 0 && e.0 > 0.0 && e.0 == t.remainder[e.1] / (t.Unfixed(e.1) as real)
  {
  }

  /** The slack of a listed link at a level is what the level stays below its tightness, per flow. */
  lemma SlackAt(t: Tables, e: Entry, level: real)
    requires UpToDate(t, e) && t.Unfixed(e.1) > 0
    ensures t.Slack(e.1, level) >= 0.0 <==> level <= e.0
    ensures level == e.0 ==> t.Slack(e.1, level) == 0.0
  {
    var u := t.Unfixed(e.1);
    TimesIsProduct(level, u);
    ScaleCompare(t.remainder[e.1], u as real, e.0, level);
  }

  lemma ScaleCompare(x: real, u: real, q: real, level: real)
    requires u > 0.0 && q == x / u
    ensures x - level * u >= 0.0 <==> level <= q
    ensures level == q ==> x - level * u == 0.0
  {
    assert x == q * u;
    assert x - level * u == (q - level) * u;
    if level <= q {
      assert (q - level) * u >= 0.0;
    } else {
      assert (q - level) * u < 0.0;
    }
  }

  /** A link that can give a positive level to its unfixed flows has a positive tightness. */
  lemma LevelledMeansTight(g: Graph, paths: seq<Path>, t: Tables, rates: map<int, real>, level: real, l: Link)
    requires NonEmptyPaths(paths) && AllCrossOnce(paths)
    requires TablesExact(g, paths, t, rates) && Levelled(t, rates, level) && level > 0.0
    requires l in t.present && t.Unfixed(l) != 0
    ensures t.TightnessOf(l).Tight?
  {
    UnfixedIsNatural(g, paths, t, rates, l);
    var u := t.Unfixed(l);
    TimesIsProduct(level, u);
    assert level * (u as real) > 0.0;
    PositiveQuotient(t.remainder[l], u);
  }

  /** Fixing the flows of the tightest link keeps the level and gives each of them its bottleneck. */
  lemma RoundSettles(
    g: Graph, paths: seq<Path>, t: Tables, rates: map<int, real>, lowest: Link, tight: real,
    t': Tables, rates': map<int, real>, affected: set<Link>)
    requires NonEmptyPaths(paths) && AllCrossOnce(paths) && FlowsOf(paths, rates) && FlowsOf(paths, rates')
    requires TablesExact(g, paths, t, rates) && TablesExact(g, paths, t', rates')
    requires lowest in t.present && t.Slack(lowest, tight) == 0.0
    requires Levelled(t, rates, tight) && AllSettled(g, paths, rates)
    requires TablesCharged(tight, t, t', affected) && RatesFixed(tight, rates, rates', t.present[lowest])
    ensures Levelled(t', rates', tight) && AllSettled(g, paths, rates')
  {
    PresentFlowsAre(paths, lowest, |paths|);
    UnfixedIsNatural(g, paths, t', rates', lowest);
    assert t'.Slack(lowest, tight) == t'.remainder[lowest] == 0.0;
    forall f | f in rates'
      ensures Settled(g, paths, rates', f)
    {
      if f in rates {
        assert Settled(g, paths, rates, f);
        var l :| SettledBottleneck(g, paths, rates, f, l);
        SettledLoad(paths, rates, rates', l, |paths|);
        assert SettledBottleneck(g, paths, rates', f, l);
      } else {
        assert SettledBottleneck(g, paths, rates', f, lowest);
      }
    }
  }

  /** A round that picks a listed link always fixes a flow. */
  lemma RoundFixesSomething(
    g: Graph, paths: seq<Path>, t: Tables, rates: map<int, real>, lowest: Link, tight: real, rates': map<int, real>)
    requires NonEmptyPaths(paths) && AllCrossOnce(paths)
    requires TablesExact(g, paths, t, rates) && lowest in t.present && t.Unfixed(lowest) != 0
    requires RatesFixed(tight, rates, rates', t.present[lowest])
    ensures rates' != rates
  {
    UnfixedIsNatural(g, paths, t, rates, lowest);
    PresentFlowsAre(paths, lowest, |paths|);
    var f :| 0 <= f < |paths| && Crosses(paths[f], lowest) && f !in rates;
    assert f in rates';
  }

  lemma PositiveQuotient(x: real, n: int)
    requires n > 0
    ensures x / (n as real) > 0.0 <==> x > 0.0
  {
  }

  /** The links with flows still to be fixed. */
  ghost function OpenLinks(t: Tables): set<Link> {
    set l | l in t.present && t.Covers(l) && t.Unfixed(l) != 0
  }

  /** The list holds the open links, each once. */
  lemma EntriesAreOpenLinks(t: Tables, entries: seq<Entry>)
    requires ListExact(t, entries, {})
    ensures |entries| == |OpenLinks(t)|
  {
    var links := seq(|entries|, i requires 0 <= i < |entries| => entries[i].1);
    forall i | 0 <= i < |links|
      ensures links[i] in OpenLinks(t)
    {
      assert UpToDate(t, entries[i]);
    }
    forall l | l in OpenLinks(t)
      ensures l in links
    {
      assert Listed(entries, l);
      var i :| 0 <= i < |entries| && entries[i].1 == l;
      assert links[i] == l;
    }
    assert Members(links) == OpenLinks(t);
    MembersCount(links);
  }

  /** Fixing more flows closes links and opens none. */
  lemma OpenLinksShrink(
    g: Graph, paths: seq<Path>, t: Tables, t': Tables, rates: map<int, real>, rates': map<int, real>, lowest: Link)
    requires NonEmptyPaths(paths) && AllCrossOnce(paths) && t'.present == t.present
    requires TablesExact(g, paths, t, rates) && TablesExact(g, paths, t', rates')
    requires rates.Keys <= rates'.Keys && lowest in OpenLinks(t)
    requires forall f :: 0 <= f < |paths| && Crosses(paths[f], lowest) ==> f in rates'
    ensures |OpenLinks(t')| < |OpenLinks(t)|
  {
    forall l | l in t.present
      ensures t.Unfixed(l) == 0 ==> t'.Unfixed(l) == 0
      ensures t'.Unfixed(lowest) == 0
    {
      UnfixedIsNatural(g, paths, t, rates, l);
      UnfixedIsNatural(g, paths, t', rates', l);
      UnfixedIsNatural(g, paths, t', rates', lowest);
    }
    SubsetCount(OpenLinks(t'), OpenLinks(t));
    assert lowest !in OpenLinks(t');
  }

  // ---------- after the last round ----------

  ghost predicate Drained(t: Tables) {
    t.numFixed.Keys == t.present.Keys && forall l :: l in t.present ==> |t.present[l]| == t.numFixed[l]
  }

  /** With the list empty and every flow fixed, nobody crossed a link twice. */
  lemma DrainedMeansNoRepeats(g: Graph, paths: seq<Path>, t: Tables, rates: map<int, real>)
    requires NonEmptyPaths(paths) && HopsCovered(paths, t.present.Keys)
    requires TablesExact(g, paths, t, rates) && Drained(t)
    requires forall f :: 0 <= f < |paths| ==> f in rates
    ensures AllCrossOnce(paths)
  {
    forall f | 0 <= f < |paths|
      ensures CrossesEachLinkOnce(paths[f])
    {
      if !CrossesEachLinkOnce(paths[f]) {
        RepeatedHopIsCountedTwice(paths[f]);
        var link :| Crossings(paths[f], link) > 1 && Crosses(paths[f], link);
        assert link in t.present;
        CounterOvershootsOnRepeats(paths, rates.Keys, link, |paths|);
        assert false;
      }
    }
  }

  /** With the list empty and no repeats, exactly the flows that cross a link are fixed. */
  lemma DrainedMeansAllFixed(g: Graph, paths: seq<Path>, t: Tables, rates: map<int, real>, f: int)
    requires NonEmptyPaths(paths) && HopsCovered(paths, t.present.Keys) && AllCrossOnce(paths)
    requires TablesExact(g, paths, t, rates) && Drained(t)
    requires 0 <= f < |paths| && |paths[f]| > 1
    ensures f in rates
  {
    var l := Hop(paths[f], 0);
    assert Crosses(paths[f], l);
    UnfixedIsNatural(g, paths, t, rates, l);
  }

  lemma {:induction false} UnusedLoad(paths: seq<Path>, rates: seq<real>, link: Link, n: nat)
    requires n <= |paths| == |rates| && !Used(paths, link)
    ensures Load(paths, rates, link, n) == 0.0
  {
    if n > 0 {
      UnusedLoad(paths, rates, link, n - 1);
    }
  }

  lemma SettledIsFeasible(g: Graph, paths: seq<Path>, t: Tables, rates: map<int, real>, level: real)
    requires NonEmptyPaths(paths) && AllCrossOnce(paths)
    requires forall f :: 0 <= f < |paths| ==> f in rates
    requires t.present.Keys == UsedLinks(g, paths)
    requires TablesExact(g, paths, t, rates) && Drained(t) && Levelled(t, rates, level)
    requires g.Valid()
    ensures Feasible(g, paths, AsSeq(rates, |paths|))
  {
    var final := AsSeq(rates, |paths|);
    forall l | l in g.capacity
      ensures TotalLoad(paths, final, l) <= g.capacity[l]
    {
      if l in t.present {
        FixedLoadIsLoad(paths, rates, l, |paths|);
        assert t.Slack(l, level) == t.remainder[l];
      } else {
        UnusedLoad(paths, final, l, |paths|);
      }
    }
  }

  lemma SettledIsBottlenecked(g: Graph, paths: seq<Path>, rates: map<int, real>, f: int)
    requires NonEmptyPaths(paths) && AllCrossOnce(paths)
    requires forall h :: 0 <= h < |paths| ==> h in rates
    requires 0 <= f < |paths| && Settled(g, paths, rates, f)
    ensures Bottlenecked(g, paths, AsSeq(rates, |paths|), f)
  {
    var l :| SettledBottleneck(g, paths, rates, f, l);
    FixedLoadIsLoad(paths, rates, l, |paths|);
    assert IsBottleneck(g, paths, AsSeq(rates, |paths|), f, l);
  }

  ghost function AllFlows(n: nat): (s: set<int>)
    ensures forall f :: f in s <==> 0 <= f < n
    ensures |s| == n
  {
    if n == 0 then {} else AllFlows(n - 1) + {n - 1}
  }

  lemma SameSizeIsSame(a: set<int>, b: set<int>)
    requires a <= b && |a| == |b|
    ensures a == b
  {
    assert a + (b - a) == b && a !! (b - a);
    assert |a + (b - a)| == |a| + |b - a|;
  }

  ghost predicate AllFixed(rates: map<int, real>, n: nat) {
    forall f :: f in rates <==> 0 <= f < n
  }

  lemma AllFixedByCount(rates: map<int, real>, n: nat)
    requires forall f :: f in rates ==> 0 <= f < n
    ensures |rates| == n <==> AllFixed(rates, n)
  {
    if |rates.Keys| == n {
      SameSizeIsSame(rates.Keys, AllFlows(n));
    }
    if AllFixed(rates, n) {
      assert rates.Keys == AllFlows(n);
    }
  }
}
