/** Progressive filling: repeatedly take the tightest link, fix all its flows at its tightness, and
    revisit the links those flows cross. */
module MmfaSolver {
  import opened MaxMinFairness
  import opened MmfaTables

  /** How a run ends. `SpinsForever` is the loop that goes round without changing its state: the
      tightest link has no flow left to fix, so it stays the tightest link. */
  datatype Outcome =
    | Allocation(rates: map<int, real>)
    | InvalidPath(line: nat)
    | NoFlows
    | NonPositiveTightness
    | FlowsLeftUnfixed
    | SpinsForever

  // ---------- the loops ----------

  /** Whether the path crosses the link: the scan with an early exit. */
  method LinkIsThere(path: Path, link: Link) returns (there: bool)
    ensures there <==> Crosses(path, link)
  {
    there := false;
    var i := 0;
    while i < |path| - 1
      invariant 0 <= i && !there
      invariant forall j :: 0 <= j < i && j < |path| - 1 ==> Hop(path, j) != link
    {
      if path[i] == link.0 && path[i + 1] == link.1 {
        assert Hop(path, i) == link;
        return true;
      }
      i := i + 1;
    }
  }

  method FindPresentFlows(paths: seq<Path>, link: Link) returns (present: seq<int>)
    ensures present == PresentFlows(paths, link, |paths|)
    ensures forall f :: f in present <==> 0 <= f < |paths| && Crosses(paths[f], link)
    ensures forall i, j :: 0 <= i < j < |present| ==> present[i] < present[j]
  {
    PresentFlowsAre(paths, link, |paths|);
    PresentFlowsAscend(paths, link, |paths|);
    present := [];
    for f := 0 to |paths|
      invariant present == PresentFlows(paths, link, f)
    {
      var there := LinkIsThere(paths[f], link);
      if there {
        present := present + [f];
      }
    }
  }

  lemma ExtendList(before: Tables, after: Tables, entries: seq<Entry>, e: Entry)
    requires ListExact(before, entries, {})
    requires e.1 !in before.present && UpToDate(after, e)
    requires after.present.Keys == after.numFixed.Keys == after.remainder.Keys == before.present.Keys + {e.1}
    requires forall l :: l in before.present ==>
      && after.present[l] == before.present[l]
      && after.numFixed[l] == before.numFixed[l]
      && after.remainder[l] == before.remainder[l]
    ensures ListExact(after, entries + [e], {})
  {
    var longer := entries + [e];
    assert longer[|entries|] == e;
    forall l | l in after.present && after.Unfixed(l) != 0
      ensures Listed(longer, l)
    {
      if l != e.1 {
        var i :| 0 <= i < |entries| && entries[i].1 == l;
        assert longer[i].1 == l;
      }
    }
    forall i | 0 <= i < |entries|
      ensures UpToDate(after, longer[i])
    {
      assert UpToDate(before, entries[i]);
    }
  }

  /** The used links among the first `n` of the graph. */
  ghost function UsedAmong(g: Graph, paths: seq<Path>, n: nat): set<Link>
    requires n <= |g.links|
  {
    if n == 0 then {}
    else UsedAmong(g, paths, n - 1) + if Used(paths, g.links[n - 1]) then {g.links[n - 1]} else {}
  }

  lemma {:induction false} UsedAmongAre(g: Graph, paths: seq<Path>, link: Link, n: nat)
    requires n <= |g.links|
    ensures link in UsedAmong(g, paths, n) <==> Used(paths, link) && link in g.links[..n]
  {
    if n > 0 {
      UsedAmongAre(g, paths, link, n - 1);
      assert g.links[..n] == g.links[..n - 1] + [g.links[n - 1]];
    }
  }

  /** The tables after enumerating the first `n` links of the graph. */
  ghost predicate Started(g: Graph, paths: seq<Path>, t: Tables, n: nat)
    requires n <= |g.links|
  {
    && t.numFixed.Keys == t.present.Keys == t.remainder.Keys <= g.capacity.Keys
    && t.present.Keys == UsedAmong(g, paths, n)
    && (forall l {:trigger TableEntry(g, paths, t, l)} :: l in t.present ==> TableEntry(g, paths, t, l))
  }

  /** What the tables say of a link before any flow is fixed. */
  ghost predicate TableEntry(g: Graph, paths: seq<Path>, t: Tables, l: Link)
    requires l in g.capacity && t.Covers(l)
  {
    && t.present[l] == PresentFlows(paths, l, |paths|)
    && t.numFixed[l] == 0
    && t.remainder[l] == g.capacity[l] > 0.0
  }

  lemma StartedKeys(g: Graph, paths: seq<Path>, t: Tables)
    requires g.Valid() && Started(g, paths, t, |g.links|)
    ensures t.present.Keys == UsedLinks(g, paths)
  {
    forall l
      ensures l in t.present <==> l in UsedLinks(g, paths)
    {
      UsedAmongAre(g, paths, l, |g.links|);
      assert g.links[..|g.links|] == g.links;
    }
  }

  lemma StartedIsExact(g: Graph, paths: seq<Path>, t: Tables)
    requires g.Valid() && NonEmptyPaths(paths) && Started(g, paths, t, |g.links|)
    ensures TablesExact(g, paths, t, map[])
    ensures forall l :: l in t.present ==> g.capacity[l] > 0.0
  {
    var none: map<int, real> := map[];
    assert none.Keys == {};
    forall l | l in t.present
      ensures t.present[l] == PresentFlows(paths, l, |paths|) && g.capacity[l] > 0.0
      ensures t.numFixed[l] == FixedCrossings(paths, {}, l, |paths|)
      ensures t.remainder[l] == g.capacity[l] - FixedLoad(paths, map[], l, |paths|)
    {
      assert TableEntry(g, paths, t, l);
      NothingFixedYet(paths, l, |paths|);
    }
  }

  lemma UsedIsPresent(paths: seq<Path>, link: Link)
    ensures Used(paths, link) <==> PresentFlows(paths, link, |paths|) != []
  {
    PresentFlowsAre(paths, link, |paths|);
    var present := PresentFlows(paths, link, |paths|);
    if present != [] {
      assert present[0] in present && Crosses(paths[present[0]], link);
    }
  }

  /** The tables with the entry of one more link. */
  function WithLink(t: Tables, link: Link, present: seq<int>, capacity: real): Tables {
    Tables(t.present[link := present], t.numFixed[link := 0], t.remainder[link := capacity])
  }

  lemma StartLink(g: Graph, paths: seq<Path>, t: Tables, n: nat)
    requires g.Valid() && n < |g.links| && Started(g, paths, t, n)
    requires Used(paths, g.links[n]) && g.capacity[g.links[n]] > 0.0
    ensures var link := g.links[n];
      && link !in t.present
      && Started(g, paths, WithLink(t, link, PresentFlows(paths, link, |paths|), g.capacity[link]), n + 1)
  {
    var link := g.links[n];
    var present := PresentFlows(paths, link, |paths|);
    LinkIsNew(g, paths, n);
    WithLinkKeys(t, link, present, g.capacity[link]);
    var t' := WithLink(t, link, present, g.capacity[link]);
    forall l | l in t'.present
      ensures TableEntry(g, paths, t', l)
    {
      if l != link {
        assert TableEntry(g, paths, t, l);
        EntryStays(g, paths, t, link, present, g.capacity[link], l);
      }
    }
  }

  lemma WithLinkKeys(t: Tables, link: Link, present: seq<int>, capacity: real)
    ensures var t' := WithLink(t, link, present, capacity);
      && t'.present.Keys == t.present.Keys + {link}
      && t'.numFixed.Keys == t.numFixed.Keys + {link}
      && t'.remainder.Keys == t.remainder.Keys + {link}
  {
  }

  lemma EntryStays(
    g: Graph, paths: seq<Path>, t: Tables, link: Link, present: seq<int>, capacity: real, l: Link)
    requires l in g.capacity && t.Covers(l) && TableEntry(g, paths, t, l) && l != link
    ensures TableEntry(g, paths, WithLink(t, link, present, capacity), l)
  {
  }

  lemma ListWithLink(
    t: Tables, link: Link, present: seq<int>, capacity: real, entries: seq<Entry>, tight: real)
    requires ListExact(t, entries, {}) && link !in t.present
    requires CalculateTightness(capacity, |present|, 0) == Tight(tight)
    ensures ListExact(WithLink(t, link, present, capacity), entries + [(tight, link)], {})
  {
    WithLinkKeys(t, link, present, capacity);
    ExtendList(t, WithLink(t, link, present, capacity), entries, (tight, link));
  }

  lemma LinkIsNew(g: Graph, paths: seq<Path>, n: nat)
    requires g.Valid() && n < |g.links|
    ensures g.links[n] in g.capacity && g.links[n] !in UsedAmong(g, paths, n)
  {
    UsedAmongAre(g, paths, g.links[n], n);
    assert g.links[n] in g.links;
  }

  lemma SkipLink(g: Graph, paths: seq<Path>, t: Tables, n: nat)
    requires n < |g.links| && Started(g, paths, t, n) && !Used(paths, g.links[n])
    ensures Started(g, paths, t, n + 1)
  {
  }

  /** Enter the next link of the graph, if it is used; fails if it is used and has no capacity. */
  method AddLink(g: Graph, paths: seq<Path>, t0: Tables, entries0: seq<Entry>, n: nat)
    returns (ok: bool, t: Tables, entries: seq<Entry>)
    requires g.Valid() && NonEmptyPaths(paths) && n < |g.links|
    requires Started(g, paths, t0, n) && ListExact(t0, entries0, {})
    ensures ok <==> (Used(paths, g.links[n]) ==> g.capacity[g.links[n]] > 0.0)
    ensures ok ==> Started(g, paths, t, n + 1) && ListExact(t, entries, {})
  {
    var link := g.links[n];
    assert link in g.capacity;
    var present := FindPresentFlows(paths, link);
    UsedIsPresent(paths, link);
    if |present| == 0 {
      SkipLink(g, paths, t0, n);
      return true, t0, entries0;
    }
    var tightness := CalculateTightness(g.capacity[link], |present|, 0);
    PositiveQuotient(g.capacity[link], |present|);
    if tightness.Failed? {
      return false, t0, entries0;
    }
    StartLink(g, paths, t0, n);
    t := WithLink(t0, link, present, g.capacity[link]);
    ListWithLink(t0, link, present, g.capacity[link], entries0, tightness.value);
    return true, t, entries0 + [(tightness.value, link)];
  }

  /** Set up the tables and the list; fails on the first used link without capacity. */
  method BuildTables(g: Graph, paths: seq<Path>) returns (ok: bool, t: Tables, entries: seq<Entry>)
    requires g.Valid() && NonEmptyPaths(paths)
    ensures ok <==> forall l :: l in UsedLinks(g, paths) ==> g.capacity[l] > 0.0
    ensures ok ==> t.present.Keys == UsedLinks(g, paths)
    ensures ok ==> TablesExact(g, paths, t, map[]) && ListExact(t, entries, {})
  {
    t, entries := Tables(map[], map[], map[]), [];
    for i := 0 to |g.links|
      invariant Started(g, paths, t, i) && ListExact(t, entries, {})
    {
      ok, t, entries := AddLink(g, paths, t, entries, i);
      if !ok {
        assert g.links[i] in g.capacity;
        assert g.links[i] in UsedLinks(g, paths);
        return;
      }
    }
    StartedKeys(g, paths, t);
    StartedIsExact(g, paths, t);
    ok := true;
  }

  /** The first `n` hops of the path have been charged to the tables and recorded as affected. */
  ghost predicate Charged(
    path: Path, tight: real, t0: Tables, affected0: set<Link>, t: Tables, affected: set<Link>, n: nat)
    requires n == 0 || n < |path|
  {
    && t.present == t0.present
    && t0.numFixed.Keys == t0.present.Keys == t0.remainder.Keys
    && t.numFixed.Keys == t.present.Keys == t.remainder.Keys
    && (forall l :: l in t.present ==>
          && t.numFixed[l] == t0.numFixed[l] + HopCount(path, l, n)
          && t.remainder[l] == t0.remainder[l] - Times(tight, HopCount(path, l, n)))
    && (forall l :: l in affected <==> l in affected0 || (l in t.present && HopCount(path, l, n) > 0))
  }

  function ChargeHop(t: Tables, link: Link, tight: real): Tables
    requires t.Covers(link)
  {
    t.(numFixed := t.numFixed[link := t.numFixed[link] + 1],
       remainder := t.remainder[link := t.remainder[link] - tight])
  }

  lemma ChargeOneHop(
    path: Path, tight: real, t0: Tables, affected0: set<Link>, t: Tables, affected: set<Link>, i: nat)
    requires i < |path| - 1 && Hop(path, i) in t0.present
    requires Charged(path, tight, t0, affected0, t, affected, i)
    ensures Charged(path, tight, t0, affected0,
                    ChargeHop(t, Hop(path, i), tight), affected + {Hop(path, i)}, i + 1)
  {
    var link := Hop(path, i);
    var t' := ChargeHop(t, link, tight);
    forall l | l in t.present
      ensures t'.numFixed[l] == t0.numFixed[l] + HopCount(path, l, i + 1)
      ensures t'.remainder[l] == t0.remainder[l] - Times(tight, HopCount(path, l, i + 1))
      ensures HopCount(path, l, i + 1) > 0 <==> HopCount(path, l, i) > 0 || l == link
    {
      if l == link {
        assert HopCount(path, l, i + 1) == HopCount(path, l, i) + 1;
      } else {
        assert HopCount(path, l, i + 1) == HopCount(path, l, i);
      }
    }
  }

  /** Charge one newly fixed flow to every link on its path. */
  method FixFlow(path: Path, tight: real, t0: Tables, affected0: set<Link>)
    returns (t: Tables, affected: set<Link>)
    requires |path| > 0
    requires t0.numFixed.Keys == t0.present.Keys == t0.remainder.Keys
    requires forall i :: 0 <= i < |path| - 1 ==> Hop(path, i) in t0.present
    ensures Charged(path, tight, t0, affected0, t, affected, |path| - 1)
  {
    t, affected := t0, affected0;
    for i := 0 to |path| - 1
      invariant Charged(path, tight, t0, affected0, t, affected, i)
    {
      ChargeOneHop(path, tight, t0, affected0, t, affected, i);
      var link := Hop(path, i);
      affected := affected + {link};
      t := ChargeHop(t, link, tight);
    }
  }

  /** Fix every flow on the chosen link that is not fixed yet. */
  method FixFlowsOnLink(g: Graph, paths: seq<Path>, lowest: Link, tight: real, t0: Tables, rates0: map<int, real>)
    returns (t: Tables, rates: map<int, real>, affected: set<Link>)
    requires NonEmptyPaths(paths) && FlowsOf(paths, rates0)
    requires TablesExact(g, paths, t0, rates0) && HopsCovered(paths, t0.present.Keys) && lowest in t0.present
    ensures FlowsOf(paths, rates) && TablesExact(g, paths, t, rates)
    ensures TablesCharged(tight, t0, t, affected)
    ensures RatesFixed(tight, rates0, rates, t0.present[lowest])
  {
    t, rates, affected := t0, rates0, {};
    var present := t.present[lowest];
    assert forall f :: f in present ==> 0 <= f < |paths| by {
      PresentFlowsAre(paths, lowest, |paths|);
    }
    for i := 0 to |present|
      invariant FlowsOf(paths, rates) && TablesExact(g, paths, t, rates)
      invariant TablesCharged(tight, t0, t, affected)
      invariant RatesFixed(tight, rates0, rates, present[..i])
    {
      var f := present[i];
      assert f in present;
      RatesFixedOneMore(tight, rates0, rates, present[..i], f);
      assert present[..i + 1] == present[..i] + [f];
      t, rates, affected := FixUnlessFixed(g, paths, tight, t0, t, rates, affected, f);
    }
    assert present[..|present|] == present;
  }

  method FixUnlessFixed(
    g: Graph, paths: seq<Path>, tight: real, ghost t0: Tables, t1: Tables, rates1: map<int, real>,
    affected1: set<Link>, f: int)
    returns (t: Tables, rates: map<int, real>, affected: set<Link>)
    requires NonEmptyPaths(paths) && 0 <= f < |paths| && FlowsOf(paths, rates1)
    requires HopsCovered(paths, t1.present.Keys)
    requires TablesExact(g, paths, t1, rates1) && TablesCharged(tight, t0, t1, affected1)
    ensures rates == if f in rates1 then rates1 else rates1[f := tight]
    ensures FlowsOf(paths, rates) && TablesExact(g, paths, t, rates) && TablesCharged(tight, t0, t, affected)
  {
    if f in rates1 {
      return t1, rates1, affected1;
    }
    t, affected := ChargeFlow(g, paths, tight, t0, t1, rates1, affected1, f);
    rates := rates1[f := tight];
  }

  lemma RatesFixedOneMore(tight: real, rates0: map<int, real>, rates: map<int, real>, done: seq<int>, f: int)
    requires RatesFixed(tight, rates0, rates, done)
    ensures RatesFixed(tight, rates0, if f in rates then rates else rates[f := tight], done + [f])
  {
  }

  method ChargeFlow(
    g: Graph, paths: seq<Path>, tight: real, ghost t0: Tables, t1: Tables, ghost rates: map<int, real>,
    affected1: set<Link>, f: int)
    returns (t: Tables, affected: set<Link>)
    requires NonEmptyPaths(paths) && 0 <= f < |paths| && f !in rates
    requires HopsCovered(paths, t1.present.Keys)
    requires TablesExact(g, paths, t1, rates) && TablesCharged(tight, t0, t1, affected1)
    ensures TablesExact(g, paths, t, rates[f := tight]) && TablesCharged(tight, t0, t, affected)
  {
    t, affected := FixFlow(paths[f], tight, t1, affected1);
    ChargedTablesAreExact(g, paths, t1, t, rates, tight, f);
    ChargedTablesStay(paths, tight, t0, t1, affected1, t, affected, f);
  }

  lemma ChargedTablesStay(
    paths: seq<Path>, tight: real, t0: Tables, t: Tables, affected: set<Link>, t': Tables, affected': set<Link>, f: int)
    requires NonEmptyPaths(paths) && 0 <= f < |paths|
    requires TablesCharged(tight, t0, t, affected)
    requires Charged(paths[f], tight, t, affected, t', affected', |paths[f]| - 1)
    ensures TablesCharged(tight, t0, t', affected')
  {
    forall l | l in t'.present
      ensures l !in affected' ==> t'.numFixed[l] == t.numFixed[l] && t'.remainder[l] == t.remainder[l]
      ensures t'.Slack(l, tight) == t.Slack(l, tight)
    {
      var c := Crossings(paths[f], l);
      TimesMinus(tight, t.Unfixed(l), c);
    }
  }

  lemma ChargedTablesAreExact(
    g: Graph, paths: seq<Path>, t: Tables, t': Tables, rates: map<int, real>, tight: real, f: int)
    requires NonEmptyPaths(paths) && 0 <= f < |paths| && f !in rates
    requires TablesExact(g, paths, t, rates)
    requires t'.present == t.present && t'.numFixed.Keys == t'.remainder.Keys == t.present.Keys
    requires forall l :: l in t.present ==>
      && t'.numFixed[l] == t.numFixed[l] + Crossings(paths[f], l)
      && t'.remainder[l] == t.remainder[l] - Times(tight, Crossings(paths[f], l))
    ensures TablesExact(g, paths, t', rates[f := tight])
  {
    assert rates[f := tight].Keys == rates.Keys + {f};
    forall l | l in t.present
      ensures t'.numFixed[l] == FixedCrossings(paths, rates[f := tight].Keys, l, |paths|)
      ensures t'.remainder[l] == g.capacity[l] - FixedLoad(paths, rates[f := tight], l, |paths|)
    {
      CountOneFlow(paths, rates.Keys, f, l, |paths|);
      LoadOneFlow(paths, rates, tight, f, l, |paths|);
    }
  }

  /** Remove the first entry of this link, if there is one. */
  method RemoveEntry(entries: seq<Entry>, link: Link) returns (rest: seq<Entry>)
    requires forall i, j :: 0 <= i < j < |entries| ==> entries[i].1 != entries[j].1
    ensures forall i, j :: 0 <= i < j < |rest| ==> rest[i].1 != rest[j].1
    ensures forall e :: e in rest <==> e in entries && e.1 != link
  {
    for i := 0 to |entries|
      invariant forall j :: 0 <= j < i ==> entries[j].1 != link
    {
      if entries[i].1 == link {
        rest := entries[..i] + entries[i + 1..];
        assert forall e :: e in entries <==> e in entries[..i] || e == entries[i] || e in entries[i + 1..];
        return;
      }
    }
    rest := entries;
  }

  /** Bring the entries of the affected links up to date, in whatever order the set gives them. */
  method RemapLinks(t: Tables, entries0: seq<Entry>, affected: set<Link>)
    returns (ok: bool, entries: seq<Entry>)
    requires affected <= t.present.Keys
    requires ListExact(t, entries0, affected)
    ensures ok ==> ListExact(t, entries, {})
    ensures !ok ==> exists l :: l in affected && t.Unfixed(l) != 0 && t.TightnessOf(l) == Failed(NonPositive)
  {
    entries := entries0;
    var todo := affected;
    while todo != {}
      invariant todo <= affected
      invariant ListExact(t, entries, todo)
      decreases todo
    {
      var link :| link in todo;
      var rest := RemoveEntry(entries, link);
      todo := todo - {link};
      if |t.present[link]| != t.numFixed[link] {
        var tightness := CalculateTightness(t.remainder[link], |t.present[link]|, t.numFixed[link]);
        if tightness.Failed? {
          return false, entries;
        }
        Relist(t, entries, rest, rest + [(tightness.value, link)], link, todo);
        entries := rest + [(tightness.value, link)];
      } else {
        Relist(t, entries, rest, rest, link, todo);
        entries := rest;
      }
    }
    ok := true;
  }

  lemma Relist(t: Tables, entries: seq<Entry>, rest: seq<Entry>, after: seq<Entry>, link: Link, todo: set<Link>)
    requires ListExact(t, entries, todo + {link}) && link in t.present
    requires forall i, j :: 0 <= i < j < |rest| ==> rest[i].1 != rest[j].1
    requires forall e :: e in rest <==> e in entries && e.1 != link
    requires t.Unfixed(link) == 0 ==> after == rest
    requires t.Unfixed(link) != 0 ==> |after| == |rest| + 1 && after == rest + [after[|rest|]]
    requires t.Unfixed(link) != 0 ==> after[|rest|].1 == link && UpToDate(t, after[|rest|])
    ensures ListExact(t, after, todo)
  {
    forall i | 0 <= i < |rest|
      ensures after[i] == rest[i] && after[i] in entries && after[i].1 != link
    {
      assert rest[i] in rest;
    }
    forall l | l in t.present && l !in todo && t.Unfixed(l) != 0
      ensures Listed(after, l)
    {
      if l == link {
        assert after[|rest|].1 == l;
      } else {
        var i :| 0 <= i < |entries| && entries[i].1 == l;
        assert entries[i] in rest;
        var j :| 0 <= j < |rest| && rest[j] == entries[i];
        assert after[j].1 == l;
      }
    }
  }

  /** The head of the sorted list. */
  method Tightest(entries: seq<Entry>) returns (head: Entry)
    requires entries != []
    ensures head in entries && forall i :: 0 <= i < |entries| ==> NotAfter(head, entries[i])
  {
    head := entries[0];
    for i := 1 to |entries|
      invariant head in entries && forall j :: 0 <= j < i ==> NotAfter(head, entries[j])
    {
      if !NotAfter(head, entries[i]) {
        head := entries[i];
      }
    }
  }

  // ---------- the solver ----------

  /** What an input must be for a run to produce an allocation: some flow, every flow with at least
      one hop and none crossing a link twice, and every used link with capacity. */
  ghost predicate Solvable(g: Graph, paths: seq<Path>) {
    && paths != []
    && (forall f :: 0 <= f < |paths| ==> |paths[f]| > 1)
    && AllCrossOnce(paths)
    && UsedLinksHaveCapacity(g, paths)
  }

  ghost predicate UsedLinksHaveCapacity(g: Graph, paths: seq<Path>) {
    forall l :: l in UsedLinks(g, paths) ==> g.capacity[l] > 0.0
  }

  /** What holds before and after every round. */
  ghost predicate Filling(
    g: Graph, paths: seq<Path>, t: Tables, entries: seq<Entry>, rates: map<int, real>, level: real)
    requires NonEmptyPaths(paths)
  {
    && FlowsOf(paths, rates)
    && TablesExact(g, paths, t, rates) && ListExact(t, entries, {})
    && (forall f :: f in rates ==> |paths[f]| > 1)
    && (AllCrossOnce(paths) ==> Levelled(t, rates, level) && AllSettled(g, paths, rates))
  }

  datatype RoundStatus = Filled | NothingFixed | TightnessFailed

  /** More flows are fixed, the new ones at the level, which is at most every tightness in the list. */
  ghost predicate Advances(rates0: map<int, real>, rates: map<int, real>, entries0: seq<Entry>, level: real) {
    && rates0.Keys < rates.Keys
    && (forall f :: f in rates0 ==> rates[f] == rates0[f])
    && (forall f :: f in rates && f !in rates0 ==> rates[f] == level)
    && (forall i :: 0 <= i < |entries0| ==> level <= entries0[i].0)
  }

  /** One round: the level rises to the least tightness in the list, and at least one more flow is
      fixed at that level. Neither failure can happen unless some path repeats a link. */
  method Round(
    g: Graph, paths: seq<Path>, t0: Tables, entries0: seq<Entry>, rates0: map<int, real>, ghost level0: real)
    returns (status: RoundStatus, t: Tables, entries: seq<Entry>, rates: map<int, real>, ghost level: real)
    requires NonEmptyPaths(paths) && HopsCovered(paths, t0.present.Keys)
    requires Filling(g, paths, t0, entries0, rates0, level0) && entries0 != []
    ensures status.Filled? ==>
      Filling(g, paths, t, entries, rates, level) && t.present == t0.present
      && Advances(rates0, rates, entries0, level)
    ensures status.NothingFixed? ==> t == t0 && entries == entries0 && rates == rates0
    ensures AllCrossOnce(paths) ==> status.Filled? && level0 <= level
    ensures AllCrossOnce(paths) ==> |entries| < |entries0|
  {
    var head := Tightest(entries0);
    HeadIsUpToDate(t0, entries0, head);
    level := head.0;
    var affected;
    t, rates, affected := FixFlowsOnLink(g, paths, head.1, head.0, t0, rates0);
    entries := entries0;
    TightestFilled(g, paths, t0, entries0, rates0, level0, head, t, rates, affected);
    if rates == rates0 {
      ExactTablesAreUnique(g, paths, t0, t, rates);
      return NothingFixed, t, entries, rates, level;
    }
    AffectedAreTodo(head.0, t0, t, entries0, affected);
    var ok;
    ok, entries := RemapLinks(t, entries0, affected);
    if !ok {
      ghost var l :| l in affected && t.Unfixed(l) != 0 && t.TightnessOf(l) == Failed(NonPositive);
      FailureMeansRepeats(g, paths, t, rates, head.0, l);
      return TightnessFailed, t, entries, rates, level;
    }
    if AllCrossOnce(paths) {
      ListShrinks(g, paths, t0, t, entries0, entries, rates0, rates, head);
    }
    return Filled, t, entries, rates, level;
  }

  /** What fixing the flows of the tightest link does, before the list is brought up to date. */
  lemma TightestFilled(
    g: Graph, paths: seq<Path>, t0: Tables, entries0: seq<Entry>, rates0: map<int, real>, level0: real,
    head: Entry, t: Tables, rates: map<int, real>, affected: set<Link>)
    requires NonEmptyPaths(paths) && Filling(g, paths, t0, entries0, rates0, level0)
    requires head in entries0 && forall i :: 0 <= i < |entries0| ==> NotAfter(head, entries0[i])
    requires head.1 in t0.present && FlowsOf(paths, rates) && TablesExact(g, paths, t, rates)
    requires TablesCharged(head.0, t0, t, affected) && RatesFixed(head.0, rates0, rates, t0.present[head.1])
    ensures AllCrossOnce(paths) ==>
      level0 <= head.0 && rates != rates0 && Levelled(t, rates, head.0) && AllSettled(g, paths, rates)
    ensures rates != rates0 ==> Advances(rates0, rates, entries0, head.0)
    ensures forall f :: f in rates ==> |paths[f]| > 1
  {
    if AllCrossOnce(paths) {
      TightestRaisesLevel(g, paths, t0, entries0, rates0, level0, head);
      RoundSettles(g, paths, t0, rates0, head.1, head.0, t, rates, affected);
      RoundFixesSomething(g, paths, t0, rates0, head.1, head.0, rates);
    }
    if rates != rates0 {
      RoundProgress(paths, rates0, rates, head.0, head.1);
    }
  }

  lemma FailureMeansRepeats(g: Graph, paths: seq<Path>, t: Tables, rates: map<int, real>, level: real, l: Link)
    requires NonEmptyPaths(paths) && TablesExact(g, paths, t, rates) && level > 0.0
    requires AllCrossOnce(paths) ==> Levelled(t, rates, level)
    requires l in t.present && t.Unfixed(l) != 0 && t.TightnessOf(l) == Failed(NonPositive)
    ensures !AllCrossOnce(paths)
  {
    if AllCrossOnce(paths) {
      LevelledMeansTight(g, paths, t, rates, level, l);
      assert false;
    }
  }

  lemma FlowsOnLinkFixed(
    paths: seq<Path>, rates: map<int, real>, rates': map<int, real>, tight: real, lowest: Link)
    requires RatesFixed(tight, rates, rates', PresentFlows(paths, lowest, |paths|))
    ensures rates.Keys <= rates'.Keys
    ensures forall f :: 0 <= f < |paths| && Crosses(paths[f], lowest) ==> f in rates'
  {
    PresentFlowsAre(paths, lowest, |paths|);
    forall f | f in rates
      ensures f in rates'
    {
    }
    forall f | 0 <= f < |paths| && Crosses(paths[f], lowest)
      ensures f in rates'
    {
      assert f in PresentFlows(paths, lowest, |paths|);
    }
  }

  lemma ListShrinks(
    g: Graph, paths: seq<Path>, t0: Tables, t: Tables, entries0: seq<Entry>, entries: seq<Entry>,
    rates0: map<int, real>, rates: map<int, real>, head: Entry)
    requires NonEmptyPaths(paths) && AllCrossOnce(paths) && t.present == t0.present
    requires TablesExact(g, paths, t0, rates0) && TablesExact(g, paths, t, rates)
    requires ListExact(t0, entries0, {}) && ListExact(t, entries, {})
    requires head.1 in t0.present && UpToDate(t0, head)
    requires RatesFixed(head.0, rates0, rates, t0.present[head.1])
    ensures |entries| < |entries0|
  {
    TightMeansQuotient(t0, head);
    FlowsOnLinkFixed(paths, rates0, rates, head.0, head.1);
    EntriesAreOpenLinks(t0, entries0);
    EntriesAreOpenLinks(t, entries);
    OpenLinksShrink(g, paths, t0, t, rates0, rates, head.1);
  }

  lemma ExactTablesAreUnique(g: Graph, paths: seq<Path>, t: Tables, t': Tables, rates: map<int, real>)
    requires NonEmptyPaths(paths) && t.present == t'.present
    requires TablesExact(g, paths, t, rates) && TablesExact(g, paths, t', rates)
    ensures t == t'
  {
    assert t.numFixed == t'.numFixed;
    assert t.remainder == t'.remainder;
  }

  /** The rates of all flows, and they are the only max-min fair ones. */
  ghost predicate IsTheFairAllocation(g: Graph, paths: seq<Path>, rates: map<int, real>) {
    && AllFixed(rates, |paths|)
    && MaxMinFair(g, paths, AsSeq(rates, |paths|))
    && forall other {:trigger MaxMinFair(g, paths, other)} ::
         MaxMinFair(g, paths, other) ==> other == AsSeq(rates, |paths|)
  }

  /** Progressive filling. On input that passed the path check it returns an allocation exactly when
      the input is solvable, and then it is the one max-min fair allocation. */
  method SolveMmfa(g: Graph, paths: seq<Path>) returns (r: Outcome)
    requires g.Valid() && ValidPaths(g, paths)
    ensures r.Allocation? <==> Solvable(g, paths)
    ensures r.Allocation? ==> IsTheFairAllocation(g, paths, r.rates)
    ensures (r.NoFlows? <==> paths == []) && !r.InvalidPath?
    ensures paths != [] && !UsedLinksHaveCapacity(g, paths) ==> r.NonPositiveTightness?
    ensures paths != [] && UsedLinksHaveCapacity(g, paths) && AllCrossOnce(paths) ==>
      r.Allocation? || r.FlowsLeftUnfixed?
  {
    assert NonEmptyPaths(paths);
    if |paths| == 0 {
      return NoFlows;
    }
    var ok, t, entries := BuildTables(g, paths);
    if !ok {
      return NonPositiveTightness;
    }
    UsedLinksCoverHops(g, paths);
    StartLevelled(g, paths, t);
    r := Fill(g, paths, t, entries);
  }

  /** The filling loop and the final check that every flow was fixed. */
  method Fill(g: Graph, paths: seq<Path>, t0: Tables, entries0: seq<Entry>) returns (r: Outcome)
    requires g.Valid() && NonEmptyPaths(paths) && HopsCovered(paths, t0.present.Keys)
    requires t0.present.Keys == UsedLinks(g, paths)
    requires Filling(g, paths, t0, entries0, map[], 0.0)
    ensures r.Allocation? <==> AllCrossOnce(paths) && forall f :: 0 <= f < |paths| ==> |paths[f]| > 1
    ensures r.Allocation? ==> IsTheFairAllocation(g, paths, r.rates)
    ensures AllCrossOnce(paths) ==> r.Allocation? || r.FlowsLeftUnfixed?
    ensures !r.NoFlows? && !r.InvalidPath?
  {
    var t, entries, rates := t0, entries0, map[];
    ghost var level := 0.0;
    while entries != []
      invariant t.present == t0.present
      invariant Filling(g, paths, t, entries, rates, level)
      decreases AllFlows(|paths|) - rates.Keys
    {
      var status;
      ghost var fixedBefore := rates.Keys;
      status, t, entries, rates, level := Round(g, paths, t, entries, rates, level);
      if status.NothingFixed? {
        return SpinsForever;
      } else if status.TightnessFailed? {
        return NonPositiveTightness;
      }
      FixedAreFlows(paths, rates);
      FixedFlowsShrinkTheRest(fixedBefore, rates.Keys, |paths|);
    }
    Verdict(g, paths, t, rates, level);
    if |rates| != |paths| {
      return FlowsLeftUnfixed;
    }
    r := Allocation(rates);
  }

  lemma FixedAreFlows(paths: seq<Path>, rates: map<int, real>)
    requires FlowsOf(paths, rates)
    ensures rates.Keys <= AllFlows(|paths|)
  {
  }

  lemma FixedFlowsShrinkTheRest(before: set<int>, after: set<int>, n: nat)
    requires before < after <= AllFlows(n)
    ensures AllFlows(n) - after < AllFlows(n) - before
  {
    assert after - before <= AllFlows(n) - before;
  }

  lemma AllSettledIsBottlenecked(g: Graph, paths: seq<Path>, rates: map<int, real>)
    requires NonEmptyPaths(paths) && AllCrossOnce(paths) && FlowsOf(paths, rates) && AllSettled(g, paths, rates)
    requires forall f :: 0 <= f < |paths| ==> f in rates
    ensures EveryFlowBottlenecked(g, paths, AsSeq(rates, |paths|))
  {
    forall f | 0 <= f < |paths|
      ensures Bottlenecked(g, paths, AsSeq(rates, |paths|), f)
    {
      SettledIsBottlenecked(g, paths, rates, f);
    }
  }

  lemma BottlenecksMakeTheFairAllocation(g: Graph, paths: seq<Path>, rates: map<int, real>)
    requires AllFixed(rates, |paths|) && Feasible(g, paths, AsSeq(rates, |paths|))
    requires EveryFlowBottlenecked(g, paths, AsSeq(rates, |paths|))
    ensures IsTheFairAllocation(g, paths, rates)
  {
    BottlenecksGiveFairness(g, paths, AsSeq(rates, |paths|));
    forall other | MaxMinFair(g, paths, other)
      ensures other == AsSeq(rates, |paths|)
    {
      FairAllocationIsUnique(g, paths, other, AsSeq(rates, |paths|));
    }
  }

  /** The tables and rates when the list is empty. */
  ghost predicate Done(g: Graph, paths: seq<Path>, t: Tables, rates: map<int, real>)
    requires NonEmptyPaths(paths)
  {
    && HopsCovered(paths, t.present.Keys) && FlowsOf(paths, rates)
    && TablesExact(g, paths, t, rates) && Drained(t)
  }

  lemma SomeFlowIsLeft(g: Graph, paths: seq<Path>, t: Tables, rates: map<int, real>)
    requires NonEmptyPaths(paths) && Done(g, paths, t, rates) && !AllFixed(rates, |paths|)
    ensures AllCrossOnce(paths) ==> exists f :: 0 <= f < |paths| && |paths[f]| <= 1
  {
    var f :| 0 <= f < |paths| && f !in rates;
    if AllCrossOnce(paths) && |paths[f]| > 1 {
      DrainedMeansAllFixed(g, paths, t, rates, f);
    }
  }

  lemma EverybodyIsFair(g: Graph, paths: seq<Path>, t: Tables, rates: map<int, real>, level: real)
    requires g.Valid() && NonEmptyPaths(paths) && t.present.Keys == UsedLinks(g, paths)
    requires Done(g, paths, t, rates) && AllCrossOnce(paths) && AllFixed(rates, |paths|)
    requires Levelled(t, rates, level) && AllSettled(g, paths, rates)
    ensures IsTheFairAllocation(g, paths, rates)
  {
    SettledIsFeasible(g, paths, t, rates, level);
    AllSettledIsBottlenecked(g, paths, rates);
    BottlenecksMakeTheFairAllocation(g, paths, rates);
  }

  lemma FillingIsDone(g: Graph, paths: seq<Path>, t: Tables, rates: map<int, real>, level: real)
    requires NonEmptyPaths(paths) && HopsCovered(paths, t.present.Keys)
    requires Filling(g, paths, t, [], rates, level)
    ensures Done(g, paths, t, rates)
    ensures forall f :: f in rates ==> |paths[f]| > 1
    ensures AllCrossOnce(paths) ==> Levelled(t, rates, level) && AllSettled(g, paths, rates)
  {
    DrainedByEmptyList(t);
  }

  lemma VerdictOfSomeLeft(g: Graph, paths: seq<Path>, t: Tables, rates: map<int, real>)
    requires NonEmptyPaths(paths) && Done(g, paths, t, rates) && |rates| != |paths|
    ensures AllCrossOnce(paths) ==> exists f :: 0 <= f < |paths| && |paths[f]| <= 1
  {
    AllFixedByCount(rates, |paths|);
    SomeFlowIsLeft(g, paths, t, rates);
  }

  lemma VerdictOfAllFixed(g: Graph, paths: seq<Path>, t: Tables, rates: map<int, real>)
    requires NonEmptyPaths(paths) && Done(g, paths, t, rates) && |rates| == |paths|
    ensures AllCrossOnce(paths) && AllFixed(rates, |paths|)
  {
    AllFixedByCount(rates, |paths|);
    DrainedMeansNoRepeats(g, paths, t, rates);
  }

  /** What the rates are worth when the list is empty. */
  lemma Verdict(g: Graph, paths: seq<Path>, t: Tables, rates: map<int, real>, level: real)
    requires g.Valid() && NonEmptyPaths(paths) && HopsCovered(paths, t.present.Keys)
    requires t.present.Keys == UsedLinks(g, paths)
    requires Filling(g, paths, t, [], rates, level)
    ensures |rates| != |paths| && AllCrossOnce(paths) ==> exists f :: 0 <= f < |paths| && |paths[f]| <= 1
    ensures |rates| == |paths| ==>
      AllCrossOnce(paths) && (forall f :: 0 <= f < |paths| ==> |paths[f]| > 1) && IsTheFairAllocation(g, paths, rates)
  {
    FillingIsDone(g, paths, t, rates, level);
    if |rates| != |paths| {
      VerdictOfSomeLeft(g, paths, t, rates);
    } else {
      VerdictOfAllFixed(g, paths, t, rates);
      EverybodyIsFair(g, paths, t, rates, level);
    }
  }

  lemma StartLevelled(g: Graph, paths: seq<Path>, t: Tables)
    requires g.Valid() && NonEmptyPaths(paths) && TablesExact(g, paths, t, map[])
    ensures Levelled(t, map[], 0.0)
  {
    forall l | l in t.present
      ensures t.Slack(l, 0.0) >= 0.0
    {
      NothingFixedYet(paths, l, |paths|);
      TimesZero(t.Unfixed(l));
    }
  }

  lemma {:induction false} TimesZero(n: int)
    ensures Times(0.0, n) == 0.0
    decreases if n < 0 then -n else n
  {
    if n > 0 {
      TimesZero(n - 1);
    } else if n < 0 {
      TimesZero(n + 1);
    }
  }

  lemma HeadIsUpToDate(t: Tables, entries: seq<Entry>, head: Entry)
    requires ListExact(t, entries, {}) && head in entries
    ensures head.1 in t.present && UpToDate(t, head) && head.0 > 0.0
  {
    var k :| 0 <= k < |entries| && entries[k] == head;
    assert UpToDate(t, entries[k]);
  }

  lemma RoundProgress(paths: seq<Path>, rates: map<int, real>, rates': map<int, real>, tight: real, lowest: Link)
    requires RatesFixed(tight, rates, rates', PresentFlows(paths, lowest, |paths|)) && rates' != rates
    ensures rates.Keys < rates'.Keys
    ensures forall f :: f in rates' && f !in rates ==> 0 <= f < |paths| && |paths[f]| > 1
  {
    PresentFlowsAre(paths, lowest, |paths|);
    SameKeysSameRates(tight, rates, rates', PresentFlows(paths, lowest, |paths|));
  }

  lemma SameKeysSameRates(tight: real, rates: map<int, real>, rates': map<int, real>, done: seq<int>)
    requires RatesFixed(tight, rates, rates', done)
    ensures rates.Keys <= rates'.Keys
    ensures rates.Keys == rates'.Keys ==> rates == rates'
  {
    assert forall f :: f in rates ==> f in rates' && rates'[f] == rates[f];
  }

  /** Links that were not affected keep their up-to-date entries. */
  lemma AffectedAreTodo(tight: real, t: Tables, t': Tables, entries: seq<Entry>, affected: set<Link>)
    requires ListExact(t, entries, {}) && TablesCharged(tight, t, t', affected)
    ensures ListExact(t', entries, affected)
  {
    forall i | 0 <= i < |entries| && entries[i].1 !in affected
      ensures UpToDate(t', entries[i])
    {
      assert UpToDate(t, entries[i]);
    }
  }

  lemma DrainedByEmptyList(t: Tables)
    requires ListExact(t, [], {})
    ensures Drained(t)
  {
    assert forall l :: !Listed([], l);
    assert forall l :: l in t.present ==> t.Unfixed(l) == 0;
  }

  // ---------- reading the flow paths ----------

  datatype FlowPaths = FlowPaths(paths: seq<Path>) | Rejected(line: nat)

  /** Accepts the flow paths exactly when all their hops are links of the graph. Each line holds at
      least one node. */
  method ReadFlowPaths(g: Graph, lines: seq<Path>) returns (r: FlowPaths)
    requires NonEmptyPaths(lines)
    ensures r.FlowPaths? <==> ValidPaths(g, lines)
    ensures r.FlowPaths? ==> r.paths == lines
    ensures r.Rejected? ==> r.line < |lines| && !ValidPath(g, lines[r.line])
  {
    var paths := [];
    for n := 0 to |lines|
      invariant paths == lines[..n] && forall f :: 0 <= f < n ==> ValidPath(g, lines[f])
    {
      var path := lines[n];
      for i := 0 to |path| - 1
        invariant forall j :: 0 <= j < i ==> Hop(path, j) in g.capacity
      {
        if (path[i], path[i + 1]) !in g.capacity {
          assert Hop(path, i) !in g.capacity;
          return Rejected(n);
        }
      }
      paths := paths + [path];
    }
    r := FlowPaths(paths);
  }

  /** From the lines of the flow path file to the allocation. */
  method ReadAndSolve(g: Graph, lines: seq<Path>) returns (r: Outcome)
    requires g.Valid() && NonEmptyPaths(lines)
    ensures r.Allocation? <==> ValidPaths(g, lines) && Solvable(g, lines)
    ensures r.Allocation? ==> IsTheFairAllocation(g, lines, r.rates)
    ensures r.InvalidPath? <==> !ValidPaths(g, lines)
  {
    var read := ReadFlowPaths(g, lines);
    match read {
      case Rejected(line) => r := InvalidPath(line);
      case FlowPaths(paths) => r := SolveMmfa(g, paths);
    }
  }

  // ---------- accepted paths that no run solves ----------

  /** A path of one node passes the path check, and its flow is never fixed. */
  lemma LoneNodeIsAcceptedButUnsolvable(g: Graph)
    ensures ValidPaths(g, [[0]]) && !Solvable(g, [[0]])
  {
    assert |[[0]][0]| == 1;
  }

  /** A path that goes round and crosses a link again passes the path check, and no run solves it. */
  lemma RoundTripIsAcceptedButUnsolvable()
    ensures var g := Graph([(0, 1), (1, 0)], map[(0, 1) := 1.0, (1, 0) := 1.0]);
      g.Valid() && ValidPaths(g, [[0, 1, 0, 1]]) && !Solvable(g, [[0, 1, 0, 1]])
  {
    var path := [0, 1, 0, 1];
    assert Hop(path, 0) == Hop(path, 2);
    assert [path][0] == path && !CrossesEachLinkOnce(path);
  }
}
