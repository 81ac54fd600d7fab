/** What becomes of schedules with more entries than the 32-bit index of the starter can count: some run fails
    or stops with flows that were never started. */
module LongSchedules {
  import opened Options
  import opened ExpUtil
  import opened TcpFlowSchedule
  import opened TcpFlowScheduling

  /** Some run leads to the state. */
  ghost predicate Reachable(s: seq<Entry>, end: int, w: World) {
    exists run :: Run(s, end, run) && run[|run| - 1] == w
  }

  lemma OneMoreStep(s: seq<Entry>, end: int, run: seq<World>, w': World)
    requires Run(s, end, run) && Step(s, run[|run| - 1], w')
    ensures Run(s, end, run + [w'])
  {
    var longer := run + [w'];
    forall i | 0 <= i < |longer| - 1
      ensures StepAt(s, longer, i)
    {
      if i < |run| - 1 {
        assert StepAt(s, run, i);
        assert longer[i] == run[i] && longer[i + 1] == run[i + 1];
      }
    }
  }

  lemma StepReaches(s: seq<Entry>, end: int, w: World, w': World)
    requires Reachable(s, end, w) && Step(s, w, w')
    ensures Reachable(s, end, w')
  {
    var run :| Run(s, end, run) && run[|run| - 1] == w;
    OneMoreStep(s, end, run, w');
    EndIsReached(s, end, run + [w']);
  }

  lemma EndIsReached(s: seq<Entry>, end: int, run: seq<World>)
    requires Run(s, end, run)
    ensures Reachable(s, end, run[|run| - 1])
  {
  }

  lemma OneMore(s: seq<Entry>, end: int, w: World, e: Event, w': World)
    requires Reachable(s, end, w) && !w.stopped && !w.failed
    requires Earliest(w, e) && w' == Next(s, w, e, multiset{})
    ensures Reachable(s, end, w')
  {
    assert NotBefore(multiset{}, e.time);
    StepReaches(s, end, w, w');
  }

  lemma ReachableIsKept(s: seq<Entry>, end: int, w: World)
    requires Startable(s, end) && 0 <= end && Countable(s) && Reachable(s, end, w)
    ensures Kept(s, end, w)
  {
    var run :| Run(s, end, run) && run[|run| - 1] == w;
    EveryRunStartsInOrder(s, end, run, |run| - 1);
  }

  lemma CastIsShorter(s: seq<Entry>)
    requires !Countable(s)
    ensures AsInt32(|s|) <= INT32_MAX < |s|
  {
  }

  // ---------- the size is cast to a number that is not positive ----------

  /** The chain of starts is as it should be, until the index overflows. */
  ghost predicate KeptOrFailed(s: seq<Entry>, end: int, w: World) {
    if w.failed then !w.stopped else Kept(s, end, w) && |w.apps| <= INT32_MAX
  }

  lemma LongIsRegular(s: seq<Entry>, k: int)
    requires !Countable(s) && AsInt32(|s|) <= 0 && 0 <= k < INT32_MAX
    ensures Regular(s, k)
  {
  }

  /** The start of entry `k` takes place when it is the one to come. */
  lemma StartIsNext(s: seq<Entry>, end: int, w: World, e: Event)
    requires Kept(s, end, w) && e in w.queue && e.StartFlow?
    ensures |w.apps| < |s| && e == StartFlow(s[|w.apps|].start, |w.apps|)
  {
  }

  lemma LastIndexOverflows(s: seq<Entry>, w: World, e: Event, more: multiset<Event>)
    requires !Countable(s) && e == StartFlow(s[INT32_MAX].start, INT32_MAX)
    requires !w.stopped
    ensures var w' := Next(s, w, e, more); w'.failed && !w'.stopped
  {
  }

  lemma StartAddsOne(s: seq<Entry>, w: World, e: Event, more: multiset<Event>)
    ensures |Next(s, w, e, more).apps| <= |w.apps| + if e.StartFlow? then 1 else 0
  {
  }

  lemma StepKeepsOrFails(s: seq<Entry>, end: int, w: World, w': World)
    requires Startable(s, end) && !Countable(s) && AsInt32(|s|) <= 0
    requires KeptOrFailed(s, end, w) && Step(s, w, w')
    ensures KeptOrFailed(s, end, w')
  {
    var e, more :| Earliest(w, e) && NotBefore(more, e.time) && w' == Next(s, w, e, more);
    StartAddsOne(s, w, e, more);
    if e.StartFlow? {
      StartIsNext(s, end, w, e);
      if |w.apps| == INT32_MAX {
        LastIndexOverflows(s, w, e, more);
        return;
      }
      LongIsRegular(s, |w.apps|);
    }
    NextKeeps(s, end, w, e, more);
  }

  lemma {:induction false} RunKeepsOrFails(s: seq<Entry>, end: int, run: seq<World>, i: nat)
    requires Startable(s, end) && !Countable(s) && AsInt32(|s|) <= 0
    requires i < |run| && KeptOrFailed(s, end, run[0])
    requires forall k :: 0 <= k < |run| - 1 ==> StepAt(s, run, k)
    ensures KeptOrFailed(s, end, run[i])
  {
    if i > 0 {
      RunKeepsOrFails(s, end, run, i - 1);
      assert StepAt(s, run, i - 1);
      StepKeepsOrFails(s, end, run[i - 1], run[i]);
    }
  }

  /** Such a schedule never lets the simulation come to its end. */
  lemma NeverStops(s: seq<Entry>, end: int, w: World)
    requires Startable(s, end) && 0 <= end && !Countable(s) && AsInt32(|s|) <= 0
    requires Reachable(s, end, w)
    ensures !w.stopped
  {
    var run :| Run(s, end, run) && run[|run| - 1] == w;
    InitiallyKept(s, end, run[0]);
    RunKeepsOrFails(s, end, run, |run| - 1);
  }

  // ---------- the size is cast to a positive number ----------

  /** The starter takes the schedule for its first entries, as many as the cast size says. */
  function Taken(s: seq<Entry>): seq<Entry>
    requires 0 < AsInt32(|s|) <= |s|
  {
    s[..AsInt32(|s|)]
  }

  lemma TakenIsCountable(s: seq<Entry>, end: int)
    requires Startable(s, end) && !Countable(s) && AsInt32(|s|) > 0
    ensures AsInt32(|s|) <= |s| && Countable(Taken(s)) && Startable(Taken(s), end)
    ensures |Taken(s)| == AsInt32(|s|) && AsInt32(|Taken(s)|) == |Taken(s)|
  {
  }

  lemma StartsAlike(s: seq<Entry>, end: int, w: World, i: int)
    requires Startable(s, end) && !Countable(s) && AsInt32(|s|) > 0
    requires 0 <= i < AsInt32(|s|) <= |s|
    ensures StartFlowAt(s, w, i) == StartFlowAt(Taken(s), w, i)
  {
    TakenIsCountable(s, end);
  }

  lemma StepAlike(s: seq<Entry>, end: int, w: World, w': World)
    requires Startable(s, end) && !Countable(s) && 0 < AsInt32(|s|) <= |s|
    requires Kept(Taken(s), end, w) && Step(s, w, w')
    ensures Step(Taken(s), w, w')
  {
    var e, more :| Earliest(w, e) && NotBefore(more, e.time) && w' == Next(s, w, e, more);
    if e.StartFlow? {
      StartIsNext(Taken(s), end, w, e);
      StartsAlike(s, end, Pop(w, e), e.index);
    }
    assert w' == Next(Taken(s), w, e, more);
  }

  /** Whatever a run reaches, it would reach with the shorter schedule. */
  lemma {:induction false} ReachesAlike(s: seq<Entry>, end: int, run: seq<World>, i: nat)
    requires Startable(s, end) && 0 <= end && !Countable(s) && 0 < AsInt32(|s|) <= |s|
    requires Run(s, end, run) && i < |run|
    ensures Reachable(Taken(s), end, run[i])
  {
    TakenIsCountable(s, end);
    if i == 0 {
      BeginsAlike(s, end, run[0]);
    } else {
      ReachesAlike(s, end, run, i - 1);
      ReachableIsKept(Taken(s), end, run[i - 1]);
      assert StepAt(s, run, i - 1);
      StepAlike(s, end, run[i - 1], run[i]);
      StepReaches(Taken(s), end, run[i - 1], run[i]);
    }
  }

  lemma BeginsAlike(s: seq<Entry>, end: int, w: World)
    requires 0 < AsInt32(|s|) <= |s| && Initial(s, end, w)
    ensures Reachable(Taken(s), end, w)
  {
    assert FirstStart(Taken(s)) == FirstStart(s);
    assert Run(Taken(s), end, [w]);
    assert [w][|[w]| - 1] == w;
  }

  lemma ReachableAlike(s: seq<Entry>, end: int, w: World)
    requires Startable(s, end) && 0 <= end && !Countable(s) && 0 < AsInt32(|s|) <= |s|
    requires Reachable(s, end, w)
    ensures Reachable(Taken(s), end, w)
  {
    var run :| Run(s, end, run) && run[|run| - 1] == w;
    LastReachedAlike(s, end, run, w);
  }

  lemma LastReachedAlike(s: seq<Entry>, end: int, run: seq<World>, w: World)
    requires Startable(s, end) && 0 <= end && !Countable(s) && 0 < AsInt32(|s|) <= |s|
    requires Run(s, end, run) && run[|run| - 1] == w
    ensures Reachable(Taken(s), end, w)
  {
    ReachesAlike(s, end, run, |run| - 1);
  }

  /** Such a schedule never fails, and when the simulation stops it has started the first entries only. */
  lemma StopsEarly(s: seq<Entry>, end: int, w: World)
    requires Startable(s, end) && 0 <= end && !Countable(s) && AsInt32(|s|) > 0
    requires Reachable(s, end, w)
    ensures !w.failed && (w.stopped ==> Started(s, w.apps) && |w.apps| == AsInt32(|s|) < |s|)
  {
    TakenIsCountable(s, end);
    ReachableAlike(s, end, w);
    ReachableIsKept(Taken(s), end, w);
  }

  // ---------- a run in which nothing else happens ----------

  /** The first `k` flows have been started, the next start and the end are in the queue. */
  ghost predicate Quiet(s: seq<Entry>, end: int, w: World, k: nat)
    requires k < |s|
  {
    && !w.stopped && !w.failed && |w.apps| == k
    && w.queue == multiset{Stop(end)} + multiset{StartFlow(s[k].start, k)}
  }

  lemma QuietStart(s: seq<Entry>, end: int) returns (w: World)
    requires s != []
    ensures Reachable(s, end, w) && Quiet(s, end, w, 0)
  {
    w := World(0, multiset{Stop(end)} + multiset{} + FirstStart(s), [], false, false);
    assert NotBefore(multiset{}, 0);
    assert Run(s, end, [w]);
    assert [w][|[w]| - 1] == w;
  }

  lemma QuietEvent(s: seq<Entry>, end: int, w: World, k: nat)
    requires Startable(s, end) && k < |s| && Quiet(s, end, w, k)
    ensures var e := StartFlow(s[k].start, k);
      Earliest(w, e) && w.queue - multiset{e} == multiset{Stop(end)}
  {
  }

  lemma QuietStep(s: seq<Entry>, end: int, w: World, k: nat) returns (w': World)
    requires Startable(s, end) && k + 1 < |s| && Quiet(s, end, w, k) && Regular(s, k) && Reachable(s, end, w)
    ensures Reachable(s, end, w') && Quiet(s, end, w', k + 1)
  {
    var e := StartFlow(s[k].start, k);
    QuietEvent(s, end, w, k);
    RegularStarts(s, Pop(w, e), k);
    w' := Next(s, w, e, multiset{});
    OneMore(s, end, w, e, w');
  }

  lemma {:induction false} QuietUntil(s: seq<Entry>, end: int, k: nat) returns (w: World)
    requires Startable(s, end) && k < |s| && forall j :: 0 <= j < k ==> Regular(s, j)
    ensures Reachable(s, end, w) && Quiet(s, end, w, k)
  {
    if k == 0 {
      w := QuietStart(s, end);
    } else {
      var v := QuietUntil(s, end, k - 1);
      w := QuietStep(s, end, v, k - 1);
    }
  }

  lemma SomeRunFails(s: seq<Entry>, end: int) returns (w: World)
    requires Startable(s, end) && !Countable(s) && AsInt32(|s|) <= 0
    ensures Reachable(s, end, w) && w.failed
  {
    var k: nat := INT32_MAX;
    forall j | 0 <= j < k
      ensures Regular(s, j)
    {
      LongIsRegular(s, j);
    }
    var v := QuietUntil(s, end, k);
    var e := StartFlow(s[k].start, k);
    QuietEvent(s, end, v, k);
    LastIndexOverflows(s, v, e, multiset{});
    w := Next(s, v, e, multiset{});
    OneMore(s, end, v, e, w);
  }

  lemma SomeRunStopsEarly(s: seq<Entry>, end: int) returns (w: World)
    requires Startable(s, end) && !Countable(s) && AsInt32(|s|) > 0
    ensures Reachable(s, end, w) && w.stopped && |w.apps| < |s|
  {
    CastIsShorter(s);
    var k: nat := AsInt32(|s|) - 1;
    var v := QuietUntil(s, end, k);
    var e := StartFlow(s[k].start, k);
    QuietEvent(s, end, v, k);
    var u := Next(s, v, e, multiset{});
    OneMore(s, end, v, e, u);
    assert u.queue == multiset{Stop(end)};
    w := Next(s, u, Stop(end), multiset{});
    OneMore(s, end, u, Stop(end), w);
  }

  // ---------- the exact condition ----------

  /** Some run fails, or stops with a flow that was never started. */
  ghost predicate CanGoWrong(s: seq<Entry>, end: int) {
    exists w :: Reachable(s, end, w) && (w.failed || (w.stopped && |w.apps| < |s|))
  }

  lemma CountableGoesRight(s: seq<Entry>, end: int, w: World)
    requires Startable(s, end) && 0 <= end && Countable(s) && Reachable(s, end, w)
    ensures !w.failed && (w.stopped ==> Started(s, w.apps) && |w.apps| == |s|)
  {
    ReachableIsKept(s, end, w);
  }

  /** Starting the flows can go wrong exactly for schedules of more than 2^31 - 1 entries. */
  lemma StartingGoesWrongIff(s: seq<Entry>, end: int)
    requires Startable(s, end) && 0 <= end
    ensures CanGoWrong(s, end) <==> |s| >= 0x8000_0000
  {
    if Countable(s) {
      forall w | Reachable(s, end, w)
        ensures !w.failed && (w.stopped ==> |w.apps| == |s|)
      {
        CountableGoesRight(s, end, w);
      }
    } else if AsInt32(|s|) <= 0 {
      var w := SomeRunFails(s, end);
    } else {
      var w := SomeRunStopsEarly(s, end);
    }
  }

  /** However it goes wrong, a run of such a schedule that is over is not complete. */
  lemma EndedRunIsCompleteIff(s: seq<Entry>, end: int, w: World)
    requires Startable(s, end) && 0 <= end && Reachable(s, end, w) && (w.stopped || w.failed)
    ensures !w.failed && Started(s, w.apps) && |w.apps| == |s| <==> |s| < 0x8000_0000
  {
    if Countable(s) {
      CountableGoesRight(s, end, w);
    } else if AsInt32(|s|) <= 0 {
      NeverStops(s, end, w);
    } else {
      StopsEarly(s, end, w);
    }
  }

  /** 2^31 flows that all start at once: the schedule is accepted, some run fails, and none comes to its end. */
  lemma TooManyFlows(s: seq<Entry>)
    requires |s| == 0x8000_0000 && forall i :: 0 <= i < |s| ==> s[i] == Entry(i, 0, 1, 1, 0, "", "")
    ensures IsSchedule({0, 1}, 1, s) && CanGoWrong(s, 1)
    ensures forall w :: Reachable(s, 1, w) ==> !w.stopped
  {
    StartingGoesWrongIff(s, 1);
    forall w | Reachable(s, 1, w)
      ensures !w.stopped
    {
      NeverStops(s, 1, w);
    }
  }
}
