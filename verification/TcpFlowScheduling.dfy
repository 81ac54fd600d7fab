/** The starter of TCP flows: an event that starts one flow and schedules the event for the next one,
    in an event queue shared with everything else that is simulated. */
module TcpFlowScheduling {
  import opened Options
  import opened ExpUtil
  import opened TcpFlowSchedule

  datatype Event = StartFlow(time: int, index: int) | Stop(time: int) | Other(time: int, what: int)

  /** The application installed for a flow. */
  datatype App = App(flowId: nat, from: nat, to: nat, size: nat, startedAt: int)

  /** `failed` stands for a failed assertion, an index out of range or an index that overflows. */
  datatype World = World(now: int, queue: multiset<Event>, apps: seq<App>, stopped: bool, failed: bool)

  function AppOf(e: Entry, now: int): App {
    App(e.id, e.from, e.to, e.size, now)
  }

  /** A size cast to 32 bits. */
  function AsInt32(n: nat): int {
    var low := n % 0x1_0000_0000;
    if low > INT32_MAX then low - 0x1_0000_0000 else low
  }

  /** The entries can be counted with the 32-bit index. */
  predicate Countable(s: seq<Entry>) {
    |s| <= INT32_MAX
  }

  function StartFlowAt(s: seq<Entry>, w: World, i: int): World {
    if !(0 <= i < |s|) || w.now != s[i].start then w.(failed := true)
    else
      var started := w.(apps := w.apps + [AppOf(s[i], w.now)]);
      if i == INT32_MAX then started.(failed := true)
      else if i + 1 == AsInt32(|s|) then started
      else if i + 1 >= |s| then started.(failed := true)
      else started.(queue := w.queue + multiset{StartFlow(w.now + (s[i + 1].start - w.now), i + 1)})
  }

  // ---------- the simulation ----------

  ghost predicate Earliest(w: World, e: Event) {
    e in w.queue && forall f :: f in w.queue ==> e.time <= f.time
  }

  function Pop(w: World, e: Event): World {
    w.(now := e.time, queue := w.queue - multiset{e})
  }

  function Execute(s: seq<Entry>, w: World, e: Event): World {
    match e
    case StartFlow(_, i) => StartFlowAt(s, w, i)
    case Stop(_) => w.(stopped := true)
    case Other(_, _) => w
  }

  /** Whatever else an event sets in motion comes now or later. */
  ghost predicate NotBefore(more: multiset<Event>, now: int) {
    forall e :: e in more ==> e.Other? && e.time >= now
  }

  /** One event, any of the earliest ones, is executed. */
  ghost predicate Step(s: seq<Entry>, w: World, w': World) {
    && !w.stopped && !w.failed
    && exists e, more :: Earliest(w, e) && NotBefore(more, e.time) && w' == Next(s, w, e, more)
  }

  function Next(s: seq<Entry>, w: World, e: Event, more: multiset<Event>): World {
    var after := Execute(s, Pop(w, e), e);
    after.(queue := after.queue + more)
  }

  function FirstStart(s: seq<Entry>): multiset<Event> {
    if s == [] then multiset{} else multiset{StartFlow(s[0].start, 0)}
  }

  ghost predicate Initial(s: seq<Entry>, end: int, w: World) {
    exists others :: NotBefore(others, 0)
      && w == World(0, multiset{Stop(end)} + others + FirstStart(s), [], false, false)
  }

  ghost predicate StepAt(s: seq<Entry>, run: seq<World>, i: int)
    requires 0 <= i < |run| - 1
  {
    Step(s, run[i], run[i + 1])
  }

  ghost predicate Run(s: seq<Entry>, end: int, run: seq<World>) {
    && run != [] && Initial(s, end, run[0])
    && forall i :: 0 <= i < |run| - 1 ==> StepAt(s, run, i)
  }

  // ---------- what every run keeps ----------

  /** The applications are those of the first entries, each started at its time. */
  ghost predicate Started(s: seq<Entry>, apps: seq<App>) {
    |apps| <= |s| && forall i :: 0 <= i < |apps| ==> apps[i] == AppOf(s[i], s[i].start)
  }

  /** The start of entry `k` is in the queue, once, and no other start is. */
  ghost predicate Pending(s: seq<Entry>, k: nat, queue: multiset<Event>) {
    && (forall e :: e in queue && e.StartFlow? ==> k < |s| && e == StartFlow(s[k].start, k))
    && (k < |s| ==> queue[StartFlow(s[k].start, k)] == 1)
  }

  ghost predicate StopPending(end: int, w: World) {
    && (forall e :: e in w.queue && e.Stop? ==> e == Stop(end))
    && w.queue[Stop(end)] == if w.stopped then 0 else 1
  }

  ghost predicate Ahead(w: World) {
    forall e :: e in w.queue ==> e.time >= w.now
  }

  ghost predicate Kept(s: seq<Entry>, end: int, w: World) {
    && !w.failed
    && Started(s, w.apps) && Pending(s, |w.apps|, w.queue) && StopPending(end, w) && Ahead(w)
    && (w.stopped ==> w.now == end && |w.apps| == |s|)
  }

  lemma InitiallyKept(s: seq<Entry>, end: int, w: World)
    requires Startable(s, end) && 0 <= end && Initial(s, end, w)
    ensures Kept(s, end, w)
  {
  }

  /** The next entry is started, and the start of the one after it is put into the queue. */
  function StartedNext(s: seq<Entry>, w: World, i: int): World
    requires 0 <= i < |s|
  {
    World(
      w.now,
      if i + 1 < |s| then w.queue + multiset{StartFlow(s[i + 1].start, i + 1)} else w.queue,
      w.apps + [AppOf(s[i], w.now)], w.stopped, w.failed)
  }

  /** After entry `k` the chain of starts goes on exactly if there is a next entry. */
  predicate Regular(s: seq<Entry>, k: int) {
    k != INT32_MAX && (k + 1 == AsInt32(|s|) <==> k + 1 == |s|)
  }

  lemma CountableIsRegular(s: seq<Entry>, k: int)
    requires Countable(s) && 0 <= k < |s|
    ensures Regular(s, k)
  {
  }

  lemma RegularStarts(s: seq<Entry>, w: World, i: int)
    requires 0 <= i < |s| && Regular(s, i) && w.now == s[i].start
    ensures StartFlowAt(s, w, i) == StartedNext(s, w, i)
  {
  }

  lemma StartedNextKeeps(s: seq<Entry>, end: int, w: World, more: multiset<Event>)
    requires Startable(s, end) && Kept(s, end, w) && !w.stopped && |w.apps| < |s|
    requires Earliest(w, StartFlow(s[|w.apps|].start, |w.apps|)) && NotBefore(more, s[|w.apps|].start)
    ensures var k := |w.apps|;
      var after := StartedNext(s, Pop(w, StartFlow(s[k].start, k)), k);
      Kept(s, end, after.(queue := after.queue + more))
  {
    var k := |w.apps|;
    assert k + 1 < |s| ==> s[k].start <= s[k + 1].start;
  }

  lemma StartKeeps(s: seq<Entry>, end: int, w: World, e: Event, more: multiset<Event>)
    requires Startable(s, end) && Kept(s, end, w) && !w.stopped && Regular(s, |w.apps|)
    requires Earliest(w, e) && NotBefore(more, e.time) && e.StartFlow?
    ensures Kept(s, end, Next(s, w, e, more))
  {
    var k := |w.apps|;
    assert e == StartFlow(s[k].start, k);
    RegularStarts(s, Pop(w, e), k);
    StartedNextKeeps(s, end, w, more);
  }

  lemma StopKeeps(s: seq<Entry>, end: int, w: World, e: Event, more: multiset<Event>)
    requires Startable(s, end) && Kept(s, end, w) && !w.stopped
    requires Earliest(w, e) && NotBefore(more, e.time) && e.Stop?
    ensures Kept(s, end, Next(s, w, e, more))
  {
    if |w.apps| < |s| {
      PendingIsEarly(s, end, w);
      assert false;
    }
  }

  lemma PendingIsEarly(s: seq<Entry>, end: int, w: World)
    requires Startable(s, end) && Kept(s, end, w) && |w.apps| < |s|
    ensures exists e :: e in w.queue && e.time < end
  {
    assert StartFlow(s[|w.apps|].start, |w.apps|) in w.queue;
  }

  lemma OtherKeeps(s: seq<Entry>, end: int, w: World, e: Event, more: multiset<Event>)
    requires Startable(s, end) && Kept(s, end, w) && !w.stopped
    requires Earliest(w, e) && NotBefore(more, e.time) && e.Other?
    ensures Kept(s, end, Next(s, w, e, more))
  {
  }

  /** Whatever happens, applications are only added, and the clock does not go back. */
  lemma NextGrows(s: seq<Entry>, w: World, e: Event, more: multiset<Event>)
    requires Ahead(w) && e in w.queue
    ensures var w' := Next(s, w, e, more); w.apps <= w'.apps && w.now <= w'.now
  {
  }

  lemma NextKeeps(s: seq<Entry>, end: int, w: World, e: Event, more: multiset<Event>)
    requires Startable(s, end) && Kept(s, end, w) && !w.stopped
    requires Earliest(w, e) && NotBefore(more, e.time)
    requires e.StartFlow? ==> Regular(s, |w.apps|)
    ensures Kept(s, end, Next(s, w, e, more))
  {
    match e
    case StartFlow(_, _) => StartKeeps(s, end, w, e, more);
    case Stop(_) => StopKeeps(s, end, w, e, more);
    case Other(_, _) => OtherKeeps(s, end, w, e, more);
  }

  lemma StepKeeps(s: seq<Entry>, end: int, w: World, w': World)
    requires Startable(s, end) && Countable(s) && Kept(s, end, w) && Step(s, w, w')
    ensures Kept(s, end, w')
    ensures w.apps <= w'.apps && w.now <= w'.now
  {
    var e, more :| Earliest(w, e) && NotBefore(more, e.time) && w' == Next(s, w, e, more);
    if e.StartFlow? {
      CountableIsRegular(s, |w.apps|);
    }
    NextKeeps(s, end, w, e, more);
    NextGrows(s, w, e, more);
  }

  ghost predicate KeptAt(s: seq<Entry>, end: int, run: seq<World>, i: nat)
    requires i < |run|
  {
    Kept(s, end, run[i])
  }

  lemma StepAtKeeps(s: seq<Entry>, end: int, run: seq<World>, i: nat)
    requires Startable(s, end) && Countable(s) && i < |run| - 1 && StepAt(s, run, i) && KeptAt(s, end, run, i)
    ensures KeptAt(s, end, run, i + 1)
  {
    StepKeeps(s, end, run[i], run[i + 1]);
  }

  lemma {:induction false} RunKeeps(s: seq<Entry>, end: int, run: seq<World>, i: nat)
    requires Startable(s, end) && Countable(s) && i < |run| && KeptAt(s, end, run, 0)
    requires forall k :: 0 <= k < |run| - 1 ==> StepAt(s, run, k)
    ensures KeptAt(s, end, run, i)
  {
    if i > 0 {
      RunKeeps(s, end, run, i - 1);
      StepAtKeeps(s, end, run, i - 1);
    }
  }

  /** In every state of every run: no assertion has failed, the applications are those of the first
      entries in schedule order, each started once and exactly at its start time, and every entry
      whose time has passed has been started. */
  lemma EveryRunStartsInOrder(s: seq<Entry>, end: int, run: seq<World>, i: nat)
    requires Startable(s, end) && Countable(s) && 0 <= end && Run(s, end, run) && i < |run|
    ensures Kept(s, end, run[i])
    ensures forall k :: 0 <= k < |s| && s[k].start < run[i].now ==> k < |run[i].apps|
  {
    InitiallyKept(s, end, run[0]);
    RunKeeps(s, end, run, i);
    NoneIsLate(s, end, run[i]);
  }

  lemma NoneIsLate(s: seq<Entry>, end: int, w: World)
    requires Startable(s, end) && Countable(s) && Kept(s, end, w)
    ensures forall k :: 0 <= k < |s| && s[k].start < w.now ==> k < |w.apps|
  {
    var n := |w.apps|;
    if n < |s| {
      assert StartFlow(s[n].start, n) in w.queue;
    }
  }

  /** A run that has come to its end has started every flow. */
  lemma StoppedRunHasStartedAll(s: seq<Entry>, end: int, run: seq<World>)
    requires Startable(s, end) && Countable(s) && 0 <= end && Run(s, end, run) && run[|run| - 1].stopped
    ensures var w := run[|run| - 1]; Started(s, w.apps) && |w.apps| == |s| && w.now == end
  {
    EveryRunStartsInOrder(s, end, run, |run| - 1);
  }

  // ---------- the program ----------

  class Simulator {
    var now: int
    var queue: multiset<Event>

    constructor ()
      ensures now == 0 && queue == multiset{}
    {
      now, queue := 0, multiset{};
    }

    method ScheduleStart(delay: int, index: int)
      modifies this`queue
      ensures queue == old(queue) + multiset{StartFlow(now + delay, index)}
    {
      queue := queue + multiset{StartFlow(now + delay, index)};
    }
  }

  datatype Row = Row(entry: Entry, app: App, endTime: int)

  class TcpFlowScheduler {
    const sim: Simulator
    const simulationEnd: int
    var schedule: seq<Entry>
    var apps: seq<App>

    ghost function State(failed: bool): World
      reads this, sim
    {
      World(sim.now, sim.queue, apps, false, failed)
    }

    /** `assignment` is given in a distributed run: the system of every node, and this system. */
    constructor (sim: Simulator, complete: seq<Entry>, end: int, assignment: Option<(seq<nat>, nat)>)
      requires sim.now == 0
      requires assignment.Some? ==> forall e :: e in complete ==> e.from < |assignment.value.0|
      modifies sim
      ensures this.sim == sim && simulationEnd == end && apps == [] && sim.now == 0
      ensures schedule == match assignment
        case None => complete
        case Some((systems, system)) => Filtered(complete, systems, system)
      ensures sim.queue == old(sim.queue) + FirstStart(schedule)
    {
      this.sim, simulationEnd, apps := sim, end, [];
      var mine := complete;
      if assignment.Some? {
        mine := Filter(complete, assignment.value.0, assignment.value.1);
      }
      schedule := mine;
      new;
      if |schedule| > 0 {
        sim.ScheduleStart(schedule[0].start, 0);
      }
    }

    method StartNextFlow(i: int) returns (ok: bool)
      modifies this`apps, sim`queue
      ensures State(!ok) == StartFlowAt(schedule, old(State(false)), i)
      ensures ok <==> 0 <= i < |schedule| && sim.now == schedule[i].start && i != INT32_MAX
                      && (i + 1 < |schedule| || i + 1 == AsInt32(|schedule|))
      ensures ok ==>
        var e := schedule[i]; apps == old(apps) + [App(e.id, e.from, e.to, e.size, sim.now)]
      ensures ok ==>
        sim.queue == if i + 1 == AsInt32(|schedule|) then old(sim.queue)
                     else old(sim.queue) + multiset{StartFlow(schedule[i + 1].start, i + 1)}
    {
      if !(0 <= i < |schedule|) {
        return false;
      }
      var entry := schedule[i];
      var now := sim.now;
      if now != entry.start {
        return false;
      }
      apps := apps + [AppOf(entry, now)];
      if i == INT32_MAX {
        return false;
      }
      if i + 1 != AsInt32(|schedule|) {
        if i + 1 >= |schedule| {
          return false;
        }
        var next := schedule[i + 1].start;
        sim.ScheduleStart(next - now, i + 1);
      }
      return true;
    }

    /** Pairs every entry of the schedule with the application of the same index; None is an index
        out of range. `completed` holds the completion time of each application, if any. */
    method WriteResults(completed: seq<Option<int>>) returns (r: Option<seq<Row>>)
      requires |completed| == |apps|
      ensures r.Some? <==> |schedule| <= |apps|
      ensures r.Some? && Started(schedule, apps) ==>
        && |r.value| == |schedule| == |apps|
        && (forall i :: 0 <= i < |schedule| ==> RowBelongs(r.value[i], schedule[i]))
        && (forall i :: 0 <= i < |schedule| && completed[i].Some? ==> r.value[i].endTime == completed[i].value)
        && (forall i :: 0 <= i < |schedule| && completed[i].None? ==> r.value[i].endTime == simulationEnd)
    {
      var rows: seq<Row> := [];
      var appIdx := 0;
      while appIdx < |schedule|
        invariant 0 <= appIdx <= |schedule| && |rows| == appIdx <= |apps|
        invariant forall i :: 0 <= i < appIdx ==>
          && rows[i].entry == schedule[i] && rows[i].app == apps[i]
          && (completed[i].Some? ==> rows[i].endTime == completed[i].value)
          && (completed[i].None? ==> rows[i].endTime == simulationEnd)
      {
        var entry := schedule[appIdx];
        if appIdx >= |apps| {
          return None;
        }
        var done := completed[appIdx];
        var fct := if done.Some? then done.value - entry.start else simulationEnd - entry.start;
        rows := rows + [Row(entry, apps[appIdx], entry.start + fct)];
        appIdx := appIdx + 1;
      }
      return Some(rows);
    }
  }

  /** The row reports on the flow of the entry: its own application, started at its start time. */
  predicate RowBelongs(row: Row, e: Entry) {
    row.entry == e && row.app == App(e.id, e.from, e.to, e.size, e.start)
  }

  method Filter(complete: seq<Entry>, assignment: seq<nat>, system: nat) returns (filtered: seq<Entry>)
    requires forall e :: e in complete ==> e.from < |assignment|
    ensures filtered == Filtered(complete, assignment, system)
  {
    filtered := [];
    for i := 0 to |complete|
      invariant forall e :: e in complete[..i] ==> e in complete
      invariant filtered == Filtered(complete[..i], assignment, system)
    {
      assert complete[..i + 1] == complete[..i] + [complete[i]];
      FilteredGrows(complete[..i], complete[i], assignment, system);
      if assignment[complete[i].from] == system {
        filtered := filtered + [complete[i]];
      }
    }
    assert complete[..|complete|] == complete;
  }
}
