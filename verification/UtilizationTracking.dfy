/** Busy time of a network device in consecutive windows of fixed width, tracked online from the events
    at which transmissions begin and end. */
module UtilizationTracking {

  /** A transmission begins (`on`) or ends at this time. */
  datatype Event = Event(time: int, on: bool)

  datatype Window = Window(start: int, end: int, busy: int)

  // ---------- the specification ----------

  ghost predicate Chronological(events: seq<Event>) {
    && (forall i :: 0 <= i < |events| ==> events[i].time >= 0)
    && (forall i, j :: 0 <= i < j < |events| ==> events[i].time <= events[j].time)
  }

  function LastTime(events: seq<Event>): int {
    if events == [] then 0 else events[|events| - 1].time
  }

  /** Whether the device transmits after these events. */
  ghost function On(events: seq<Event>): bool {
    if events == [] then false else events[|events| - 1].on
  }

  /** How much of [a, b) lies in [lo, hi). */
  function Overlap(a: int, b: int, lo: int, hi: int): int {
    var left := if a > lo then a else lo;
    var right := if b < hi then b else hi;
    if left < right then right - left else 0
  }

  /** The time in [lo, hi), up to the last event, during which the device was transmitting. */
  ghost function OnTime(events: seq<Event>, lo: int, hi: int): int {
    if events == [] then 0
    else
      var before := events[..|events| - 1];
      OnTime(before, lo, hi) + if On(before) then Overlap(LastTime(before), LastTime(events), lo, hi) else 0
  }

  /** Begins and ends take turns, the first event being a begin. */
  ghost predicate Alternating(events: seq<Event>) {
    events == [] ||
    (Alternating(events[..|events| - 1]) && events[|events| - 1].on != On(events[..|events| - 1]))
  }

  // ---------- what the tracker counts ----------

  /** The time in [lo, hi) before events that are ends: what the tracker takes for busy. */
  ghost function Counted(events: seq<Event>, lo: int, hi: int): int {
    if events == [] then 0
    else
      var before := events[..|events| - 1];
      Counted(before, lo, hi) +
      if events[|events| - 1].on then 0 else Overlap(LastTime(before), LastTime(events), lo, hi)
  }

  /** For alternating events that is the time during which the device transmitted. */
  lemma {:induction false} CountedIsOnTime(events: seq<Event>, lo: int, hi: int)
    requires Alternating(events)
    ensures Counted(events, lo, hi) == OnTime(events, lo, hi)
  {
    if events != [] {
      var before := events[..|events| - 1];
      CountedIsOnTime(before, lo, hi);
    }
  }

  lemma {:induction false} CountedAdds(events: seq<Event>, lo: int, mid: int, hi: int)
    requires Chronological(events) && lo <= mid <= hi
    ensures Counted(events, lo, hi) == Counted(events, lo, mid) + Counted(events, mid, hi)
  {
    if events != [] {
      CountedAdds(events[..|events| - 1], lo, mid, hi);
    }
  }

  lemma {:induction false} NothingCountedLater(events: seq<Event>, lo: int, hi: int)
    requires Chronological(events) && LastTime(events) <= lo
    ensures Counted(events, lo, hi) == 0
  {
    if events != [] {
      NothingCountedLater(events[..|events| - 1], lo, hi);
    }
  }

  lemma {:induction false} CountedBounds(events: seq<Event>, lo: int, hi: int)
    requires Chronological(events) && lo <= hi
    ensures 0 <= Counted(events, lo, hi) <= Overlap(0, LastTime(events), lo, hi)
  {
    if events != [] {
      CountedBounds(events[..|events| - 1], lo, hi);
    }
  }

  /** The newest event decides about all time since the one before. */
  lemma CountedSinceLast(events: seq<Event>, e: Event, lo: int, hi: int)
    requires Chronological(events + [e]) && LastTime(events) <= lo <= hi <= e.time
    ensures Counted(events + [e], lo, hi) == if e.on then 0 else hi - lo
  {
    assert (events + [e])[..|events|] == events;
    NothingCountedLater(events, lo, hi);
  }

  lemma CountedBefore(events: seq<Event>, e: Event, lo: int, hi: int)
    requires Chronological(events + [e]) && lo <= hi <= LastTime(events)
    ensures Counted(events + [e], lo, hi) == Counted(events, lo, hi)
  {
    assert (events + [e])[..|events|] == events;
  }

  // ---------- windows ----------

  /** Window `k` ends where the next one starts. */
  ghost predicate Joined(s: seq<Window>, k: int)
    requires 0 <= k < |s| - 1
  {
    s[k].end == s[k + 1].start
  }

  ghost predicate AllJoined(s: seq<Window>) {
    forall k {:trigger Joined(s, k)} :: 0 <= k < |s| - 1 ==> Joined(s, k)
  }

  /** The windows of width `width` from 0 on, each with what was counted in it. */
  ghost predicate WindowsOf(events: seq<Event>, width: int, s: seq<Window>) {
    && (forall k :: 0 <= k < |s| ==> s[k].end == s[k].start + width)
    && (s != [] ==> s[0].start == 0)
    && AllJoined(s)
    && (forall k :: 0 <= k < |s| ==> s[k].busy == Counted(events, s[k].start, s[k].end))
  }

  function EndOf(s: seq<Window>): int {
    if s == [] then 0 else s[|s| - 1].end
  }

  ghost function TotalBusy(s: seq<Window>): int {
    if s == [] then 0 else TotalBusy(s[..|s| - 1]) + s[|s| - 1].busy
  }

  /** Windows from 0 to `end` without gaps, all but perhaps the last of full width. */
  ghost predicate TilesTo(s: seq<Window>, width: int, end: int) {
    && EndOf(s) == end
    && (s != [] ==> s[0].start == 0)
    && (forall k :: 0 <= k < |s| ==> s[k].start < s[k].end <= s[k].start + width)
    && (forall k :: 0 <= k < |s| - 1 ==> s[k].end == s[k].start + width)
    && AllJoined(s)
  }

  lemma {:induction false} EndsGrow(s: seq<Window>, width: int, end: int, k: int)
    requires TilesTo(s, width, end) && 0 <= k < |s|
    ensures 0 <= s[k].start && s[k].end <= end
    decreases |s| - k
  {
    StartsGrow(s, width, end, k);
    if k < |s| - 1 {
      assert Joined(s, k);
      EndsGrow(s, width, end, k + 1);
    }
  }

  lemma {:induction false} StartsGrow(s: seq<Window>, width: int, end: int, k: int)
    requires TilesTo(s, width, end) && 0 <= k < |s|
    ensures 0 <= s[k].start
  {
    if k > 0 {
      assert Joined(s, k - 1);
      StartsGrow(s, width, end, k - 1);
    }
  }

  /** Busy times of all windows add up to what was counted from 0 to the end. */
  lemma {:induction false} BusyTimesAddUp(events: seq<Event>, width: int, s: seq<Window>, end: int)
    requires Chronological(events) && TilesTo(s, width, end)
    requires forall k :: 0 <= k < |s| ==> s[k].busy == Counted(events, s[k].start, s[k].end)
    ensures TotalBusy(s) == Counted(events, 0, end)
  {
    if s == [] {
      EmptySpan(events, 0);
    } else {
      var before, last := s[..|s| - 1], s[|s| - 1];
      assert before != [] ==> Joined(s, |s| - 2);
      assert forall k :: 0 <= k < |before| - 1 ==> (Joined(before, k) <==> Joined(s, k));
      BusyTimesAddUp(events, width, before, last.start);
      StartsGrow(s, width, end, |s| - 1);
      CountedAdds(events, 0, last.start, end);
    }
  }

  lemma {:induction false} EmptySpan(events: seq<Event>, at: int)
    ensures Counted(events, at, at) == 0
  {
    if events != [] {
      EmptySpan(events[..|events| - 1], at);
    }
  }

  lemma NewHistory(events: seq<Event>, e: Event)
    requires Chronological(events) && LastTime(events) <= e.time && e.time >= 0
    ensures Chronological(events + [e])
  {
  }

  lemma WindowsEndBefore(events: seq<Event>, width: int, s: seq<Window>, k: int)
    requires width > 0 && WindowsOf(events, width, s) && 0 <= k < |s|
    ensures 0 <= s[k].start < s[k].end <= EndOf(s)
  {
    assert TilesTo(s, width, EndOf(s));
    EndsGrow(s, width, EndOf(s), k);
  }

  // ---------- the counters ----------

  datatype Counters = Counters(prevTime: int, start: int, end: int, idle: int, busy: int, intervals: seq<Window>)

  /** The closed windows are exact, and the counters hold the part of the open window up to `upTo`. */
  ghost predicate CountsUpTo(events: seq<Event>, width: int, c: Counters, upTo: int) {
    && width > 0 && Chronological(events)
    && WindowsOf(events, width, c.intervals) && EndOf(c.intervals) == c.start
    && c.end == c.start + width
    && 0 <= c.start <= upTo && c.prevTime == upTo
    && c.busy == Counted(events, c.start, upTo)
    && c.idle == upTo - c.start - c.busy
  }

  /** The time up to `to` goes to the busy counter when the next event is an end. */
  function CountTo(c: Counters, to: int, nextIsOn: bool): Counters {
    if nextIsOn then c.(idle := c.idle + to - c.prevTime, prevTime := to)
    else c.(busy := c.busy + to - c.prevTime, prevTime := to)
  }

  function CloseWindow(c: Counters, width: int): Counters {
    Counters(c.end, c.start + width, c.end + width, 0, 0, c.intervals + [Window(c.start, c.end, c.busy)])
  }

  /** A new event changes nothing about what was counted before. */
  lemma EventKeepsCounts(events: seq<Event>, e: Event, width: int, c: Counters)
    requires CountsUpTo(events, width, c, LastTime(events)) && LastTime(events) <= e.time && e.time >= 0
    ensures Counting(events, e, width, c)
  {
    NewHistory(events, e);
    CountedBefore(events, e, c.start, c.prevTime);
    forall k | 0 <= k < |c.intervals|
      ensures c.intervals[k].busy == Counted(events + [e], c.intervals[k].start, c.intervals[k].end)
    {
      WindowsEndBefore(events, width, c.intervals, k);
      CountedBefore(events, e, c.intervals[k].start, c.intervals[k].end);
    }
  }

  lemma CountingOn(events: seq<Event>, e: Event, width: int, c: Counters, to: int)
    requires Counting(events, e, width, c)
    requires LastTime(events) <= c.prevTime <= to <= e.time
    ensures CountsUpTo(events + [e], width, CountTo(c, to, e.on), to)
  {
    CountedSinceLast(events, e, c.prevTime, to);
    CountedAdds(events + [e], c.start, c.prevTime, to);
  }

  lemma ClosingAWindow(events: seq<Event>, width: int, c: Counters)
    requires CountsUpTo(events, width, c, c.end)
    ensures c.idle + c.busy == width
    ensures CountsUpTo(events, width, CloseWindow(c, width), c.end)
  {
    EmptySpan(events, c.end);
    JoinOneMore(c.intervals, Window(c.start, c.end, c.busy));
  }

  /** The counters fit the history up to the last event, which is just being accounted for. */
  ghost predicate Counting(events: seq<Event>, e: Event, width: int, c: Counters) {
    CountsUpTo(events + [e], width, c, c.prevTime)
  }

  /** The rest of the window is counted, and the window closed. */
  function Filled(c: Counters, nextIsOn: bool, width: int): Counters {
    CloseWindow(CountTo(c, c.end, nextIsOn), width)
  }

  lemma FillingAWindow(events: seq<Event>, e: Event, width: int, c: Counters)
    requires Counting(events, e, width, c)
    requires LastTime(events) <= c.prevTime <= c.end <= e.time
    ensures c.idle + c.busy + (c.end - c.prevTime) == width
    ensures var f := Filled(c, e.on, width);
      && Counting(events, e, width, f)
      && f.prevTime == c.end < f.end && c.intervals <= f.intervals
  {
    CountingOn(events, e, width, c, c.end);
    ClosingAWindow(events + [e], width, CountTo(c, c.end, e.on));
  }

  /** Every window that has ended by `now` is filled. */
  function FilledUntil(c: Counters, nextIsOn: bool, width: int, now: int): Counters
    decreases if width > 0 && now >= c.end then now - c.end + 1 else 0
  {
    if width > 0 && now >= c.end then FilledUntil(Filled(c, nextIsOn, width), nextIsOn, width, now) else c
  }

  lemma {:induction false} FillingWindows(events: seq<Event>, e: Event, width: int, c: Counters)
    requires Counting(events, e, width, c) && LastTime(events) <= c.prevTime <= e.time && c.prevTime <= c.end
    ensures var f := FilledUntil(c, e.on, width, e.time);
      && Counting(events, e, width, f)
      && LastTime(events) <= f.prevTime <= e.time < f.end && c.intervals <= f.intervals
    decreases if e.time >= c.end then e.time - c.end + 1 else 0
  {
    if e.time >= c.end {
      FillingAWindow(events, e, width, c);
      FillingWindows(events, e, width, Filled(c, e.on, width));
    }
  }

  function Tracked(c: Counters, nextIsOn: bool, width: int, now: int): Counters {
    CountTo(FilledUntil(c, nextIsOn, width, now), now, nextIsOn)
  }

  /** Accounting for an event keeps the counters exact. */
  lemma EventIsCounted(events: seq<Event>, e: Event, width: int, c: Counters)
    requires CountsUpTo(events, width, c, LastTime(events)) && c.prevTime < c.end
    requires LastTime(events) <= e.time && e.time >= 0
    ensures c.end == c.start + width && c.idle + c.busy + (c.end - c.prevTime) == width
    ensures var t := Tracked(c, e.on, width, e.time);
      CountsUpTo(events + [e], width, t, LastTime(events + [e])) && e.time < t.end && c.intervals <= t.intervals
    ensures On(events + [e]) == e.on && LastTime(events + [e]) == e.time
  {
    EventKeepsCounts(events, e, width, c);
    FillingWindows(events, e, width, c);
    CountingOn(events, e, width, FilledUntil(c, e.on, width, e.time), e.time);
  }

  lemma JoinOneMore(s: seq<Window>, w: Window)
    requires AllJoined(s) && EndOf(s) == w.start
    ensures AllJoined(s + [w])
  {
    forall k | 0 <= k < |s|
      ensures Joined(s + [w], k)
    {
      assert k < |s| - 1 ==> Joined(s, k);
    }
  }

  // ---------- the tracker ----------

  class NetDeviceUtilizationTracker {
    const width: int
    var prevTime: int
    var currentStart: int
    var currentEnd: int
    var idle: int
    var busy: int
    var isOn: bool
    var intervals: seq<Window>
    ghost var events: seq<Event>

    ghost function Now(): Counters
      reads this
    {
      Counters(prevTime, currentStart, currentEnd, idle, busy, intervals)
    }

    ghost predicate Valid()
      reads this
    {
      CountsUpTo(events, width, Now(), LastTime(events)) && prevTime < currentEnd && isOn == On(events)
    }

    constructor (width: int)
      requires width >= 1
      ensures Valid() && events == [] && this.width == width
    {
      this.width := width;
      prevTime, currentStart, currentEnd := 0, 0, width;
      idle, busy, isOn := 0, 0, false;
      intervals, events := [], [];
    }

    method Count(to: int, nextIsOn: bool)
      modifies this`idle, this`busy, this`prevTime
      ensures Now() == CountTo(old(Now()), to, nextIsOn)
    {
      if nextIsOn {
        idle := idle + (to - prevTime);
      } else {
        busy := busy + (to - prevTime);
      }
      prevTime := to;
    }

    /** Everything up to the end of the window is accounted for, and the next window begins; the idle and
        busy time of the closed one must match its width. */
    method SaveWindow()
      requires idle + busy == width
      modifies this`idle, this`busy, this`prevTime, this`currentStart, this`currentEnd, this`intervals
      ensures Now() == CloseWindow(old(Now()), width)
    {
      intervals := intervals + [Window(currentStart, currentEnd, busy)];
      assert idle + busy == width;
      idle := 0;
      busy := 0;
      prevTime := currentEnd;
      currentStart := currentStart + width;
      currentEnd := currentEnd + width;
    }

    /** The rest of the window goes to the counter of the event, and the window closes. */
    method FillWindow(nextIsOn: bool)
      requires idle + busy + (currentEnd - prevTime) == width
      modifies this`idle, this`busy, this`prevTime, this`currentStart, this`currentEnd, this`intervals
      ensures Now() == Filled(old(Now()), nextIsOn, width)
    {
      Count(currentEnd, nextIsOn);
      SaveWindow();
    }

    /** Closes every window that has ended by `now`. */
    method CloseWindows(now: int, nextIsOn: bool)
      requires width > 0 && currentEnd == currentStart + width && idle + busy + (currentEnd - prevTime) == width
      modifies this`idle, this`busy, this`prevTime, this`currentStart, this`currentEnd, this`intervals
      ensures Now() == FilledUntil(old(Now()), nextIsOn, width, now)
    {
      while now >= currentEnd
        invariant currentEnd == currentStart + width && idle + busy + (currentEnd - prevTime) == width
        invariant FilledUntil(Now(), nextIsOn, width, now) == FilledUntil(old(Now()), nextIsOn, width, now)
        decreases now - currentEnd
      {
        FillWindow(nextIsOn);
      }
    }

    /** Account for the time since the previous event, closing every window that has ended by `now`. */
    method TrackUtilization(now: int, nextIsOn: bool)
      requires Valid() && prevTime <= now
      modifies this
      ensures Valid() && events == old(events) + [Event(now, nextIsOn)]
      ensures old(intervals) <= intervals
    {
      ghost var e := Event(now, nextIsOn);
      EventIsCounted(events, e, width, Now());
      Account(now, nextIsOn);
      isOn := nextIsOn;
      events := events + [e];
      assert Now() == Tracked(old(Now()), nextIsOn, width, now);
    }

    method Account(now: int, nextIsOn: bool)
      requires width > 0 && currentEnd == currentStart + width && idle + busy + (currentEnd - prevTime) == width
      modifies this`idle, this`busy, this`prevTime, this`currentStart, this`currentEnd, this`intervals
      ensures Now() == Tracked(old(Now()), nextIsOn, width, now)
    {
      CloseWindows(now, nextIsOn);
      Count(now, nextIsOn);
    }

    /** Ends all windows at `now`. For a history of alternating begins and ends, the windows tile the
        time up to `now`, and each holds exactly its transmission time. */
    method FinalizeUtilization(now: int) returns (result: seq<Window>)
      requires Valid() && prevTime <= now
      modifies this
      ensures events == old(events) + [Event(now, !On(old(events)))]
      ensures result == intervals && TilesTo(result, width, now)
      ensures forall k :: 0 <= k < |result| - 1 ==> result[k].end == result[k].start + width
      ensures Alternating(old(events)) ==>
        forall k :: 0 <= k < |result| ==> result[k].busy == OnTime(events, result[k].start, result[k].end)
      ensures Alternating(old(events)) ==> TotalBusy(result) == OnTime(events, 0, now)
    {
      TrackUtilization(now, !isOn);
      ghost var c := Now();
      if now != currentStart {
        intervals := intervals + [Window(currentStart, now, busy)];
      }
      OpenWindowCloses(events, width, c, now);
      FinalWindows(old(events), events, width, intervals, now);
      return intervals;
    }
  }

  lemma OpenWindowCloses(events: seq<Event>, width: int, c: Counters, now: int)
    requires CountsUpTo(events, width, c, now) && now < c.end
    ensures var s := if now != c.start then c.intervals + [Window(c.start, now, c.busy)] else c.intervals;
      && TilesTo(s, width, now)
      && forall k :: 0 <= k < |s| ==> s[k].busy == Counted(events, s[k].start, s[k].end)
  {
    JoinOneMore(c.intervals, Window(c.start, now, c.busy));
  }

  lemma FinalWindows(before: seq<Event>, events: seq<Event>, width: int, s: seq<Window>, now: int)
    requires events == before + [Event(now, !On(before))] && Chronological(events) && TilesTo(s, width, now)
    requires forall k :: 0 <= k < |s| ==> s[k].busy == Counted(events, s[k].start, s[k].end)
    ensures Alternating(before) ==>
      && (forall k :: 0 <= k < |s| ==> s[k].busy == OnTime(events, s[k].start, s[k].end))
      && TotalBusy(s) == OnTime(events, 0, now)
  {
    BusyTimesAddUp(events, width, s, now);
    if Alternating(before) {
      assert events[..|events| - 1] == before;
      CountedIsOnTime(events, 0, now);
      forall k | 0 <= k < |s|
        ensures s[k].busy == OnTime(events, s[k].start, s[k].end)
      {
        CountedIsOnTime(events, s[k].start, s[k].end);
      }
    }
  }
}
