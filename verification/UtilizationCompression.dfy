/** Merging consecutive windows of approximately equal utilization into lines, and how little that
    loses. */
module UtilizationCompression {
  import opened UtilizationTracking

  /** Utilizations that differ by this much or more are not equal. */
  const APPROXIMATELY_NOT_EQUAL: real := 0.000001

  function Abs(x: real): real {
    if x < 0.0 then -x else x
  }

  function Utilization(w: Window): real
    requires w.start < w.end
  {
    w.busy as real / (w.end - w.start) as real
  }

  /** Non-empty windows that follow on each other, from 0 on. */
  ghost predicate Consecutive(s: seq<Window>) {
    && (s != [] ==> s[0].start == 0)
    && (forall k :: 0 <= k < |s| ==> s[k].start < s[k].end)
    && AllJoined(s)
  }

  ghost predicate CloseToNext(s: seq<Window>, j: int)
    requires Consecutive(s) && 0 <= j < |s| - 1
  {
    Abs(Utilization(s[j]) - Utilization(s[j + 1])) < APPROXIMATELY_NOT_EQUAL
  }

  /** The windows from `from` up to `to` as one line. */
  ghost function Merged(s: seq<Window>, from: int, to: int): Window
    requires 0 <= from < to <= |s|
  {
    Window(s[from].start, s[to - 1].end, TotalBusy(s[from..to]))
  }

  /** Line `r` stands for the windows between cuts `r` and `r + 1`: neighbours inside are close. */
  ghost predicate IsRun(s: seq<Window>, lines: seq<Window>, cuts: seq<int>, r: int)
    requires Consecutive(s) && 0 <= r < |lines| == |cuts| - 1
  {
    && 0 <= cuts[r] < cuts[r + 1] <= |s|
    && lines[r] == Merged(s, cuts[r], cuts[r + 1])
    && forall j {:trigger CloseToNext(s, j)} :: cuts[r] <= j < cuts[r + 1] - 1 ==> CloseToNext(s, j)
  }

  /** The lines are the runs of the first `n` windows; neighbouring runs are not close. */
  ghost predicate RunsOf(s: seq<Window>, lines: seq<Window>, cuts: seq<int>, n: int)
    requires Consecutive(s)
  {
    && |cuts| == |lines| + 1 && cuts[0] == 0 <= cuts[|lines|] == n <= |s|
    && (forall r {:trigger IsRun(s, lines, cuts, r)} :: 0 <= r < |lines| ==> IsRun(s, lines, cuts, r))
    && (forall r :: 0 < r < |cuts| && 0 < cuts[r] < |s| ==> !CloseToNext(s, cuts[r] - 1))
  }

  lemma SumOneMore(s: seq<Window>, from: int, to: int)
    requires 0 <= from <= to < |s|
    ensures TotalBusy(s[from..to + 1]) == TotalBusy(s[from..to]) + s[to].busy
  {
    assert s[from..to + 1][..to - from] == s[from..to];
  }

  lemma OneMoreRun(s: seq<Window>, lines: seq<Window>, cuts: seq<int>, n: int, to: int)
    requires Consecutive(s) && RunsOf(s, lines, cuts, n) && n < to <= |s|
    requires forall j {:trigger CloseToNext(s, j)} :: n <= j < to - 1 ==> CloseToNext(s, j)
    requires to < |s| ==> !CloseToNext(s, to - 1)
    ensures RunsOf(s, lines + [Merged(s, n, to)], cuts + [to], to)
  {
    var lines', cuts' := lines + [Merged(s, n, to)], cuts + [to];
    forall r | 0 <= r < |lines'|
      ensures IsRun(s, lines', cuts', r)
    {
      assert r < |lines| ==> IsRun(s, lines, cuts, r);
    }
  }

  /** One pass over the windows: a line is written at the last window, and where the next utilization
      is not approximately the same. The lines are the runs of the windows, span the same time and hold
      the same busy time. */
  method Compress(s: seq<Window>) returns (lines: seq<Window>)
    requires Consecutive(s)
    ensures exists cuts :: RunsOf(s, lines, cuts, |s|)
    ensures Consecutive(lines) && EndOf(lines) == EndOf(s) && TotalBusy(lines) == TotalBusy(s)
  {
    lines := [];
    ghost var cuts := [0];
    var leftSide, runningBusy := 0, 0;
    for j := 0 to |s|
      invariant |cuts| == |lines| + 1 && RunsOf(s, lines, cuts, cuts[|lines|])
      invariant var n := cuts[|lines|];
        && n <= j
        && runningBusy == TotalBusy(s[n..j])
        && (j < |s| ==> leftSide == s[n].start)
        && (j == |s| ==> n == j)
        && forall i {:trigger CloseToNext(s, i)} :: n <= i < j && i < |s| - 1 ==> CloseToNext(s, i)
    {
      ghost var n := cuts[|lines|];
      SumOneMore(s, n, j);
      runningBusy := runningBusy + s[j].busy;
      var printLine := j == |s| - 1;
      if !printLine {
        var now, next := Utilization(s[j]), Utilization(s[j + 1]);
        assert CloseToNext(s, j) <==> Abs(now - next) < APPROXIMATELY_NOT_EQUAL;
        if Abs(now - next) >= APPROXIMATELY_NOT_EQUAL {
          printLine := true;
        }
      }
      if printLine {
        OneMoreRun(s, lines, cuts, n, j + 1);
        lines := lines + [Window(leftSide, s[j].end, runningBusy)];
        cuts := cuts + [j + 1];
        leftSide := s[j].end;
        runningBusy := 0;
        assert j < |s| - 1 ==> Joined(s, j);
      }
    }
    LinesTile(s, lines, cuts);
    BusyTimeIsConserved(s, lines, cuts);
  }

  // ---------- nothing is lost ----------

  lemma {:induction false} RunsEnd(s: seq<Window>, lines: seq<Window>, cuts: seq<int>, n: int)
    requires Consecutive(s) && RunsOf(s, lines, cuts, n) && n == |s|
    ensures EndOf(lines) == EndOf(s)
  {
    if lines != [] {
      assert IsRun(s, lines, cuts, |lines| - 1);
    }
  }

  /** The lines are consecutive and span the same time. */
  lemma LinesTile(s: seq<Window>, lines: seq<Window>, cuts: seq<int>)
    requires Consecutive(s) && RunsOf(s, lines, cuts, |s|)
    ensures Consecutive(lines) && EndOf(lines) == EndOf(s)
  {
    RunsEnd(s, lines, cuts, |s|);
    forall r | 0 <= r < |lines|
      ensures lines[r].start < lines[r].end
      ensures r == 0 ==> lines[r].start == 0
    {
      assert IsRun(s, lines, cuts, r);
      EndsAfterStart(s, cuts[r], cuts[r + 1] - 1);
    }
    forall r | 0 <= r < |lines| - 1
      ensures Joined(lines, r)
    {
      assert IsRun(s, lines, cuts, r) && IsRun(s, lines, cuts, r + 1);
      assert Joined(s, cuts[r + 1] - 1);
    }
  }

  lemma {:induction false} EndsAfterStart(s: seq<Window>, i: int, j: int)
    requires Consecutive(s) && 0 <= i <= j < |s|
    ensures s[i].start < s[j].end
  {
    if i < j {
      EndsAfterStart(s, i, j - 1);
      assert Joined(s, j - 1);
    }
  }

  lemma {:induction false} SumsConcat(s: seq<Window>, r: seq<Window>)
    ensures TotalBusy(s + r) == TotalBusy(s) + TotalBusy(r)
  {
    if r == [] {
      assert s + r == s;
    } else {
      SumsConcat(s, r[..|r| - 1]);
      assert (s + r)[..|s + r| - 1] == s + r[..|r| - 1];
    }
  }

  lemma {:induction false} LinesKeepBusyTime(s: seq<Window>, lines: seq<Window>, cuts: seq<int>, n: int, k: nat)
    requires Consecutive(s) && RunsOf(s, lines, cuts, n) && k <= |lines|
    ensures 0 <= cuts[k] <= |s| && TotalBusy(lines[..k]) == TotalBusy(s[..cuts[k]])
  {
    if k > 0 {
      LinesKeepBusyTime(s, lines, cuts, n, k - 1);
      assert IsRun(s, lines, cuts, k - 1);
      assert lines[..k][..k - 1] == lines[..k - 1];
      assert s[..cuts[k]] == s[..cuts[k - 1]] + s[cuts[k - 1]..cuts[k]];
      SumsConcat(s[..cuts[k - 1]], s[cuts[k - 1]..cuts[k]]);
    }
  }

  /** The busy time of the lines is the busy time of the windows. */
  lemma BusyTimeIsConserved(s: seq<Window>, lines: seq<Window>, cuts: seq<int>)
    requires Consecutive(s) && RunsOf(s, lines, cuts, |s|)
    ensures TotalBusy(lines) == TotalBusy(s)
  {
    LinesKeepBusyTime(s, lines, cuts, |s|, |lines|);
    assert lines[..|lines|] == lines && s[..|s|] == s;
  }

  // ---------- little is blurred ----------

  /** Utilizations drift by less than the threshold per window. */
  lemma {:induction false} Drift(s: seq<Window>, from: int, to: int, i: int, j: int)
    requires Consecutive(s) && 0 <= from <= i <= j < to <= |s|
    requires forall x {:trigger CloseToNext(s, x)} :: from <= x < to - 1 ==> CloseToNext(s, x)
    ensures Abs(Utilization(s[i]) - Utilization(s[j])) <= (j - i) as real * APPROXIMATELY_NOT_EQUAL
  {
    if i < j {
      Drift(s, from, to, i, j - 1);
      assert CloseToNext(s, j - 1);
    }
  }

  /** Between `lo` and `hi` per unit of time. */
  ghost predicate Within(busy: int, time: int, lo: real, hi: real) {
    lo * time as real <= busy as real <= hi * time as real
  }

  lemma WithinIsUtilization(w: Window, lo: real, hi: real)
    requires w.start < w.end
    ensures Within(w.busy, w.end - w.start, lo, hi) <==> lo <= Utilization(w) <= hi
  {
    var u, n := Utilization(w), (w.end - w.start) as real;
    assert u * n == w.busy as real;
    CompareScaled(lo, u, n);
    CompareScaled(u, hi, n);
  }

  lemma CompareScaled(x: real, y: real, n: real)
    requires n > 0.0
    ensures x * n <= y * n <==> x <= y
  {
    assert y * n - x * n == (y - x) * n;
    if x <= y {
      assert (y - x) * n >= 0.0;
    } else {
      assert (x - y) * n > 0.0;
    }
  }

  lemma WithinAdds(b1: int, t1: int, b2: int, t2: int, lo: real, hi: real)
    requires Within(b1, t1, lo, hi) && Within(b2, t2, lo, hi)
    ensures Within(b1 + b2, t1 + t2, lo, hi)
  {
    var x, y := t1 as real, t2 as real;
    assert (t1 + t2) as real == x + y;
    assert lo * (x + y) == lo * x + lo * y;
    assert hi * (x + y) == hi * x + hi * y;
  }

  ghost predicate EachWithin(s: seq<Window>, from: int, to: int, lo: real, hi: real)
    requires Consecutive(s) && 0 <= from < to <= |s|
  {
    forall i :: from <= i < to ==> Within(s[i].busy, s[i].end - s[i].start, lo, hi)
  }

  /** Bounds on all windows of a run are bounds on the run. */
  lemma {:induction false} RunWithin(s: seq<Window>, from: int, to: int, lo: real, hi: real)
    requires Consecutive(s) && 0 <= from < to <= |s|
    requires EachWithin(s, from, to, lo, hi)
    ensures Within(TotalBusy(s[from..to]), s[to - 1].end - s[from].start, lo, hi)
  {
    var last := s[to - 1];
    SumOneMore(s, from, to - 1);
    if from < to - 1 {
      RunWithin(s, from, to - 1, lo, hi);
      assert Joined(s, to - 2);
      WithinAdds(TotalBusy(s[from..to - 1]), s[to - 2].end - s[from].start, last.busy, last.end - last.start, lo, hi);
    } else {
      assert s[from..to - 1] == [];
    }
  }

  lemma DriftWithin(s: seq<Window>, from: int, to: int, j: int, bound: real)
    requires Consecutive(s) && 0 <= from <= j < to <= |s|
    requires forall x {:trigger CloseToNext(s, x)} :: from <= x < to - 1 ==> CloseToNext(s, x)
    requires bound == (to - from - 1) as real * APPROXIMATELY_NOT_EQUAL
    ensures EachWithin(s, from, to, Utilization(s[j]) - bound, Utilization(s[j]) + bound)
  {
    var u := Utilization(s[j]);
    forall i | from <= i < to
      ensures Within(s[i].busy, s[i].end - s[i].start, u - bound, u + bound)
    {
      if i <= j {
        Drift(s, from, to, i, j);
      } else {
        Drift(s, from, to, j, i);
      }
      WithinIsUtilization(s[i], u - bound, u + bound);
    }
  }

  /** In a line of `m` windows, every window's utilization is within `m - 1` thresholds of the line's. */
  lemma LinesAreClose(s: seq<Window>, lines: seq<Window>, cuts: seq<int>, r: int, j: int)
    requires Consecutive(s) && RunsOf(s, lines, cuts, |s|) && 0 <= r < |lines|
    requires IsRun(s, lines, cuts, r) && cuts[r] <= j < cuts[r + 1]
    ensures lines[r].start < lines[r].end
    ensures Abs(Utilization(s[j]) - Utilization(lines[r])) <=
            (cuts[r + 1] - cuts[r] - 1) as real * 0.000001
  {
    var from, to := cuts[r], cuts[r + 1];
    var bound := (to - from - 1) as real * APPROXIMATELY_NOT_EQUAL;
    var u := Utilization(s[j]);
    DriftWithin(s, from, to, j, bound);
    RunWithin(s, from, to, u - bound, u + bound);
    EndsAfterStart(s, from, to - 1);
    WithinIsUtilization(lines[r], u - bound, u + bound);
  }

  /** Nothing is divided without need: where a line ends, the utilizations differ by the threshold or more. */
  lemma NextLineDiffers(s: seq<Window>, lines: seq<Window>, cuts: seq<int>, r: int)
    requires Consecutive(s) && RunsOf(s, lines, cuts, |s|) && 0 <= r < |lines| - 1
    ensures 0 < cuts[r + 1] < |s|
    ensures Abs(Utilization(s[cuts[r + 1] - 1]) - Utilization(s[cuts[r + 1]])) >= 0.000001
  {
    assert IsRun(s, lines, cuts, r) && IsRun(s, lines, cuts, r + 1);
    assert !CloseToNext(s, cuts[r + 1] - 1);
  }

  /** What the tracker delivers can be compressed. */
  lemma TrackedWindowsAreConsecutive(s: seq<Window>, width: int, end: int)
    requires TilesTo(s, width, end)
    ensures Consecutive(s) && EndOf(s) == end
  {
  }
}
