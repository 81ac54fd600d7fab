/** An online log of a value over time: equal neighbours are merged while updates come in, and the
    result is the step function of the updates, cut into as few intervals as possible. */
module StepFunctionLog {

  datatype Interval<V> = Interval(left: int, right: int, value: V)

  datatype Status = Fine | NegativeTime | TimeInThePast

  // ---------- the specification: last value written at or before each time ----------

  ghost predicate Ascending<V>(updates: seq<(int, V)>) {
    && (forall i :: 0 <= i < |updates| ==> updates[i].0 >= 0)
    && (forall i, j :: 0 <= i < j < |updates| ==> updates[i].0 <= updates[j].0)
  }

  /** The value of the last update at or before `time`. */
  ghost function ValueAt<V>(updates: seq<(int, V)>, time: int): V
    requires |updates| > 0 && updates[0].0 <= time
  {
    var last := updates[|updates| - 1];
    if last.0 <= time then last.1 else ValueAt(updates[..|updates| - 1], time)
  }

  /** The intervals are non-empty, follow on each other from `from` to `to`, and neighbours differ. */
  ghost predicate Tiles<V>(s: seq<Interval<V>>, from: int, to: int) {
    && |s| > 0 && s[0].left == from && s[|s| - 1].right == to
    && (forall i :: 0 <= i < |s| ==> s[i].left < s[i].right)
    && (forall i :: 0 <= i < |s| - 1 ==> s[i].right == s[i + 1].left && s[i].value != s[i + 1].value)
  }

  ghost predicate HoldsIn<V>(updates: seq<(int, V)>, e: Interval<V>)
    requires |updates| > 0 && updates[0].0 <= e.left
  {
    forall time :: e.left <= time < e.right ==> ValueAt(updates, time) == e.value
  }

  /** The intervals are the step function of the updates from the first update to `to`. */
  ghost predicate IsStepFunction<V>(updates: seq<(int, V)>, s: seq<Interval<V>>, to: int) {
    && |updates| > 0
    && Tiles(s, updates[0].0, to)
    && (forall i :: 0 <= i < |s| ==> updates[0].0 <= s[i].left && HoldsIn(updates, s[i]))
  }

  /** What a log should hold at time `to`: nothing when no time has passed since the first update. */
  ghost predicate IsLog<V>(updates: seq<(int, V)>, s: seq<Interval<V>>, to: int) {
    if updates == [] || updates[0].0 >= to then s == [] else IsStepFunction(updates, s, to)
  }

  /** What the file should hold: the left end of every interval, and one closing line. */
  ghost function FileLines<V>(s: seq<Interval<V>>): seq<(int, V)> {
    LeftEnds(s) + if s == [] then [] else [(s[|s| - 1].right, s[|s| - 1].value)]
  }

  ghost function LeftEnds<V>(s: seq<Interval<V>>): seq<(int, V)> {
    if s == [] then [] else LeftEnds(s[..|s| - 1]) + [(s[|s| - 1].left, s[|s| - 1].value)]
  }

  // ---------- the log is determined by the updates ----------

  lemma {:induction false} LeftsGrow<V>(s: seq<Interval<V>>, from: int, to: int, i: int, j: int)
    requires Tiles(s, from, to) && 0 <= i <= j < |s|
    ensures s[i].left <= s[j].left && s[i].right <= s[j].right <= to
    decreases |s| - i
  {
    if i < j {
      LeftsGrow(s, from, to, i + 1, j);
    } else if j < |s| - 1 {
      LeftsGrow(s, from, to, j + 1, j + 1);
    }
  }

  /** Two ways to cut the same step function agree in every interval. */
  lemma {:induction false} SameCut<V>(updates: seq<(int, V)>, s: seq<Interval<V>>, r: seq<Interval<V>>, to: int, i: nat)
    requires IsStepFunction(updates, s, to) && IsStepFunction(updates, r, to)
    requires i < |s| && i < |r|
    ensures s[i] == r[i]
  {
    if i > 0 {
      SameCut(updates, s, r, to, i - 1);
      assert s[i - 1].right == s[i].left && r[i - 1].right == r[i].left;
    }
    LeftsGrow(s, updates[0].0, to, i, i);
    LeftsGrow(r, updates[0].0, to, i, i);
    assert HoldsIn(updates, s[i]) && HoldsIn(updates, r[i]);
    assert ValueAt(updates, s[i].left) == s[i].value == r[i].value;
    NoEarlyEnd(updates, s, r, to, i);
    NoEarlyEnd(updates, r, s, to, i);
  }

  lemma NextValueDiffers<V>(updates: seq<(int, V)>, s: seq<Interval<V>>, to: int, i: nat)
    requires IsStepFunction(updates, s, to) && i < |s| && s[i].right < to
    ensures updates[0].0 <= s[i].right && ValueAt(updates, s[i].right) != s[i].value
  {
    assert i < |s| - 1;
    LeftsGrow(s, updates[0].0, to, i, i + 1);
    assert HoldsIn(updates, s[i + 1]);
    assert ValueAt(updates, s[i + 1].left) == s[i + 1].value;
  }

  lemma ValueWithin<V>(updates: seq<(int, V)>, s: seq<Interval<V>>, to: int, i: nat, time: int)
    requires IsStepFunction(updates, s, to) && i < |s|
    requires updates[0].0 <= time && s[i].left <= time < s[i].right
    ensures ValueAt(updates, time) == s[i].value
  {
    assert HoldsIn(updates, s[i]);
  }

  lemma NoEarlyEnd<V>(updates: seq<(int, V)>, s: seq<Interval<V>>, r: seq<Interval<V>>, to: int, i: nat)
    requires IsStepFunction(updates, s, to) && IsStepFunction(updates, r, to)
    requires i < |s| && i < |r| && s[i].left == r[i].left && s[i].value == r[i].value
    ensures s[i].right >= r[i].right
  {
    if s[i].right < r[i].right {
      LeftsGrow(r, updates[0].0, to, i, i);
      ValueWithin(updates, r, to, i, s[i].right);
      NextValueDiffers(updates, s, to, i);
    }
  }

  /** There is only one log of a given history. */
  lemma LogIsUnique<V>(updates: seq<(int, V)>, s: seq<Interval<V>>, r: seq<Interval<V>>, to: int)
    requires IsLog(updates, s, to) && IsLog(updates, r, to)
    ensures s == r
  {
    if updates != [] && updates[0].0 < to {
      SameLength(updates, s, r, to);
      SameLength(updates, r, s, to);
      forall i | 0 <= i < |s|
        ensures s[i] == r[i]
      {
        SameCut(updates, s, r, to, i);
      }
    }
  }

  lemma SameLength<V>(updates: seq<(int, V)>, s: seq<Interval<V>>, r: seq<Interval<V>>, to: int)
    requires IsStepFunction(updates, s, to) && IsStepFunction(updates, r, to)
    ensures |s| >= |r|
  {
    if |s| < |r| {
      SameCut(updates, s, r, to, |s| - 1);
      LeftsGrow(r, updates[0].0, to, |s|, |s|);
    }
  }

  // ---------- one more update ----------

  lemma {:induction false} LaterUpdateKeepsThePast<V>(updates: seq<(int, V)>, time: int, value: V, at: int)
    requires |updates| > 0 && updates[0].0 <= at < time
    ensures ValueAt(updates + [(time, value)], at) == ValueAt(updates, at)
  {
    assert (updates + [(time, value)])[..|updates|] == updates;
  }

  /** After the last update its value stays. */
  lemma LastValueStays<V>(updates: seq<(int, V)>, at: int)
    requires |updates| > 0 && Ascending(updates) && updates[|updates| - 1].0 <= at
    ensures ValueAt(updates, at) == updates[|updates| - 1].1
  {
  }

  lemma LaterUpdateKeepsSteps<V>(updates: seq<(int, V)>, s: seq<Interval<V>>, to: int, time: int, value: V)
    requires IsStepFunction(updates, s, to) && to <= time
    ensures IsStepFunction(updates + [(time, value)], s, to)
  {
    var more := updates + [(time, value)];
    forall i | 0 <= i < |s|
      ensures HoldsIn(more, s[i])
    {
      LeftsGrow(s, updates[0].0, to, i, i);
      forall at | s[i].left <= at < s[i].right
        ensures ValueAt(more, at) == s[i].value
      {
        LaterUpdateKeepsThePast(updates, time, value, at);
        assert HoldsIn(updates, s[i]);
      }
    }
  }

  /** The step function continued: the last interval grows when the value stays the same, otherwise a
      new interval begins. */
  ghost function Continue<V>(s: seq<Interval<V>>, to: int, value: V): seq<Interval<V>>
    requires |s| > 0
  {
    var last := s[|s| - 1];
    if last.value == value then s[..|s| - 1] + [last.(right := to)] else s + [Interval(last.right, to, value)]
  }

  lemma ContinueSteps<V>(updates: seq<(int, V)>, s: seq<Interval<V>>, at: int, to: int)
    requires Ascending(updates) && IsStepFunction(updates, s, at)
    requires updates[|updates| - 1].0 == at < to
    ensures IsStepFunction(updates, Continue(s, to, updates[|updates| - 1].1), to)
  {
    var value, last := updates[|updates| - 1].1, s[|s| - 1];
    var r := Continue(s, to, value);
    LeftsGrow(s, updates[0].0, at, 0, |s| - 1);
    forall i | 0 <= i < |r|
      ensures updates[0].0 <= r[i].left && HoldsIn(updates, r[i])
    {
      forall time | r[i].left <= time < r[i].right
        ensures ValueAt(updates, time) == r[i].value
      {
        if time < at {
          assert HoldsIn(updates, s[i]);
        } else {
          if i < |s| - 1 {
            LeftsGrow(s, updates[0].0, at, i, i);
          }
          LastValueStays(updates, time);
        }
      }
    }
  }
}
