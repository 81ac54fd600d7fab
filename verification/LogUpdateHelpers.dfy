/** The update log as an object: the interval that is settled but may still grow (alpha), the time from
    which the value is still open (beta), and what has been written out. */
module LogUpdateHelpers {
  import opened StepFunctionLog

  /** What the helper remembers besides what it has written; -1 stands for "not started". */
  datatype Memory<V> = Memory(lastUpdateValue: V, alphaValue: V, lastCheckTime: int, alphaLeft: int, betaLeft: int)

  function Alpha<V>(m: Memory<V>): Interval<V> {
    Interval(m.alphaLeft, m.betaLeft, m.alphaValue)
  }

  /** What the memory and the intervals written so far say about the updates. */
  ghost predicate Fits<V>(updates: seq<(int, V)>, written: seq<Interval<V>>, m: Memory<V>) {
    && Ascending(updates)
    && if updates == [] then m.lastCheckTime == m.alphaLeft == m.betaLeft == -1 && written == []
       else
         && m.lastCheckTime == updates[|updates| - 1].0 && m.lastUpdateValue == updates[|updates| - 1].1
         && m.alphaLeft != -1
         && if m.betaLeft == -1 then m.alphaLeft == m.lastCheckTime == updates[0].0 && written == []
            else m.betaLeft == m.lastCheckTime && IsStepFunction(updates, written + [Alpha(m)], m.lastCheckTime)
  }

  /** What an update writes out: alpha, when beta has turned out to have another value. */
  function WrittenBy<V(==)>(m: Memory<V>, time: int): seq<Interval<V>> {
    if time > m.lastCheckTime && m.alphaLeft != -1 && m.betaLeft != -1 && m.alphaValue != m.lastUpdateValue
    then [Alpha(m)] else []
  }

  function After<V(==)>(m: Memory<V>, time: int, value: V): Memory<V> {
    if time <= m.lastCheckTime then m.(lastUpdateValue := value)
    else if m.alphaLeft == -1 then m.(alphaLeft := time, lastCheckTime := time, lastUpdateValue := value)
    else if m.betaLeft == -1 || m.alphaValue == m.lastUpdateValue then
      Memory(value, m.lastUpdateValue, time, m.alphaLeft, time)
    else Memory(value, m.lastUpdateValue, time, m.betaLeft, time)
  }

  /** What finalizing writes out. */
  function WrittenAtEnd<V(==)>(m: Memory<V>, time: int): seq<Interval<V>> {
    if m.alphaLeft == -1 then []
    else if m.betaLeft == -1 then
      if m.alphaLeft != time then [Interval(m.alphaLeft, time, m.lastUpdateValue)] else []
    else if m.alphaValue == m.lastUpdateValue then [Interval(m.alphaLeft, time, m.alphaValue)]
    else [Alpha(m)] + if m.betaLeft != time then [Interval(m.betaLeft, time, m.lastUpdateValue)] else []
  }

  lemma FirstInterval<V>(updates: seq<(int, V)>, time: int)
    requires Ascending(updates) && updates != [] && updates[|updates| - 1].0 == updates[0].0 < time
    ensures IsStepFunction(updates, [Interval(updates[0].0, time, updates[|updates| - 1].1)], time)
  {
    forall at | updates[0].0 <= at < time
      ensures ValueAt(updates, at) == updates[|updates| - 1].1
    {
      LastValueStays(updates, at);
    }
  }

  /** When a new moment comes, the value has stayed what it was since the last one. */
  lemma SettledSteps<V>(updates: seq<(int, V)>, written: seq<Interval<V>>, m: Memory<V>, time: int, value: V)
    requires Fits(updates, written, m) && updates != [] && time > m.lastCheckTime
    ensures var m' := After(m, time, value);
      && m'.betaLeft == time && m'.alphaLeft != -1
      && IsStepFunction(updates, written + WrittenBy(m, time) + [Alpha(m')], time)
  {
    var m', written' := After(m, time, value), written + WrittenBy(m, time);
    if m.betaLeft == -1 {
      FirstInterval(updates, time);
      assert written' + [Alpha(m')] == [Interval(updates[0].0, time, updates[|updates| - 1].1)];
    } else {
      ContinueSteps(updates, written + [Alpha(m)], m.lastCheckTime, time);
      assert written' + [Alpha(m')] == Continue(written + [Alpha(m)], time, m.lastUpdateValue);
      LeftsGrow(written + [Alpha(m)], updates[0].0, m.lastCheckTime, 0, |written|);
    }
  }

  lemma StillAscending<V>(updates: seq<(int, V)>, time: int, value: V)
    requires Ascending(updates) && time >= 0 && (updates != [] ==> updates[|updates| - 1].0 <= time)
    ensures Ascending(updates + [(time, value)])
  {
  }

  lemma UpdateFits<V>(updates: seq<(int, V)>, written: seq<Interval<V>>, m: Memory<V>, time: int, value: V)
    requires Fits(updates, written, m) && time >= 0 && time >= m.lastCheckTime
    ensures Fits(updates + [(time, value)], written + WrittenBy(m, time), After(m, time, value))
  {
    StillAscending(updates, time, value);
    var m', written' := After(m, time, value), written + WrittenBy(m, time);
    if updates != [] {
      if time > m.lastCheckTime {
        SettledSteps(updates, written, m, time, value);
        LaterUpdateKeepsSteps(updates, written' + [Alpha(m')], time, time, value);
      } else {
        assert written' == written;
        if m.betaLeft != -1 {
          assert Alpha(m') == Alpha(m);
          LaterUpdateKeepsSteps(updates, written + [Alpha(m)], time, time, value);
        }
      }
    }
  }

  lemma EndIsLog<V>(updates: seq<(int, V)>, written: seq<Interval<V>>, m: Memory<V>, time: int)
    requires Fits(updates, written, m) && time >= 0 && time >= m.lastCheckTime
    ensures IsLog(updates, written + WrittenAtEnd(m, time), time)
  {
    if updates != [] {
      var result := written + WrittenAtEnd(m, time);
      if m.betaLeft == -1 {
        if time > m.alphaLeft {
          FirstInterval(updates, time);
          assert result == [Interval(updates[0].0, time, updates[|updates| - 1].1)];
        }
      } else {
        var settled := written + [Alpha(m)];
        LeftsGrow(settled, updates[0].0, m.lastCheckTime, 0, |settled| - 1);
        if time > m.lastCheckTime {
          ContinueSteps(updates, settled, m.lastCheckTime, time);
          assert result == Continue(settled, time, m.lastUpdateValue);
        } else {
          assert result == settled;
        }
      }
    }
  }

  lemma {:induction false} LeftEndsConcat<V>(s: seq<Interval<V>>, r: seq<Interval<V>>)
    ensures LeftEnds(s + r) == LeftEnds(s) + LeftEnds(r)
  {
    if r == [] {
      assert s + r == s;
    } else {
      var last := |r| - 1;
      assert (s + r)[..|s| + last] == s + r[..last];
      LeftEndsConcat(s, r[..last]);
    }
  }

  lemma OneLine<V>(e: Interval<V>)
    ensures LeftEnds([e]) == [(e.left, e.value)]
  {
    assert [e][..0] == [];
  }

  lemma TwoLines<V>(a: Interval<V>, b: Interval<V>)
    ensures FileLines([a, b]) == [(a.left, a.value)] + FileLines([b])
  {
    OneLine(a);
    OneLine(b);
    LeftEndsConcat([a], [b]);
    assert [a] + [b] == [a, b];
  }

  /** The lines written at the end complete those written before. */
  lemma EndLines<V>(updates: seq<(int, V)>, written: seq<Interval<V>>, m: Memory<V>, time: int)
    requires Fits(updates, written, m) && time >= m.lastCheckTime
    ensures FileLines(written + WrittenAtEnd(m, time)) == LeftEnds(written) + FileLines(WrittenAtEnd(m, time))
  {
    var rest := WrittenAtEnd(m, time);
    LeftEndsConcat(written, rest);
    assert rest == [] ==> written == [];
    assert rest != [] ==> (written + rest)[|written + rest| - 1] == rest[|rest| - 1];
  }

  /** What the helper has put out: the log kept in memory, and the lines of the file. */
  datatype Output<V> = Output(log: seq<Interval<V>>, lines: seq<(int, V)>)

  function PutOut<V>(
    o: Output<V>, log: seq<Interval<V>>, lines: seq<(int, V)>, inMemory: bool, toFile: bool): Output<V>
  {
    Output(o.log + if inMemory then log else [], o.lines + if toFile then lines else [])
  }

  /** Memory and output agree with the updates: the intervals written so far are in the log, and their
      left ends in the file. */
  ghost predicate Holds<V>(
    updates: seq<(int, V)>, written: seq<Interval<V>>, m: Memory<V>, o: Output<V>, inMemory: bool, toFile: bool)
  {
    && Fits(updates, written, m)
    && o == PutOut(Output([], []), written, LeftEnds(written), inMemory, toFile)
  }

  lemma NothingPutOut<V>(o: Output<V>, inMemory: bool, toFile: bool)
    ensures PutOut(o, [], [], inMemory, toFile) == o
  {
    assert o.log + [] == o.log && o.lines + [] == o.lines;
  }

  lemma StartHolds<V>(m: Memory<V>, inMemory: bool, toFile: bool)
    requires m.lastCheckTime == m.alphaLeft == m.betaLeft == -1
    ensures Holds([], [], m, Output([], []), inMemory, toFile)
  {
  }

  lemma UpdateHolds<V>(
    updates: seq<(int, V)>, written: seq<Interval<V>>, m: Memory<V>, o: Output<V>, inMemory: bool, toFile: bool,
    time: int, value: V)
    requires Holds(updates, written, m, o, inMemory, toFile) && time >= 0 && time >= m.lastCheckTime
    ensures var more := WrittenBy(m, time);
      Holds(updates + [(time, value)], written + more, After(m, time, value),
            PutOut(o, more, LeftEnds(more), inMemory, toFile), inMemory, toFile)
  {
    var more := WrittenBy(m, time);
    UpdateFits(updates, written, m, time, value);
    LeftEndsConcat(written, more);
    PutOutTwice(Output([], []), written, LeftEnds(written), more, LeftEnds(more), inMemory, toFile);
  }

  lemma EndHolds<V>(
    updates: seq<(int, V)>, written: seq<Interval<V>>, m: Memory<V>, o: Output<V>, inMemory: bool, toFile: bool,
    time: int)
    requires Holds(updates, written, m, o, inMemory, toFile) && time >= 0 && time >= m.lastCheckTime
    ensures var more := WrittenAtEnd(m, time);
      && IsLog(updates, written + more, time)
      && PutOut(o, more, FileLines(more), inMemory, toFile)
         == Output(if inMemory then written + more else [], if toFile then FileLines(written + more) else [])
  {
    EndIsLog(updates, written, m, time);
    EndOutput(updates, written, m, o, inMemory, toFile, time);
  }

  lemma EndOutput<V>(
    updates: seq<(int, V)>, written: seq<Interval<V>>, m: Memory<V>, o: Output<V>, inMemory: bool, toFile: bool,
    time: int)
    requires Holds(updates, written, m, o, inMemory, toFile) && time >= m.lastCheckTime
    ensures var more := WrittenAtEnd(m, time);
      PutOut(o, more, FileLines(more), inMemory, toFile)
      == Output(if inMemory then written + more else [], if toFile then FileLines(written + more) else [])
  {
    var more := WrittenAtEnd(m, time);
    EndLines(updates, written, m, time);
    PutOutTwice(Output([], []), written, LeftEnds(written), more, FileLines(more), inMemory, toFile);
    PutOutFirst(written + more, FileLines(written + more), inMemory, toFile);
  }

  lemma PutOutFirst<V>(log: seq<Interval<V>>, lines: seq<(int, V)>, inMemory: bool, toFile: bool)
    ensures PutOut(Output([], []), log, lines, inMemory, toFile)
      == Output(if inMemory then log else [], if toFile then lines else [])
  {
  }

  lemma PutOutTwice<V>(
    o: Output<V>, log1: seq<Interval<V>>, lines1: seq<(int, V)>, log2: seq<Interval<V>>, lines2: seq<(int, V)>,
    inMemory: bool, toFile: bool)
    ensures PutOut(PutOut(o, log1, lines1, inMemory, toFile), log2, lines2, inMemory, toFile)
      == PutOut(o, log1 + log2, lines1 + lines2, inMemory, toFile)
  {
    assert o.log + (log1 + log2) == (o.log + log1) + log2;
    assert o.lines + (lines1 + lines2) == (o.lines + lines1) + lines2;
  }

  class LogUpdateHelper<V(==)> {
    var log: seq<Interval<V>>
    var lines: seq<(int, V)>
    var lastUpdateValue: V
    var alphaValue: V
    var lastCheckTime: int
    var alphaLeft: int
    var betaLeft: int
    const saveInMemory: bool
    const saveToFile: bool
    var fileOpen: bool
    ghost var updates: seq<(int, V)>
    ghost var written: seq<Interval<V>>
    ghost var finalized: bool

    ghost function Remembers(): Memory<V>
      reads this
    {
      Memory(lastUpdateValue, alphaValue, lastCheckTime, alphaLeft, betaLeft)
    }

    ghost predicate Valid()
      reads this
    {
      if finalized then !fileOpen
      else fileOpen == saveToFile && Holds(updates, written, Remembers(), Output(log, lines), saveInMemory, fileOpen)
    }

    constructor (saveInMemory: bool, saveToFile: bool, initial: V)
      ensures Valid() && updates == [] && !finalized
      ensures this.saveInMemory == saveInMemory && this.saveToFile == saveToFile
    {
      this.saveInMemory, this.saveToFile := saveInMemory, saveToFile;
      log, lines, fileOpen := [], [], saveToFile;
      lastUpdateValue, alphaValue := initial, initial;
      lastCheckTime, alphaLeft, betaLeft := -1, -1, -1;
      updates, written, finalized := [], [], false;
      new;
      StartHolds(Remembers(), saveInMemory, saveToFile);
    }

    /** Saving nowhere is refused. */
    static method Open(saveInMemory: bool, saveToFile: bool, initial: V) returns (h: LogUpdateHelper?<V>)
      ensures h == null <==> !saveInMemory && !saveToFile
      ensures h != null ==> fresh(h) && h.Valid() && h.updates == [] && !h.finalized
      ensures h != null ==> h.saveInMemory == saveInMemory && h.saveToFile == saveToFile
    {
      if !saveInMemory && !saveToFile {
        return null;
      }
      h := new LogUpdateHelper(saveInMemory, saveToFile, initial);
    }

    /** Writing to a file that has been closed has no effect. */
    method Save(e: Interval<V>)
      modifies this`log, this`lines, this`written
      ensures written == old(written) + [e]
      ensures Output(log, lines) == PutOut(old(Output(log, lines)), [e], [(e.left, e.value)], saveInMemory, fileOpen)
    {
      written := written + [e];
      if saveInMemory {
        log := log + [e];
      }
      if fileOpen {
        lines := lines + [(e.left, e.value)];
      }
    }

    /** The part of an update that starts, merges or shifts intervals; once per moment. */
    method CheckIntervals(time: int)
      requires time > lastCheckTime
      modifies this`log, this`lines, this`written, this`alphaValue, this`alphaLeft, this`betaLeft, this`lastCheckTime
      ensures Remembers() == After(old(Remembers()), time, lastUpdateValue)
      ensures written == old(written) + WrittenBy(old(Remembers()), time)
      ensures var more := WrittenBy(old(Remembers()), time);
        Output(log, lines) == PutOut(old(Output(log, lines)), more, LeftEnds(more), saveInMemory, fileOpen)
    {
      if alphaLeft == -1 {
        alphaLeft := time;
      } else if betaLeft == -1 {
        betaLeft := time;
        alphaValue := lastUpdateValue;
      } else {
        var betaValue := lastUpdateValue;
        if alphaValue == betaValue {
          betaLeft := time;
        } else {
          Save(Interval(alphaLeft, betaLeft, alphaValue));
          alphaLeft := betaLeft;
          alphaValue := betaValue;
          betaLeft := time;
        }
      }
      lastCheckTime := time;
    }

    method Advance(time: int)
      requires time >= lastCheckTime
      modifies this`log, this`lines, this`written, this`alphaValue, this`alphaLeft, this`betaLeft, this`lastCheckTime
      ensures Remembers() == After(old(Remembers()), time, lastUpdateValue)
      ensures written == old(written) + WrittenBy(old(Remembers()), time)
      ensures var more := WrittenBy(old(Remembers()), time);
        Output(log, lines) == PutOut(old(Output(log, lines)), more, LeftEnds(more), saveInMemory, fileOpen)
    {
      if time > lastCheckTime {
        CheckIntervals(time);
      } else {
        NothingPutOut(Output(log, lines), saveInMemory, fileOpen);
      }
    }

    /** Takes an update into the history, unless its time is negative or before the last one. */
    method Update(time: int, value: V) returns (status: Status)
      requires Valid()
      modifies this
      ensures Valid() && finalized == old(finalized)
      ensures status == if time < 0 then NegativeTime else if time < old(lastCheckTime) then TimeInThePast else Fine
      ensures updates == if status.Fine? then old(updates) + [(time, value)] else old(updates)
      ensures !status.Fine? ==> Remembers() == old(Remembers()) && log == old(log) && lines == old(lines)
      ensures status.Fine? && finalized ==>
        lines == old(lines) && log == old(log) + if saveInMemory then WrittenBy(old(Remembers()), time) else []
    {
      if time < 0 {
        return NegativeTime;
      }
      if time < lastCheckTime {
        return TimeInThePast;
      }
      Accept(time, value);
      return Fine;
    }

    method Accept(time: int, value: V)
      requires Valid() && time >= 0 && time >= lastCheckTime
      modifies this
      ensures Valid() && finalized == old(finalized) && updates == old(updates) + [(time, value)]
      ensures finalized ==>
        lines == old(lines) && log == old(log) + if saveInMemory then WrittenBy(old(Remembers()), time) else []
    {
      ghost var updates0, written0, m0, o0 := updates, written, Remembers(), Output(log, lines);
      Advance(time);
      lastUpdateValue := value;
      updates := updates + [(time, value)];
      assert Remembers() == After(m0, time, value);
      if !finalized {
        UpdateHolds(updates0, written0, m0, o0, saveInMemory, fileOpen, time, value);
      }
    }

    method CloseFile(time: int, value: V)
      modifies this`lines
      ensures lines == old(lines) + if fileOpen then [(time, value)] else []
    {
      if fileOpen {
        lines := lines + [(time, value)];
      }
    }

    /** The first time it is called, the log becomes the step function of all updates up to `time`, and
        the file its left ends with one closing line. Another call puts the intervals that are still open
        into the log again; the file has been closed and stays as it is. */
    method Finalize(time: int) returns (status: Status, result: seq<Interval<V>>)
      requires Valid()
      modifies this
      ensures Valid() && updates == old(updates) && result == log
      ensures status == if time < 0 then NegativeTime else if time < old(lastCheckTime) then TimeInThePast else Fine
      ensures !status.Fine? ==> finalized == old(finalized) && log == old(log) && lines == old(lines)
      ensures status.Fine? && !old(finalized) ==>
        && IsLog(updates, written, time)
        && log == (if saveInMemory then written else [])
        && lines == (if saveToFile then FileLines(written) else [])
      ensures status.Fine? && old(finalized) ==>
        && lines == old(lines)
        && log == old(log) + if saveInMemory then WrittenAtEnd(old(Remembers()), time) else []
    {
      if time < 0 {
        return NegativeTime, log;
      }
      if time < lastCheckTime {
        return TimeInThePast, log;
      }
      CompleteLog(time);
      fileOpen, finalized := false, true;
      return Fine, log;
    }

    method CompleteLog(time: int)
      requires Valid() && time >= 0 && time >= lastCheckTime
      modifies this`log, this`lines, this`written
      ensures finalized ==>
        && lines == old(lines)
        && log == old(log) + if saveInMemory then WrittenAtEnd(Remembers(), time) else []
      ensures !finalized ==>
        && IsLog(updates, written, time)
        && log == (if saveInMemory then written else [])
        && lines == (if saveToFile then FileLines(written) else [])
    {
      ghost var written0, o0 := written, Output(log, lines);
      SaveTheRest(time);
      if !finalized {
        EndHolds(updates, written0, Remembers(), o0, saveInMemory, fileOpen, time);
      }
    }

    /** Writes out the intervals that are still open, and closes the file with the end time. */
    method SaveTheRest(time: int)
      modifies this`log, this`lines, this`written
      ensures written == old(written) + WrittenAtEnd(Remembers(), time)
      ensures var more := WrittenAtEnd(Remembers(), time);
        Output(log, lines) == PutOut(old(Output(log, lines)), more, FileLines(more), saveInMemory, fileOpen)
    {
      if alphaLeft != -1 && betaLeft == -1 && alphaLeft != time {
        SaveLast(Interval(alphaLeft, time, lastUpdateValue));
      } else if alphaLeft != -1 && betaLeft != -1 {
        SaveAlphaAndBeta(time);
      } else {
        NothingPutOut(Output(log, lines), saveInMemory, fileOpen);
      }
    }

    method SaveAlphaAndBeta(time: int)
      requires alphaLeft != -1 && betaLeft != -1
      modifies this`log, this`lines, this`written
      ensures written == old(written) + WrittenAtEnd(Remembers(), time)
      ensures var more := WrittenAtEnd(Remembers(), time);
        Output(log, lines) == PutOut(old(Output(log, lines)), more, FileLines(more), saveInMemory, fileOpen)
    {
      if alphaValue == lastUpdateValue {
        SaveLast(Interval(alphaLeft, time, alphaValue));
      } else if betaLeft != time {
        ghost var a, b := Alpha(Remembers()), Interval(betaLeft, time, lastUpdateValue);
        TwoLines(a, b);
        PutOutTwice(
          Output(log, lines), [a], [(a.left, a.value)], [b], FileLines([b]), saveInMemory, fileOpen);
        assert [a] + [b] == [a, b];
        Save(Interval(alphaLeft, betaLeft, alphaValue));
        SaveLast(Interval(betaLeft, time, lastUpdateValue));
      } else {
        SaveLast(Interval(alphaLeft, betaLeft, alphaValue));
      }
    }

    /** The last interval comes with the closing line. */
    method SaveLast(e: Interval<V>)
      modifies this`log, this`lines, this`written
      ensures written == old(written) + [e]
      ensures Output(log, lines) == PutOut(old(Output(log, lines)), [e], FileLines([e]), saveInMemory, fileOpen)
    {
      OneLine(e);
      Save(e);
      CloseFile(e.right, e.value);
    }
  }
}
