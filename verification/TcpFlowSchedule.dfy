/** The schedule of TCP flows: reading it, and dividing it over the systems of a distributed run. */
module TcpFlowSchedule {
  import opened Options
  import opened ExpUtil

  datatype Entry = Entry(
    id: nat, from: nat, to: nat, size: nat, start: nat, additionalParameters: string, metadata: string)

  datatype ReadSchedule = Schedule(entries: seq<Entry>) | Refused(line: nat)

  /** The entry written on a line: seven fields, the first five numbers. */
  function EntryOf(line: string): Option<Entry> {
    var split := Split(line, ",");
    if |split| != 7 then None
    else
      match (ParsePositiveInt64(split[0]), ParsePositiveInt64(split[1]), ParsePositiveInt64(split[2]),
             ParsePositiveInt64(split[3]), ParsePositiveInt64(split[4]))
      case (Some(id), Some(from), Some(to), Some(size), Some(start)) =>
        Some(Entry(id, from, to, size, start, split[5], split[6]))
      case _ => None
  }

  function EntryLine(e: Entry): string {
    Join(EntryFields(e), ",")
  }

  function EntryFields(e: Entry): seq<string> {
    [Decimal(e.id), Decimal(e.from), Decimal(e.to), Decimal(e.size), Decimal(e.start),
     e.additionalParameters, e.metadata]
  }

  /** Printed with commas between the fields, an entry is read back. */
  lemma EntryRoundTrip(e: Entry)
    requires ',' !in e.additionalParameters && ',' !in e.metadata
    requires e.id <= INT64_MAX && e.from <= INT64_MAX && e.to <= INT64_MAX
    requires e.size <= INT64_MAX && e.start <= INT64_MAX
    ensures EntryOf(EntryLine(e)) == Some(e)
  {
    var fields := EntryFields(e);
    forall i | 0 <= i < 5
      ensures ',' !in fields[i]
    {
      DecimalHasNoComma([e.id, e.from, e.to, e.size, e.start][i]);
    }
    forall s | s in fields
      ensures Clean(s, ",")
    {
      CleanWithout(s, ",");
    }
    SplitUndoesJoin(fields, ",");
    PlainNumberRoundTrip(e.id);
    PlainNumberRoundTrip(e.from);
    PlainNumberRoundTrip(e.to);
    PlainNumberRoundTrip(e.size);
    PlainNumberRoundTrip(e.start);
  }

  /** Seven fields without commas, five of which are the numbers of the entry. */
  ghost predicate FieldsOf(fields: seq<string>, e: Entry) {
    && |fields| == 7 && (forall s :: s in fields ==> ',' !in s)
    && ParsePositiveInt64(fields[0]) == Some(e.id) && ParsePositiveInt64(fields[1]) == Some(e.from)
    && ParsePositiveInt64(fields[2]) == Some(e.to) && ParsePositiveInt64(fields[3]) == Some(e.size)
    && ParsePositiveInt64(fields[4]) == Some(e.start)
    && fields[5] == e.additionalParameters && fields[6] == e.metadata
  }

  /** Exactly the lines of this form are read. */
  lemma EntryIsRead(line: string, e: Entry)
    ensures EntryOf(line) == Some(e) <==> exists fields :: FieldsOf(fields, e) && line == Join(fields, ",")
  {
    if EntryOf(line) == Some(e) {
      var fields := Split(line, ",");
      SplitAtCharacter(line, ',', fields);
      assert FieldsOf(fields, e);
    }
    forall fields | FieldsOf(fields, e) && line == Join(fields, ",")
      ensures EntryOf(line) == Some(e)
    {
      SplitAtCharacter(line, ',', fields);
    }
  }

  lemma DecimalHasNoComma(n: nat)
    ensures ',' !in Decimal(n)
  {
    DecimalIsNumeral(n);
    NumeralIsPlain(Decimal(n));
  }

  /** What an entry must be on its own, on the line with number `k`. */
  predicate EntryFits(endpoints: set<nat>, end: int, e: Entry, k: nat) {
    e.id == k && e.from != e.to && e.from in endpoints && e.to in endpoints && e.start < end
  }

  /** Starts never go back, and each lies before the end. */
  ghost predicate Startable(s: seq<Entry>, end: int) {
    && (forall i :: 0 <= i < |s| ==> s[i].start < end)
    && (forall i, j :: 0 <= i < j < |s| ==> s[i].start <= s[j].start)
  }

  ghost predicate IsSchedule(endpoints: set<nat>, end: int, s: seq<Entry>) {
    && (forall i :: 0 <= i < |s| ==> EntryFits(endpoints, end, s[i], i))
    && Startable(s, end)
  }

  /** The lines, each read on its own; None is one that cannot be read. */
  function EntriesOf(lines: seq<string>): seq<Option<Entry>> {
    seq(|lines|, i requires 0 <= i < |lines| => EntryOf(lines[i]))
  }

  ghost predicate Reads(lines: seq<Option<Entry>>, s: seq<Entry>) {
    |lines| == |s| && forall i :: 0 <= i < |s| ==> lines[i] == Some(s[i])
  }

  /** The lines make up a schedule. */
  ghost predicate Acceptable(lines: seq<Option<Entry>>, endpoints: set<nat>, end: int) {
    exists s :: Reads(lines, s) && IsSchedule(endpoints, end, s)
  }

  method ParseEntry(line: string) returns (r: Option<Entry>)
    ensures r == EntryOf(line)
  {
    var split := SplitString(line, ",");
    if |split| != 7 {
      return None;
    }
    r := match (ParsePositiveInt64(split[0]), ParsePositiveInt64(split[1]), ParsePositiveInt64(split[2]),
                ParsePositiveInt64(split[3]), ParsePositiveInt64(split[4]))
      case (Some(id), Some(from), Some(to), Some(size), Some(start)) =>
        Some(Entry(id, from, to, size, start, split[5], split[6]))
      case _ => None;
  }

  lemma OneMoreEntry(endpoints: set<nat>, end: int, s: seq<Entry>, e: Entry)
    requires IsSchedule(endpoints, end, s)
    ensures IsSchedule(endpoints, end, s + [e])
      <==> EntryFits(endpoints, end, e, |s|) && (s != [] ==> s[|s| - 1].start <= e.start)
  {
    var k, t := |s|, s + [e];
    assert forall i :: 0 <= i < k ==> t[i] == s[i];
    assert t[k] == e;
  }

  lemma OneMoreLine(lines: seq<Option<Entry>>, s: seq<Entry>, e: Entry)
    requires |s| < |lines| && Reads(lines[..|s|], s) && lines[|s|] == Some(e)
    ensures Reads(lines[..|s| + 1], s + [e])
  {
    var k, more, t := |s|, lines[..|s| + 1], s + [e];
    forall i | 0 <= i < |t|
      ensures more[i] == Some(t[i])
    {
      if i < k {
        assert more[i] == lines[..k][i];
      }
    }
  }

  lemma ReadsAreUnique(lines: seq<Option<Entry>>, s: seq<Entry>, r: seq<Entry>)
    requires Reads(lines, s) && Reads(lines, r)
    ensures s == r
  {
    forall i | 0 <= i < |s|
      ensures s[i] == r[i]
    {
      assert lines[i] == Some(s[i]);
    }
  }

  lemma LineIsBad(lines: seq<Option<Entry>>, k: nat, endpoints: set<nat>, end: int, s: seq<Entry>)
    requires k < |lines| && Reads(lines[..k], s) && IsSchedule(endpoints, end, s)
    requires match lines[k]
      case None => true
      case Some(e) => !IsSchedule(endpoints, end, s + [e])
    ensures !Acceptable(lines[..k + 1], endpoints, end) && !Acceptable(lines, endpoints, end)
  {
    forall t | Reads(lines[..k + 1], t)
      ensures !IsSchedule(endpoints, end, t)
    {
      assert lines[..k + 1][k] == Some(t[k]);
      OneMoreLine(lines, s, lines[k].value);
      ReadsAreUnique(lines[..k + 1], t, s + [lines[k].value]);
    }
    PrefixIsAcceptable(lines, k + 1, endpoints, end);
  }

  lemma PrefixIsAcceptable(lines: seq<Option<Entry>>, k: nat, endpoints: set<nat>, end: int)
    requires k <= |lines|
    ensures Acceptable(lines, endpoints, end) ==> Acceptable(lines[..k], endpoints, end)
  {
    if Acceptable(lines, endpoints, end) {
      var s :| Reads(lines, s) && IsSchedule(endpoints, end, s);
      var prefix, before := s[..k], lines[..k];
      assert forall i :: 0 <= i < k ==> before[i] == lines[i] && prefix[i] == s[i];
      assert Reads(before, prefix) && IsSchedule(endpoints, end, prefix);
    }
  }

  /** Accepts exactly the schedules, and names the first line that keeps a file from being one. */
  method ReadTcpFlowSchedule(texts: seq<string>, endpoints: set<nat>, end: int) returns (r: ReadSchedule)
    ensures var lines := EntriesOf(texts);
      && (r.Schedule? <==> Acceptable(lines, endpoints, end))
      && (r.Schedule? ==> Reads(lines, r.entries) && IsSchedule(endpoints, end, r.entries))
      && (r.Refused? ==> r.line < |lines| && Acceptable(lines[..r.line], endpoints, end)
                         && !Acceptable(lines[..r.line + 1], endpoints, end))
  {
    ghost var lines := EntriesOf(texts);
    var schedule: seq<Entry> := [];
    var prevStart := 0;
    for k := 0 to |texts|
      invariant |schedule| == k && Reads(lines[..k], schedule) && IsSchedule(endpoints, end, schedule)
      invariant prevStart == if k == 0 then 0 else schedule[k - 1].start
    {
      var parsed := ParseEntry(texts[k]);
      assert lines[k] == parsed;
      if parsed.None? {
        LineIsBad(lines, k, endpoints, end, schedule);
        return Refused(k);
      }
      var e := parsed.value;
      OneMoreLine(lines, schedule, e);
      OneMoreEntry(endpoints, end, schedule, e);
      if e.id != k || prevStart > e.start || e.from == e.to
         || e.from !in endpoints || e.to !in endpoints || e.start >= end {
        LineIsBad(lines, k, endpoints, end, schedule);
        return Refused(k);
      }
      prevStart := e.start;
      schedule := schedule + [e];
    }
    assert lines[..|lines|] == lines;
    r := Schedule(schedule);
  }

  // ---------- distributed runs ----------

  /** The entries that start at a node of the system, in the order of the schedule. */
  function Filtered(s: seq<Entry>, assignment: seq<nat>, system: nat): seq<Entry>
    requires forall e :: e in s ==> e.from < |assignment|
  {
    if s == [] then []
    else
      var last := s[|s| - 1];
      assert forall e :: e in s[..|s| - 1] ==> e in s;
      Filtered(s[..|s| - 1], assignment, system) + if assignment[last.from] == system then [last] else []
  }

  ghost predicate IdsAscend(s: seq<Entry>) {
    forall i, j :: 0 <= i < j < |s| ==> s[i].id < s[j].id
  }

  ghost predicate HoldsExactly(f: seq<Entry>, s: seq<Entry>, assignment: seq<nat>, system: nat) {
    forall e :: e in f <==> e in s && e.from < |assignment| && assignment[e.from] == system
  }

  /** The schedule of a system holds exactly its entries, each once and in the order of their ids. */
  lemma {:induction false} FilteredIsExact(s: seq<Entry>, assignment: seq<nat>, system: nat)
    requires IdsAscend(s) && forall e :: e in s ==> e.from < |assignment|
    ensures HoldsExactly(Filtered(s, assignment, system), s, assignment, system)
    ensures IdsAscend(Filtered(s, assignment, system))
  {
    if s != [] {
      var before, last := s[..|s| - 1], s[|s| - 1];
      assert s == before + [last] && last in s;
      assert forall e :: e in before ==> e in s;
      FilteredIsExact(before, assignment, system);
      ExactGrows(before, last, assignment, system);
    }
  }

  lemma ExactGrows(s: seq<Entry>, last: Entry, assignment: seq<nat>, system: nat)
    requires (forall e :: e in s ==> e.from < |assignment| && e.id < last.id) && last.from < |assignment|
    requires HoldsExactly(Filtered(s, assignment, system), s, assignment, system)
    requires IdsAscend(Filtered(s, assignment, system))
    ensures HoldsExactly(Filtered(s + [last], assignment, system), s + [last], assignment, system)
    ensures IdsAscend(Filtered(s + [last], assignment, system))
  {
    FilteredGrows(s, last, assignment, system);
    AppendLargerId(Filtered(s, assignment, system), last);
    AppendMember(s, last, Filtered(s, assignment, system), assignment, system);
  }

  lemma AppendMember(s: seq<Entry>, last: Entry, f: seq<Entry>, assignment: seq<nat>, system: nat)
    requires (forall e :: e in s ==> e.from < |assignment|) && last.from < |assignment|
    requires HoldsExactly(f, s, assignment, system)
    ensures HoldsExactly(f + if assignment[last.from] == system then [last] else [], s + [last], assignment, system)
  {
  }

  lemma AppendLargerId(s: seq<Entry>, e: Entry)
    requires IdsAscend(s) && forall f :: f in s ==> f.id < e.id
    ensures IdsAscend(s + [e]) && forall f :: f in s + [e] <==> f in s || f == e
  {
  }

  lemma {:induction false} FilteredIsStartable(s: seq<Entry>, end: int, assignment: seq<nat>, system: nat)
    requires Startable(s, end) && forall e :: e in s ==> e.from < |assignment|
    ensures Startable(Filtered(s, assignment, system), end)
    ensures forall e :: e in Filtered(s, assignment, system) ==> e in s
  {
    if s != [] {
      var before, last := s[..|s| - 1], s[|s| - 1];
      assert s == before + [last];
      assert forall e :: e in before ==> e in s && e.start <= last.start;
      FilteredIsStartable(before, end, assignment, system);
      FilteredGrows(before, last, assignment, system);
      AppendLaterStart(Filtered(before, assignment, system), last, end);
    }
  }

  lemma AppendLaterStart(s: seq<Entry>, e: Entry, end: int)
    requires Startable(s, end) && e.start < end && forall f :: f in s ==> f.start <= e.start
    ensures Startable(s + [e], end)
  {
  }

  /** What all systems below `count` together start. */
  ghost function Together(s: seq<Entry>, assignment: seq<nat>, count: nat): multiset<Entry>
    requires forall e :: e in s ==> e.from < |assignment|
  {
    if count == 0 then multiset{}
    else Together(s, assignment, count - 1) + multiset(Filtered(s, assignment, count - 1))
  }

  lemma FilteredGrows(s: seq<Entry>, last: Entry, assignment: seq<nat>, system: nat)
    requires (forall e :: e in s ==> e.from < |assignment|) && last.from < |assignment|
    ensures Filtered(s + [last], assignment, system)
      == Filtered(s, assignment, system) + if assignment[last.from] == system then [last] else []
  {
    assert (s + [last])[..|s|] == s;
  }

  lemma {:induction false} TogetherGrows(s: seq<Entry>, last: Entry, assignment: seq<nat>, count: nat)
    requires (forall e :: e in s ==> e.from < |assignment|) && last.from < |assignment|
    ensures Together(s + [last], assignment, count)
      == Together(s, assignment, count) + if assignment[last.from] < count then multiset{last} else multiset{}
  {
    if count > 0 {
      TogetherGrows(s, last, assignment, count - 1);
      FilteredGrows(s, last, assignment, count - 1);
    }
  }

  /** The systems divide the schedule: together they hold every entry, as often as it is there. */
  lemma {:induction false} SystemsPartitionTheSchedule(s: seq<Entry>, assignment: seq<nat>, count: nat)
    requires forall e :: e in s ==> e.from < |assignment| && assignment[e.from] < count
    ensures Together(s, assignment, count) == multiset(s)
  {
    if s == [] {
      NothingTogether(assignment, count);
    } else {
      var before, last := s[..|s| - 1], s[|s| - 1];
      assert s == before + [last];
      assert forall e :: e in before ==> e in s;
      TogetherGrows(before, last, assignment, count);
      SystemsPartitionTheSchedule(before, assignment, count);
    }
  }

  lemma {:induction false} NothingTogether(assignment: seq<nat>, count: nat)
    ensures Together([], assignment, count) == multiset{}
  {
    if count > 0 {
      NothingTogether(assignment, count - 1);
    }
  }
}
