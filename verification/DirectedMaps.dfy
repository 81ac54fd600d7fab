/** Printing a map over the directed edges, and reading it back. */
module DirectedMaps {
  import opened Options
  import opened Collections
  import opened ExpUtil
  import opened HopDistances
  import opened TopologyGraph

  /** Both numbers can be written and read. */
  predicate Printable(p: Edge) {
    0 <= p.0 <= INT64_MAX && 0 <= p.1 <= INT64_MAX
  }

  function ArrowText(p: Edge): string
    requires Printable(p)
  {
    Decimal(p.0) + "->" + Decimal(p.1)
  }

  lemma ArrowRoundTrip(p: Edge)
    requires Printable(p)
    ensures PairOf(ArrowText(p), "->") == Some(p) && Plain(ArrowText(p))
  {
    PairRoundTrip(p, "->");
    NumeralsArePlain(p.0);
    NumeralsArePlain(p.1);
  }

  lemma NumeralsArePlain(n: nat)
    ensures Plain(Decimal(n)) && Decimal(n) != []
  {
    DecimalIsNumeral(n);
    NumeralIsPlain(Decimal(n));
  }

  /** One entry for each pair, with the value at the same place. */
  function EntriesFor(pairs: seq<Edge>, values: seq<string>): seq<(string, string)>
    requires |pairs| == |values| && forall p :: p in pairs ==> Printable(p)
  {
    seq(|pairs|, i requires 0 <= i < |pairs| => assert pairs[i] in pairs; (ArrowText(pairs[i]), values[i]))
  }

  /** The map gives each pair its value, and has no other pairs. */
  ghost predicate Assigns(m: map<Edge, string>, pairs: seq<Edge>, values: seq<string>)
    requires |pairs| == |values|
  {
    m.Keys == Members(pairs) && forall i :: 0 <= i < |pairs| ==> pairs[i] in m && m[pairs[i]] == values[i]
  }

  lemma KeysAreReadBack(pairs: seq<Edge>, values: seq<string>)
    requires |pairs| == |values| && forall p :: p in pairs ==> Printable(p)
    ensures var entries := EntriesFor(pairs, values);
      && (forall i :: 0 <= i < |pairs| ==> ReadKeys(entries)[i] == Entry(Some(pairs[i]), values[i]))
      && (Distinct(Keys(entries)) <==> Distinct(pairs))
  {
    var entries := EntriesFor(pairs, values);
    forall i | 0 <= i < |pairs|
      ensures PairOf(entries[i].0, "->") == Some(pairs[i])
    {
      assert pairs[i] in pairs;
      ArrowRoundTrip(pairs[i]);
    }
    forall i, j | 0 <= i < j < |pairs|
      ensures Keys(entries)[i] == Keys(entries)[j] <==> pairs[i] == pairs[j]
    {
    }
  }

  /** Reading the entries gives the map that assigns the values. */
  lemma EntriesAssign(pairs: seq<Edge>, values: seq<string>, entries: seq<Entry>, m: map<Edge, string>)
    requires |pairs| == |values| == |entries|
    requires forall i :: 0 <= i < |pairs| ==> entries[i] == Entry(Some(pairs[i]), values[i])
    ensures MapReads(entries, |entries|, m) <==> Distinct(pairs) && Assigns(m, pairs, values)
  {
    MembersCount(pairs);
    if MapReads(entries, |entries|, m) {
      forall i | 0 <= i < |pairs|
        ensures pairs[i] in m && m[pairs[i]] == values[i]
      {
        assert EntryReads(entries[i], m);
      }
      SubsetCount(Members(pairs), m.Keys);
    }
  }

  /** What is read from the printed map gives every direction of every edge exactly the value that was
      printed for it; the map is refused exactly when a pair is repeated, or when the pairs are not all
      directions of all edges. */
  lemma DirectedMapRoundTrip(edges: set<Edge>, pairs: seq<Edge>, values: seq<string>, m: map<Edge, string>)
    requires |pairs| == |values| && forall p :: p in pairs ==> Printable(p)
    requires forall v :: v in values ==> Plain(v)
    ensures DirectedMapOf(edges, PrintMap(EntriesFor(pairs, values)), m) <==>
      Distinct(pairs) && Members(pairs) == BothDirections(edges) && Assigns(m, pairs, values)
  {
    var entries := EntriesFor(pairs, values);
    forall i | 0 <= i < |pairs|
      ensures Plain(entries[i].0) && Plain(entries[i].1)
    {
      assert pairs[i] in pairs && values[i] in values;
      ArrowRoundTrip(pairs[i]);
    }
    MapRoundTrip(entries);
    KeysAreReadBack(pairs, values);
    EntriesAssign(pairs, values, ReadKeys(entries), m);
  }

  /** So a map printed for both directions of all edges, in any order, is accepted. */
  lemma PrintedMapIsAccepted(edges: set<Edge>, pairs: seq<Edge>, values: seq<string>) returns (m: map<Edge, string>)
    requires |pairs| == |values| && forall p :: p in pairs ==> Printable(p)
    requires forall v :: v in values ==> Plain(v)
    requires Distinct(pairs) && Members(pairs) == BothDirections(edges)
    ensures Assigns(m, pairs, values) && DirectedMapOf(edges, PrintMap(EntriesFor(pairs, values)), m)
  {
    m := SomeMapAssigns(pairs, values);
    DirectedMapRoundTrip(edges, pairs, values, m);
  }

  lemma {:induction false} SomeMapAssigns(pairs: seq<Edge>, values: seq<string>) returns (m: map<Edge, string>)
    requires |pairs| == |values| && Distinct(pairs)
    ensures Assigns(m, pairs, values)
  {
    m := map[];
    if pairs != [] {
      var n := |pairs| - 1;
      m := SomeMapAssigns(pairs[..n], values[..n]);
      m := m[pairs[n] := values[n]];
      assert Members(pairs) == Members(pairs[..n]) + {pairs[n]};
    }
  }

  lemma AssignedIsUnique(pairs: seq<Edge>, values: seq<string>, m: map<Edge, string>, m': map<Edge, string>)
    requires |pairs| == |values| && Assigns(m, pairs, values) && Assigns(m', pairs, values)
    ensures m == m'
  {
    forall p | p in m
      ensures p in m' && m[p] == m'[p]
    {
      assert p in Members(pairs);
      var i :| 0 <= i < |pairs| && pairs[i] == p;
    }
    assert m.Keys == m'.Keys;
  }

  /** No text stands for two maps. */
  lemma DirectedMapIsUnique(edges: set<Edge>, value: string, m: map<Edge, string>, m': map<Edge, string>)
    requires DirectedMapOf(edges, value, m) && DirectedMapOf(edges, value, m')
    ensures m == m'
  {
    var texts :| IsMapOf(value, texts) && CoversDirected(edges, ReadKeys(texts), m);
    var others :| IsMapOf(value, others) && CoversDirected(edges, ReadKeys(others), m');
    MapIsUnique(value, texts, others);
    var entries := ReadKeys(texts);
    forall i | 0 <= i < |entries|
      ensures entries[i].key.Some?
    {
      assert EntryReads(entries[i], m);
    }
    var pairs := seq(|entries|, i requires 0 <= i < |entries| => entries[i].key.value);
    var values := seq(|entries|, i requires 0 <= i < |entries| => entries[i].value);
    EntriesAssign(pairs, values, entries, m);
    EntriesAssign(pairs, values, entries, m');
    AssignedIsUnique(pairs, values, m, m');
  }
}
