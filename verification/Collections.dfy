/** Counting members of sequences, sets and images. */
module Collections {

  predicate Distinct<T(==)>(s: seq<T>) {
    forall i, j :: 0 <= i < j < |s| ==> s[i] != s[j]
  }

  function Members<T>(s: seq<T>): set<T> {
    set x | x in s
  }

  /** The length of a list tells whether it has repeated elements. */
  lemma {:induction false} MembersCount<T>(s: seq<T>)
    ensures |Members(s)| <= |s|
    ensures |Members(s)| == |s| <==> Distinct(s)
  {
    if s != [] {
      var n := |s| - 1;
      MembersCount(s[..n]);
      if s[n] in s[..n] {
        assert Members(s) == Members(s[..n]);
        assert !Distinct(s);
      } else {
        assert Members(s) == Members(s[..n]) + {s[n]};
        assert Distinct(s) <==> Distinct(s[..n]);
      }
    } else {
      assert Members(s) == {};
    }
  }

  lemma {:induction false} SubsetCount<T>(s: set<T>, r: set<T>)
    requires s <= r
    ensures |s| <= |r| && (|s| == |r| <==> s == r)
  {
    if x :| x in r && x !in s {
      SubsetCount(s, r - {x});
    } else {
      assert s == r;
    }
  }

  ghost function Image<A, B>(s: set<A>, f: A -> B): set<B> {
    set x | x in s :: f(x)
  }

  ghost predicate Injective<A(!new), B(!new)>(s: set<A>, f: A -> B) {
    forall x, y :: x in s && y in s && f(x) == f(y) ==> x == y
  }

  /** The size of an image tells whether two members share a value. */
  lemma {:induction false} ImageCount<A(!new), B(!new)>(s: set<A>, f: A -> B)
    ensures |Image(s, f)| <= |s|
    ensures |Image(s, f)| == |s| <==> Injective(s, f)
  {
    if s == {} {
      assert Image(s, f) == {};
    } else {
      var x :| x in s;
      var rest := s - {x};
      ImageCount(rest, f);
      if f(x) in Image(rest, f) {
        assert Image(s, f) == Image(rest, f);
        var y :| y in rest && f(y) == f(x);
      } else {
        assert Image(s, f) == Image(rest, f) + {f(x)};
        assert Injective(s, f) <==> Injective(rest, f);
      }
    }
  }

  /** Texts that stand for distinct values are distinct, and stand for exactly those values. */
  lemma DistinctThrough<A(!new), B(!new)>(texts: seq<A>, values: seq<B>, read: A -> B)
    requires |texts| == |values| && forall i :: 0 <= i < |texts| ==> read(texts[i]) == values[i]
    ensures Injective(Members(texts), read) && Distinct(texts) <==> Distinct(values)
    ensures Image(Members(texts), read) == Members(values)
  {
  }
}
