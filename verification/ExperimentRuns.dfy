/** Processing the commands of a document into a class hierarchy, and interpreting the hierarchy. */
module ExperimentRuns {
  import opened Options
  import opened Collections
  import opened Inheritance

  datatype Complaint =
    | LineForRoot | LineForExtended | UndefinedName
    | NameExists | SuperIsInstance | SuperMissing
    | ClassNotExtended | IncludeOfUnknown | IncludeOfNonInstance

  datatype Processed = Accepted(records: Records) | Rejected(at: nat, complaint: Complaint)

  // ---------- the checks against the records are the checks against the document ----------

  lemma LineCheck(roots: seq<Name>, cmds: seq<Command>, n: nat, t: Tree, x: Name)
    requires n <= |cmds| && TreeRecorded(roots, cmds, n, t) && Keyed(roots, t)
    ensures LegalLine(roots, cmds, n, x) <==>
            x !in roots && x !in t.extended && (x in t.instances || x in t.classes)
    ensures LegalLine(roots, cmds, n, x) ==> x in t.parent
  {
  }

  lemma DeclarationCheck(roots: seq<Name>, cmds: seq<Command>, n: nat, t: Tree, x: Name, super: Name)
    requires n <= |cmds| && TreeRecorded(roots, cmds, n, t) && Keyed(roots, t)
    ensures LegalDeclaration(roots, cmds, n, x, super) <==>
            x !in t.names && (super in roots || super in t.classes)
    ensures super in t.instances ==> super !in roots && super !in t.classes
    ensures super in roots || super in t.classes ==> super in t.children
  {
    assert x in t.names <==> x in roots || x in t.parent;
    assert super in t.classes || super in t.instances ==> super in t.parent;
  }

  lemma ExtendedAreClasses(roots: seq<Name>, cmds: seq<Command>, t: Tree)
    requires TreeRecorded(roots, cmds, |cmds|, t) && Forest(roots, t)
    ensures t.extended <= t.classes
    ensures t.classes == t.extended <==> forall x :: ClassBefore(cmds, |cmds|, x) ==> ExtendedBefore(cmds, |cmds|, x)
  {
    forall x | x in t.extended
      ensures x in t.classes
    {
      var c := t.children[x][0];
      assert c in t.children[x];
      assert ParentIsClass(roots, t, c);
    }
    forall x | x in t.classes
      ensures x !in roots
    {
      assert x in t.parent;
    }
  }

  // ---------- processing ----------

  method ProcessLine<D>(
    ghost it: Interpreter<D>, roots: seq<Name>, cmds: seq<Command>, n: nat, st: Records)
    returns (complaint: Option<Complaint>, st': Records)
    requires n < |cmds| && cmds[n].ExpLine? && RecordsOf(it, roots, cmds, n, st)
    ensures complaint.None? <==> LegalAt(roots, cmds, n)
    ensures complaint.None? ==> RecordsOf(it, roots, cmds, n + 1, st')
  {
    var x := cmds[n].name;
    st' := st;
    LineCheck(roots, cmds, n, st.tree, x);
    if x in roots {
      return Some(LineForRoot), st';
    } else if x in st.tree.extended {
      return Some(LineForExtended), st';
    } else if x !in st.tree.instances && x !in st.tree.classes {
      return Some(UndefinedName), st';
    }
    LineKeepsRecords(it, roots, cmds, n, ReadUpTo(it, roots, cmds, n), st);
    return None, AddLine(st, x, cmds[n].line);
  }

  method ProcessDeclaration<D>(
    ghost it: Interpreter<D>, roots: seq<Name>, cmds: seq<Command>, n: nat, st: Records,
    x: Name, super: Name, isClass: bool)
    returns (complaint: Option<Complaint>, st': Records)
    requires n < |cmds| && cmds[n] == (if isClass then ExpClass(x, super) else ExpInstance(x, super))
    requires RecordsOf(it, roots, cmds, n, st)
    ensures complaint.None? <==> LegalAt(roots, cmds, n)
    ensures complaint.None? ==> RecordsOf(it, roots, cmds, n + 1, st')
  {
    st' := st;
    DeclarationCheck(roots, cmds, n, st.tree, x, super);
    if x in st.tree.names {
      return Some(NameExists), st';
    } else if !isClass && super in st.tree.instances {
      return Some(SuperIsInstance), st';
    } else if super !in roots && super !in st.tree.classes {
      return Some(SuperMissing), st';
    }
    DeclarationKeepsRecords(it, roots, cmds, n, ReadUpTo(it, roots, cmds, n), st, x, super, isClass);
    return None, Declare(roots, st, x, super, isClass);
  }

  method ProcessCommand<D>(
    ghost it: Interpreter<D>, roots: seq<Name>, cmds: seq<Command>, n: nat, st: Records)
    returns (complaint: Option<Complaint>, st': Records)
    requires n < |cmds| && RecordsOf(it, roots, cmds, n, st)
    ensures complaint.None? <==> LegalAt(roots, cmds, n)
    ensures complaint.None? ==> RecordsOf(it, roots, cmds, n + 1, st')
  {
    match cmds[n] {
      case ExpLine(_, _) =>
        complaint, st' := ProcessLine(it, roots, cmds, n, st);
      case ExpClass(x, super) =>
        complaint, st' := ProcessDeclaration(it, roots, cmds, n, st, x, super, true);
      case ExpInstance(x, super) =>
        complaint, st' := ProcessDeclaration(it, roots, cmds, n, st, x, super, false);
      case ExpInclude(x, file) =>
        IncludeKeepsRecords(it, roots, cmds, n, ReadUpTo(it, roots, cmds, n), st);
        complaint, st' := None, Include(st, x, file);
    }
  }

  /** Records the commands one by one, up to the first illegal one. */
  method RecordCommands<D>(ghost it: Interpreter<D>, roots: seq<Name>, cmds: seq<Command>)
    returns (complaint: Option<Complaint>, n: nat, st: Records)
    requires Distinct(roots)
    ensures n <= |cmds| && LegalUpTo(roots, cmds, n)
    ensures complaint.Some? ==> n < |cmds| && !LegalAt(roots, cmds, n)
    ensures complaint.None? ==> n == |cmds| && RecordsOf(it, roots, cmds, n, st)
  {
    st := Start(roots);
    StartIsRecorded(it, roots, cmds);
    n := 0;
    while n < |cmds|
      invariant n <= |cmds| && LegalUpTo(roots, cmds, n)
      invariant RecordsOf(it, roots, cmds, n, st)
    {
      complaint, st := ProcessCommand(it, roots, cmds, n, st);
      if complaint.Some? {
        return;
      }
      n := n + 1;
    }
    complaint := None;
  }

  /** Goes over the commands once, and accepts exactly the legal documents; a rejection inside the
      document points at the first illegal command. */
  method ProcessInheritance<D>(ghost it: Interpreter<D>, roots: seq<Name>, cmds: seq<Command>) returns (r: Processed)
    requires Distinct(roots)
    ensures r.Accepted? <==> Legal(roots, cmds)
    ensures r.Accepted? ==> RecordsOf(it, roots, cmds, |cmds|, r.records)
    ensures r.Accepted? ==> r.records.tree.classes == r.records.tree.extended
    ensures r.Accepted? ==> forall x :: FilesOf(r.records, x) == IncludedFiles(cmds, |cmds|, x)
    ensures r.Rejected? ==> r.at <= |cmds| && LegalUpTo(roots, cmds, r.at)
    ensures r.Rejected? && r.at < |cmds| ==> !LegalAt(roots, cmds, r.at)
  {
    var complaint, n, st := RecordCommands(it, roots, cmds);
    if complaint.Some? {
      return Rejected(n, complaint.value);
    }
    ExtendedAreClasses(roots, cmds, st.tree);
    if st.tree.classes != st.tree.extended {
      return Rejected(|cmds|, ClassNotExtended);
    }
    complaint := CheckIncludes(roots, cmds, st);
    match complaint {
      case None => r := Accepted(st);
      case Some(c) => r := Rejected(|cmds|, c);
    }
  }

  /** Output may be included only for instances, although it may be asked for before they are declared. */
  method CheckIncludes(roots: seq<Name>, cmds: seq<Command>, st: Records) returns (r: Option<Complaint>)
    requires TreeRecorded(roots, cmds, |cmds|, st.tree) && IncludesRecorded(cmds, |cmds|, st) && Keyed(roots, st.tree)
    ensures r.None? <==> forall x :: IncludedBefore(cmds, |cmds|, x) ==> InstanceBefore(cmds, |cmds|, x)
  {
    var todo := st.includes.Keys;
    while todo != {}
      invariant todo <= st.includes.Keys
      invariant forall x :: x in st.includes.Keys - todo ==> x in st.tree.names
    {
      var x :| x in todo;
      if x !in st.tree.names {
        var at := IncludedFilesInTextOrder(cmds, |cmds|, x);
        return Some(IncludeOfUnknown);
      }
      todo := todo - {x};
    }
    todo := st.includes.Keys;
    while todo != {}
      invariant todo <= st.includes.Keys
      invariant forall x :: x in st.includes.Keys - todo && st.includes[x] != [] ==> x in st.tree.instances
    {
      var x :| x in todo;
      if |st.includes[x]| != 0 && x !in st.tree.instances {
        var at := IncludedFilesInTextOrder(cmds, |cmds|, x);
        return Some(IncludeOfNonInstance);
      }
      todo := todo - {x};
    }
    forall x | IncludedBefore(cmds, |cmds|, x)
      ensures InstanceBefore(cmds, |cmds|, x)
    {
      var at := IncludedFilesInTextOrder(cmds, |cmds|, x);
      assert FilesOf(st, x) != [];
    }
    r := None;
  }

  // ---------- interpreting ----------

  ghost predicate ParentSeen(roots: seq<Name>, t: Tree, visited: set<Name>, x: Name) {
    x in t.parent && (t.parent[x] in roots || t.parent[x] in visited)
  }

  ghost predicate ClosedUpwards(roots: seq<Name>, t: Tree, visited: set<Name>) {
    forall x {:trigger ParentSeen(roots, t, visited, x)} :: x in visited ==> ParentSeen(roots, t, visited, x)
  }

  /** What has been visited under the present root class, and what is still to visit. */
  ghost predicate Exploring(
    roots: seq<Name>, t: Tree, root: Name, before: set<Name>, visited: set<Name>, toVisit: seq<(Name, Name)>)
  {
    && before <= visited
    && ClosedUpwards(roots, t, visited)
    && (forall i :: 0 <= i < |toVisit| ==> Waiting(t, root, before, visited, toVisit[i]))
    && (forall i, j :: 0 <= i < j < |toVisit| ==> toVisit[i].0 != toVisit[j].0)
    && (forall p :: p in t.children && (p == root || p in visited - before) ==>
          ChildrenSeen(t, visited, toVisit, p))
  }

  ghost predicate Waiting(t: Tree, root: Name, before: set<Name>, visited: set<Name>, e: (Name, Name)) {
    && e.0 in t.parent && t.parent[e.0] == e.1 && e.0 !in visited
    && (e.1 == root || e.1 in visited - before)
  }

  ghost predicate InList(toVisit: seq<(Name, Name)>, x: Name) {
    exists i :: 0 <= i < |toVisit| && toVisit[i].0 == x
  }

  ghost predicate ChildrenSeen(t: Tree, visited: set<Name>, toVisit: seq<(Name, Name)>, p: Name)
    requires p in t.children
  {
    forall c :: c in t.children[p] ==> c in visited || InList(toVisit, c)
  }

  /** The work list with the children of a node put in front, one by one. */
  function Prepend(children: seq<Name>, p: Name, rest: seq<(Name, Name)>): seq<(Name, Name)> {
    if children == [] then rest
    else [(children[|children| - 1], p)] + Prepend(children[..|children| - 1], p, rest)
  }

  ghost predicate ComeFrom(r: seq<(Name, Name)>, children: seq<Name>, p: Name, rest: seq<(Name, Name)>) {
    forall i :: 0 <= i < |r| ==> r[i] in rest || (r[i].0 in children && r[i].1 == p)
  }

  ghost predicate DistinctNames(r: seq<(Name, Name)>) {
    forall i, j :: 0 <= i < j < |r| ==> r[i].0 != r[j].0
  }

  ghost predicate NoneListed(r: seq<(Name, Name)>, children: seq<Name>) {
    forall i :: 0 <= i < |r| ==> r[i].0 !in children
  }

  lemma {:induction false} Prepended(children: seq<Name>, p: Name, rest: seq<(Name, Name)>)
    requires Distinct(children) && DistinctNames(rest) && NoneListed(rest, children)
    ensures var r := Prepend(children, p, rest);
      && ComeFrom(r, children, p, rest) && DistinctNames(r)
      && forall x :: InList(rest, x) || x in children ==> InList(r, x)
  {
    if children != [] {
      var shorter, last := children[..|children| - 1], children[|children| - 1];
      assert children == shorter + [last] && last !in shorter && last in children;
      Prepended(shorter, p, rest);
      PrependedOne(shorter, last, p, rest, Prepend(shorter, p, rest));
    }
  }

  lemma PrependedOne(shorter: seq<Name>, last: Name, p: Name, rest: seq<(Name, Name)>, s: seq<(Name, Name)>)
    requires ComeFrom(s, shorter, p, rest) && DistinctNames(s) && last !in shorter && NoneListed(rest, shorter + [last])
    requires forall x :: InList(rest, x) || x in shorter ==> InList(s, x)
    ensures var r := [(last, p)] + s;
      && ComeFrom(r, shorter + [last], p, rest) && DistinctNames(r)
      && forall x :: InList(rest, x) || x in shorter + [last] ==> InList(r, x)
  {
    var r := [(last, p)] + s;
    forall i | 0 <= i < |s|
      ensures s[i].0 != last
    {
      if s[i] in rest {
        var j :| 0 <= j < |rest| && rest[j] == s[i];
      }
    }
    forall x | InList(rest, x) || x in shorter + [last]
      ensures InList(r, x)
    {
      if x == last {
        assert r[0].0 == x;
      } else {
        assert InList(s, x);
        var i :| 0 <= i < |s| && s[i].0 == x;
        assert r[i + 1].0 == x;
      }
    }
  }

  // ---------- one visit ----------

  /** Of the names still to visit, those behind the first go on waiting. */
  lemma RestWaits(
    roots: seq<Name>, t: Tree, root: Name, before: set<Name>, visited: set<Name>, toVisit: seq<(Name, Name)>)
    requires Exploring(roots, t, root, before, visited, toVisit) && toVisit != []
    ensures forall i :: 0 <= i < |toVisit| - 1 ==>
      Waiting(t, root, before, visited + {toVisit[0].0}, toVisit[1..][i])
    ensures DistinctNames(toVisit[1..])
  {
    forall i | 0 <= i < |toVisit| - 1
      ensures Waiting(t, root, before, visited + {toVisit[0].0}, toVisit[1..][i])
    {
      assert Waiting(t, root, before, visited, toVisit[i + 1]);
    }
  }

  /** The children of the visited name are new to the list. */
  lemma ChildrenAreNotListed(
    roots: seq<Name>, t: Tree, root: Name, before: set<Name>, visited: set<Name>, toVisit: seq<(Name, Name)>)
    requires Forest(roots, t) && Exploring(roots, t, root, before, visited, toVisit) && toVisit != []
    requires root in roots && toVisit[0].0 in t.children
    ensures NoneListed(toVisit[1..], t.children[toVisit[0].0])
  {
    var v := toVisit[0].0;
    assert Waiting(t, root, before, visited, toVisit[0]);
    forall i | 0 <= i < |toVisit| - 1
      ensures toVisit[1..][i].0 !in t.children[v]
    {
      assert Waiting(t, root, before, visited, toVisit[i + 1]);
    }
  }

  lemma VisitKeepsWaiting(
    roots: seq<Name>, t: Tree, root: Name, before: set<Name>, visited: set<Name>, toVisit: seq<(Name, Name)>)
    requires Forest(roots, t) && Exploring(roots, t, root, before, visited, toVisit) && toVisit != []
    requires root in roots && toVisit[0].0 in t.children
    ensures var v := toVisit[0].0;
      var longer := Prepend(t.children[v], v, toVisit[1..]);
      && DistinctNames(longer)
      && forall i :: 0 <= i < |longer| ==> Waiting(t, root, before, visited + {v}, longer[i])
  {
    var v, rest := toVisit[0].0, toVisit[1..];
    assert Waiting(t, root, before, visited, toVisit[0]);
    RestWaits(roots, t, root, before, visited, toVisit);
    ChildrenAreNotListed(roots, t, root, before, visited, toVisit);
    Prepended(t.children[v], v, rest);
    var longer := Prepend(t.children[v], v, rest);
    forall i | 0 <= i < |longer|
      ensures Waiting(t, root, before, visited + {v}, longer[i])
    {
      if longer[i] in rest {
        var j :| 0 <= j < |rest| && rest[j] == longer[i];
      } else {
        ChildIsNotVisited(roots, t, root, before, visited, toVisit, v, longer[i].0);
      }
    }
  }

  /** The children of a name visited before are still seen, those of the new one are listed. */
  lemma VisitKeepsChildrenSeen(
    t: Tree, visited: set<Name>, toVisit: seq<(Name, Name)>, longer: seq<(Name, Name)>, v: Name, p: Name)
    requires toVisit != [] && toVisit[0].0 == v && p in t.children
    requires p == v || ChildrenSeen(t, visited, toVisit, p)
    requires forall x :: InList(toVisit[1..], x) || (v in t.children && x in t.children[v]) ==> InList(longer, x)
    ensures ChildrenSeen(t, visited + {v}, longer, p)
  {
    forall c | c in t.children[p]
      ensures c in visited + {v} || InList(longer, c)
    {
      if p != v && c !in visited && c != v {
        assert InList(toVisit, c);
        var i :| 0 <= i < |toVisit| && toVisit[i].0 == c;
        assert toVisit[1..][i - 1].0 == c;
        assert InList(toVisit[1..], c);
      }
    }
  }

  lemma VisitKeepsClosed(roots: seq<Name>, t: Tree, visited: set<Name>, v: Name)
    requires ClosedUpwards(roots, t, visited)
    requires v in t.parent && (t.parent[v] in roots || t.parent[v] in visited)
    ensures ClosedUpwards(roots, t, visited + {v})
  {
    forall x | x in visited + {v}
      ensures ParentSeen(roots, t, visited + {v}, x)
    {
      assert x != v ==> ParentSeen(roots, t, visited, x);
    }
  }

  lemma FirstCanBeVisited(
    roots: seq<Name>, t: Tree, root: Name, before: set<Name>, visited: set<Name>, toVisit: seq<(Name, Name)>)
    requires Keyed(roots, t) && root in roots && toVisit != []
    requires Exploring(roots, t, root, before, visited, toVisit)
    ensures var v := toVisit[0].0;
      v in t.parent && v in t.children && v !in visited && (t.parent[v] in roots || t.parent[v] in visited)
  {
    assert Waiting(t, root, before, visited, toVisit[0]);
    assert toVisit[0].0 in t.names;
  }

  lemma VisitKeepsExploring(
    roots: seq<Name>, t: Tree, root: Name, before: set<Name>, visited: set<Name>, toVisit: seq<(Name, Name)>)
    requires Forest(roots, t) && root in roots && toVisit != []
    requires Exploring(roots, t, root, before, visited, toVisit)
    ensures var (v, u) := toVisit[0];
      && v in t.children && v !in visited
      && Exploring(roots, t, root, before, visited + {v}, Prepend(t.children[v], v, toVisit[1..]))
  {
    var v := toVisit[0].0;
    FirstCanBeVisited(roots, t, root, before, visited, toVisit);
    VisitKeepsClosed(roots, t, visited, v);
    VisitKeepsWaiting(roots, t, root, before, visited, toVisit);
    var longer := Prepend(t.children[v], v, toVisit[1..]);
    ListedAfterVisit(roots, t, root, before, visited, toVisit);
    forall p | p in t.children && (p == root || p in visited + {v} - before)
      ensures ChildrenSeen(t, visited + {v}, longer, p)
    {
      VisitKeepsChildrenSeen(t, visited, toVisit, longer, v, p);
    }
  }

  lemma ListedAfterVisit(
    roots: seq<Name>, t: Tree, root: Name, before: set<Name>, visited: set<Name>, toVisit: seq<(Name, Name)>)
    requires Forest(roots, t) && Exploring(roots, t, root, before, visited, toVisit) && toVisit != []
    requires root in roots && toVisit[0].0 in t.children
    ensures var v := toVisit[0].0;
      forall x :: InList(toVisit[1..], x) || x in t.children[v] ==>
        InList(Prepend(t.children[v], v, toVisit[1..]), x)
  {
    RestWaits(roots, t, root, before, visited, toVisit);
    ChildrenAreNotListed(roots, t, root, before, visited, toVisit);
    Prepended(t.children[toVisit[0].0], toVisit[0].0, toVisit[1..]);
  }

  /** The children of a node that was not visited yet were not visited either. */
  lemma ChildIsNotVisited(
    roots: seq<Name>, t: Tree, root: Name, before: set<Name>, visited: set<Name>, toVisit: seq<(Name, Name)>,
    v: Name, c: Name)
    requires Forest(roots, t) && Exploring(roots, t, root, before, visited, toVisit)
    requires v in t.parent && v !in visited && v in t.children && c in t.children[v]
    ensures c in t.parent && t.parent[c] == v && c !in visited && c != v
  {
    assert v in t.names && v !in roots;
    NotItsOwnParent(roots, t, c);
    assert c in visited ==> ParentSeen(roots, t, visited, c);
  }

  lemma NotItsOwnParent(roots: seq<Name>, t: Tree, c: Name)
    requires Forest(roots, t) && c in t.parent
    ensures t.parent[c] != c
  {
    assert c in t.names && c !in roots;
    var i :| 0 <= i < |t.names| && t.names[i] == c;
    assert i >= |roots|;
    assert DeclaredAfterParent(t, i);
  }

  /** With nothing left to visit, everything that belongs to this root class has been visited. */
  lemma {:induction false} EverythingVisited<D>(
    it: Interpreter<D>, roots: seq<Name>, env: map<Name, Meaning<D>>, st: Records, root: Name,
    before: set<Name>, visited: set<Name>, i: nat)
    requires Forest(roots, st.tree) && MeansItsLines(it, roots, env, st) && root in roots
    requires Exploring(roots, st.tree, root, before, visited, [])
    requires forall x :: x in before ==> x in env && env[x].root != root
    requires |roots| <= i < |st.tree.names|
    ensures var x := st.tree.names[i]; x in env && (env[x].root == root ==> x in visited)
    decreases i
  {
    var t := st.tree;
    var x := t.names[i];
    assert DeclaredAfterParent(t, i);
    assert MeansItsOwn(it, env, st, x);
    var p := t.parent[x];
    var j :| 0 <= j < i && t.names[j] == p;
    if env[x].root == root {
      if j < |roots| {
        assert roots[j] == p && env[p] == Meaning(p, it.empty(p));
      } else {
        EverythingVisited(it, roots, env, st, root, before, visited, j);
        assert p !in before;
      }
      assert ListedUnderParent(t, x);
      assert ChildrenSeen(t, visited, [], p);
    }
  }

  // ---------- the loops ----------

  /** What has been computed for the names visited so far. */
  ghost predicate DataKnown<D>(
    env: map<Name, Meaning<D>>, root: Name, before: set<Name>, visited: set<Name>, data: map<Name, D>)
  {
    forall x :: x == root || x in visited - before ==>
      x in env && x in data && data[x] == env[x].data && env[x].root == root
  }

  /** Each name once, and after its parent. */
  ghost predicate GoodOrder(roots: seq<Name>, t: Tree, visited: set<Name>, order: seq<Name>) {
    && (forall x :: x in visited <==> x in order)
    && Distinct(order)
    && (forall i {:trigger AfterParent(roots, t, order, i)} :: 0 <= i < |order| ==> AfterParent(roots, t, order, i))
  }

  ghost predicate AfterParent(roots: seq<Name>, t: Tree, order: seq<Name>, i: int)
    requires 0 <= i < |order|
  {
    order[i] in t.parent && (t.parent[order[i]] in roots || t.parent[order[i]] in order[..i])
  }

  /** The data structures of the visited names that have no children. */
  ghost predicate Generated<D>(env: map<Name, Meaning<D>>, t: Tree, visited: set<Name>, generated: map<Name, D>) {
    && (forall x :: x in generated <==> x in visited && x in t.children && t.children[x] == [])
    && (forall x :: x in generated ==> x in env && generated[x] == env[x].data)
  }

  /** A child becomes a copy of its parent with its own lines applied. */
  method Inherit<D>(it: Interpreter<D>, root: Name, x: Name, lines: seq<Line>, parent: D) returns (data: D)
    ensures data == ApplyLines(it, root, x, lines, parent)
  {
    data := parent;
    for i := 0 to |lines|
      invariant data == ApplyLines(it, root, x, lines[..i], parent)
    {
      data := it.apply(root, x, lines[i], data);
      assert lines[..i + 1][..i] == lines[..i];
    }
    assert lines[..|lines|] == lines;
  }

  /** What holds while the names of one root class are visited. */
  ghost predicate Visiting<D>(
    roots: seq<Name>, t: Tree, env: map<Name, Meaning<D>>, root: Name, before: set<Name>,
    visited: set<Name>, order: seq<Name>, toVisit: seq<(Name, Name)>, data: map<Name, D>, generated: map<Name, D>)
  {
    && Exploring(roots, t, root, before, visited, toVisit)
    && DataKnown(env, root, before, visited, data)
    && GoodOrder(roots, t, visited, order)
    && Generated(env, t, visited, generated)
  }

  /** What holds between root classes: some of them are done completely. */
  ghost predicate RootsDone<D>(
    roots: seq<Name>, t: Tree, env: map<Name, Meaning<D>>, done: seq<Name>,
    visited: set<Name>, order: seq<Name>, generated: map<Name, D>)
  {
    && (forall x :: x in visited <==> x in t.parent && x in env && env[x].root in done)
    && ClosedUpwards(roots, t, visited)
    && GoodOrder(roots, t, visited, order)
    && Generated(env, t, visited, generated)
  }

  /** Exactly the childless names under some root classes have been generated, each as what it means. */
  ghost predicate GeneratedUnder<D>(env: map<Name, Meaning<D>>, t: Tree, done: seq<Name>, generated: map<Name, D>) {
    && (forall x :: x in generated <==>
          x in t.parent && x in env && env[x].root in done && x in t.children && t.children[x] == [])
    && (forall x :: x in generated ==> x in env && generated[x] == env[x].data)
  }

  /** The children of the root class, each with the root class as parent. */
  function UnderRoot(children: seq<Name>, root: Name): seq<(Name, Name)> {
    seq(|children|, i requires 0 <= i < |children| => (children[i], root))
  }

  lemma StartExploring(roots: seq<Name>, t: Tree, root: Name, visited: set<Name>)
    requires Forest(roots, t) && root in t.children
    requires ClosedUpwards(roots, t, visited)
    requires forall c :: c in t.children[root] ==> c !in visited
    ensures Exploring(roots, t, root, visited, visited, UnderRoot(t.children[root], root))
  {
    var children := t.children[root];
    var toVisit := UnderRoot(children, root);
    forall i | 0 <= i < |toVisit|
      ensures Waiting(t, root, visited, visited, toVisit[i])
    {
      assert toVisit[i].0 in children;
    }
    forall c | c in children
      ensures InList(toVisit, c)
    {
      var i :| 0 <= i < |children| && children[i] == c;
      assert toVisit[i].0 == c;
    }
    assert ChildrenSeen(t, visited, toVisit, root);
  }

  lemma ChildOfRootIsNew<D>(
    it: Interpreter<D>, roots: seq<Name>, st: Records, env: map<Name, Meaning<D>>, root: Name, c: Name)
    requires ChildrenExact(st.tree) && MeansItsLines(it, roots, env, st) && root in roots
    requires root in st.tree.children && c in st.tree.children[root]
    ensures c in env && env[c].root == root
  {
    assert c in st.tree.parent && st.tree.parent[c] == root;
    assert MeansItsOwn(it, env, st, c);
  }

  lemma ChildrenOfRootAreNew<D>(
    it: Interpreter<D>, roots: seq<Name>, st: Records, env: map<Name, Meaning<D>>, done: seq<Name>, root: Name,
    visited: set<Name>)
    requires Forest(roots, st.tree) && MeansItsLines(it, roots, env, st)
    requires forall x :: x in visited <==> x in st.tree.parent && x in env && env[x].root in done
    requires root in roots && root !in done
    ensures root in st.tree.children && forall c :: c in st.tree.children[root] ==> c !in visited
  {
    assert root in st.tree.names;
    forall c | c in st.tree.children[root]
      ensures c !in visited
    {
      ChildOfRootIsNew(it, roots, st, env, root, c);
    }
  }

  lemma StartVisiting<D>(
    it: Interpreter<D>, roots: seq<Name>, st: Records, env: map<Name, Meaning<D>>, done: seq<Name>, root: Name,
    visited: set<Name>, order: seq<Name>, generated: map<Name, D>)
    requires Forest(roots, st.tree) && MeansItsLines(it, roots, env, st)
    requires RootsDone(roots, st.tree, env, done, visited, order, generated)
    requires root in roots && root !in done
    ensures root in st.tree.children
    ensures Visiting(roots, st.tree, env, root, visited, visited, order,
                     UnderRoot(st.tree.children[root], root), map[root := it.empty(root)], generated)
  {
    ChildrenOfRootAreNew(it, roots, st, env, done, root, visited);
    StartExploring(roots, st.tree, root, visited);
  }

  lemma VisitKeepsOrder(roots: seq<Name>, t: Tree, visited: set<Name>, order: seq<Name>, v: Name)
    requires GoodOrder(roots, t, visited, order)
    requires v in t.parent && v !in visited && (t.parent[v] in roots || t.parent[v] in visited)
    ensures GoodOrder(roots, t, visited + {v}, order + [v])
  {
    var longer := order + [v];
    forall i | 0 <= i < |longer|
      ensures AfterParent(roots, t, longer, i)
    {
      assert longer[..i] == order[..i];
      if i < |order| {
        assert AfterParent(roots, t, order, i);
      } else {
        assert order[..|order|] == order;
      }
    }
  }

  lemma VisitKeepsData<D>(
    env: map<Name, Meaning<D>>, t: Tree, root: Name, before: set<Name>, visited: set<Name>,
    data: map<Name, D>, generated: map<Name, D>, v: Name, own: D)
    requires DataKnown(env, root, before, visited, data) && Generated(env, t, visited, generated)
    requires v !in visited && v != root && v in t.children
    requires v in env && own == env[v].data && env[v].root == root
    ensures DataKnown(env, root, before, visited + {v}, data[v := own])
    ensures Generated(env, t, visited + {v}, if t.children[v] == [] then generated[v := own] else generated)
  {
  }

  lemma VisitKeepsVisiting<D>(
    it: Interpreter<D>, roots: seq<Name>, st: Records, env: map<Name, Meaning<D>>, root: Name, before: set<Name>,
    visited: set<Name>, order: seq<Name>, toVisit: seq<(Name, Name)>, data: map<Name, D>, generated: map<Name, D>)
    requires Forest(roots, st.tree) && MeansItsLines(it, roots, env, st)
    requires root in roots && toVisit != []
    requires Visiting(roots, st.tree, env, root, before, visited, order, toVisit, data, generated)
    ensures var (v, u) := toVisit[0];
      && v in st.tree.children && v in st.explines && v in st.tree.parent && v !in visited && u in data
      && var own := ApplyLines(it, root, v, st.explines[v], data[u]);
         Visiting(roots, st.tree, env, root, before, visited + {v}, order + [v],
                  Prepend(st.tree.children[v], v, toVisit[1..]), data[v := own],
                  if st.tree.children[v] == [] then generated[v := own] else generated)
  {
    var t := st.tree;
    var (v, u) := toVisit[0];
    VisitKeepsExploring(roots, t, root, before, visited, toVisit);
    assert Waiting(t, root, before, visited, toVisit[0]);
    assert MeansItsOwn(it, env, st, v);
    VisitKeepsOrder(roots, t, visited, order, v);
    VisitKeepsData(env, t, root, before, visited, data, generated, v, env[v].data);
  }

  /** Everything visited belongs to the root class, or to one that was done before. */
  lemma VisitedBelong<D>(
    roots: seq<Name>, t: Tree, env: map<Name, Meaning<D>>, done: seq<Name>, root: Name,
    before: set<Name>, visited: set<Name>, data: map<Name, D>)
    requires forall x :: x in before <==> x in t.parent && x in env && env[x].root in done
    requires ClosedUpwards(roots, t, visited) && DataKnown(env, root, before, visited, data)
    ensures forall x :: x in visited ==> x in t.parent && x in env && env[x].root in done + [root]
  {
    forall x | x in visited
      ensures x in t.parent && x in env && env[x].root in done + [root]
    {
      assert ParentSeen(roots, t, visited, x);
    }
  }

  lemma BelongingIsVisited<D>(
    it: Interpreter<D>, roots: seq<Name>, st: Records, env: map<Name, Meaning<D>>, root: Name,
    before: set<Name>, visited: set<Name>, x: Name)
    requires Forest(roots, st.tree) && MeansItsLines(it, roots, env, st) && root in roots
    requires Exploring(roots, st.tree, root, before, visited, [])
    requires forall y :: y in before ==> y in env && env[y].root != root
    requires x in st.tree.parent && x in env && env[x].root == root
    ensures x in visited
  {
    assert x in st.tree.names && x !in roots;
    var i :| 0 <= i < |st.tree.names| && st.tree.names[i] == x;
    assert i >= |roots|;
    EverythingVisited(it, roots, env, st, root, before, visited, i);
  }

  lemma FinishVisiting<D>(
    it: Interpreter<D>, roots: seq<Name>, st: Records, env: map<Name, Meaning<D>>, done: seq<Name>, root: Name,
    before: set<Name>, visited: set<Name>, order: seq<Name>, data: map<Name, D>, generated: map<Name, D>)
    requires Forest(roots, st.tree) && MeansItsLines(it, roots, env, st) && root in roots && root !in done
    requires forall x :: x in before <==> x in st.tree.parent && x in env && env[x].root in done
    requires Visiting(roots, st.tree, env, root, before, visited, order, [], data, generated)
    ensures RootsDone(roots, st.tree, env, done + [root], visited, order, generated)
  {
    VisitedBelong(roots, st.tree, env, done, root, before, visited, data);
    forall x | x in st.tree.parent && x in env && env[x].root == root
      ensures x in visited
    {
      BelongingIsVisited(it, roots, st, env, root, before, visited, x);
    }
  }

  /** Visit the names of one root class depth first and generate the runs of its instances. */
  method InterpretRoot<D>(
    it: Interpreter<D>, roots: seq<Name>, st: Records, ghost env: map<Name, Meaning<D>>, ghost done: seq<Name>,
    root: Name, generated0: map<Name, D>, ghost visited0: set<Name>, ghost order0: seq<Name>)
    returns (generated: map<Name, D>, ghost visited: set<Name>, ghost order: seq<Name>)
    requires Forest(roots, st.tree) && MeansItsLines(it, roots, env, st) && root in roots && root !in done
    requires RootsDone(roots, st.tree, env, done, visited0, order0, generated0)
    ensures RootsDone(roots, st.tree, env, done + [root], visited, order, generated)
    ensures GeneratedUnder(env, st.tree, done + [root], generated)
    ensures order0 <= order
  {
    StartVisiting(it, roots, st, env, done, root, visited0, order0, generated0);
    generated, visited, order := generated0, visited0, order0;
    var data := map[root := it.empty(root)];
    var children := st.tree.children[root];
    var toVisit := UnderRoot(children, root);
    while toVisit != []
      invariant Visiting(roots, st.tree, env, root, visited0, visited, order, toVisit, data, generated)
      invariant order0 <= order
      decreases st.tree.parent.Keys - visited
    {
      VisitKeepsVisiting(it, roots, st, env, root, visited0, visited, order, toVisit, data, generated);
      var (child, parent) := toVisit[0];
      toVisit := toVisit[1..];
      var own := Inherit(it, root, child, st.explines[child], data[parent]);
      data := data[child := own];
      var below := st.tree.children[child];
      if |below| == 0 {
        generated := generated[child := own];
      } else {
        toVisit := PrependAll(below, child, toVisit);
      }
      visited, order := visited + {child}, order + [child];
    }
    FinishVisiting(it, roots, st, env, done, root, visited0, visited, order, data, generated);
    DoneMeansGenerated(roots, st.tree, env, done + [root], visited, order, generated);
  }

  lemma DoneMeansGenerated<D>(
    roots: seq<Name>, t: Tree, env: map<Name, Meaning<D>>, done: seq<Name>,
    visited: set<Name>, order: seq<Name>, generated: map<Name, D>)
    requires RootsDone(roots, t, env, done, visited, order, generated)
    ensures GeneratedUnder(env, t, done, generated)
  {
  }

  method PrependAll(children: seq<Name>, p: Name, rest: seq<(Name, Name)>) returns (toVisit: seq<(Name, Name)>)
    ensures toVisit == Prepend(children, p, rest)
  {
    toVisit := rest;
    for i := 0 to |children|
      invariant toVisit == Prepend(children[..i], p, rest)
    {
      toVisit := [(children[i], p)] + toVisit;
      assert children[..i + 1][..i] == children[..i];
    }
    assert children[..|children|] == children;
  }

  // ---------- the whole run ----------

  /** In an accepted hierarchy the declared names without children are exactly the instances. */
  lemma ChildlessAreInstances(roots: seq<Name>, t: Tree, x: Name)
    requires Forest(roots, t) && t.classes == t.extended
    ensures x in t.instances <==> x in t.parent && x in t.children && t.children[x] == []
  {
    if x in t.instances {
      assert x in t.parent && x in t.names;
      assert t.children[x] != [] ==> t.children[x][0] in t.children[x] && ParentIsClass(roots, t, t.children[x][0]);
    }
  }

  /** Visits every declared name exactly once, after its parent, and generates for every instance what
      reading the document from top to bottom gives it. */
  method Interpret<D>(it: Interpreter<D>, roots: seq<Name>, st: Records, ghost env: map<Name, Meaning<D>>)
    returns (generated: map<Name, D>, ghost order: seq<Name>)
    requires Forest(roots, st.tree) && MeansItsLines(it, roots, env, st) && st.tree.classes == st.tree.extended
    ensures generated.Keys == st.tree.instances
    ensures forall x :: x in generated ==> x in env && generated[x] == env[x].data
    ensures GoodOrder(roots, st.tree, st.tree.parent.Keys, order)
  {
    generated, order := map[], [];
    ghost var visited, done := {}, [];
    NoRootsDone(roots, st.tree, env);
    for k := 0 to |roots|
      invariant done == roots[..k] && RootsDone(roots, st.tree, env, done, visited, order, generated)
    {
      NextRootIsNew(roots, k);
      generated, visited, order := InterpretRoot(it, roots, st, env, done, roots[k], generated, visited, order);
      done := done + [roots[k]];
    }
    assert roots[..|roots|] == roots;
    AllVisited(it, roots, st, env, visited, order, generated);
    InstancesGenerated(roots, st.tree, env, generated);
  }

  lemma NoRootsDone<D>(roots: seq<Name>, t: Tree, env: map<Name, Meaning<D>>)
    ensures RootsDone(roots, t, env, [], {}, [], map[])
  {
  }

  lemma NextRootIsNew(roots: seq<Name>, k: nat)
    requires Distinct(roots) && k < |roots|
    ensures roots[k] !in roots[..k] && roots[..k + 1] == roots[..k] + [roots[k]]
  {
  }

  lemma {:induction false} RootOfEveryName<D>(
    it: Interpreter<D>, roots: seq<Name>, st: Records, env: map<Name, Meaning<D>>, i: nat)
    requires Forest(roots, st.tree) && MeansItsLines(it, roots, env, st) && i < |st.tree.names|
    ensures st.tree.names[i] in env && env[st.tree.names[i]].root in roots
    decreases i
  {
    var t := st.tree;
    var x := t.names[i];
    if i < |roots| {
      assert roots[i] == x;
    } else {
      assert DeclaredAfterParent(t, i);
      assert MeansItsOwn(it, env, st, x);
      var j :| 0 <= j < i && t.names[j] == t.parent[x];
      RootOfEveryName(it, roots, st, env, j);
    }
  }

  lemma NameHasRoot<D>(it: Interpreter<D>, roots: seq<Name>, st: Records, env: map<Name, Meaning<D>>, x: Name)
    requires Forest(roots, st.tree) && MeansItsLines(it, roots, env, st) && x in st.tree.parent
    ensures x in env && env[x].root in roots
  {
    assert x in st.tree.names;
    var i :| 0 <= i < |st.tree.names| && st.tree.names[i] == x;
    RootOfEveryName(it, roots, st, env, i);
  }

  ghost predicate RootsKnown<D>(roots: seq<Name>, t: Tree, env: map<Name, Meaning<D>>) {
    forall x :: x in t.parent ==> x in env && env[x].root in roots
  }

  lemma EveryNameHasRoot<D>(it: Interpreter<D>, roots: seq<Name>, st: Records, env: map<Name, Meaning<D>>)
    requires Forest(roots, st.tree) && MeansItsLines(it, roots, env, st)
    ensures RootsKnown(roots, st.tree, env)
  {
    forall x | x in st.tree.parent
      ensures x in env && env[x].root in roots
    {
      NameHasRoot(it, roots, st, env, x);
    }
  }

  lemma VisitedAreAllNames<D>(
    roots: seq<Name>, t: Tree, env: map<Name, Meaning<D>>,
    visited: set<Name>, order: seq<Name>, generated: map<Name, D>)
    requires RootsKnown(roots, t, env) && RootsDone(roots, t, env, roots, visited, order, generated)
    ensures visited == t.parent.Keys
  {
    forall x
      ensures x in visited <==> x in t.parent
    {
    }
  }

  lemma AllVisited<D>(
    it: Interpreter<D>, roots: seq<Name>, st: Records, env: map<Name, Meaning<D>>,
    visited: set<Name>, order: seq<Name>, generated: map<Name, D>)
    requires Forest(roots, st.tree) && MeansItsLines(it, roots, env, st)
    requires RootsDone(roots, st.tree, env, roots, visited, order, generated)
    ensures visited == st.tree.parent.Keys
    ensures Generated(env, st.tree, st.tree.parent.Keys, generated)
    ensures GoodOrder(roots, st.tree, st.tree.parent.Keys, order)
  {
    EveryNameHasRoot(it, roots, st, env);
    VisitedAreAllNames(roots, st.tree, env, visited, order, generated);
  }

  lemma InstancesGenerated<D>(roots: seq<Name>, t: Tree, env: map<Name, Meaning<D>>, generated: map<Name, D>)
    requires Forest(roots, t) && t.classes == t.extended && Generated(env, t, t.parent.Keys, generated)
    ensures generated.Keys == t.instances
  {
    forall x
      ensures x in generated <==> x in t.instances
    {
      ChildlessAreInstances(roots, t, x);
    }
  }

  datatype Outcome<D> = Runs(generated: map<Name, D>) | Refused(at: nat, complaint: Complaint)

  /** Deferred inheritance keeps the meaning of the document: it is refused exactly when it is illegal,
      and otherwise every instance gets the data structure it has when the commands take effect in the
      order in which they are written. */
  method InterpretDocument<D>(it: Interpreter<D>, roots: seq<Name>, cmds: seq<Command>) returns (r: Outcome<D>)
    requires Distinct(roots)
    ensures r.Runs? <==> Legal(roots, cmds)
    ensures r.Runs? ==> forall x :: x in r.generated <==> InstanceBefore(cmds, |cmds|, x)
    ensures r.Runs? ==> forall x :: x in r.generated ==>
      var meaning := ReadUpTo(it, roots, cmds, |cmds|); x in meaning && r.generated[x] == meaning[x].data
    ensures r.Refused? && r.at < |cmds| ==> LegalUpTo(roots, cmds, r.at) && !LegalAt(roots, cmds, r.at)
  {
    var processed := ProcessInheritance(it, roots, cmds);
    match processed {
      case Rejected(at, complaint) =>
        r := Refused(at, complaint);
      case Accepted(records) =>
        var generated, order := Interpret(it, roots, records, ReadUpTo(it, roots, cmds, |cmds|));
        r := Runs(generated);
    }
  }
}
