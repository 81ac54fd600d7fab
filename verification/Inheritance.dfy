/** Class and instance declarations of experiments, the lines added to them, and what a document means
    when it is read from top to bottom. */
module Inheritance {
  import opened Collections

  type Name = string

  datatype Line = Line(identifier: string, text: string)

  datatype Command =
    | ExpLine(name: Name, line: Line)
    | ExpClass(sub: Name, super: Name)
    | ExpInstance(inst: Name, super: Name)
    | ExpInclude(name: Name, file: string)
  {
    predicate Extends(x: Name) {
      (ExpClass? || ExpInstance?) && super == x
    }
  }

  // ---------- which documents are legal ----------

  ghost predicate ClassBefore(cmds: seq<Command>, n: nat, x: Name)
    requires n <= |cmds|
  {
    exists j :: 0 <= j < n && cmds[j].ExpClass? && cmds[j].sub == x
  }

  ghost predicate InstanceBefore(cmds: seq<Command>, n: nat, x: Name)
    requires n <= |cmds|
  {
    exists j :: 0 <= j < n && cmds[j].ExpInstance? && cmds[j].inst == x
  }

  ghost predicate ExtendedBefore(cmds: seq<Command>, n: nat, x: Name)
    requires n <= |cmds|
  {
    exists j :: 0 <= j < n && cmds[j].Extends(x)
  }

  ghost predicate IncludedBefore(cmds: seq<Command>, n: nat, x: Name)
    requires n <= |cmds|
  {
    exists j :: 0 <= j < n && cmds[j].ExpInclude? && cmds[j].name == x
  }

  /** A new name under a root class or a class declared earlier. */
  ghost predicate LegalDeclaration(roots: seq<Name>, cmds: seq<Command>, i: nat, x: Name, super: Name)
    requires i <= |cmds|
  {
    && x !in roots && !ClassBefore(cmds, i, x) && !InstanceBefore(cmds, i, x)
    && (super in roots || ClassBefore(cmds, i, super))
  }

  /** Lines go to declared classes and instances that nothing has been derived from yet. */
  ghost predicate LegalLine(roots: seq<Name>, cmds: seq<Command>, i: nat, x: Name)
    requires i <= |cmds|
  {
    && x !in roots && !ExtendedBefore(cmds, i, x)
    && (ClassBefore(cmds, i, x) || InstanceBefore(cmds, i, x))
  }

  ghost predicate LegalAt(roots: seq<Name>, cmds: seq<Command>, i: nat)
    requires i < |cmds|
  {
    match cmds[i]
    case ExpLine(x, _) => LegalLine(roots, cmds, i, x)
    case ExpClass(sub, super) => LegalDeclaration(roots, cmds, i, sub, super)
    case ExpInstance(inst, super) => LegalDeclaration(roots, cmds, i, inst, super)
    case ExpInclude(_, _) => true
  }

  ghost predicate LegalUpTo(roots: seq<Name>, cmds: seq<Command>, n: nat)
    requires n <= |cmds|
  {
    forall i :: 0 <= i < n ==> LegalAt(roots, cmds, i)
  }

  /** A legal document also extends all its classes, and includes output of instances only. */
  ghost predicate Legal(roots: seq<Name>, cmds: seq<Command>) {
    && LegalUpTo(roots, cmds, |cmds|)
    && (forall x :: ClassBefore(cmds, |cmds|, x) ==> ExtendedBefore(cmds, |cmds|, x))
    && (forall x :: IncludedBefore(cmds, |cmds|, x) ==> InstanceBefore(cmds, |cmds|, x))
  }

  // ---------- what a document means ----------

  /** How root classes build their data structures: the empty one, and the effect of one line. */
  datatype Interpreter<!D> = Interpreter(empty: Name -> D, apply: (Name, Name, Line, D) -> D)

  datatype Meaning<D> = Meaning(root: Name, data: D)

  /** The meaning of every name after reading the first `n` commands: a declaration copies the parent
      as it is at that point, a line changes its name at once. */
  ghost function ReadUpTo<D>(it: Interpreter<D>, roots: seq<Name>, cmds: seq<Command>, n: nat): map<Name, Meaning<D>>
    requires n <= |cmds|
  {
    if n == 0 then map r | r in roots :: Meaning(r, it.empty(r))
    else
      var env := ReadUpTo(it, roots, cmds, n - 1);
      match cmds[n - 1]
      case ExpLine(x, line) =>
        if x in env then env[x := Meaning(env[x].root, it.apply(env[x].root, x, line, env[x].data))] else env
      case ExpClass(x, super) => if super in env then env[x := env[super]] else env
      case ExpInstance(x, super) => if super in env then env[x := env[super]] else env
      case ExpInclude(_, _) => env
  }

  /** Lines applied one after the other. */
  ghost function ApplyLines<D>(it: Interpreter<D>, root: Name, x: Name, lines: seq<Line>, data: D): D {
    if lines == [] then data
    else it.apply(root, x, lines[|lines| - 1], ApplyLines(it, root, x, lines[..|lines| - 1], data))
  }

  // ---------- what is recorded ----------

  /** Who was declared, in order, and who is derived from whom. */
  datatype Tree = Tree(
    classes: set<Name>, instances: set<Name>, names: seq<Name>,
    parent: map<Name, Name>, extended: set<Name>, children: map<Name, seq<Name>>)

  datatype Records = Records(tree: Tree, explines: map<Name, seq<Line>>, includes: map<Name, seq<string>>)

  /** The sets agree with the commands. */
  ghost predicate TreeRecorded(roots: seq<Name>, cmds: seq<Command>, n: nat, t: Tree)
    requires n <= |cmds|
  {
    && (forall x :: x in t.classes <==> ClassBefore(cmds, n, x))
    && (forall x :: x in t.instances <==> InstanceBefore(cmds, n, x))
    && (forall x :: x in t.extended <==> x !in roots && ExtendedBefore(cmds, n, x))
  }

  /** The files that the first `n` commands include for a name. */
  ghost function IncludedFiles(cmds: seq<Command>, n: nat, x: Name): seq<string>
    requires n <= |cmds|
  {
    if n == 0 then []
    else
      var files := IncludedFiles(cmds, n - 1, x);
      match cmds[n - 1]
      case ExpInclude(name, file) => if name == x then files + [file] else files
      case _ => files
  }

  function FilesOf(st: Records, x: Name): seq<string> {
    if x in st.includes then st.includes[x] else []
  }

  /** Every name has its files, in text order. */
  ghost predicate IncludesRecorded(cmds: seq<Command>, n: nat, st: Records)
    requires n <= |cmds|
  {
    && (forall x :: FilesOf(st, x) == IncludedFiles(cmds, n, x))
    && (forall x :: x in st.includes && st.includes[x] == [] ==> x in st.tree.names)
  }

  /** Command `i` is the inclusion of this file for the name. */
  ghost predicate IncludesAt(cmds: seq<Command>, i: int, x: Name, file: string) {
    0 <= i < |cmds| && cmds[i] == ExpInclude(x, file)
  }

  /** The files are those of all commands that include for the name, in text order. */
  lemma {:induction false} IncludedFilesInTextOrder(cmds: seq<Command>, n: nat, x: Name) returns (at: seq<nat>)
    requires n <= |cmds|
    ensures var files := IncludedFiles(cmds, n, x);
      && |at| == |files|
      && (forall k :: 0 <= k < |at| ==> at[k] < n && IncludesAt(cmds, at[k], x, files[k]))
    ensures forall j, k :: 0 <= j < k < |at| ==> at[j] < at[k]
    ensures forall i, file :: i < n && IncludesAt(cmds, i, x, file) ==> i in at
    ensures at != [] <==> IncludedBefore(cmds, n, x)
  {
    at := [];
    if n > 0 {
      at := IncludedFilesInTextOrder(cmds, n - 1, x);
      if cmds[n - 1].ExpInclude? && cmds[n - 1].name == x {
        at := at + [n - 1];
      }
    }
  }

  /** The names form a forest under the root classes, in which parents are declared before children. */
  ghost predicate Forest(roots: seq<Name>, t: Tree) {
    && Distinct(roots) && Keyed(roots, t) && Ordered(roots, t) && ChildrenExact(t) && ParentsAreClasses(roots, t)
  }

  ghost predicate Keyed(roots: seq<Name>, t: Tree) {
    && (forall r :: r in roots ==> r in t.names)
    && (forall x :: x in t.parent <==> x in t.names && x !in roots)
    && (forall x :: x in t.children <==> x in t.names)
    && (forall x :: x in t.parent <==> x in t.classes || x in t.instances)
    && t.classes !! t.instances
  }

  ghost predicate DeclaredAfterParent(t: Tree, i: int)
    requires 0 <= i < |t.names|
  {
    t.names[i] in t.parent && t.parent[t.names[i]] in t.names[..i]
  }

  ghost predicate Ordered(roots: seq<Name>, t: Tree) {
    && roots <= t.names && Distinct(t.names)
    && (forall i {:trigger DeclaredAfterParent(t, i)} :: |roots| <= i < |t.names| ==> DeclaredAfterParent(t, i))
  }

  ghost predicate ListedUnderParent(t: Tree, c: Name)
    requires c in t.parent
  {
    t.parent[c] in t.children && c in t.children[t.parent[c]]
  }

  ghost predicate ChildrenExact(t: Tree) {
    && (forall p, c :: p in t.children && c in t.children[p] ==> c in t.parent && t.parent[c] == p)
    && (forall c {:trigger ListedUnderParent(t, c)} :: c in t.parent ==> ListedUnderParent(t, c))
    && (forall p :: p in t.children ==> Distinct(t.children[p]))
  }

  ghost predicate ParentIsClass(roots: seq<Name>, t: Tree, c: Name)
    requires c in t.parent
  {
    t.parent[c] in roots || (t.parent[c] in t.classes && t.parent[c] in t.extended)
  }

  ghost predicate ParentsAreClasses(roots: seq<Name>, t: Tree) {
    && (forall c {:trigger ParentIsClass(roots, t, c)} :: c in t.parent ==> ParentIsClass(roots, t, c))
    && (forall p :: p in t.extended ==> p in t.children && t.children[p] != [])
  }

  /** A name means its parent's data with its own recorded lines applied. */
  ghost predicate MeansItsOwn<D>(it: Interpreter<D>, env: map<Name, Meaning<D>>, st: Records, x: Name)
    requires x in st.tree.parent
  {
    var p := st.tree.parent[x];
    && x in st.explines && x in env && p in env
    && env[x].root == env[p].root
    && env[x].data == ApplyLines(it, env[x].root, x, st.explines[x], env[p].data)
  }

  /** Exactly the names have lines and a meaning, and root classes mean their empty data. */
  ghost predicate NamesMean<D>(it: Interpreter<D>, roots: seq<Name>, env: map<Name, Meaning<D>>, st: Records) {
    && (forall x :: x in st.explines <==> x in st.tree.names)
    && (forall x :: x in env <==> x in st.tree.names)
    && (forall r :: r in roots ==> r in env && env[r] == Meaning(r, it.empty(r)))
  }

  ghost predicate MeansItsLines<D>(it: Interpreter<D>, roots: seq<Name>, env: map<Name, Meaning<D>>, st: Records) {
    && NamesMean(it, roots, env, st)
    && (forall x {:trigger MeansItsOwn(it, env, st, x)} :: x in st.tree.parent ==> MeansItsOwn(it, env, st, x))
  }

  /** Everything that holds after recording the first `n` commands, when names have meaning `env`. */
  ghost predicate Recorded<D>(
    it: Interpreter<D>, roots: seq<Name>, cmds: seq<Command>, n: nat, env: map<Name, Meaning<D>>, st: Records)
    requires n <= |cmds|
  {
    && TreeRecorded(roots, cmds, n, st.tree) && IncludesRecorded(cmds, n, st)
    && Forest(roots, st.tree) && MeansItsLines(it, roots, env, st)
  }

  /** The records of the first `n` commands of a document. */
  ghost predicate RecordsOf<D>(it: Interpreter<D>, roots: seq<Name>, cmds: seq<Command>, n: nat, st: Records)
    requires n <= |cmds|
  {
    Recorded(it, roots, cmds, n, ReadUpTo(it, roots, cmds, n), st)
  }

  // ---------- recording one command ----------

  function AddLine(st: Records, x: Name, line: Line): Records
    requires x in st.explines
  {
    st.(explines := st.explines[x := st.explines[x] + [line]])
  }

  function AddName(roots: seq<Name>, t: Tree, x: Name, super: Name, isClass: bool): Tree
    requires super in t.children
  {
    var children := t.children[x := []];
    Tree(
      if isClass then t.classes + {x} else t.classes,
      if isClass then t.instances else t.instances + {x},
      t.names + [x],
      t.parent[x := super],
      if super in roots then t.extended else t.extended + {super},
      children[super := children[super] + [x]])
  }

  function Declare(roots: seq<Name>, st: Records, x: Name, super: Name, isClass: bool): Records
    requires super in st.tree.children
  {
    Records(
      AddName(roots, st.tree, x, super, isClass),
      st.explines[x := []],
      if x in st.includes then st.includes else st.includes[x := []])
  }

  function Include(st: Records, x: Name, file: string): Records {
    st.(includes := st.includes[x := FilesOf(st, x) + [file]])
  }

  function Start(roots: seq<Name>): Records {
    Records(
      Tree({}, {}, roots, map[], {}, map r | r in roots :: []),
      map r | r in roots :: [], map[])
  }

  lemma StartIsRecorded<D>(it: Interpreter<D>, roots: seq<Name>, cmds: seq<Command>)
    requires Distinct(roots)
    ensures Recorded(it, roots, cmds, 0, ReadUpTo(it, roots, cmds, 0), Start(roots))
  {
  }

  /** What one more command adds to what came before. */
  lemma OneMore(cmds: seq<Command>, n: nat, x: Name)
    requires n < |cmds|
    ensures var c := cmds[n];
      && (ClassBefore(cmds, n + 1, x) <==> ClassBefore(cmds, n, x) || (c.ExpClass? && c.sub == x))
      && (InstanceBefore(cmds, n + 1, x) <==> InstanceBefore(cmds, n, x) || (c.ExpInstance? && c.inst == x))
      && (ExtendedBefore(cmds, n + 1, x) <==> ExtendedBefore(cmds, n, x) || c.Extends(x))
  {
  }

  lemma OtherCommandsKeepTheTree(roots: seq<Name>, cmds: seq<Command>, n: nat, t: Tree)
    requires n < |cmds| && (cmds[n].ExpLine? || cmds[n].ExpInclude?) && TreeRecorded(roots, cmds, n, t)
    ensures TreeRecorded(roots, cmds, n + 1, t)
  {
    forall y { OneMore(cmds, n, y); }
  }

  /** With the line, the name means its parent's data with one more line applied. */
  lemma NameMeansOneMoreLine<D>(
    it: Interpreter<D>, env: map<Name, Meaning<D>>, st: Records, x: Name, line: Line, meaning: Meaning<D>)
    requires x in st.tree.parent && st.tree.parent[x] != x && MeansItsOwn(it, env, st, x)
    requires meaning == Meaning(env[x].root, it.apply(env[x].root, x, line, env[x].data))
    ensures MeansItsOwn(it, env[x := meaning], AddLine(st, x, line), x)
  {
    var lines := st.explines[x];
    assert (lines + [line])[..|lines|] == lines;
  }

  /** A line for a name that nothing was derived from changes the meaning of that name only. */
  lemma LineKeepsMeaning<D>(
    it: Interpreter<D>, roots: seq<Name>, env: map<Name, Meaning<D>>, st: Records, x: Name, line: Line)
    requires Keyed(roots, st.tree) && ParentsAreClasses(roots, st.tree)
    requires MeansItsLines(it, roots, env, st)
    requires x in st.tree.parent && x !in st.tree.extended
    ensures MeansItsLines(it, roots, env[x := Meaning(env[x].root, it.apply(env[x].root, x, line, env[x].data))],
                          AddLine(st, x, line))
  {
    var st' := AddLine(st, x, line);
    var meaning := Meaning(env[x].root, it.apply(env[x].root, x, line, env[x].data));
    LineKeepsNames(it, roots, env, st, x, line, meaning);
    forall y | y in st.tree.parent
      ensures MeansItsOwn(it, env[x := meaning], st', y)
    {
      assert MeansItsOwn(it, env, st, y);
      ParentIsNot(roots, st.tree, x, y);
      if y == x {
        NameMeansOneMoreLine(it, env, st, x, line, meaning);
      } else {
        OtherLinesKeepMeaning(it, env, st, x, line, meaning, y);
      }
    }
  }

  lemma LineKeepsNames<D>(
    it: Interpreter<D>, roots: seq<Name>, env: map<Name, Meaning<D>>, st: Records, x: Name, line: Line,
    meaning: Meaning<D>)
    requires Keyed(roots, st.tree) && NamesMean(it, roots, env, st) && x in st.tree.parent
    ensures x in st.explines && NamesMean(it, roots, env[x := meaning], AddLine(st, x, line))
  {
  }

  /** Nothing is derived from a declared name that has not been extended. */
  lemma ParentIsNot(roots: seq<Name>, t: Tree, x: Name, y: Name)
    requires Keyed(roots, t) && ParentsAreClasses(roots, t)
    requires x in t.parent && x !in t.extended && y in t.parent
    ensures t.parent[y] != x
  {
    assert ParentIsClass(roots, t, y);
  }

  lemma OtherLinesKeepMeaning<D>(
    it: Interpreter<D>, env: map<Name, Meaning<D>>, st: Records, x: Name, line: Line, meaning: Meaning<D>, y: Name)
    requires x in st.explines && y in st.tree.parent && y != x && st.tree.parent[y] != x && MeansItsOwn(it, env, st, y)
    ensures MeansItsOwn(it, env[x := meaning], AddLine(st, x, line), y)
  {
  }

  lemma OtherCommandsKeepIncludes(cmds: seq<Command>, n: nat, st: Records, st': Records)
    requires n < |cmds| && !cmds[n].ExpInclude? && IncludesRecorded(cmds, n, st)
    requires forall x :: x in st.tree.names ==> x in st'.tree.names
    requires st'.includes == st.includes ||
      exists x :: x !in st.includes && x in st'.tree.names && st'.includes == st.includes[x := []]
    ensures IncludesRecorded(cmds, n + 1, st')
  {
    forall x
      ensures FilesOf(st', x) == IncludedFiles(cmds, n + 1, x)
    {
      assert FilesOf(st', x) == FilesOf(st, x) == IncludedFiles(cmds, n, x);
    }
  }

  lemma LineKeepsRecords<D>(
    it: Interpreter<D>, roots: seq<Name>, cmds: seq<Command>, n: nat, env: map<Name, Meaning<D>>, st: Records)
    requires n < |cmds| && cmds[n].ExpLine? && Recorded(it, roots, cmds, n, env, st)
    requires var x := cmds[n].name; x in st.tree.parent && x !in st.tree.extended
    ensures var x, line := cmds[n].name, cmds[n].line;
      && x in st.explines && x in env
      && Recorded(it, roots, cmds, n + 1,
                  env[x := Meaning(env[x].root, it.apply(env[x].root, x, line, env[x].data))], AddLine(st, x, line))
  {
    OtherCommandsKeepTheTree(roots, cmds, n, st.tree);
    OtherCommandsKeepIncludes(cmds, n, st, AddLine(st, cmds[n].name, cmds[n].line));
    LineKeepsMeaning(it, roots, env, st, cmds[n].name, cmds[n].line);
  }

  lemma IncludeKeepsMeaning<D>(
    it: Interpreter<D>, roots: seq<Name>, env: map<Name, Meaning<D>>, st: Records, x: Name, file: string)
    requires MeansItsLines(it, roots, env, st)
    ensures MeansItsLines(it, roots, env, Include(st, x, file))
  {
    var st' := Include(st, x, file);
    forall y | y in st.tree.parent
      ensures MeansItsOwn(it, env, st', y)
    {
      assert MeansItsOwn(it, env, st, y);
    }
  }

  lemma IncludeIsRecorded(cmds: seq<Command>, n: nat, st: Records)
    requires n < |cmds| && cmds[n].ExpInclude? && IncludesRecorded(cmds, n, st)
    ensures IncludesRecorded(cmds, n + 1, Include(st, cmds[n].name, cmds[n].file))
  {
    var st' := Include(st, cmds[n].name, cmds[n].file);
    forall x
      ensures FilesOf(st', x) == IncludedFiles(cmds, n + 1, x)
    {
      assert FilesOf(st, x) == IncludedFiles(cmds, n, x);
    }
  }

  lemma IncludeKeepsRecords<D>(
    it: Interpreter<D>, roots: seq<Name>, cmds: seq<Command>, n: nat, env: map<Name, Meaning<D>>, st: Records)
    requires n < |cmds| && cmds[n].ExpInclude? && Recorded(it, roots, cmds, n, env, st)
    ensures Recorded(it, roots, cmds, n + 1, env, Include(st, cmds[n].name, cmds[n].file))
  {
    OtherCommandsKeepTheTree(roots, cmds, n, st.tree);
    IncludeIsRecorded(cmds, n, st);
    IncludeKeepsMeaning(it, roots, env, st, cmds[n].name, cmds[n].file);
  }

  lemma NewNameKeepsForest(roots: seq<Name>, t: Tree, x: Name, super: Name, isClass: bool)
    requires Forest(roots, t) && x !in t.names && super in t.children && (super in roots || super in t.classes)
    ensures Forest(roots, AddName(roots, t, x, super, isClass))
  {
    NewNameKeepsKeys(roots, t, x, super, isClass);
    NewNameKeepsOrder(roots, t, x, super, isClass);
    NewNameKeepsChildren(roots, t, x, super, isClass);
    NewNameKeepsParents(roots, t, x, super, isClass);
  }

  lemma NewNameKeepsKeys(roots: seq<Name>, t: Tree, x: Name, super: Name, isClass: bool)
    requires Keyed(roots, t) && x !in t.names && super in t.children
    ensures Keyed(roots, AddName(roots, t, x, super, isClass))
  {
    assert x !in t.parent;
  }

  lemma NewNameKeepsOrder(roots: seq<Name>, t: Tree, x: Name, super: Name, isClass: bool)
    requires Keyed(roots, t) && Ordered(roots, t) && x !in t.names && super in t.children
    ensures Ordered(roots, AddName(roots, t, x, super, isClass))
  {
    var t' := AddName(roots, t, x, super, isClass);
    forall i | |roots| <= i < |t'.names|
      ensures DeclaredAfterParent(t', i)
    {
      if i < |t.names| {
        assert DeclaredAfterParent(t, i);
        assert t'.names[..i] == t.names[..i] && t.names[i] in t.names;
      } else {
        assert t'.names[..i] == t.names;
      }
    }
  }

  lemma NewNameKeepsChildren(roots: seq<Name>, t: Tree, x: Name, super: Name, isClass: bool)
    requires Keyed(roots, t) && ChildrenExact(t) && x !in t.names && super in t.children
    ensures ChildrenExact(AddName(roots, t, x, super, isClass))
  {
    var t' := AddName(roots, t, x, super, isClass);
    assert t'.children[super] == t.children[super] + [x] && t'.children[x] == [];
    assert x !in t.children[super];
    ChildrenStayListed(roots, t, x, super, isClass);
  }

  lemma ChildrenStayListed(roots: seq<Name>, t: Tree, x: Name, super: Name, isClass: bool)
    requires Keyed(roots, t) && ChildrenExact(t) && x !in t.names && super in t.children
    ensures var t' := AddName(roots, t, x, super, isClass);
      forall c {:trigger ListedUnderParent(t', c)} :: c in t'.parent ==> ListedUnderParent(t', c)
  {
    var t' := AddName(roots, t, x, super, isClass);
    forall c | c in t'.parent
      ensures ListedUnderParent(t', c)
    {
      assert c != x ==> ListedUnderParent(t, c);
    }
  }

  lemma NewNameKeepsParents(roots: seq<Name>, t: Tree, x: Name, super: Name, isClass: bool)
    requires Keyed(roots, t) && ParentsAreClasses(roots, t)
    requires x !in t.names && super in t.children && (super in roots || super in t.classes)
    ensures ParentsAreClasses(roots, AddName(roots, t, x, super, isClass))
  {
    var t' := AddName(roots, t, x, super, isClass);
    forall c | c in t'.parent
      ensures ParentIsClass(roots, t', c)
    {
      assert c != x ==> ParentIsClass(roots, t, c);
    }
  }

  lemma DeclarationKeepsNames<D>(
    it: Interpreter<D>, roots: seq<Name>, env: map<Name, Meaning<D>>, st: Records, x: Name, super: Name, isClass: bool)
    requires Keyed(roots, st.tree) && x !in st.tree.names && super in st.tree.children
    requires NamesMean(it, roots, env, st)
    ensures super in env && NamesMean(it, roots, env[x := env[super]], Declare(roots, st, x, super, isClass))
  {
  }

  /** Names declared before keep their meaning, whatever the new name means. */
  lemma OldNameKeepsMeaning<D>(
    it: Interpreter<D>, roots: seq<Name>, env: map<Name, Meaning<D>>, st: Records, x: Name, super: Name, isClass: bool,
    y: Name, meaning: Meaning<D>)
    requires Keyed(roots, st.tree) && x !in st.tree.names && super in st.tree.children
    requires y in st.tree.parent && ListedUnderParent(st.tree, y) && MeansItsOwn(it, env, st, y)
    ensures y != x && MeansItsOwn(it, env[x := meaning], Declare(roots, st, x, super, isClass), y)
  {
    assert st.tree.parent[y] in st.tree.names;
  }

  /** A declaration gives the new name the parent's present meaning and changes no other. */
  lemma DeclarationKeepsMeaning<D>(
    it: Interpreter<D>, roots: seq<Name>, env: map<Name, Meaning<D>>, st: Records, x: Name, super: Name, isClass: bool)
    requires Keyed(roots, st.tree) && ChildrenExact(st.tree) && x !in st.tree.names && super in st.tree.children
    requires MeansItsLines(it, roots, env, st)
    ensures super in env && MeansItsLines(it, roots, env[x := env[super]], Declare(roots, st, x, super, isClass))
  {
    DeclarationKeepsNames(it, roots, env, st, x, super, isClass);
    var st' := Declare(roots, st, x, super, isClass);
    var env' := env[x := env[super]];
    forall y | y in st'.tree.parent
      ensures MeansItsOwn(it, env', st', y)
    {
      if y != x {
        assert ListedUnderParent(st.tree, y);
        assert MeansItsOwn(it, env, st, y);
        OldNameKeepsMeaning(it, roots, env, st, x, super, isClass, y, env[super]);
      }
    }
  }

  lemma NewNameIsRecorded(roots: seq<Name>, cmds: seq<Command>, n: nat, t: Tree, x: Name, super: Name, isClass: bool)
    requires n < |cmds| && cmds[n] == (if isClass then ExpClass(x, super) else ExpInstance(x, super))
    requires TreeRecorded(roots, cmds, n, t) && super in t.children
    ensures TreeRecorded(roots, cmds, n + 1, AddName(roots, t, x, super, isClass))
  {
    forall y { OneMore(cmds, n, y); }
  }

  lemma DeclarationKeepsRecords<D>(
    it: Interpreter<D>, roots: seq<Name>, cmds: seq<Command>, n: nat, env: map<Name, Meaning<D>>, st: Records,
    x: Name, super: Name, isClass: bool)
    requires n < |cmds| && cmds[n] == (if isClass then ExpClass(x, super) else ExpInstance(x, super))
    requires Recorded(it, roots, cmds, n, env, st)
    requires x !in st.tree.names && super in st.tree.children && (super in roots || super in st.tree.classes)
    ensures super in env
    ensures Recorded(it, roots, cmds, n + 1, env[x := env[super]], Declare(roots, st, x, super, isClass))
  {
    NewNameIsRecorded(roots, cmds, n, st.tree, x, super, isClass);
    DeclarationKeepsIncludes(roots, cmds, n, st, x, super, isClass);
    NewNameKeepsForest(roots, st.tree, x, super, isClass);
    DeclarationKeepsMeaning(it, roots, env, st, x, super, isClass);
  }

  lemma DeclarationKeepsIncludes(
    roots: seq<Name>, cmds: seq<Command>, n: nat, st: Records, x: Name, super: Name, isClass: bool)
    requires n < |cmds| && !cmds[n].ExpInclude? && IncludesRecorded(cmds, n, st) && super in st.tree.children
    ensures IncludesRecorded(cmds, n + 1, Declare(roots, st, x, super, isClass))
  {
    OtherCommandsKeepIncludes(cmds, n, st, Declare(roots, st, x, super, isClass));
  }
}
