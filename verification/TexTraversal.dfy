/** Collecting the commands of parsed TeX documents in the order in which they are written. */
module TexTraversal {
  import opened Inheritance

  /** A node of a parsed document: one of our commands, or anything else with nodes inside. */
  datatype TexNode = Ours(command: Command) | Other(children: seq<TexNode>)

  /** The commands in reading order. */
  function CommandsOf(nodes: seq<TexNode>): seq<Command> {
    if nodes == [] then [] else CommandsIn(nodes[0]) + CommandsOf(nodes[1..])
  }

  function CommandsIn(node: TexNode): seq<Command> {
    match node
    case Ours(c) => [c]
    case Other(children) => CommandsOf(children)
  }

  // ---------- what a document holds, and where ----------

  /** The way to a node: its place in the list, its place among the children of that node, and so on. */
  type Address = seq<nat>

  /** At this address there is this command of ours. */
  ghost predicate HasAt(nodes: seq<TexNode>, a: Address, c: Command) {
    a != [] && a[0] < |nodes| &&
    match nodes[a[0]]
    case Ours(command) => |a| == 1 && c == command
    case Other(children) => HasAt(children, a[1..], c)
  }

  /** The first address comes before the second one in the text. */
  predicate Earlier(a: Address, b: Address) {
    a != [] && b != [] && (a[0] < b[0] || (a[0] == b[0] && Earlier(a[1..], b[1..])))
  }

  ghost predicate Ascending(addresses: seq<Address>) {
    forall i, j :: 0 <= i < j < |addresses| ==> Earlier(addresses[i], addresses[j])
  }

  /** One command for every address in the nodes from `lo` to `hi` that has one, in text order. */
  ghost predicate ListsBetween(nodes: seq<TexNode>, lo: nat, hi: nat, addresses: seq<Address>, found: seq<Command>) {
    && |addresses| == |found| && Ascending(addresses)
    && (forall i :: 0 <= i < |found| ==> HasAt(nodes, addresses[i], found[i]) && lo <= addresses[i][0] < hi)
    && (forall a, c :: HasAt(nodes, a, c) && lo <= a[0] < hi ==> a in addresses)
  }

  /** The commands are those at all addresses that have one, each once and in text order. */
  ghost predicate InReadingOrder(nodes: seq<TexNode>, found: seq<Command>) {
    exists addresses :: ListsBetween(nodes, 0, |nodes|, addresses, found)
  }

  function Under(k: nat, addresses: seq<Address>): seq<Address> {
    seq(|addresses|, i requires 0 <= i < |addresses| => [k] + addresses[i])
  }

  lemma AddressOfOurs(nodes: seq<TexNode>, k: nat)
    requires k < |nodes| && nodes[k].Ours?
    ensures ListsBetween(nodes, k, k + 1, [[k]], CommandsIn(nodes[k]))
  {
    forall a, c | HasAt(nodes, a, c) && a[0] == k
      ensures a == [k]
    {
    }
    assert HasAt(nodes, [k], nodes[k].command);
  }

  lemma AddressesUnder(nodes: seq<TexNode>, k: nat, inner: seq<Address>, found: seq<Command>)
    requires k < |nodes| && nodes[k].Other?
    requires ListsBetween(nodes[k].children, 0, |nodes[k].children|, inner, found)
    ensures ListsBetween(nodes, k, k + 1, Under(k, inner), found)
  {
    forall i | 0 <= i < |inner|
      ensures HasAt(nodes, Under(k, inner)[i], found[i])
    {
      assert ([k] + inner[i])[1..] == inner[i];
    }
    forall i, j | 0 <= i < j < |inner|
      ensures Earlier(Under(k, inner)[i], Under(k, inner)[j])
    {
      assert ([k] + inner[i])[1..] == inner[i] && ([k] + inner[j])[1..] == inner[j];
    }
    forall a, c | HasAt(nodes, a, c) && a[0] == k
      ensures a in Under(k, inner)
    {
      assert HasAt(nodes[k].children, a[1..], c);
      var i :| 0 <= i < |inner| && inner[i] == a[1..];
      assert Under(k, inner)[i] == a;
    }
  }

  lemma AddressesInTurn(
    nodes: seq<TexNode>, lo: nat, mid: nat, hi: nat, a: seq<Address>, x: seq<Command>, b: seq<Address>, y: seq<Command>)
    requires lo <= mid <= hi && ListsBetween(nodes, lo, mid, a, x) && ListsBetween(nodes, mid, hi, b, y)
    ensures ListsBetween(nodes, lo, hi, a + b, x + y)
  {
  }

  lemma {:induction false} AddressesFrom(nodes: seq<TexNode>, k: nat) returns (addresses: seq<Address>)
    requires k <= |nodes|
    ensures ListsBetween(nodes, k, |nodes|, addresses, CommandsOf(nodes[k..]))
    decreases nodes, |nodes| - k
  {
    addresses := [];
    if k < |nodes| {
      var first: seq<Address> := [[k]];
      match nodes[k] {
        case Ours(_) =>
          AddressOfOurs(nodes, k);
        case Other(children) =>
          var inner := AddressesFrom(children, 0);
          assert children[0..] == children;
          AddressesUnder(nodes, k, inner, CommandsOf(children));
          first := Under(k, inner);
      }
      var rest := AddressesFrom(nodes, k + 1);
      AddressesInTurn(nodes, k, k + 1, |nodes|, first, CommandsIn(nodes[k]), rest, CommandsOf(nodes[k + 1..]));
      assert nodes[k..][1..] == nodes[k + 1..];
      addresses := first + rest;
    }
  }

  lemma {:induction false} NotEarlierBothWays(a: Address, b: Address)
    requires Earlier(a, b)
    ensures a != b && !Earlier(b, a)
  {
    if a[0] == b[0] {
      NotEarlierBothWays(a[1..], b[1..]);
    }
  }

  lemma {:induction false} OneCommandAt(nodes: seq<TexNode>, a: Address, c: Command, d: Command)
    requires HasAt(nodes, a, c) && HasAt(nodes, a, d)
    ensures c == d
  {
    match nodes[a[0]]
    case Ours(_) =>
    case Other(children) => OneCommandAt(children, a[1..], c, d);
  }

  lemma FirstIsFirst(s: seq<Address>, r: seq<Address>)
    requires Ascending(s) && Ascending(r) && s != [] && r != []
    requires forall a :: a in s <==> a in r
    ensures s[0] == r[0] && forall a :: a in s[1..] <==> a in r[1..]
  {
    assert s[0] in r && r[0] in s;
    if s[0] != r[0] {
      NotEarlierBothWays(s[0], r[0]);
    }
    forall a
      ensures a in s[1..] <==> a in s && a != s[0]
      ensures a in r[1..] <==> a in r && a != r[0]
    {
      if a in s[1..] {
        NotEarlierBothWays(s[0], a);
      }
      if a in r[1..] {
        NotEarlierBothWays(r[0], a);
      }
    }
  }

  lemma {:induction false} SameAddresses(s: seq<Address>, r: seq<Address>)
    requires Ascending(s) && Ascending(r) && forall a :: a in s <==> a in r
    ensures s == r
  {
    assert r != [] ==> r[0] in r;
    if s != [] {
      assert s[0] in r;
      FirstIsFirst(s, r);
      SameAddresses(s[1..], r[1..]);
      assert s == [s[0]] + s[1..] && r == [r[0]] + r[1..];
    }
  }

  /** `CommandsOf` gives the commands in reading order, and nothing else does. */
  lemma ReadingOrder(nodes: seq<TexNode>, found: seq<Command>)
    ensures InReadingOrder(nodes, found) <==> found == CommandsOf(nodes)
  {
    var addresses := AddressesFrom(nodes, 0);
    assert nodes[0..] == nodes;
    if InReadingOrder(nodes, found) {
      var others :| ListsBetween(nodes, 0, |nodes|, others, found);
      forall a
        ensures a in others <==> a in addresses
      {
      }
      SameAddresses(others, addresses);
      forall i | 0 <= i < |found|
        ensures found[i] == CommandsOf(nodes)[i]
      {
        OneCommandAt(nodes, addresses[i], found[i], CommandsOf(nodes)[i]);
      }
    }
  }

  // ---------- the search ----------

  function Size(nodes: seq<TexNode>): nat {
    if nodes == [] then 0 else SizeOf(nodes[0]) + Size(nodes[1..])
  }

  function SizeOf(node: TexNode): nat {
    match node
    case Ours(_) => 1
    case Other(children) => 1 + Size(children)
  }

  lemma Regroup(x: seq<Command>, y: seq<Command>, z: seq<Command>)
    ensures x + (y + z) == x + y + z
  {
  }

  lemma CommandsSplit(nodes: seq<TexNode>, first: TexNode, rest: seq<TexNode>)
    requires nodes == [first] + rest
    ensures CommandsOf(nodes) == CommandsIn(first) + CommandsOf(rest)
  {
    assert nodes[1..] == rest;
  }

  lemma {:induction false} CommandsConcat(a: seq<TexNode>, b: seq<TexNode>)
    ensures CommandsOf(a + b) == CommandsOf(a) + CommandsOf(b)
  {
    if a == [] {
      assert a + b == b;
    } else {
      CommandsConcat(a[1..], b);
      CommandsSplit(a, a[0], a[1..]);
      CommandsSplit(a + b, a[0], a[1..] + b);
      Regroup(CommandsIn(a[0]), CommandsOf(a[1..]), CommandsOf(b));
    }
  }

  lemma {:induction false} SizeConcat(a: seq<TexNode>, b: seq<TexNode>)
    ensures Size(a + b) == Size(a) + Size(b)
  {
    if a == [] {
      assert a + b == b;
    } else {
      SizeConcat(a[1..], b);
      assert a + b == [a[0]] + (a[1..] + b);
    }
  }

  /** Puts the children of a node in front of the list, last one first. */
  method PutInFront(children: seq<TexNode>, rest: seq<TexNode>) returns (toVisit: seq<TexNode>)
    ensures toVisit == children + rest
  {
    toVisit := rest;
    var i := |children|;
    while i > 0
      invariant 0 <= i <= |children| && toVisit == children[i..] + rest
    {
      i := i - 1;
      toVisit := [children[i]] + toVisit;
    }
    assert children[0..] == children;
  }

  /** Depth-first search with an explicit list. */
  method ParseTexFile(found0: seq<Command>, soup: seq<TexNode>) returns (found: seq<Command>)
    ensures found == found0 + CommandsOf(soup)
    ensures found0 <= found && InReadingOrder(soup, found[|found0|..])
  {
    found := found0;
    var toVisit := soup;
    while toVisit != []
      invariant found + CommandsOf(toVisit) == found0 + CommandsOf(soup)
      decreases Size(toVisit)
    {
      var item, rest := toVisit[0], toVisit[1..];
      assert Size(toVisit) == SizeOf(item) + Size(rest);
      match item {
        case Ours(command) =>
          found := found + [command];
          toVisit := rest;
        case Other(children) =>
          toVisit := PutInFront(children, rest);
          CommandsConcat(children, rest);
          SizeConcat(children, rest);
      }
    }
    assert found == found0 + CommandsOf(soup);
    assert found[|found0|..] == CommandsOf(soup);
    ReadingOrder(soup, CommandsOf(soup));
  }

  ghost function CommandsOfFiles(files: seq<seq<TexNode>>): seq<Command> {
    if files == [] then [] else CommandsOfFiles(files[..|files| - 1]) + CommandsOf(files[|files| - 1])
  }

  /** The files as one document, each of them a node that holds the nodes of the file. */
  function AsNodes(files: seq<seq<TexNode>>): seq<TexNode> {
    seq(|files|, i requires 0 <= i < |files| => Other(files[i]))
  }

  lemma {:induction false} FilesInTurn(files: seq<seq<TexNode>>)
    ensures CommandsOfFiles(files) == CommandsOf(AsNodes(files))
  {
    if files != [] {
      var before, last := files[..|files| - 1], files[|files| - 1];
      FilesInTurn(before);
      CommandsConcat(AsNodes(before), [Other(last)]);
      assert AsNodes(files) == AsNodes(before) + [Other(last)];
      CommandsSplit([Other(last)], Other(last), []);
      assert CommandsIn(Other(last)) == CommandsOf(last);
    }
  }

  /** The commands of all files in reading order, one file after the other. */
  method ParseTexFiles(files: seq<seq<TexNode>>) returns (found: seq<Command>)
    ensures found == CommandsOfFiles(files)
    ensures InReadingOrder(AsNodes(files), found)
  {
    found := [];
    for i := 0 to |files|
      invariant found == CommandsOfFiles(files[..i])
    {
      found := ParseTexFile(found, files[i]);
      assert files[..i + 1][..i] == files[..i];
    }
    assert files[..|files|] == files;
    FilesInTurn(files);
    ReadingOrder(AsNodes(files), found);
  }
}
