/** Reading and printing text: trimming, splitting, whole numbers of 64 bits, sets and maps. */
module ExpUtil {
  import opened Options
  import opened Collections

  // ---------- trimming ----------

  predicate Space(c: char) {
    c in " \t\n\r\U{000B}\U{000C}"
  }

  predicate Blank(s: string) {
    forall c :: c in s ==> Space(c)
  }

  /** No white space at either end. */
  predicate Bare(s: string) {
    s != [] ==> !Space(s[0]) && !Space(s[|s| - 1])
  }

  function RightTrim(s: string): string {
    if s != [] && Space(s[|s| - 1]) then RightTrim(s[..|s| - 1]) else s
  }

  function LeftTrim(s: string): string {
    if s != [] && Space(s[0]) then LeftTrim(s[1..]) else s
  }

  function Trim(s: string): string {
    LeftTrim(RightTrim(s))
  }

  lemma {:induction false} RightTrimDrops(s: string, after: string)
    requires Blank(after) && (s == [] || !Space(s[|s| - 1]))
    ensures RightTrim(s + after) == s
  {
    if after == [] {
      assert s + after == s;
    } else {
      var last := |after| - 1;
      assert after[last] in after;
      assert (s + after)[..|s + after| - 1] == s + after[..last];
      RightTrimDrops(s, after[..last]);
    }
  }

  lemma {:induction false} LeftTrimDrops(before: string, s: string)
    requires Blank(before) && (s == [] || !Space(s[0]))
    ensures LeftTrim(before + s) == s
  {
    if before == [] {
      assert before + s == s;
    } else {
      assert before[0] in before;
      assert (before + s)[1..] == before[1..] + s;
      LeftTrimDrops(before[1..], s);
    }
  }

  /** Trimming drops exactly the white space around a text. */
  lemma TrimDropsPadding(before: string, s: string, after: string)
    requires Blank(before) && Blank(after) && Bare(s)
    ensures Trim(before + s + after) == s
  {
    if s == [] {
      assert before + s + after == [] + (before + after);
      RightTrimDrops([], before + after);
    } else {
      RightTrimDrops(before + s, after);
      LeftTrimDrops(before, s);
    }
  }

  lemma {:induction false} RightTrimLeaves(s: string) returns (after: string)
    ensures var r := RightTrim(s); s == r + after && Blank(after) && (r != [] ==> !Space(r[|r| - 1]))
  {
    if s != [] && Space(s[|s| - 1]) {
      after := RightTrimLeaves(s[..|s| - 1]);
      after := after + [s[|s| - 1]];
    } else {
      after := [];
    }
  }

  lemma {:induction false} LeftTrimLeaves(s: string) returns (before: string)
    ensures var r := LeftTrim(s); s == before + r && Blank(before) && (r != [] ==> !Space(r[0]))
  {
    if s != [] && Space(s[0]) {
      before := LeftTrimLeaves(s[1..]);
      before := [s[0]] + before;
    } else {
      before := [];
    }
  }

  lemma TrimLeavesBareText(s: string) returns (before: string, after: string)
    ensures s == before + Trim(s) + after && Blank(before) && Blank(after) && Bare(Trim(s))
  {
    after := RightTrimLeaves(s);
    before := LeftTrimLeaves(RightTrim(s));
  }

  // ---------- splitting ----------

  predicate StartsWith(s: string, prefix: string) {
    |s| >= |prefix| && s[..|prefix|] == prefix
  }

  predicate EndsWith(s: string, suffix: string) {
    |s| >= |suffix| && s[|s| - |suffix|..] == suffix
  }

  predicate OccursAt(s: string, d: string, i: int) {
    0 <= i <= |s| - |d| && s[i..i + |d|] == d
  }

  lemma SliceOfTail(s: string, i: nat, j: nat)
    requires i <= j < |s|
    ensures s[1..][i..j] == s[i + 1..j + 1]
  {
  }

  lemma OccursInTail(s: string, d: string)
    requires |s| >= |d| && s[..|d|] != d
    ensures forall k {:trigger OccursAt(s, d, k)} :: OccursAt(s, d, k) ==> k > 0 && OccursAt(s[1..], d, k - 1)
    ensures forall k {:trigger OccursAt(s[1..], d, k)} :: OccursAt(s[1..], d, k) ==> OccursAt(s, d, k + 1)
  {
    forall k
      ensures OccursAt(s, d, k) <==> k > 0 && OccursAt(s[1..], d, k - 1)
    {
      if 0 < k <= |s| - |d| {
        SliceOfTail(s, k - 1, k - 1 + |d|);
      }
    }
  }

  /** The first place where `d` occurs in `s`, or -1. */
  function Find(s: string, d: string): (i: int)
    ensures i == -1 || OccursAt(s, d, i)
    ensures forall k {:trigger OccursAt(s, d, k)} :: OccursAt(s, d, k) ==> 0 <= i <= k
  {
    if |s| < |d| then -1
    else if s[..|d|] == d then 0
    else
      var i := Find(s[1..], d);
      OccursInTail(s, d);
      if i == -1 then -1 else i + 1
  }

  function Split(s: string, d: string): (pieces: seq<string>)
    requires d != []
    ensures |pieces| > 0
    decreases |s|
  {
    var i := Find(s, d);
    if i == -1 then [s] else [s[..i]] + Split(s[i + |d|..], d)
  }

  method SplitString(line: string, delimiter: string) returns (result: seq<string>)
    requires delimiter != []
    ensures result == Split(line, delimiter)
  {
    result := [];
    var remainder := line;
    var idx := Find(remainder, delimiter);
    while idx != -1
      invariant idx == Find(remainder, delimiter)
      invariant result + Split(remainder, delimiter) == Split(line, delimiter)
      decreases |remainder|
    {
      result := result + [remainder[..idx]];
      remainder := remainder[idx + |delimiter|..];
      idx := Find(remainder, delimiter);
    }
    result := result + [remainder];
  }

  function Join(pieces: seq<string>, d: string): string
    requires pieces != []
  {
    if |pieces| == 1 then pieces[0] else pieces[0] + d + Join(pieces[1..], d)
  }

  lemma CutAtFind(s: string, d: string)
    requires Find(s, d) != -1
    ensures var i := Find(s, d); s == s[..i] + d + s[i + |d|..]
  {
    var i := Find(s, d);
    assert OccursAt(s, d, i);
    assert s == s[..i] + s[i..i + |d|] + s[i + |d|..];
  }

  lemma JoinOneMore(first: string, pieces: seq<string>, d: string)
    requires pieces != []
    ensures Join([first] + pieces, d) == first + d + Join(pieces, d)
  {
    assert ([first] + pieces)[1..] == pieces;
  }

  /** Nothing is lost: the pieces, joined again, are the text. */
  lemma {:induction false} JoinUndoesSplit(s: string, d: string)
    requires d != []
    ensures Join(Split(s, d), d) == s
    decreases |s|
  {
    var i := Find(s, d);
    if i != -1 {
      var first, rest := s[..i], s[i + |d|..];
      JoinUndoesSplit(rest, d);
      JoinOneMore(first, Split(rest, d), d);
      CutAtFind(s, d);
    }
  }

  /** The delimiter does not occur in the piece, nor across its end when the delimiter follows. */
  predicate Clean(piece: string, d: string) {
    Find(piece, d) == -1 && Find(piece + d, d) == |piece|
  }

  lemma OccursInPrefix(s: string, rest: string, d: string, i: nat)
    requires i + |d| <= |s|
    ensures OccursAt(s + rest, d, i) <==> OccursAt(s, d, i)
  {
    assert (s + rest)[i..i + |d|] == s[i..i + |d|];
  }

  lemma FindAfterCleanPiece(piece: string, d: string, rest: string)
    requires d != [] && Clean(piece, d)
    ensures Find(piece + d + rest, d) == |piece|
  {
    var s := piece + d;
    assert OccursAt(s, d, |piece|);
    OccursInPrefix(s, rest, d, |piece|);
    OccursInPrefix(s, rest, d, Find(s + rest, d));
  }

  lemma SplitFirstPiece(piece: string, d: string, rest: string)
    requires d != [] && Clean(piece, d)
    ensures Split(piece + d + rest, d) == [piece] + Split(rest, d)
  {
    var s := piece + d + rest;
    FindAfterCleanPiece(piece, d, rest);
    assert s[..|piece|] == piece && s[|piece| + |d|..] == rest;
  }

  /** Nothing is invented: clean pieces, joined, split into the same pieces. */
  lemma {:induction false} SplitUndoesJoin(pieces: seq<string>, d: string)
    requires d != [] && pieces != [] && forall p :: p in pieces ==> Clean(p, d)
    ensures Split(Join(pieces, d), d) == pieces
  {
    assert forall k :: 0 <= k < |pieces| ==> pieces[k] in pieces;
    SplitOfJoin(pieces, d);
  }

  /** A piece without the first character of the delimiter is clean. */
  lemma CleanWithout(piece: string, d: string)
    requires d != [] && d[0] !in piece
    ensures Clean(piece, d)
  {
    var s := piece + d;
    forall i | OccursAt(s, d, i)
      ensures i >= |piece|
    {
      assert s[i] == s[i..i + |d|][0] == d[0];
    }
    forall i | OccursAt(piece, d, i)
      ensures false
    {
      OccursInPrefix(piece, d, d, i);
    }
    assert OccursAt(s, d, |piece|);
  }

  /** The delimiter occurs in none of the pieces, and all but the last are clean. */
  predicate AllClean(pieces: seq<string>, d: string)
    requires pieces != []
  {
    && (forall k :: 0 <= k < |pieces| - 1 ==> Clean(pieces[k], d))
    && Find(pieces[|pieces| - 1], d) == -1
  }

  lemma OneMoreClean(first: string, pieces: seq<string>, d: string)
    requires pieces != [] && Clean(first, d) && AllClean(pieces, d)
    ensures AllClean([first] + pieces, d)
  {
  }

  lemma {:induction false} PiecesAreClean(s: string, d: string)
    requires d != []
    ensures AllClean(Split(s, d), d)
    decreases |s|
  {
    var i := Find(s, d);
    if i != -1 {
      var rest := s[i + |d|..];
      PiecesAreClean(rest, d);
      CutAtFind(s, d);
      FirstPieceIsClean(s, d, s[..i], rest);
      OneMoreClean(s[..i], Split(rest, d), d);
      assert Split(s, d) == [s[..i]] + Split(rest, d);
    }
  }

  lemma FirstPieceIsClean(s: string, d: string, piece: string, rest: string)
    requires d != [] && s == piece + d + rest && Find(s, d) == |piece|
    ensures Clean(piece, d)
  {
    forall i | OccursAt(piece, d, i)
      ensures OccursAt(s, d, i)
    {
      assert s == piece + (d + rest);
      OccursInPrefix(piece, d + rest, d, i);
    }
    forall i | OccursAt(piece + d, d, i)
      ensures OccursAt(s, d, i)
    {
      OccursInPrefix(piece + d, rest, d, i);
    }
    assert OccursAt(piece + d, d, |piece|);
  }

  /** The split of a text is the one way to write it as clean pieces with delimiters between them. */
  lemma SplitIs(s: string, d: string, pieces: seq<string>)
    requires d != []
    ensures Split(s, d) == pieces <==> pieces != [] && AllClean(pieces, d) && Join(pieces, d) == s
  {
    PiecesAreClean(s, d);
    JoinUndoesSplit(s, d);
    if pieces != [] && AllClean(pieces, d) && Join(pieces, d) == s {
      SplitOfJoin(pieces, d);
    }
  }

  lemma {:induction false} SplitOfJoin(pieces: seq<string>, d: string)
    requires d != [] && pieces != [] && AllClean(pieces, d)
    ensures Split(Join(pieces, d), d) == pieces
  {
    var first, rest := pieces[0], pieces[1..];
    assert pieces == [first] + rest;
    if rest != [] {
      SplitOfJoin(rest, d);
      SplitFirstPiece(first, d, Join(rest, d));
    }
  }

  lemma SplitInTwo(s: string, d: string, left: string, right: string)
    requires d != []
    ensures Split(s, d) == [left, right] <==> s == left + d + right && Clean(left, d) && Find(right, d) == -1
  {
    var pieces := [left, right];
    SplitIs(s, d, pieces);
    assert pieces[1..] == [right];
  }

  lemma OccursOnlyAsMember(s: string, c: char)
    ensures Find(s, [c]) == -1 <==> c !in s
  {
    if c in s {
      var i :| 0 <= i < |s| && s[i] == c;
      assert s[i..i + 1] == [c];
      assert OccursAt(s, [c], i);
    } else {
      CleanWithout(s, [c]);
    }
  }

  /** For a delimiter of one character, the pieces are those without it. */
  lemma SplitAtCharacter(s: string, c: char, pieces: seq<string>)
    ensures Split(s, [c]) == pieces <==> pieces != [] && (forall p :: p in pieces ==> c !in p) && Join(pieces, [c]) == s
  {
    SplitIs(s, [c], pieces);
    forall p: string
      ensures (Find(p, [c]) == -1 <==> c !in p) && (Clean(p, [c]) <==> c !in p)
    {
      OccursOnlyAsMember(p, c);
      if c !in p {
        CleanWithout(p, [c]);
      }
    }
  }

  // ---------- whole numbers ----------

  const INT32_MAX: int := 0x7FFF_FFFF
  const INT64_MAX: int := 0x7FFF_FFFF_FFFF_FFFF
  const INT64_MIN: int := -0x8000_0000_0000_0000

  predicate IsDigit(c: char) {
    '0' <= c <= '9'
  }

  predicate IsNumeral(s: string) {
    s != [] && forall c :: c in s ==> IsDigit(c)
  }

  function DigitValue(c: char): (k: nat)
    requires IsDigit(c)
    ensures k < 10
  {
    (c as int) - ('0' as int)
  }

  function ValueOf(s: string): (v: int)
    requires forall c :: c in s ==> IsDigit(c)
    ensures v >= 0
  {
    if s == [] then 0
    else
      10 * ValueOf(s[..|s| - 1]) + DigitValue(s[|s| - 1])
  }

  /** An optional sign and digits, with white space around; None stands for the exception. */
  function ParseInt64(str: string): Option<int> {
    var s := Trim(str);
    var digits := if s != [] && s[0] in "+-" then s[1..] else s;
    if !IsNumeral(digits) then None
    else
      var v := if s[0] == '-' then -ValueOf(digits) else ValueOf(digits);
      if INT64_MIN <= v <= INT64_MAX then Some(v) else None
  }

  function ParsePositiveInt64(str: string): Option<nat> {
    match ParseInt64(str)
    case Some(v) => if v < 0 then None else Some(v)
    case None => None
  }

  /** A number as it may be written: white space, perhaps a sign, digits, white space. */
  datatype Numeral = Numeral(before: string, sign: string, digits: string, after: string) {
    predicate Valid() {
      Blank(before) && Blank(after) && sign in {"", "+", "-"} && IsNumeral(digits)
    }

    function Text(): string {
      before + (sign + digits) + after
    }

    function Value(): int
      requires Valid()
    {
      if sign == "-" then -ValueOf(digits) else ValueOf(digits)
    }
  }

  lemma SignedIsBare(x: Numeral)
    requires x.Valid()
    ensures Bare(x.sign + x.digits) && x.digits[0] !in "+-"
  {
    NumeralIsPlain(x.digits);
    assert x.digits[0] in x.digits;
  }

  lemma NumeralIsRead(x: Numeral)
    requires x.Valid()
    ensures ParseInt64(x.Text()) == if INT64_MIN <= x.Value() <= INT64_MAX then Some(x.Value()) else None
  {
    SignedIsBare(x);
    var s := x.sign + x.digits;
    TrimDropsPadding(x.before, s, x.after);
    assert s[|x.sign|..] == x.digits;
    assert s[0] == if x.sign == [] then x.digits[0] else x.sign[0];
  }

  lemma NumeralOf(str: string) returns (x: Numeral)
    requires ParseInt64(str).Some?
    ensures x.Valid() && x.Text() == str && Some(x.Value()) == ParseInt64(str)
  {
    var before, after := TrimLeavesBareText(str);
    var s := Trim(str);
    if s[0] in "+-" {
      assert s == [s[0]] + s[1..];
      x := Numeral(before, [s[0]], s[1..], after);
    } else {
      assert s == [] + s;
      x := Numeral(before, [], s, after);
    }
  }

  /** A text is read exactly when it is a number that fits: all others are refused. */
  lemma NumbersAreRead(str: string, v: int)
    ensures ParseInt64(str) == Some(v) <==>
      INT64_MIN <= v <= INT64_MAX && exists x: Numeral :: x.Valid() && x.Text() == str && x.Value() == v
  {
    if ParseInt64(str) == Some(v) {
      var x := NumeralOf(str);
    }
    forall x: Numeral | x.Valid() && x.Text() == str
      ensures ParseInt64(str) == if INT64_MIN <= x.Value() <= INT64_MAX then Some(x.Value()) else None
    {
      NumeralIsRead(x);
    }
  }

  /** Without a digit there is no number. */
  lemma NoDigitNoNumber(str: string)
    requires forall c :: c in str ==> !IsDigit(c)
    ensures ParseInt64(str) == None
  {
    var before, after := TrimLeavesBareText(str);
    var s := Trim(str);
    assert forall c :: c in s ==> c in before + s + after;
    assert s != [] ==> s[|s| - 1] in s;
  }

  function Digit(k: nat): char
    requires k < 10
  {
    '0' + k as char
  }

  function Decimal(n: nat): string {
    if n < 10 then [Digit(n)] else Decimal(n / 10) + [Digit(n % 10)]
  }

  lemma {:induction false} DecimalIsNumeral(n: nat)
    ensures IsNumeral(Decimal(n)) && ValueOf(Decimal(n)) == n
  {
    if n >= 10 {
      DecimalIsNumeral(n / 10);
      assert Decimal(n)[..|Decimal(n)| - 1] == Decimal(n / 10);
    }
  }

  lemma NumeralIsPlain(s: string)
    requires IsNumeral(s)
    ensures Bare(s) && forall c :: c in s ==> !Space(c) && c !in "+-,"
  {
    assert s[0] in s && s[|s| - 1] in s;
  }

  /** A printed number is read back, in any padding, exactly when it fits in 64 bits. */
  lemma NumberRoundTrip(before: string, n: nat, after: string)
    requires Blank(before) && Blank(after)
    ensures ParsePositiveInt64(before + Decimal(n) + after) == if n < 0x8000_0000_0000_0000 then Some(n) else None
  {
    DecimalIsNumeral(n);
    NumeralIsPlain(Decimal(n));
    assert Decimal(n)[0] in Decimal(n);
    TrimDropsPadding(before, Decimal(n), after);
  }

  lemma PlainNumberRoundTrip(n: nat)
    ensures ParsePositiveInt64(Decimal(n)) == if n <= INT64_MAX then Some(n) else None
  {
    NumberRoundTrip([], n, []);
    assert [] + Decimal(n) + [] == Decimal(n);
  }

  // ---------- sets ----------

  /** What stands between the opening, `set(` or `map(`, and the closing parenthesis. */
  function Inside(str: string, opening: string): Option<string>
    requires |opening| == 4 && opening[3] == '('
  {
    if StartsWith(str, opening) && EndsWith(str, ")") then
      assert str[3] == '(' && str[|str| - 1] == ')';
      Some(str[4..|str| - 1])
    else None
  }

  /** That is, exactly the texts of this form have an inside. */
  lemma InsideIs(str: string, opening: string, inside: string)
    requires |opening| == 4 && opening[3] == '('
    ensures Inside(str, opening) == Some(inside) <==> str == opening + inside + ")"
  {
    if Inside(str, opening) == Some(inside) {
      assert str == str[..4] + str[4..|str| - 1] + str[|str| - 1..];
    }
    if str == opening + inside + ")" {
      assert str[..4] == opening && str[4..|str| - 1] == inside && str[|str| - 1..] == ")";
    }
  }

  function TrimAll(pieces: seq<string>): seq<string> {
    seq(|pieces|, i requires 0 <= i < |pieces| => Trim(pieces[i]))
  }

  /** The elements written in a text `set(x,y,...)`; None if it is not one or repeats an element. */
  function SetOf(str: string): Option<set<string>> {
    match Inside(str, "set(")
    case None => None
    case Some(inside) =>
      if Trim(inside) == [] then Some({})
      else
        var pieces := TrimAll(Split(inside, ","));
        if Distinct(pieces) then Some(Members(pieces)) else None
  }

  /** The text is these pieces, without commas of their own, between `set(` and `)`. */
  ghost predicate WrittenSet(str: string, pieces: seq<string>) {
    && (forall p :: p in pieces ==> ',' !in p)
    && if pieces == [] then exists inside :: Blank(inside) && str == "set(" + inside + ")"
       else str == "set(" + Join(pieces, ",") + ")" && !Blank(Join(pieces, ","))
  }

  /** Exactly the texts written as sets are read, as the sets of their trimmed pieces, unless one is repeated. */
  lemma SetsAreRead(str: string, items: set<string>)
    ensures SetOf(str) == Some(items) <==>
      exists pieces :: WrittenSet(str, pieces) && Distinct(TrimAll(pieces)) && items == Members(TrimAll(pieces))
  {
    if SetOf(str) == Some(items) {
      var pieces := SetPieces(str);
    }
    forall pieces | WrittenSet(str, pieces)
      ensures SetOf(str) == if Distinct(TrimAll(pieces)) then Some(Members(TrimAll(pieces))) else None
    {
      WrittenSetIsRead(str, pieces);
    }
  }

  lemma SetPieces(str: string) returns (pieces: seq<string>)
    requires SetOf(str).Some?
    ensures WrittenSet(str, pieces)
  {
    var inside := Inside(str, "set(").value;
    InsideIs(str, "set(", inside);
    TrimmedAway(inside);
    if Trim(inside) == [] {
      pieces := [];
    } else {
      pieces := Split(inside, ",");
      SplitAtCharacter(inside, ',', pieces);
    }
  }

  lemma WrittenSetIsRead(str: string, pieces: seq<string>)
    requires WrittenSet(str, pieces)
    ensures SetOf(str) == if Distinct(TrimAll(pieces)) then Some(Members(TrimAll(pieces))) else None
  {
    if pieces == [] {
      var inside :| Blank(inside) && str == "set(" + inside + ")";
      InsideIs(str, "set(", inside);
      TrimmedAway(inside);
      assert Members(TrimAll(pieces)) == {};
    } else {
      var inside := Join(pieces, ",");
      InsideIs(str, "set(", inside);
      TrimmedAway(inside);
      SplitAtCharacter(inside, ',', pieces);
    }
  }

  lemma TrimmedAway(s: string)
    ensures Trim(s) == [] <==> Blank(s)
  {
    var before, after := TrimLeavesBareText(s);
    assert Trim(s) != [] ==> Trim(s)[0] in s && !Space(Trim(s)[0]);
  }

  method InsertTrimmed(final: seq<string>) returns (finalSet: set<string>)
    ensures finalSet == Members(TrimAll(final))
  {
    finalSet := {};
    for i := 0 to |final|
      invariant finalSet == Members(TrimAll(final)[..i])
    {
      assert TrimAll(final)[..i + 1] == TrimAll(final)[..i] + [Trim(final[i])];
      finalSet := finalSet + {Trim(final[i])};
    }
    assert TrimAll(final)[..|final|] == TrimAll(final);
  }

  method ParseSetString(str: string) returns (r: Option<set<string>>)
    ensures r == SetOf(str)
  {
    if !StartsWith(str, "set(") || !EndsWith(str, ")") {
      return None;
    }
    assert str[3] == '(' && str[|str| - 1] == ')';
    var onlyInside := str[4..|str| - 1];
    if Trim(onlyInside) == [] {
      return Some({});
    }
    var final := SplitString(onlyInside, ",");
    var finalSet := InsertTrimmed(final);
    MembersCount(TrimAll(final));
    if |final| != |finalSet| {
      return None;
    }
    return Some(finalSet);
  }

  /** An element that survives being written into a set: nonempty, bare and without commas. */
  predicate Element(s: string) {
    s != [] && Bare(s) && ',' !in s
  }

  function PrintSet(items: seq<string>): string {
    if items == [] then "set()" else "set(" + Join(items, ",") + ")"
  }

  lemma {:induction false} JoinIsVisible(items: seq<string>)
    requires items != [] && forall s :: s in items ==> Element(s)
    ensures var j := Join(items, ","); j != [] && !Space(j[0])
  {
    assert items[0] in items;
  }

  lemma TrimKeepsVisible(s: string)
    requires s != [] && !Space(s[0])
    ensures Trim(s) != []
  {
    var before, after := TrimLeavesBareText(s);
    assert s[0] in before + Trim(s) + after;
  }

  lemma BareIsKept(s: string)
    requires Bare(s)
    ensures Trim(s) == s
  {
    TrimDropsPadding([], s, []);
    assert [] + s + [] == s;
  }

  lemma PrintedInside(items: seq<string>)
    ensures Inside(PrintSet(items), "set(") == Some(if items == [] then [] else Join(items, ","))
  {
    if items != [] {
      var str := PrintSet(items);
      assert str[..4] == "set(" && str[|str| - 1..] == ")";
      assert str[4..|str| - 1] == Join(items, ",");
    }
  }

  /** A printed set is read back: the same elements, refused exactly when one is repeated. */
  lemma SetRoundTrip(items: seq<string>)
    requires forall s :: s in items ==> Element(s)
    ensures SetOf(PrintSet(items)) == if Distinct(items) then Some(Members(items)) else None
  {
    PrintedInside(items);
    if items == [] {
      assert Members(items) == {};
    } else {
      JoinIsVisible(items);
      TrimKeepsVisible(Join(items, ","));
      PiecesOfJoin(items);
    }
  }

  lemma PiecesOfJoin(items: seq<string>)
    requires items != [] && forall s :: s in items ==> Element(s)
    ensures TrimAll(Split(Join(items, ","), ",")) == items
  {
    forall s | s in items
      ensures Clean(s, ",") && Trim(s) == s
    {
      CleanWithout(s, ",");
      BareIsKept(s);
    }
    SplitUndoesJoin(items, ",");
  }

  function NumberOf(s: string): nat {
    var v := ParsePositiveInt64(s);
    if v.Some? then v.value else 0
  }

  ghost function Numbers(texts: set<string>): set<nat> {
    Image(texts, NumberOf)
  }

  ghost predicate AllNumbers(texts: set<string>) {
    forall s :: s in texts ==> ParsePositiveInt64(s).Some?
  }

  /** The numbers written in a text `set(x,y,...)`: every element must be one, and no two the same. */
  ghost function NumberSetOf(str: string): Option<set<nat>> {
    match SetOf(str)
    case None => None
    case Some(texts) => if AllNumbers(texts) && Injective(texts, NumberOf) then Some(Numbers(texts)) else None
  }

  /** The pieces are numbers, these in turn. */
  ghost predicate AreNumbers(pieces: seq<string>, numbers: seq<nat>) {
    |pieces| == |numbers| && forall i :: 0 <= i < |pieces| ==> ParsePositiveInt64(pieces[i]) == Some(numbers[i])
  }

  /** The text is these numbers, in turn, between `set(` and `)`. */
  ghost predicate WrittenNumbers(str: string, numbers: seq<nat>) {
    exists pieces :: WrittenSet(str, pieces) && AreNumbers(pieces, numbers)
  }

  /** Exactly the sets of numbers are read: every piece must be a number, and no two the same number. */
  lemma NumberSetsAreRead(str: string, items: set<nat>)
    ensures NumberSetOf(str) == Some(items) <==>
      exists numbers: seq<nat> :: WrittenNumbers(str, numbers) && Distinct(numbers) && items == Members(numbers)
  {
    if NumberSetOf(str) == Some(items) {
      var pieces := SetPieces(str);
      var numbers := NumbersWritten(str, pieces);
      NumbersOfPieces(str, pieces, numbers);
    }
    forall numbers: seq<nat> | WrittenNumbers(str, numbers)
      ensures NumberSetOf(str) == if Distinct(numbers) then Some(Members(numbers)) else None
    {
      var pieces :| WrittenSet(str, pieces) && AreNumbers(pieces, numbers);
      NumbersOfPieces(str, pieces, numbers);
    }
  }

  lemma TrimmedNumber(s: string)
    ensures ParsePositiveInt64(Trim(s)) == ParsePositiveInt64(s)
  {
    var before, after := TrimLeavesBareText(s);
    BareIsKept(Trim(s));
  }

  lemma NumbersWritten(str: string, pieces: seq<string>) returns (numbers: seq<nat>)
    requires NumberSetOf(str).Some? && WrittenSet(str, pieces)
    ensures AreNumbers(pieces, numbers)
  {
    WrittenSetIsRead(str, pieces);
    forall i | 0 <= i < |pieces|
      ensures ParsePositiveInt64(pieces[i]).Some?
    {
      assert TrimAll(pieces)[i] in Members(TrimAll(pieces));
      TrimmedNumber(pieces[i]);
    }
    numbers := seq(|pieces|, i requires 0 <= i < |pieces| => ParsePositiveInt64(pieces[i]).value);
  }

  lemma NumbersOfPieces(str: string, pieces: seq<string>, numbers: seq<nat>)
    requires WrittenSet(str, pieces) && AreNumbers(pieces, numbers)
    ensures NumberSetOf(str) == if Distinct(numbers) then Some(Members(numbers)) else None
  {
    WrittenSetIsRead(str, pieces);
    forall i | 0 <= i < |pieces|
      ensures ParsePositiveInt64(TrimAll(pieces)[i]) == Some(numbers[i])
    {
      TrimmedNumber(pieces[i]);
    }
    DistinctThrough(TrimAll(pieces), numbers, NumberOf);
  }

  method ParseSetPositiveInt64(str: string) returns (r: Option<set<nat>>)
    ensures r == NumberSetOf(str)
  {
    var texts := ParseSetString(str);
    if texts.None? {
      return None;
    }
    r := ParseNumbers(texts.value);
  }

  method ParseNumbers(texts: set<string>) returns (r: Option<set<nat>>)
    ensures r == if AllNumbers(texts) && Injective(texts, NumberOf) then Some(Numbers(texts)) else None
  {
    var numbers: set<nat> := {};
    var todo := texts;
    ghost var done: set<string> := {};
    while todo != {}
      invariant texts == done + todo
      invariant AllNumbers(done) && numbers == Numbers(done)
    {
      var s :| s in todo;
      if ParsePositiveInt64(s).None? {
        return None;
      }
      numbers := numbers + {NumberOf(s)};
      todo := todo - {s};
      done := done + {s};
    }
    assert done == texts;
    ImageCount(texts, NumberOf);
    return if |texts| == |numbers| then Some(numbers) else None;
  }

  // ---------- maps ----------

  /** A piece `key : value` of a map. */
  function KeyValue(piece: string): Option<(string, string)> {
    var parts := Split(piece, ":");
    if |parts| == 2 then Some((Trim(parts[0]), Trim(parts[1]))) else None
  }

  /** Exactly the pieces with one colon are entries. */
  lemma EntriesAreRead(piece: string, key: string, value: string)
    ensures KeyValue(piece) == Some((key, value)) <==>
      exists left, right :: IsEntryText(left, right, key, value) && piece == left + ":" + right
  {
    if KeyValue(piece) == Some((key, value)) {
      var parts := Split(piece, ":");
      assert parts == [parts[0], parts[1]];
      SplitInTwo(piece, ":", parts[0], parts[1]);
      OccursOnlyAsMember(parts[0], ':');
      OccursOnlyAsMember(parts[1], ':');
      assert IsEntryText(parts[0], parts[1], key, value);
    }
    forall left, right | IsEntryText(left, right, key, value) && piece == left + ":" + right
      ensures KeyValue(piece) == Some((key, value))
    {
      CleanWithout(left, ":");
      CleanWithout(right, ":");
      SplitInTwo(piece, ":", left, right);
    }
  }

  ghost predicate IsEntryText(left: string, right: string, key: string, value: string) {
    ':' !in left && ':' !in right && Trim(left) == key && Trim(right) == value
  }

  function KeyValues(pieces: seq<string>): seq<Option<(string, string)>> {
    seq(|pieces|, i requires 0 <= i < |pieces| => KeyValue(pieces[i]))
  }

  /** These are the entries, one for each piece, and no key twice. */
  ghost predicate EntriesOf(pieces: seq<Option<(string, string)>>, entries: seq<(string, string)>) {
    && |entries| == |pieces|
    && (forall i :: 0 <= i < |pieces| ==> pieces[i] == Some(entries[i]))
    && Distinct(Keys(entries))
  }

  function Keys(entries: seq<(string, string)>): seq<string> {
    seq(|entries|, i requires 0 <= i < |entries| => entries[i].0)
  }

  /** The text `map(key:value,...)` has these entries, in this order, no key twice. */
  ghost predicate IsMapOf(str: string, entries: seq<(string, string)>) {
    match Inside(str, "map(")
    case None => false
    case Some(inside) =>
      if Trim(inside) == [] then entries == [] else EntriesOf(KeyValues(Split(inside, ",")), entries)
  }

  function PrintMap(entries: seq<(string, string)>): string {
    if entries == [] then "map()" else "map(" + Join(EntryTexts(entries), ",") + ")"
  }

  function EntryTexts(entries: seq<(string, string)>): seq<string> {
    seq(|entries|, i requires 0 <= i < |entries| => entries[i].0 + ":" + entries[i].1)
  }

  /** Text that survives being written into a map. */
  predicate Plain(s: string) {
    Bare(s) && ',' !in s && ':' !in s
  }

  lemma EntryRoundTrip(key: string, value: string)
    requires Plain(key) && Plain(value)
    ensures var text := key + ":" + value;
      KeyValue(text) == Some((key, value)) && ',' !in text && !Space(text[0])
  {
    CleanWithout(key, ":");
    CleanWithout(value, ":");
    SplitUndoesJoin([key, value], ":");
    assert Join([key, value], ":") == key + ":" + value;
    BareIsKept(key);
    BareIsKept(value);
  }

  lemma PrintedMapInside(entries: seq<(string, string)>)
    ensures Inside(PrintMap(entries), "map(") == Some(if entries == [] then [] else Join(EntryTexts(entries), ","))
  {
    if entries != [] {
      var str := PrintMap(entries);
      assert str[..4] == "map(" && str[|str| - 1..] == ")";
      assert str[4..|str| - 1] == Join(EntryTexts(entries), ",");
    }
  }

  lemma PiecesOfMap(entries: seq<(string, string)>)
    requires entries != []
    requires forall i :: 0 <= i < |entries| ==> Plain(entries[i].0) && Plain(entries[i].1)
    ensures var inside := Join(EntryTexts(entries), ",");
      Split(inside, ",") == EntryTexts(entries) && inside != [] && !Space(inside[0])
  {
    var texts := EntryTexts(entries);
    forall i | 0 <= i < |texts|
      ensures Clean(texts[i], ",")
    {
      EntryRoundTrip(entries[i].0, entries[i].1);
      CleanWithout(texts[i], ",");
    }
    EntryRoundTrip(entries[0].0, entries[0].1);
    SplitUndoesJoin(texts, ",");
  }

  /** A printed map is read back: the same entries in the same order, refused exactly when a key is repeated. */
  lemma MapRoundTrip(entries: seq<(string, string)>)
    requires forall i :: 0 <= i < |entries| ==> Plain(entries[i].0) && Plain(entries[i].1)
    ensures forall others :: IsMapOf(PrintMap(entries), others) <==> others == entries && Distinct(Keys(entries))
  {
    PrintedMapInside(entries);
    if entries != [] {
      PiecesOfMap(entries);
      TrimKeepsVisible(Join(EntryTexts(entries), ","));
      forall i | 0 <= i < |entries|
        ensures KeyValues(EntryTexts(entries))[i] == Some(entries[i])
      {
        EntryRoundTrip(entries[i].0, entries[i].1);
      }
      OnlyTheseEntries(KeyValues(EntryTexts(entries)), entries);
    }
  }

  lemma OnlyTheseEntries(pieces: seq<Option<(string, string)>>, entries: seq<(string, string)>)
    requires |pieces| == |entries| && forall i :: 0 <= i < |pieces| ==> pieces[i] == Some(entries[i])
    ensures forall others :: EntriesOf(pieces, others) <==> others == entries && Distinct(Keys(entries))
  {
    forall others | EntriesOf(pieces, others)
      ensures others == entries
    {
      forall i | 0 <= i < |pieces|
        ensures others[i] == entries[i]
      {
        assert pieces[i] == Some(others[i]);
      }
    }
  }

  method ParseMapString(str: string) returns (r: Option<seq<(string, string)>>)
    ensures r.Some? ==> IsMapOf(str, r.value)
    ensures r.None? ==> forall entries :: !IsMapOf(str, entries)
  {
    if !StartsWith(str, "map(") || !EndsWith(str, ")") {
      return None;
    }
    assert str[3] == '(' && str[|str| - 1] == ')';
    var onlyInside := str[4..|str| - 1];
    if Trim(onlyInside) == [] {
      return Some([]);
    }
    var pieces := SplitString(onlyInside, ",");
    r := AddEntries(pieces);
  }

  /** The list reads the first pieces. */
  ghost predicate Reads(pieces: seq<Option<(string, string)>>, entries: seq<(string, string)>) {
    |entries| <= |pieces| && forall k :: 0 <= k < |entries| ==> pieces[k] == Some(entries[k])
  }

  lemma RepeatedKey(pieces: seq<Option<(string, string)>>, first: seq<(string, string)>)
    requires Reads(pieces, first) && !Distinct(Keys(first))
    ensures forall entries :: !EntriesOf(pieces, entries)
  {
    forall entries
      ensures !EntriesOf(pieces, entries)
    {
      if |entries| == |pieces| && forall k :: 0 <= k < |pieces| ==> pieces[k] == Some(entries[k]) {
        var i, j :| 0 <= i < j < |first| && Keys(first)[i] == Keys(first)[j];
        assert Keys(entries)[i] == Keys(entries)[j];
      }
    }
  }

  lemma NotAKeyValue(pieces: seq<Option<(string, string)>>, i: nat)
    requires i < |pieces| && pieces[i].None?
    ensures forall entries :: !EntriesOf(pieces, entries)
  {
  }

  method SplitKeyValue(piece: string) returns (entry: Option<(string, string)>)
    ensures entry == KeyValue(piece)
  {
    var parts := SplitString(piece, ":");
    return if |parts| == 2 then Some((Trim(parts[0]), Trim(parts[1]))) else None;
  }

  /** The first entries, with the set of their keys. */
  ghost predicate Gathered(
    pieces: seq<Option<(string, string)>>, i: nat, result: seq<(string, string)>, keys: set<string>)
  {
    |result| == i && Reads(pieces, result) && Distinct(Keys(result)) && keys == Members(Keys(result))
  }

  method AddEntries(texts: seq<string>) returns (r: Option<seq<(string, string)>>)
    ensures r.Some? ==> EntriesOf(KeyValues(texts), r.value)
    ensures r.None? ==> forall entries :: !EntriesOf(KeyValues(texts), entries)
  {
    ghost var pieces := KeyValues(texts);
    var result: seq<(string, string)> := [];
    var keys: set<string> := {};
    assert Keys(result) == [] && Members(Keys(result)) == {};
    for i := 0 to |texts|
      invariant Gathered(pieces, i, result, keys)
    {
      var entry := SplitKeyValue(texts[i]);
      assert pieces[i] == entry;
      if entry.None? {
        NotAKeyValue(pieces, i);
        return None;
      }
      result, keys := result + [entry.value], keys + {entry.value.0};
      OneMoreEntry(pieces, i, result, keys);
      if |result| != |keys| {
        return None;
      }
    }
    r := Some(result);
  }

  lemma OneMoreEntry(pieces: seq<Option<(string, string)>>, i: nat, result: seq<(string, string)>, keys: set<string>)
    requires i < |pieces| && |result| == i + 1 && pieces[i] == Some(result[i])
    requires Gathered(pieces, i, result[..i], keys - {result[i].0}) || Gathered(pieces, i, result[..i], keys)
    requires result[i].0 in keys
    ensures if |result| == |keys| then Gathered(pieces, i + 1, result, keys)
            else forall entries :: !EntriesOf(pieces, entries)
  {
    assert result == result[..i] + [result[i]];
    KeysGrow(result[..i], result[i]);
    assert Members(Keys(result)) == keys;
    assert Reads(pieces, result) by {
      forall k | 0 <= k < i
        ensures pieces[k] == Some(result[k])
      {
        assert pieces[k] == Some(result[..i][k]);
      }
    }
    if |result| != |keys| {
      RepeatedKey(pieces, result);
    }
  }

  lemma KeysGrow(entries: seq<(string, string)>, entry: (string, string))
    ensures Members(Keys(entries + [entry])) == Members(Keys(entries)) + {entry.0}
    ensures |Members(Keys(entries + [entry]))| == |entries| + 1 <==> Distinct(Keys(entries + [entry]))
  {
    assert Keys(entries + [entry]) == Keys(entries) + [entry.0];
    MembersCount(Keys(entries + [entry]));
  }
}
