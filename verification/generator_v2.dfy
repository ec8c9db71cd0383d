/** The line-level functions of the `v2` generator. A line is a structure
    line when one of four whole-string patterns matches it:

      FOLDER       ^(\s*)├──\s*(.+?)/?\s*$
      LAST_FOLDER  ^(\s*)└──\s*(.+?)/?\s*$
      FILE         ^(\s*)├──\s*(.+?\.[a-zA-Z0-9]+)\s*$
      LAST_FILE    ^(\s*)└──\s*(.+?\.[a-zA-Z0-9]+)\s*$

    and its name is group 2 of the first that matches. The nesting level is
    the number of leading spaces. The folder patterns are modelled by the
    order in which a backtracking matcher tries their splits; the file
    patterns by the existence of a split, which is all a whole-string test
    observes. */
module GeneratorV2 {
  import opened JavaText
  import opened Indent
  import opened Tree
  import opened Scan

  // ---------------------------------------------------------------------
  // Nesting level

  predicate IsSpaceChar(c: char) {
    c == ' '
  }

  /** `getIndentLevel` of `v2`: the leading spaces, counted one each; a tab
      or any other character ends the count. */
  function IndentV2(line: String): (r: nat)
    ensures r <= |line| && forall k :: 0 <= k < r ==> line[k] == ' '
    ensures r < |line| ==> line[r] != ' '
  {
    RunLen(line, IsSpaceChar)
  }

  // ---------------------------------------------------------------------
  // The connector

  /** `^(\s*)` then the connector `conn` and two horizontal bars. A
      connector is not `\s`, so group 1 is the whole leading `\s` run. */
  predicate HasConnector(line: String, conn: char) {
    var w := RunLen(line, IsRegexSpace);
    w + 3 <= |line| && line[w..w + 3] == [conn, Horizontal, Horizontal]
  }

  /** What follows the connector and its bars. */
  function AfterConnector(line: String): String {
    var w := RunLen(line, IsRegexSpace);
    if w + 3 <= |line| then line[w + 3..] else []
  }

  // ---------------------------------------------------------------------
  // FOLDER and LAST_FOLDER

  predicate AllSpace(s: String) {
    forall k :: 0 <= k < |s| ==> IsRegexSpace(s[k])
  }

  /** `/?\s*$`: what may follow group 2. */
  predicate TailOK(t: String) {
    AllSpace(t) || (|t| > 0 && t[0] == '/' && AllSpace(t[1..]))
  }

  /** After the connector, `\s*` takes `rest[..a]` and group 2 `.+?` takes
      `rest[a..a + g]`; the rest is the tail. */
  predicate Split(rest: String, a: nat, g: nat) {
    && a <= RunLen(rest, IsRegexSpace)
    && 1 <= g && a + g <= |rest|
    && AllDot(rest[a..a + g])
    && TailOK(rest[a + g..])
  }

  /** The position and length of a group. */
  datatype Group = Group(start: nat, len: nat)

  /** The lazy `.+?`: with `\s*` fixed at `a`, group lengths from `g`
      upwards, the first that lets the tail match. */
  function LazyLen(rest: String, a: nat, g: nat): (r: Option<nat>)
    requires 1 <= g
    ensures r.Some? ==> g <= r.value && Split(rest, a, r.value)
    ensures r.Some? ==> forall h :: g <= h < r.value ==> !Split(rest, a, h)
    ensures r.None? ==> forall h :: g <= h ==> !Split(rest, a, h)
    decreases |rest| + 1 - g
  {
    if a + g > |rest| then None
    else if Split(rest, a, g) then Some(g)
    else LazyLen(rest, a, g + 1)
  }

  /** The greedy `\s*` before group 2: from the whole run at `a` downwards,
      the first position from which the lazy group finds a split. */
  function GreedyFrom(rest: String, a: nat): (r: Option<Group>)
    ensures r.Some? ==> r.value.start <= a && Split(rest, r.value.start, r.value.len)
    ensures r.Some? ==> forall h :: 1 <= h < r.value.len ==> !Split(rest, r.value.start, h)
    ensures r.Some? ==> forall b: nat, h: nat :: r.value.start < b <= a ==> !Split(rest, b, h)
    ensures r.None? ==> forall b: nat, h: nat :: b <= a ==> !Split(rest, b, h)
    decreases a
  {
    match LazyLen(rest, a, 1)
    case Some(g) => Some(Group(a, g))
    case None => if a == 0 then None else GreedyFrom(rest, a - 1)
  }

  /** The folder pattern with connector `conn` matches the whole line. */
  predicate FolderMatches(line: String, conn: char) {
    var rest := AfterConnector(line);
    HasConnector(line, conn) && exists a: nat, g: nat :: a <= |rest| && g <= |rest| && Split(rest, a, g)
  }

  /** Group 2 of the folder pattern with connector `conn`, as the matcher
      finds it, or `None` when the pattern does not match. */
  function FolderGroup(line: String, conn: char): (r: Option<String>)
    ensures r.Some? <==> FolderMatches(line, conn)
    ensures r.Some? ==> |r.value| > 0 && AllDot(r.value)
  {
    if !HasConnector(line, conn) then None
    else
      var rest := AfterConnector(line);
      match GreedyFrom(rest, RunLen(rest, IsRegexSpace))
      case Some(m) => Some(rest[m.start..m.start + m.len])
      case None => None
  }

  // ---------------------------------------------------------------------
  // FILE and LAST_FILE

  /** After the connector, `\s*` takes `rest[..a]`, group 2 takes
      `rest[a..a + g]`: `.+?` takes its first `x` characters, then a `.`
      and one or more letters and digits; the rest is `\s*`. */
  predicate FileSplit(rest: String, a: nat, x: nat, g: nat) {
    && a <= RunLen(rest, IsRegexSpace)
    && 1 <= x && x + 2 <= g && a + g <= |rest|
    && AllDot(rest[a..a + x])
    && rest[a + x] == '.'
    && (forall k :: a + x < k < a + g ==> IsAsciiAlnum(rest[k]))
    && AllSpace(rest[a + g..])
  }

  /** The file pattern with connector `conn` matches the whole line. */
  predicate FileMatches(line: String, conn: char) {
    var rest := AfterConnector(line);
    HasConnector(line, conn)
    && exists a: nat, x: nat, g: nat :: a <= |rest| && x <= |rest| && g <= |rest| && FileSplit(rest, a, x, g)
  }

  // ---------------------------------------------------------------------
  // The three line functions

  /** `isStructureLine` of `v2`: any of the four patterns matches. */
  predicate IsStructureLineV2(line: String) {
    || FolderMatches(line, Tee)
    || FolderMatches(line, Corner)
    || FileMatches(line, Tee)
    || FileMatches(line, Corner)
  }

  /** `extractItemName` of `v2`: group 2 of FOLDER, else of LAST_FOLDER.
      The FILE and LAST_FILE branches that follow are never reached
      (`FileImpliesFolder`), so they are not spelled out. */
  function ExtractV2(line: String): (r: Option<String>)
    ensures r.Some? ==> |r.value| > 0
  {
    match FolderGroup(line, Tee)
    case Some(n) => Some(n)
    case None => FolderGroup(line, Corner)
  }

  /** The `v2` generator as an instance of the shared scanner. */
  const DialectV2 := Dialect(IsStructureLineV2, IndentV2, ExtractV2)

  // ---------------------------------------------------------------------
  // Lemmas

  /** Group 1 is forced: a connector after leading `\s` can only sit right
      after the whole run. */
  lemma ConnectorPosition(line: String, conn: char, j: nat)
    requires j + 3 <= |line| && forall k :: 0 <= k < j ==> IsRegexSpace(line[k])
    requires line[j..j + 3] == [conn, Horizontal, Horizontal] && !IsRegexSpace(conn)
    ensures HasConnector(line, conn)
  {
    assert line[j] == line[j..j + 3][0];
    RunLenExact(line, IsRegexSpace, j);
  }

  /** Every split the file pattern finds is one the folder pattern finds
      too, with no slash in the tail. */
  lemma FileSplitIsSplit(rest: String, a: nat, x: nat, g: nat)
    requires FileSplit(rest, a, x, g)
    ensures Split(rest, a, g)
  {
    var grp := rest[a..a + g];
    forall k | 0 <= k < |grp| ensures !IsLineTerminator(grp[k]) {
      if k < x {
        assert grp[k] == rest[a..a + x][k];
      } else {
        assert grp[k] == rest[a + k];
      }
    }
  }

  /** Whenever a file pattern matches, the folder pattern with the same
      connector matches as well: the last two branches of `extractItemName`
      are dead code, and the file patterns add nothing to
      `isStructureLine`. */
  lemma FileImpliesFolder(line: String, conn: char)
    ensures FileMatches(line, conn) ==> FolderMatches(line, conn)
  {
    if FileMatches(line, conn) {
      var rest := AfterConnector(line);
      var a: nat, x: nat, g: nat :| a <= |rest| && x <= |rest| && g <= |rest| && FileSplit(rest, a, x, g);
      FileSplitIsSplit(rest, a, x, g);
    }
  }

  /** A line is a structure line exactly when a name is extracted from it. */
  lemma StructureLineIffName(line: String)
    ensures IsStructureLineV2(line) <==> ExtractV2(line).Some?
  {
    FileImpliesFolder(line, Tee);
    FileImpliesFolder(line, Corner);
  }

  /** `LazyLen` is pinned down by the shortest split. */
  lemma LazyLenExact(rest: String, a: nat, g: nat)
    requires 1 <= g && Split(rest, a, g)
    requires forall h :: 1 <= h < g ==> !Split(rest, a, h)
    ensures LazyLen(rest, a, 1) == Some(g)
  {
  }

  /** Where the name starts, whatever comes after the connector. */
  lemma SplitsOfName(rest: String, s: String, n: String, slash: String, t: String, h: nat)
    requires rest == s + n + slash + t
    requires AllSpace(s) && AllSpace(t) && (slash == "" || slash == "/")
    requires |n| > 0 && !IsRegexSpace(n[0]) && !IsRegexSpace(n[|n| - 1])
    requires slash == "/" || |n| == 1 || n[|n| - 1] != '/'
    requires 1 <= h < |n|
    ensures !Split(rest, |s|, h)
  {
    var tail := rest[|s| + h..];
    var m := |n| - 1 - h;
    assert tail == n[h..] + slash + t;
    assert tail[m] == n[|n| - 1];
    if m >= 1 {
      assert tail[1..][m - 1] == tail[m];
    } else if slash == "/" {
      assert tail[1..][0] == '/';
    }
  }

  /** The matcher's split of a name after blanks: the blanks go to `\s*`
      and the name to group 2. */
  lemma GreedyOfName(rest: String, s: String, n: String, slash: String, t: String)
    requires rest == s + n + slash + t
    requires AllSpace(s) && AllSpace(t) && (slash == "" || slash == "/")
    requires |n| > 0 && AllDot(n) && !IsRegexSpace(n[0]) && !IsRegexSpace(n[|n| - 1])
    requires slash == "/" || |n| == 1 || n[|n| - 1] != '/'
    ensures RunLen(rest, IsRegexSpace) == |s|
    ensures GreedyFrom(rest, |s|) == Some(Group(|s|, |n|))
  {
    NameIsSplit(rest, s, n, slash, t);
    forall h | 1 <= h < |n| ensures !Split(rest, |s|, h) {
      SplitsOfName(rest, s, n, slash, t, h);
    }
    LazyLenExact(rest, |s|, |n|);
  }

  lemma NameIsSplit(rest: String, s: String, n: String, slash: String, t: String)
    requires rest == s + n + slash + t
    requires AllSpace(s) && AllSpace(t) && (slash == "" || slash == "/")
    requires |n| > 0 && AllDot(n) && !IsRegexSpace(n[0])
    ensures RunLen(rest, IsRegexSpace) == |s|
    ensures Split(rest, |s|, |n|)
  {
    assert rest[|s|] == n[0];
    assert forall k :: 0 <= k < |s| ==> rest[k] == s[k];
    RunLenExact(rest, IsRegexSpace, |s|);
    assert rest[|s|..|s| + |n|] == n;
    assert rest[|s| + |n|..] == slash + t;
    if slash == "/" {
      assert (slash + t)[1..] == t;
    } else {
      assert slash + t == t;
    }
  }

  /** The closed form of the folder group: after the connector and any
      blanks, a name starting and ending with significant characters,
      free of line terminators, then an optional slash and blanks, gives
      back the name. A trailing slash is taken off at most once, and a
      lone slash is kept. */
  lemma FolderGroupOfName(line: String, conn: char, s: String, n: String, slash: String, t: String)
    requires HasConnector(line, conn) && AfterConnector(line) == s + n + slash + t
    requires AllSpace(s) && AllSpace(t) && (slash == "" || slash == "/")
    requires |n| > 0 && AllDot(n) && !IsRegexSpace(n[0]) && !IsRegexSpace(n[|n| - 1])
    requires slash == "/" || |n| == 1 || n[|n| - 1] != '/'
    ensures FolderGroup(line, conn) == Some(n)
  {
    var rest := AfterConnector(line);
    GreedyOfName(rest, s, n, slash, t);
    assert rest[|s|..|s| + |n|] == n;
  }

  /** A connector followed only by blanks names a blank: the matcher backs
      off the greedy `\s*` and group 2 takes the last non-terminator. */
  lemma BlankAfterConnector(line: String, conn: char)
    requires HasConnector(line, conn)
    requires var rest := AfterConnector(line);
             |rest| > 0 && AllSpace(rest) && !IsLineTerminator(rest[|rest| - 1])
    ensures FolderGroup(line, conn) == Some([AfterConnector(line)[|AfterConnector(line)| - 1]])
  {
    var rest := AfterConnector(line);
    var a := |rest| - 1;
    RunLenExact(rest, IsRegexSpace, |rest|);
    assert LazyLen(rest, |rest|, 1) == None;
    assert rest[a..a + 1] == [rest[a]];
    assert Split(rest, a, 1);
    assert LazyLen(rest, a, 1) == Some(1);
    assert GreedyFrom(rest, |rest|) == Some(Group(a, 1));
  }

  /** A line whose first significant character is a vertical bar matches
      none of the four patterns: `v2` ignores nested diagram lines that
      carry a bar. */
  lemma BarLineIgnored(line: String)
    requires var w := RunLen(line, IsRegexSpace); w < |line| && line[w] == Vertical
    ensures !IsStructureLineV2(line)
  {
    var w := RunLen(line, IsRegexSpace);
    if w + 3 <= |line| {
      assert line[w..w + 3][0] == Vertical;
    }
  }
}
