/** What the `v5` generator reads back from a printed tree diagram. Its
    extractor validates nothing, so any name survives that has no glyph,
    no blank or control character, no line terminator and no trailing `/`. */
module DiagramV5 {
  import opened JavaText
  import opened Indent
  import opened Tree
  import opened Scan
  import opened GeneratorV5
  import opened Diagram

  /** A name the `v5` extractor returns unchanged from a printed line. */
  predicate IsV5Name(n: String) {
    && |n| > 0
    && (forall k :: 0 <= k < |n| ==> !IsGlyph(n[k]) && !IsTrimmable(n[k]) && !IsLineTerminator(n[k]))
    && n[|n| - 1] != '/'
  }

  lemma UnindentedChars(conn: char, n: String, slash: String)
    requires (conn == Tee || conn == Corner) && IsV5Name(n) && (slash == "" || slash == "/")
    ensures var t := Unindented(conn, n, slash);
            && |t| > 0 && t[0] == conn && AllDot(t)
  {
    var t := Unindented(conn, n, slash);
    assert t == [conn, Horizontal, Horizontal, ' '] + n + slash;
    assert forall k :: 4 <= k < 4 + |n| ==> t[k] == n[k - 4];
    assert forall k :: 4 + |n| <= k < |t| ==> t[k] == '/';
  }

  /** A printed line is neither blank nor a fence, and `v5` takes it for a
      structure line. */
  lemma PrintedLineStructure(depth: nat, conn: char, n: String, slash: String)
    requires (conn == Tee || conn == Corner) && IsV5Name(n) && (slash == "" || slash == "/")
    ensures var line := TreeLine(Prefix(depth), conn, n, slash);
            !IsBlank(line) && !IsFence(line) && IsStructureLineV5(line)
  {
    var line := TreeLine(Prefix(depth), conn, n, slash);
    PrintedLineNotFence(depth, conn, n, slash);
    PrintedLineTrim(depth, conn, n, slash);
    var t := Unindented(conn, n, slash);
    UnindentedChars(conn, n, slash);
    NotPrefixAt(t, "#", 0);
    NotPrefixAt(t, "//", 0);
    NotPrefixAt(t, "*", 0);
    NotPrefixAt(t, "-", 0);
    assert IsGlyph(t[0]);
  }

  /** A printed name and its slash, with the slash dropped. */
  lemma DropSlashOfName(n: String, slash: String)
    requires IsV5Name(n) && (slash == "" || slash == "/")
    ensures DropOneSlash(n + slash) == n
  {
    if slash == "" {
      assert n + slash == n;
      assert (n + slash)[|n + slash| - 1..] == [n[|n| - 1]];
    } else {
      assert (n + slash)[..|n + slash| - 1] == n;
      assert (n + slash)[|n + slash| - 1..] == "/";
    }
  }

  /** The `v5` extractor returns the printed name. */
  lemma PrintedLineName(p: String, conn: char, n: String, slash: String)
    requires forall k :: 0 <= k < |p| ==> p[k] == ' '
    requires (conn == Tee || conn == Corner) && IsV5Name(n) && (slash == "" || slash == "/")
    ensures ExtractV5(TreeLine(p, conn, n, slash)) == Some(n)
  {
    var line := TreeLine(p, conn, n, slash);
    StripTreeLine(p, conn, n, slash);
    StripNone(n);
    assert Strip(line) == n + slash;
    assert (n + slash)[0] == n[0];
    assert (n + slash)[|n + slash| - 1] == if slash == "" then n[|n| - 1] else '/';
    TrimOfTrimmed(n + slash);
    DropSlashOfName(n, slash);
  }

  /** A line at depth `depth` is at level `2 * depth + 4`. */
  lemma PrintedLineLevel(depth: nat, conn: char, n: String, slash: String)
    requires (conn == Tee || conn == Corner) && IsV5Name(n)
    ensures IndentLevel(TreeLine(Prefix(depth), conn, n, slash)) == 2 * depth + 4
  {
    SpacedLineWeight(1 + 4 * depth, conn, n, slash);
    Half(2 * depth + 4);
  }

  /** What the `v5` dialect's three functions are. */
  lemma DialectV5Fields(line: String)
    ensures DialectV5.isStructureLine(line) == IsStructureLineV5(line)
    ensures DialectV5.extractName(line) == ExtractV5(line)
    ensures DialectV5.indentLevel(line) == IndentLevel(line)
  {
  }

  /** One printed line, read inside the block, is accepted with its name and
      its level. */
  lemma PrintedLineEntry(depth: nat, conn: char, n: String, slash: String)
    requires (conn == Tee || conn == Corner) && IsV5Name(n) && (slash == "" || slash == "/")
    ensures var line := TreeLine(Prefix(depth), conn, n, slash);
            !IsFence(line) && LineEntry(DialectV5, line, true) == [Entry(n, 2 * depth + 4)]
  {
    var line := TreeLine(Prefix(depth), conn, n, slash);
    PrintedLineStructure(depth, conn, n, slash);
    PrintedLineName(Prefix(depth), conn, n, slash);
    PrintedLineLevel(depth, conn, n, slash);
    DialectV5Fields(line);
    AcceptedLine(DialectV5, line, n, 2 * depth + 4);
  }

  lemma DialectV5ReadsPrinted()
    ensures ReadsPrinted(ReadInside(DialectV5), IsFence, PrintLine, IsV5Name, 4, 2)
  {
    forall depth: nat, last: bool, n: Node | IsV5Name(n.name)
      ensures !IsFence(PrintLine(depth, last, n))
      ensures ReadInside(DialectV5)(PrintLine(depth, last, n)) == [Entry(n.name, 2 * depth + 4)]
    {
      PrintedLineEntry(depth, if last then Corner else Tee, n.name, Slash(n));
    }
  }

  /** Printing a forest as a diagram and parsing the document with the
      `v5` generator gives the forest back. */
  lemma DiagramRoundTripV5(f: seq<Node>)
    requires WellFormed(f) && AllNamed(IsV5Name, f)
    ensures Parse(DialectV5, Document(f)) == f
  {
    DialectV5ReadsPrinted();
    RoundTripBy(DialectV5, IsV5Name, 4, 2, f);
  }
}
