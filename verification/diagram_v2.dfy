/** What the `v2` generator reads back from a printed tree diagram. The
    printer writes only spaces before a connector, never a vertical bar, so
    every line reaches the `v2` patterns; the level of a line is its count
    of leading spaces, four per generation from one. */
module DiagramV2 {
  import opened JavaText
  import opened Indent
  import opened Tree
  import opened Scan
  import opened GeneratorV2
  import opened Diagram

  /** A name the `v2` folder patterns return unchanged from a printed line:
      significant first and last characters, no line terminator, and no
      trailing `/`. Inner blanks are allowed. */
  predicate IsV2Name(n: String) {
    && |n| > 0
    && AllDot(n)
    && !IsTrimmable(n[0])
    && !IsTrimmable(n[|n| - 1])
    && n[|n| - 1] != '/'
  }

  /** What the `v2` dialect's three functions are. */
  lemma DialectV2Fields(line: String)
    ensures DialectV2.isStructureLine(line) == IsStructureLineV2(line)
    ensures DialectV2.extractName(line) == ExtractV2(line)
    ensures DialectV2.indentLevel(line) == IndentV2(line)
  {
  }

  /** The connector of a printed line sits after its indentation, and one
      blank, the name and the slash follow it. */
  lemma PrintedLineConnector(depth: nat, conn: char, n: String, slash: String)
    requires conn == Tee || conn == Corner
    ensures var line := TreeLine(Prefix(depth), conn, n, slash);
            && RunLen(line, IsRegexSpace) == 1 + 4 * depth
            && IndentV2(line) == 1 + 4 * depth
            && HasConnector(line, conn)
            && AfterConnector(line) == " " + n + slash + ""
  {
    var p := Prefix(depth);
    var line := TreeLine(p, conn, n, slash);
    assert forall k :: 0 <= k < |p| ==> line[k] == ' ';
    assert line[|p|] == conn;
    RunLenExact(line, IsRegexSpace, |p|);
    RunLenExact(line, IsSpaceChar, |p|);
    assert line[|p|..|p| + 3] == [conn, Horizontal, Horizontal];
    assert line[|p| + 3..] == " " + n + slash + "";
  }

  /** The `v2` extractor returns the printed name, whichever connector the
      line carries. */
  lemma PrintedLineName(depth: nat, conn: char, n: String, slash: String)
    requires (conn == Tee || conn == Corner) && IsV2Name(n) && (slash == "" || slash == "/")
    ensures var line := TreeLine(Prefix(depth), conn, n, slash);
            FolderGroup(line, conn) == Some(n) && ExtractV2(line) == Some(n)
  {
    var line := TreeLine(Prefix(depth), conn, n, slash);
    PrintedLineConnector(depth, conn, n, slash);
    FolderGroupOfName(line, conn, " ", n, slash, "");
    if conn == Corner {
      var w := RunLen(line, IsRegexSpace);
      assert line[w..w + 3][0] == Corner;
    }
  }

  /** One printed line, read inside the block, is accepted with its name and
      its count of leading spaces. */
  lemma PrintedLineEntry(depth: nat, conn: char, n: String, slash: String)
    requires (conn == Tee || conn == Corner) && IsV2Name(n) && (slash == "" || slash == "/")
    ensures var line := TreeLine(Prefix(depth), conn, n, slash);
            !IsFence(line) && LineEntry(DialectV2, line, true) == [Entry(n, 1 + 4 * depth)]
  {
    var line := TreeLine(Prefix(depth), conn, n, slash);
    PrintedLineNotFence(depth, conn, n, slash);
    PrintedLineConnector(depth, conn, n, slash);
    PrintedLineName(depth, conn, n, slash);
    DialectV2Fields(line);
    AcceptedLine(DialectV2, line, n, 1 + 4 * depth);
  }

  lemma DialectV2ReadsPrinted()
    ensures ReadsPrinted(ReadInside(DialectV2), IsFence, PrintLine, IsV2Name, 1, 4)
  {
    forall depth: nat, last: bool, n: Node | IsV2Name(n.name)
      ensures !IsFence(PrintLine(depth, last, n))
      ensures ReadInside(DialectV2)(PrintLine(depth, last, n)) == [Entry(n.name, 1 + 4 * depth)]
    {
      PrintedLineEntry(depth, if last then Corner else Tee, n.name, Slash(n));
    }
  }

  /** Printing a forest as a diagram and parsing the document with the
      `v2` generator gives the forest back. */
  lemma DiagramRoundTripV2(f: seq<Node>)
    requires WellFormed(f) && AllNamed(IsV2Name, f)
    ensures Parse(DialectV2, Document(f)) == f
  {
    DialectV2ReadsPrinted();
    RoundTripBy(DialectV2, IsV2Name, 1, 4, f);
  }
}
