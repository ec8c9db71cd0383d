/** What the `_22` generator reads back from a printed tree diagram: every
    printed line of a valid name, so the whole forest. (An unindented
    `├── dir/` line would be read as a root folder and dropped, which is why
    the printer indents.) */
module Diagram22 {
  import opened JavaText
  import opened Indent
  import opened Tree
  import opened Scan
  import opened Generator22
  import opened Diagram

  /** Every name in the forest passes `validateAndCleanName`. */
  predicate AllValid(ns: seq<Node>) {
    AllNamed(IsValidName, ns)
  }

  /** What the `_22` dialect's three functions are. */
  lemma Dialect22Fields(line: String)
    ensures Dialect22.isStructureLine(line) == IsStructureLine(line)
    ensures Dialect22.extractName(line) == ExtractItemName(line)
    ensures Dialect22.indentLevel(line) == IndentLevel(line)
  {
  }

  /** One printed line, read inside the block, is accepted with its name and
      its level. */
  lemma PrintedLineEntry(depth: nat, conn: char, n: String, slash: String)
    requires Printable(Prefix(depth), conn, n, slash)
    ensures var line := TreeLine(Prefix(depth), conn, n, slash);
            !IsFence(line) && LineEntry(Dialect22, line, true) == [Entry(n, 2 * depth + 4)]
  {
    var line := TreeLine(Prefix(depth), conn, n, slash);
    ExtractTreeLine(Prefix(depth), conn, n, slash);
    ValidNameChars(n);
    PrintedLineNotFence(depth, conn, n, slash);
    PrintedLineLevel(depth, conn, n, slash);
    Dialect22Fields(line);
    AcceptedLine(Dialect22, line, n, 2 * depth + 4);
  }

  /** A line at depth `depth` is at level `2 * depth + 4`. */
  lemma PrintedLineLevel(depth: nat, conn: char, n: String, slash: String)
    requires IsConnector(conn) && IsValidName(n)
    ensures IndentLevel(TreeLine(Prefix(depth), conn, n, slash)) == 2 * depth + 4
  {
    SpacedLineWeight(1 + 4 * depth, conn, n, slash);
    Half(2 * depth + 4);
  }

  lemma PrefixPrintable(depth: nat, conn: char, n: String, slash: String)
    requires IsConnector(conn) && IsValidName(n) && (slash == "" || slash == "/")
    ensures Printable(Prefix(depth), conn, n, slash)
  {
    var p := Prefix(depth);
    assert p[0] == ' ';
    assert forall k :: 0 <= k < |p| ==> IsPrefixChar(p[k]);
  }

  lemma Dialect22ReadsPrinted()
    ensures ReadsPrinted(ReadInside(Dialect22), IsFence, PrintLine, IsValidName, 4, 2)
  {
    forall depth: nat, last: bool, n: Node | IsValidName(n.name)
      ensures !IsFence(PrintLine(depth, last, n))
      ensures ReadInside(Dialect22)(PrintLine(depth, last, n)) == [Entry(n.name, 2 * depth + 4)]
    {
      var conn := if last then Corner else Tee;
      PrefixPrintable(depth, conn, n.name, Slash(n));
      PrintedLineEntry(depth, conn, n.name, Slash(n));
    }
  }

  /** The `_22` generator parses a printed document as the rendering of the
      forest, four levels in and two per generation. */
  lemma ParsePrinted(f: seq<Node>)
    requires AllValid(f)
    ensures Parse(Dialect22, Document(f)) == Build(Render(f, 4, 2))
  {
    Dialect22ReadsPrinted();
    ParsePrintedBy(Dialect22, IsValidName, 4, 2, f);
  }

  /** Printing a forest as a diagram and parsing the document with the
      `_22` generator gives the forest back. */
  lemma DiagramRoundTrip(f: seq<Node>)
    requires WellFormed(f) && AllValid(f)
    ensures Parse(Dialect22, Document(f)) == f
  {
    ParsePrinted(f);
    BuildRender(f, 4, 2);
  }
}
