/** Tree diagrams as a printer writes them, and the argument that a
    generator whose line functions read every printed line back parses a
    printed document into the forest it came from. The printer indents every
    line by one space plus four per generation, ends directory names with
    `/`, and uses `└──` for the last child. */
module Diagram {
  import opened JavaText
  import opened Indent
  import opened Tree
  import opened Scan

  /** A line as a tree printer writes it: a prefix of blanks and vertical
      bars, a connector, a space, the name, and `/` for a directory. */
  function TreeLine(p: String, conn: char, n: String, slash: String): String {
    p + [conn, Horizontal, Horizontal, ' '] + n + slash
  }

  function Spaces(n: nat): (r: String)
    ensures |r| == n && forall k :: 0 <= k < n ==> r[k] == ' '
  {
    seq(n, _ => ' ')
  }

  /** The indentation of a line at depth `depth` below the diagram's top. */
  function Prefix(depth: nat): String {
    Spaces(1 + 4 * depth)
  }

  function Slash(n: Node): String {
    if n.isFile then "" else "/"
  }

  /** The line printed for node `n` at depth `depth`; `last` marks the last
      of its siblings. */
  function PrintLine(depth: nat, last: bool, n: Node): String {
    TreeLine(Prefix(depth), if last then Corner else Tee, n.name, Slash(n))
  }

  /** The lines printed for `ns` by line printer `pr`, parents before their
      children, the first of them at depth `depth`. */
  function LinesBy(pr: (nat, bool, Node) -> String, ns: seq<Node>, depth: nat): seq<String>
    decreases ns
  {
    if |ns| == 0 then []
    else [pr(depth, |ns| == 1, ns[0])] + LinesBy(pr, ns[0].children, depth + 1) + LinesBy(pr, ns[1..], depth)
  }

  /** The diagram lines for `ns`. */
  function Lines(ns: seq<Node>, depth: nat): seq<String> {
    LinesBy(PrintLine, ns, depth)
  }

  /** A markdown document holding the diagram of `f` in one fenced block. */
  function Document(f: seq<Node>): seq<String> {
    ["```"] + Lines(f, 0) + ["```"]
  }

  /** Every name in the forest satisfies `valid`. */
  predicate AllNamed(valid: String -> bool, ns: seq<Node>)
    decreases ns
  {
    |ns| == 0 || (valid(ns[0].name) && AllNamed(valid, ns[0].children) && AllNamed(valid, ns[1..]))
  }

  lemma {:induction false} SpacesWeight(n: nat)
    ensures RunWeight(Spaces(n)) == n
  {
    if n > 0 {
      SpacesWeight(n - 1);
      assert Spaces(n)[1..] == Spaces(n - 1);
    }
  }

  /** The run of a line indented by `k` spaces before its connector weighs
      `k + 7`: the connector, its two bars and the space after it weigh
      seven. */
  lemma SpacedLineWeight(k: nat, conn: char, n: String, slash: String)
    requires (conn == Tee || conn == Corner) && |n| > 0 && !IsIndentChar(n[0])
    ensures RunWeight(TreeLine(Spaces(k), conn, n, slash)) == k + 7
  {
    var head := [conn, Horizontal, Horizontal, ' '];
    var s := Spaces(k) + head;
    assert forall i :: 0 <= i < |s| ==> IsIndentChar(s[i]);
    assert !IsIndentChar(n[0]);
    assert TreeLine(Spaces(k), conn, n, slash) == s + [n[0]] + (n[1..] + slash);
    RunWeightAppend(s, [n[0]] + (n[1..] + slash));
    assert s + [n[0]] + (n[1..] + slash) == s + ([n[0]] + (n[1..] + slash));
    RunWeightAppend(Spaces(k), head);
    SpacesWeight(k);
    assert head[1..] == [Horizontal, Horizontal, ' '];
    assert head[2..] == [Horizontal, ' '];
    assert head[3..] == [' '] && head[3..][1..] == [];
    assert RunWeight(head[3..]) == 1;
    assert RunWeight(head[2..]) == 3;
    assert RunWeight(head[1..]) == 5;
    assert RunWeight(head) == 7;
  }

  lemma Half(m: nat)
    ensures (2 * m) / 2 == m
  {
  }

  /** The printed line without its indentation. */
  function Unindented(conn: char, n: String, slash: String): String {
    TreeLine([], conn, n, slash)
  }

  /** Trimming blanks off the front of a string with significant ends
      gives the string back. */
  lemma TrimIndented(p: String, t: String)
    requires forall k :: 0 <= k < |p| ==> p[k] == ' '
    requires |t| > 0 && !IsTrimmable(t[0]) && !IsTrimmable(t[|t| - 1])
    ensures Trim(p + t) == t
  {
    var line := p + t;
    assert forall k :: 0 <= k < |p| ==> line[k] == p[k];
    assert line[|p|] == t[0];
    assert line[|line| - 1] == t[|t| - 1];
    TrimUnique(line, |p|, |line|);
    assert line[|p|..] == t;
  }

  /** Trimming a printed line removes exactly its indentation, when the
      connector and the line's last character are significant. */
  lemma PrintedLineTrim(depth: nat, conn: char, n: String, slash: String)
    requires !IsTrimmable(conn) && |n| > 0 && !IsTrimmable(n[|n| - 1]) && (slash == "" || slash == "/")
    ensures Trim(TreeLine(Prefix(depth), conn, n, slash)) == Unindented(conn, n, slash)
  {
    var t := Unindented(conn, n, slash);
    assert TreeLine(Prefix(depth), conn, n, slash) == Prefix(depth) + t;
    assert t[0] == conn;
    assert t[|t| - 1] == if slash == "" then n[|n| - 1] else '/';
    TrimIndented(Prefix(depth), t);
  }

  /** Such a printed line is neither blank nor a fence. */
  lemma PrintedLineNotFence(depth: nat, conn: char, n: String, slash: String)
    requires !IsTrimmable(conn) && conn != '`' && |n| > 0 && !IsTrimmable(n[|n| - 1])
    requires slash == "" || slash == "/"
    ensures var line := TreeLine(Prefix(depth), conn, n, slash);
            !IsBlank(line) && !IsFence(line)
  {
    PrintedLineTrim(depth, conn, n, slash);
    NotPrefixAt(Unindented(conn, n, slash), "```", 0);
  }

  lemma NoFenceAppend(x: seq<String>, y: seq<String>)
    requires NoFence(x) && NoFence(y)
    ensures NoFence(x + y)
  {
    forall k | 0 <= k < |x + y| ensures !IsFence((x + y)[k]) {
      if k < |x| {
        assert (x + y)[k] == x[k];
      } else {
        assert (x + y)[k] == y[k - |x|];
      }
    }
  }

  lemma InsideOne(d: Dialect, l: String)
    ensures Inside(d, [l]) == LineEntry(d, l, true)
  {
    assert [l][..0] == [];
  }

  // ---------------------------------------------------------------------
  // Reading printed lines, for any printer and reader

  /** Entries read from `lines`, one line at a time. */
  function ReadAll(read: String -> seq<Entry>, lines: seq<String>): seq<Entry>
    decreases lines
  {
    if |lines| == 0 then [] else read(lines[0]) + ReadAll(read, lines[1..])
  }

  /** No line satisfies `fence`. */
  predicate NoneBy(fence: String -> bool, lines: seq<String>)
    decreases lines
  {
    |lines| == 0 || (!fence(lines[0]) && NoneBy(fence, lines[1..]))
  }

  lemma {:induction false} ReadAllAppend(read: String -> seq<Entry>, x: seq<String>, y: seq<String>)
    ensures ReadAll(read, x + y) == ReadAll(read, x) + ReadAll(read, y)
    decreases x
  {
    if |x| > 0 {
      assert (x + y)[0] == x[0] && (x + y)[1..] == x[1..] + y;
      ReadAllAppend(read, x[1..], y);
    } else {
      assert x + y == y;
    }
  }

  lemma {:induction false} NoneByAppend(fence: String -> bool, x: seq<String>, y: seq<String>)
    requires NoneBy(fence, x) && NoneBy(fence, y)
    ensures NoneBy(fence, x + y)
    decreases x
  {
    if |x| > 0 {
      assert (x + y)[0] == x[0] && (x + y)[1..] == x[1..] + y;
      NoneByAppend(fence, x[1..], y);
    } else {
      assert x + y == y;
    }
  }

  /** `read` reads every line `pr` prints for a node whose name is valid as
      that name at level `base + step * depth`, and `fence` holds for none
      of those lines. */
  ghost predicate ReadsPrinted(read: String -> seq<Entry>, fence: String -> bool,
                               pr: (nat, bool, Node) -> String, valid: String -> bool,
                               base: nat, step: nat)
  {
    forall depth: nat, last: bool, n: Node | valid(n.name)
      :: !fence(pr(depth, last, n)) && read(pr(depth, last, n)) == [Entry(n.name, base + step * depth)]
  }

  /** A reader of printed lines reads a printed forest back as its
      rendering, `step` levels per generation. */
  lemma {:induction false} ReadLines(read: String -> seq<Entry>, fence: String -> bool,
                                     pr: (nat, bool, Node) -> String, valid: String -> bool,
                                     base: nat, step: nat, f: seq<Node>, depth: nat)
    requires ReadsPrinted(read, fence, pr, valid, base, step) && AllNamed(valid, f)
    ensures NoneBy(fence, LinesBy(pr, f, depth))
    ensures ReadAll(read, LinesBy(pr, f, depth)) == Render(f, base + step * depth, step)
    decreases f
  {
    if |f| > 0 {
      var line := pr(depth, |f| == 1, f[0]);
      var kids := LinesBy(pr, f[0].children, depth + 1);
      var rest := LinesBy(pr, f[1..], depth);
      ReadLines(read, fence, pr, valid, base, step, f[0].children, depth + 1);
      ReadLines(read, fence, pr, valid, base, step, f[1..], depth);
      assert LinesBy(pr, f, depth) == [line] + kids + rest;
      assert read(line) == [Entry(f[0].name, base + step * depth)];
      assert [line][1..] == [];
      ReadAllAppend(read, [line], kids);
      ReadAllAppend(read, [line] + kids, rest);
      NoneByAppend(fence, [line], kids);
      NoneByAppend(fence, [line] + kids, rest);
      assert base + step * (depth + 1) == (base + step * depth) + step;
    }
  }

  /** How the scanner reads a line inside an open block. */
  function ReadInside(d: Dialect): String -> seq<Entry> {
    l => LineEntry(d, l, true)
  }

  lemma {:induction false} ReadAllInside(d: Dialect, lines: seq<String>)
    ensures ReadAll(ReadInside(d), lines) == Inside(d, lines)
    decreases lines
  {
    if |lines| > 0 {
      ReadAllInside(d, lines[1..]);
      InsideCons(d, lines[0], lines[1..]);
      assert [lines[0]] + lines[1..] == lines;
      assert ReadInside(d)(lines[0]) == LineEntry(d, lines[0], true);
    }
  }

  lemma InsideCons(d: Dialect, l: String, rest: seq<String>)
    ensures Inside(d, [l] + rest) == LineEntry(d, l, true) + Inside(d, rest)
  {
    InsideAppend(d, [l], rest);
    InsideOne(d, l);
  }

  lemma {:induction false} NoneByFence(lines: seq<String>)
    requires NoneBy(IsFence, lines)
    ensures NoFence(lines)
    decreases lines
  {
    if |lines| > 0 {
      NoneByFence(lines[1..]);
      forall k | 0 <= k < |lines| ensures !IsFence(lines[k]) {
        if k > 0 {
          assert lines[k] == lines[1..][k - 1];
        }
      }
    }
  }

  /** A dialect that reads every printed line with a `valid` name back as
      that name, `step` levels per generation from level `base`, parses the
      printed document of a forest of such names as the rendering of the
      forest. */
  lemma ParsePrintedBy(d: Dialect, valid: String -> bool, base: nat, step: nat, f: seq<Node>)
    requires ReadsPrinted(ReadInside(d), IsFence, PrintLine, valid, base, step) && AllNamed(valid, f)
    ensures Parse(d, Document(f)) == Build(Render(f, base, step))
  {
    var body := Lines(f, 0);
    ReadLines(ReadInside(d), IsFence, PrintLine, valid, base, step, f, 0);
    ReadAllInside(d, body);
    NoneByFence(body);
    ParseFenced(d, body);
  }

  /** ... and so gives back every well-formed forest of such names, when
      each generation is deeper than the last. */
  lemma RoundTripBy(d: Dialect, valid: String -> bool, base: nat, step: nat, f: seq<Node>)
    requires ReadsPrinted(ReadInside(d), IsFence, PrintLine, valid, base, step) && step > 0
    requires WellFormed(f) && AllNamed(valid, f)
    ensures Parse(d, Document(f)) == f
  {
    ParsePrintedBy(d, valid, base, step, f);
    BuildRender(f, base, step);
  }
}
