/** The line loop shared by every generator variant: fenced-block tracking,
    line filtering, and the hand-off of accepted lines to the tree builder.
    The variants differ only in three line-level functions, gathered in a
    `Dialect`. */
module Scan {
  import opened JavaText
  import opened Tree

  /** Structure-line test, nesting level and name extraction of one variant. */
  datatype Dialect = Dialect(
    isStructureLine: String -> bool,
    indentLevel: String -> nat,
    extractName: String -> Option<String>)

  predicate IsBlank(line: String) {
    Trim(line) == []
  }

  /** A line that opens or closes a fenced code block. */
  predicate IsFence(line: String) {
    StartsWith(Trim(line), "```")
  }

  /** Whether the scanner is inside a code block after reading `lines`:
      every fence line flips it, starting from outside. */
  predicate InCode(lines: seq<String>) {
    if |lines| == 0 then false
    else if IsFence(lines[|lines| - 1]) then !InCode(lines[..|lines| - 1])
    else InCode(lines[..|lines| - 1])
  }

  /** What one line contributes, given whether it sits inside a code block. */
  function LineEntry(d: Dialect, line: String, inCode: bool): (r: seq<Entry>)
    ensures |r| <= 1
    ensures |r| == 1 <==>
              !IsBlank(line) && !IsFence(line) && inCode && d.isStructureLine(line)
              && d.extractName(line).Some? && d.extractName(line).value != []
    ensures |r| == 1 ==> r[0] == Entry(d.extractName(line).value, d.indentLevel(line))
  {
    if IsBlank(line) || IsFence(line) || !inCode || !d.isStructureLine(line) then []
    else match d.extractName(line)
      case None => []
      case Some(name) => if name == [] then [] else [Entry(name, d.indentLevel(line))]
  }

  /** A line that passes every test inside a block is accepted as one entry. */
  lemma AcceptedLine(d: Dialect, line: String, n: String, level: nat)
    requires !IsBlank(line) && !IsFence(line) && d.isStructureLine(line)
    requires d.extractName(line) == Some(n) && n != [] && d.indentLevel(line) == level
    ensures LineEntry(d, line, true) == [Entry(n, level)]
  {
  }

  /** The accepted lines of `lines`, in order, as (name, level) pairs. */
  function Accepted(d: Dialect, lines: seq<String>): (r: seq<Entry>)
    ensures |r| <= |lines|
  {
    if |lines| == 0 then []
    else
      var pre := lines[..|lines| - 1];
      Accepted(d, pre) + LineEntry(d, lines[|lines| - 1], InCode(pre))
  }

  /** No accepted line has an empty name. */
  lemma {:induction false} AcceptedNamed(d: Dialect, lines: seq<String>)
    ensures forall k :: 0 <= k < |Accepted(d, lines)| ==> Accepted(d, lines)[k].name != []
  {
    if |lines| > 0 {
      AcceptedNamed(d, lines[..|lines| - 1]);
    }
  }

  /** Reading one more line. */
  lemma AcceptedSnoc(d: Dialect, a: seq<String>, line: String)
    ensures Accepted(d, a + [line]) == Accepted(d, a) + LineEntry(d, line, InCode(a))
    ensures InCode(a + [line]) == (InCode(a) != IsFence(line))
  {
    assert (a + [line])[..|a|] == a;
  }

  lemma TakeSnoc(lines: seq<String>, i: nat)
    requires i < |lines|
    ensures lines[..i + 1] == lines[..i] + [lines[i]]
  {
  }

  lemma LastSplit(c: seq<String>)
    requires |c| > 0
    ensures c == c[..|c| - 1] + [c[|c| - 1]]
  {
  }

  lemma SnocAssoc(x: seq<String>, c: seq<String>, l: String)
    ensures x + (c + [l]) == (x + c) + [l]
  {
  }

  /** The forest a variant builds from a document's lines. */
  function Parse(d: Dialect, lines: seq<String>): (r: seq<Node>)
    ensures Names(r) == EntryNames(Accepted(d, lines))
    ensures CountItems(r) == |Accepted(d, lines)|
    ensures WellFormed(r)
  {
    Build(Accepted(d, lines))
  }

  /** The single pass over the lines: a fence flag and a builder threaded
      through the loop, as the generators do it. */
  method ParseStructure(d: Dialect, lines: seq<String>) returns (roots: seq<Node>)
    ensures roots == Parse(d, lines)
  {
    var b := Start;
    var inCode := false;
    var i := 0;
    while i < |lines|
      invariant 0 <= i <= |lines|
      invariant inCode == InCode(lines[..i])
      invariant b == Feed(Start, Accepted(d, lines[..i]))
    {
      var line := lines[i];
      ghost var e := LineEntry(d, line, inCode);
      LoopStep(d, lines, i, b);
      if IsBlank(line) {
        NothingFrom(d, line, inCode);
      } else if IsFence(line) {
        NothingFrom(d, line, inCode);
        inCode := !inCode;
      } else if inCode && d.isStructureLine(line) {
        var level := d.indentLevel(line);
        var name := d.extractName(line);
        if name.Some? && name.value != [] {
          AcceptedLine(d, line, name.value, level);
          FeedOne(b, Entry(name.value, level));
          b := Step(b, Entry(name.value, level));
        } else {
          NothingFrom(d, line, inCode);
        }
      } else {
        NothingFrom(d, line, inCode);
      }
      i := i + 1;
    }
    assert lines[..i] == lines;
    roots := PopTo(b, 0).roots;
  }

  /** One turn of the line loop: feeding the line's contribution to the
      builder gives the builder for one more line read. */
  lemma LoopStep(d: Dialect, lines: seq<String>, i: nat, b: Builder)
    requires i < |lines| && b == Feed(Start, Accepted(d, lines[..i]))
    ensures Feed(b, LineEntry(d, lines[i], InCode(lines[..i]))) == Feed(Start, Accepted(d, lines[..i + 1]))
    ensures InCode(lines[..i + 1]) == (InCode(lines[..i]) != IsFence(lines[i]))
  {
    TakeSnoc(lines, i);
    AcceptedSnoc(d, lines[..i], lines[i]);
    FeedAppend(Start, Accepted(d, lines[..i]), LineEntry(d, lines[i], InCode(lines[..i])));
  }

  /** A line that fails one of the tests contributes nothing. */
  lemma NothingFrom(d: Dialect, line: String, inCode: bool)
    requires IsBlank(line) || IsFence(line) || !inCode || !d.isStructureLine(line)
             || d.extractName(line).None? || d.extractName(line) == Some([])
    ensures LineEntry(d, line, inCode) == []
  {
  }

  /** Lines read so far matter to the rest of the document only through what
      they contributed and whether they leave a code block open. */
  lemma {:induction false} SameContinuation(d: Dialect, x: seq<String>, y: seq<String>, c: seq<String>)
    requires Accepted(d, x) == Accepted(d, y) && InCode(x) == InCode(y)
    ensures Accepted(d, x + c) == Accepted(d, y + c) && InCode(x + c) == InCode(y + c)
    decreases |c|
  {
    if |c| == 0 {
      assert x + c == x && y + c == y;
    } else {
      var c' := c[..|c| - 1];
      var l := c[|c| - 1];
      SameContinuation(d, x, y, c');
      LastSplit(c);
      SnocAssoc(x, c', l);
      SnocAssoc(y, c', l);
      AcceptedSnoc(d, x + c', l);
      AcceptedSnoc(d, y + c', l);
    }
  }

  /** Lines outside a code block that contain no fence add nothing and leave
      the scanner outside. */
  lemma {:induction false} OutsideLinesIgnored(d: Dialect, a: seq<String>, b: seq<String>)
    requires !InCode(a)
    requires forall k :: 0 <= k < |b| ==> !IsFence(b[k])
    ensures Accepted(d, a + b) == Accepted(d, a) && !InCode(a + b)
    decreases |b|
  {
    if |b| == 0 {
      assert a + b == a;
    } else {
      var b' := b[..|b| - 1];
      var l := b[|b| - 1];
      OutsideLinesIgnored(d, a, b');
      LastSplit(b);
      SnocAssoc(a, b', l);
      AcceptedSnoc(d, a + b', l);
      assert LineEntry(d, l, false) == [];
    }
  }

  /** Whatever lies outside the code blocks, prose included, can be deleted
      without changing the parsed forest. */
  lemma OutsideProseIrrelevant(d: Dialect, a: seq<String>, b: seq<String>, c: seq<String>)
    requires !InCode(a)
    requires forall k :: 0 <= k < |b| ==> !IsFence(b[k])
    ensures Parse(d, a + b + c) == Parse(d, a + c)
  {
    OutsideLinesIgnored(d, a, b);
    SameContinuation(d, a + b, a, c);
  }

  /** A structural, named line inside an open code block is accepted with the
      variant's level; after it the block is still open. */
  lemma InsideLineAccepted(d: Dialect, a: seq<String>, line: String)
    requires InCode(a) && !IsBlank(line) && !IsFence(line) && d.isStructureLine(line)
    requires d.extractName(line).Some? && d.extractName(line).value != []
    ensures Accepted(d, a + [line]) == Accepted(d, a) + [Entry(d.extractName(line).value, d.indentLevel(line))]
    ensures InCode(a + [line])
  {
    AcceptedSnoc(d, a, line);
  }

  /** A fence line flips the scanner between inside and outside. */
  lemma FenceToggles(d: Dialect, a: seq<String>, line: String)
    requires IsFence(line)
    ensures InCode(a + [line]) <==> !InCode(a)
    ensures Accepted(d, a + [line]) == Accepted(d, a)
  {
    AcceptedSnoc(d, a, line);
    assert LineEntry(d, line, InCode(a)) == [];
  }

  // ---------------------------------------------------------------------
  // A single fenced block

  predicate NoFence(lines: seq<String>) {
    forall k :: 0 <= k < |lines| ==> !IsFence(lines[k])
  }

  /** What lines contribute when read inside an open code block. */
  function Inside(d: Dialect, lines: seq<String>): seq<Entry> {
    if |lines| == 0 then []
    else Inside(d, lines[..|lines| - 1]) + LineEntry(d, lines[|lines| - 1], true)
  }

  lemma {:induction false} InsideAppend(d: Dialect, x: seq<String>, y: seq<String>)
    ensures Inside(d, x + y) == Inside(d, x) + Inside(d, y)
    decreases |y|
  {
    if |y| == 0 {
      assert x + y == x;
    } else {
      var y' := y[..|y| - 1];
      var l := y[|y| - 1];
      InsideAppend(d, x, y');
      LastSplit(y);
      SnocAssoc(x, y', l);
      assert (x + y)[..|x + y| - 1] == x + y';
    }
  }

  lemma NoFenceInit(b: seq<String>)
    requires |b| > 0 && NoFence(b)
    ensures NoFence(b[..|b| - 1]) && !IsFence(b[|b| - 1])
  {
    var b' := b[..|b| - 1];
    forall k | 0 <= k < |b'| ensures !IsFence(b'[k]) {
      assert b'[k] == b[k];
    }
  }

  /** Fence-free lines leave an open block open. */
  lemma {:induction false} StaysInCode(a: seq<String>, b: seq<String>)
    requires InCode(a) && NoFence(b)
    ensures InCode(a + b)
    decreases |b|
  {
    if |b| == 0 {
      assert a + b == a;
    } else {
      var b' := b[..|b| - 1];
      var l := b[|b| - 1];
      NoFenceInit(b);
      StaysInCode(a, b');
      LastSplit(b);
      SnocAssoc(a, b', l);
      assert (a + b)[..|a + b| - 1] == a + b';
    }
  }

  lemma InsideSnoc(d: Dialect, b: seq<String>, l: String)
    ensures Inside(d, b + [l]) == Inside(d, b) + LineEntry(d, l, true)
  {
    assert (b + [l])[..|b|] == b;
  }

  lemma InsideStep(d: Dialect, a: seq<String>, b: seq<String>, l: String)
    requires InCode(a + b)
    requires Accepted(d, a + b) == Accepted(d, a) + Inside(d, b)
    ensures Accepted(d, (a + b) + [l]) == Accepted(d, a) + Inside(d, b + [l])
  {
    AcceptedSnoc(d, a + b, l);
    InsideSnoc(d, b, l);
    EntriesAssoc(Accepted(d, a), Inside(d, b), LineEntry(d, l, true));
  }

  lemma EntriesAssoc(x: seq<Entry>, y: seq<Entry>, z: seq<Entry>)
    ensures (x + y) + z == x + (y + z)
  {
  }

  /** Inside an open block, fence-free lines contribute what `Inside` says. */
  lemma {:induction false} AcceptedInside(d: Dialect, a: seq<String>, b: seq<String>)
    requires InCode(a) && NoFence(b)
    ensures Accepted(d, a + b) == Accepted(d, a) + Inside(d, b)
    decreases |b|
  {
    if |b| == 0 {
      assert a + b == a;
    } else {
      var b' := b[..|b| - 1];
      var l := b[|b| - 1];
      NoFenceInit(b);
      AcceptedInside(d, a, b');
      StaysInCode(a, b');
      InsideStep(d, a, b', l);
      LastSplit(b);
      SnocAssoc(a, b', l);
    }
  }

  /** A document made of one fenced block is parsed from the block's lines
      alone. */
  lemma ParseFenced(d: Dialect, body: seq<String>)
    requires NoFence(body)
    ensures Parse(d, ["```"] + body + ["```"]) == Build(Inside(d, body))
  {
    var open := ["```"];
    assert IsFence("```") by {
      TrimOfTrimmed("```");
    }
    AcceptedSnoc(d, [], "```");
    assert [] + open == open;
    assert Accepted(d, open) == [];
    AcceptedInside(d, open, body);
    StaysInCode(open, body);
    FenceToggles(d, open + body, "```");
    assert Accepted(d, open + body + ["```"]) == Inside(d, body);
  }
}
