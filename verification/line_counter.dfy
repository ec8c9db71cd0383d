/** `IntelliJLineCounter`: a walk over a directory tree that counts the
    folders it enters, the files it visits, and the lines of the files an
    IntelliJ project is made of. A folder named `target` is not entered. */
module LineCounter {
  import opened JavaText
  import Content

  /** A directory tree as the walk sees it. A file's line count is `None`
      when the file cannot be opened. */
  datatype Entry =
    | FileEntry(name: String, lines: Option<nat>)
    | DirEntry(name: String, children: seq<Entry>)

  /** The three counters. */
  datatype Counts = Counts(folders: nat, files: nat, lines: nat)

  function Plus(a: Counts, b: Counts): Counts {
    Counts(a.folders + b.folders, a.files + b.files, a.lines + b.lines)
  }

  const Zero := Counts(0, 0, 0)

  /** `isIntelliJProjectFile`: one of seven suffixes. */
  predicate IsProjectFile(name: String) {
    || EndsWith(name, ".java")
    || EndsWith(name, ".kt")
    || EndsWith(name, ".xml")
    || EndsWith(name, ".gradle")
    || EndsWith(name, ".properties")
    || EndsWith(name, ".gitignore")
    || EndsWith(name, ".md")
  }

  /** `countLines`: the file's lines, or 0 when it cannot be read. */
  function LineCount(lines: Option<nat>): nat {
    match lines
    case None => 0
    case Some(n) => n
  }

  /** What one visited entry adds by itself: a folder, or a file with the
      lines of a project file. */
  function Own(e: Entry): Counts {
    match e
    case FileEntry(name, lines) => Counts(0, 1, if IsProjectFile(name) then LineCount(lines) else 0)
    case DirEntry(_, _) => Counts(1, 0, 0)
  }

  /** The walk: `preVisitDirectory` skips a `target` folder with its whole
      subtree and counts any other folder; `visitFile` counts every file
      and adds the lines of a project file. */
  function Scan(e: Entry): (r: Counts)
    ensures e.DirEntry? && e.name == "target" ==> r == Zero
    ensures e.FileEntry? ==> r.files == 1 && r.folders == 0
    ensures e.FileEntry? && (e.lines.None? || !IsProjectFile(e.name)) ==> r.lines == 0
    decreases e
  {
    match e
    case FileEntry(_, _) => Own(e)
    case DirEntry(name, children) =>
      if name == "target" then Zero else Plus(Own(e), ScanAll(children))
  }

  function ScanAll(es: seq<Entry>): Counts
    decreases es
  {
    if |es| == 0 then Zero else Plus(Scan(es[0]), ScanAll(es[1..]))
  }

  // ---------------------------------------------------------------------
  // The entries the walk visits

  /** Every entry the walk reaches, in visiting order: a folder not named
      `target`, then what is below it; a file. */
  function Visited(e: Entry): seq<Entry>
    decreases e
  {
    match e
    case FileEntry(_, _) => [e]
    case DirEntry(name, children) =>
      if name == "target" then [] else [e] + VisitedAll(children)
  }

  function VisitedAll(es: seq<Entry>): seq<Entry>
    decreases es
  {
    if |es| == 0 then [] else Visited(es[0]) + VisitedAll(es[1..])
  }

  /** The counters read off a list of visited entries, one at a time. */
  function Tally(vs: seq<Entry>): Counts {
    if |vs| == 0 then Zero
    else Plus(Own(vs[0]), Tally(vs[1..]))
  }

  // ---------------------------------------------------------------------
  // Lemmas

  lemma PlusLaws(x: Counts, y: Counts, z: Counts)
    ensures Plus(Zero, x) == x && Plus(x, Zero) == x
    ensures Plus(x, y) == Plus(y, x)
    ensures Plus(Plus(x, y), z) == Plus(x, Plus(y, z))
  {
  }

  lemma {:induction false} TallyAppend(a: seq<Entry>, b: seq<Entry>)
    ensures Tally(a + b) == Plus(Tally(a), Tally(b))
    decreases |a|
  {
    if |a| == 0 {
      assert a + b == b;
      PlusLaws(Tally(b), Zero, Zero);
    } else {
      assert a == [a[0]] + a[1..];
      assert a + b == [a[0]] + (a[1..] + b);
      TallyCons(a[0], a[1..] + b);
      TallyAppend(a[1..], b);
      PlusLaws(Own(a[0]), Tally(a[1..]), Tally(b));
    }
  }

  lemma TallyCons(v: Entry, rest: seq<Entry>)
    ensures Tally([v] + rest) == Plus(Own(v), Tally(rest))
  {
    assert ([v] + rest)[1..] == rest;
  }

  lemma ScanAllCons(e: Entry, rest: seq<Entry>)
    ensures ScanAll([e] + rest) == Plus(Scan(e), ScanAll(rest))
  {
    assert ([e] + rest)[1..] == rest;
  }

  /** The walk's counters are those of the entries it visits: folders
      entered, files visited, lines of the project files among them. */
  lemma {:induction false} ScanIsTally(e: Entry)
    ensures Scan(e) == Tally(Visited(e))
    decreases e
  {
    if e.FileEntry? {
      TallyCons(e, []);
      assert [e] + [] == [e];
      PlusLaws(Own(e), Zero, Zero);
    } else if e.name != "target" {
      TallyCons(e, VisitedAll(e.children));
      ScanAllIsTally(e.children);
    }
  }

  lemma {:induction false} ScanAllIsTally(es: seq<Entry>)
    ensures ScanAll(es) == Tally(VisitedAll(es))
    decreases es
  {
    if |es| > 0 {
      ScanIsTally(es[0]);
      ScanAllIsTally(es[1..]);
      TallyAppend(Visited(es[0]), VisitedAll(es[1..]));
    }
  }

  /** No entry inside a `target` folder is ever visited, and neither is the
      folder. */
  lemma {:induction false} NothingVisitedInTarget(e: Entry)
    ensures forall v :: v in Visited(e) ==> !(v.DirEntry? && v.name == "target")
    decreases e
  {
    match e
    case FileEntry(_, _) =>
    case DirEntry(name, children) =>
      if name != "target" {
        NothingVisitedInTargetAll(children);
      }
  }

  lemma {:induction false} NothingVisitedInTargetAll(es: seq<Entry>)
    ensures forall v :: v in VisitedAll(es) ==> !(v.DirEntry? && v.name == "target")
    decreases es
  {
    if |es| > 0 {
      NothingVisitedInTarget(es[0]);
      NothingVisitedInTargetAll(es[1..]);
    }
  }

  lemma {:induction false} ScanAllAppend(a: seq<Entry>, b: seq<Entry>)
    ensures ScanAll(a + b) == Plus(ScanAll(a), ScanAll(b))
    decreases |a|
  {
    if |a| == 0 {
      assert a + b == b;
      PlusLaws(ScanAll(b), Zero, Zero);
    } else {
      assert a == [a[0]] + a[1..];
      assert a + b == [a[0]] + (a[1..] + b);
      ScanAllCons(a[0], a[1..] + b);
      ScanAllAppend(a[1..], b);
      PlusLaws(Scan(a[0]), ScanAll(a[1..]), ScanAll(b));
    }
  }

  /** Removing the same element from two permutations of each other leaves
      permutations of each other. */
  lemma RemoveMatching(a: seq<Entry>, b: seq<Entry>, k: nat)
    requires multiset(a) == multiset(b) && |a| > 0 && k < |b| && b[k] == a[0]
    ensures multiset(a[1..]) == multiset(b[..k] + b[k + 1..])
  {
    var left, right := b[..k], b[k + 1..];
    assert b == left + [b[k]] + right;
    assert a == [a[0]] + a[1..];
    assert multiset(b) == multiset(left) + multiset{b[k]} + multiset(right);
    assert multiset(a) == multiset{a[0]} + multiset(a[1..]);
    forall x
      ensures multiset(a[1..])[x] == multiset(left + right)[x]
    {
      assert multiset(a)[x] == multiset(b)[x];
    }
  }

  /** The counters of a sequence are those of one of its elements plus
      those of the rest. */
  lemma ScanAllMiddle(left: seq<Entry>, m: Entry, right: seq<Entry>)
    ensures ScanAll(left + ([m] + right)) == Plus(Scan(m), ScanAll(left + right))
  {
    var x, y, z := ScanAll(left), Scan(m), ScanAll(right);
    assert ScanAll(left + ([m] + right)) == Plus(x, Plus(y, z)) by {
      ScanAllAppend(left, [m] + right);
      ScanAllCons(m, right);
    }
    assert ScanAll(left + right) == Plus(x, z) by {
      ScanAllAppend(left, right);
    }
    PlusLaws(x, y, z);
    PlusLaws(y, x, z);
  }

  /** The order in which a folder's entries are walked does not change the
      counters. */
  lemma {:induction false} ScanAllPermutation(a: seq<Entry>, b: seq<Entry>)
    requires multiset(a) == multiset(b)
    ensures ScanAll(a) == ScanAll(b)
    decreases |a|
  {
    if |a| > 0 {
      assert a[0] in multiset(b);
      var k :| 0 <= k < |b| && b[k] == a[0];
      RemoveMatching(a, b, k);
      ScanAllPermutation(a[1..], b[..k] + b[k + 1..]);
      assert b == b[..k] + ([b[k]] + b[k + 1..]);
      ScanAllMiddle(b[..k], b[k], b[k + 1..]);
    }
  }

  /** Without any project file, no line is counted. */
  lemma {:induction false} NoProjectFilesNoLines(e: Entry)
    requires forall v :: v in Visited(e) && v.FileEntry? ==> !IsProjectFile(v.name)
    ensures Scan(e).lines == 0
  {
    ScanIsTally(e);
    TallyNoLines(Visited(e));
  }

  lemma {:induction false} TallyNoLines(vs: seq<Entry>)
    requires forall v :: v in vs && v.FileEntry? ==> !IsProjectFile(v.name)
    ensures Tally(vs).lines == 0
    decreases |vs|
  {
    if |vs| > 0 {
      assert forall v :: v in vs[1..] ==> v in vs;
      TallyNoLines(vs[1..]);
    }
  }

  /** A file named `target` is counted like any other. */
  lemma FileNamedTarget(lines: Option<nat>)
    ensures Scan(FileEntry("target", lines)) == Counts(0, 1, 0)
  {
    assert !EndsWith("target", ".md") by {
      assert "target"[6 - 3..] != ".md";
    }
  }

  /** A project file is one whose extension is among the seven. */
  lemma ProjectFileByExtension(name: String)
    ensures IsProjectFile(name) <==>
            Content.Extension(name) in {Some("java"), Some("kt"), Some("xml"), Some("gradle"),
                                        Some("properties"), Some("gitignore"), Some("md")}
  {
    Content.Suffix(name, ".java", "java");
    Content.Suffix(name, ".kt", "kt");
    Content.Suffix(name, ".xml", "xml");
    Content.Suffix(name, ".gradle", "gradle");
    Content.Suffix(name, ".properties", "properties");
    Content.Suffix(name, ".gitignore", "gitignore");
    Content.Suffix(name, ".md", "md");
  }
}
