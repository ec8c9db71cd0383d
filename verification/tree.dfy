/** The structure tree and the single-pass builder shared, character for
    character, by every tree-diagram parser variant.

    The builder keeps a stack of open directory frames, each paired with the
    indent level at which its line appeared. For every accepted line it pops
    the frames whose level is at least the line's level, places the new node
    in the innermost remaining frame (or among the roots), and opens a frame
    for it when it is a directory.

    The original attaches a directory to its parent as soon as it is read and
    then mutates it in place. Here a frame collects its children and is
    attached to the frame below it (or to the roots) when it is popped. The
    order of children is the same: while a directory's frame is open, every
    new node goes into it or into a frame above it, never into its parent. */
module Tree {
  import opened JavaText

  /** One item of the structure: a file or a directory with ordered children. */
  datatype Node = Node(name: String, isFile: bool, children: seq<Node>)

  /** The file-vs-directory rule: a name is a file when its last `.` is
      neither its first nor its last character. */
  predicate IsFile(name: String) {
    0 < LastIndexOf(name, '.') < |name| - 1
  }

  /** The rule as the generators write it: the name contains a `.`, and the
      last `.` is neither the first nor the last character. The `contains`
      test is implied by the other two. */
  lemma IsFileAsWritten(name: String)
    ensures IsFile(name) <==>
            Contains(name, ".") && LastIndexOf(name, '.') > 0 && LastIndexOf(name, '.') < |name| - 1
  {
    ContainsOneChar(name, '.');
    LastIndexOfAbsent(name, '.');
    assert "." == ['.'];
  }

  /** `IsFile` holds exactly when some `.` strictly inside the name is
      followed by no further `.`. */
  lemma IsFileCharacterisation(name: String)
    ensures IsFile(name) <==>
            exists i :: 0 < i < |name| - 1 && name[i] == '.' && NoDotAfter(name, i)
  {
    if exists i :: 0 < i < |name| - 1 && name[i] == '.' && NoDotAfter(name, i) {
      var i :| 0 < i < |name| - 1 && name[i] == '.' && NoDotAfter(name, i);
      LastIndexOfExact(name, '.', i);
    }
    if IsFile(name) {
      assert NoDotAfter(name, LastIndexOf(name, '.'));
    }
  }

  /** No `.` follows position `i` of `name`. */
  predicate NoDotAfter(name: String, i: nat) {
    forall k :: i < k < |name| ==> name[k] != '.'
  }

  /** Names with a dot strictly inside them and no later dot are files. */
  lemma IsFileExamples()
    ensures IsFile("README.md")
    ensures IsFile("pom.xml")
  {
    LastIndexOfExact("README.md", '.', 6);
    LastIndexOfExact("pom.xml", '.', 3);
  }

  /** Dotfiles with no further dot, extension-less names and names ending in
      a dot are all directories. */
  lemma IsDirectoryExamples()
    ensures !IsFile(".gitignore")
    ensures !IsFile("Makefile")
    ensures !IsFile("foo.")
    ensures !IsFile("book-service")
  {
    DotfileIsDirectory(".gitignore");
    TrailingDotIsDirectory("foo.");
    NoDotIsDirectory("Makefile");
    NoDotIsDirectory("book-service");
  }

  lemma DotfileIsDirectory(name: String)
    requires |name| > 0 && name[0] == '.' && NoDotAfter(name, 0)
    ensures !IsFile(name)
  {
    LastIndexOfExact(name, '.', 0);
  }

  lemma TrailingDotIsDirectory(name: String)
    requires |name| > 0 && name[|name| - 1] == '.'
    ensures !IsFile(name)
  {
  }

  lemma NoDotIsDirectory(name: String)
    requires '.' !in name
    ensures !IsFile(name)
  {
    LastIndexOfAbsent(name, '.');
  }

  /** One accepted line: the extracted name and the computed indent level. */
  datatype Entry = Entry(name: String, level: nat)

  /** An open directory: its name, the level of its line, and the children
      collected so far. */
  datatype Frame = Frame(name: String, level: nat, kids: seq<Node>)

  /** The builder's state: finished roots and the stack of open frames (the
      last frame is the top). */
  datatype Builder = Builder(roots: seq<Node>, stack: seq<Frame>)

  const Start := Builder([], [])

  /** Places `n` as the last child of the top frame, or as the last root. */
  function Attach(b: Builder, n: Node): (r: Builder)
    ensures |r.stack| == |b.stack|
    ensures |b.stack| > 0 ==> r.stack[|r.stack| - 1].level == b.stack[|b.stack| - 1].level
  {
    if |b.stack| == 0 then Builder(b.roots + [n], [])
    else
      var top := b.stack[|b.stack| - 1];
      Builder(b.roots, b.stack[..|b.stack| - 1] + [top.(kids := top.kids + [n])])
  }

  /** Pops the top frame and attaches the finished directory below it. */
  function Close(b: Builder): Builder
    requires |b.stack| > 0
  {
    var top := b.stack[|b.stack| - 1];
    Attach(Builder(b.roots, b.stack[..|b.stack| - 1]), Node(top.name, false, top.kids))
  }

  /** Pops every frame whose level is at least `level`. */
  function PopTo(b: Builder, level: nat): Builder
    decreases |b.stack|
  {
    if |b.stack| > 0 && b.stack[|b.stack| - 1].level >= level then PopTo(Close(b), level)
    else b
  }

  /** Handles one accepted line. */
  function Step(b: Builder, e: Entry): Builder {
    var p := PopTo(b, e.level);
    if IsFile(e.name) then Attach(p, Node(e.name, true, []))
    else Builder(p.roots, p.stack + [Frame(e.name, e.level, [])])
  }

  function Feed(b: Builder, es: seq<Entry>): Builder
    decreases |es|
  {
    if |es| == 0 then b else Feed(Step(b, es[0]), es[1..])
  }

  /** The forest built from the accepted lines, in order. */
  function Build(es: seq<Entry>): (r: seq<Node>)
    ensures Names(r) == EntryNames(es)
    ensures CountItems(r) == |es|
    ensures WellFormed(r)
  {
    BuildNames(es);
    BuildWellFormed(es);
    CountIsNames(PopTo(Feed(Start, es), 0).roots);
    EntryNamesLength(es);
    PopTo(Feed(Start, es), 0).roots
  }

  lemma BuildNames(es: seq<Entry>)
    ensures Names(PopTo(Feed(Start, es), 0).roots) == EntryNames(es)
  {
    var b := Feed(Start, es);
    var f := PopTo(b, 0);
    assert AllNames(Start) == [];
    FeedNames(Start, es);
    PopToNames(b, 0);
    PopToZeroEmpties(b);
    assert StackNames(f.stack) == [];
    assert AllNames(f) == Names(f.roots) + [];
    assert AllNames(b) == [] + EntryNames(es);
    assert AllNames(f) == AllNames(b);
    assert Names(f.roots) == AllNames(f);
  }

  lemma BuildWellFormed(es: seq<Entry>)
    ensures WellFormed(PopTo(Feed(Start, es), 0).roots)
  {
    var b := Feed(Start, es);
    assert Good(Start);
    FeedGood(Start, es);
    PopToGood(b, 0);
  }

  lemma EntryNamesLength(es: seq<Entry>)
    ensures |EntryNames(es)| == |es|
  {
  }

  // ---------------------------------------------------------------------
  // Observations of a forest

  /** `countTotalItems`: every node of the forest, at any depth. */
  function CountItems(ns: seq<Node>): nat
    decreases ns
  {
    if |ns| == 0 then 0 else 1 + CountItems(ns[0].children) + CountItems(ns[1..])
  }

  /** Names in pre-order: a node, then its subtree, then its later siblings. */
  function Names(ns: seq<Node>): seq<String>
    decreases ns
  {
    if |ns| == 0 then [] else [ns[0].name] + Names(ns[0].children) + Names(ns[1..])
  }

  function EntryNames(es: seq<Entry>): seq<String> {
    if |es| == 0 then [] else [es[0].name] + EntryNames(es[1..])
  }

  /** Every node's kind agrees with its name, and files have no children. */
  predicate WellFormed(ns: seq<Node>)
    decreases ns
  {
    |ns| == 0 ||
    (&& ns[0].isFile == IsFile(ns[0].name)
     && (ns[0].isFile ==> ns[0].children == [])
     && WellFormed(ns[0].children)
     && WellFormed(ns[1..]))
  }

  lemma {:induction false} CountIsNames(ns: seq<Node>)
    ensures CountItems(ns) == |Names(ns)|
    decreases ns
  {
    if |ns| > 0 {
      CountIsNames(ns[0].children);
      CountIsNames(ns[1..]);
    }
  }

  lemma {:induction false} NamesAppend(a: seq<Node>, b: seq<Node>)
    ensures Names(a + b) == Names(a) + Names(b)
    decreases |a|
  {
    if |a| > 0 {
      assert (a + b)[0] == a[0];
      assert (a + b)[1..] == a[1..] + b;
      NamesAppend(a[1..], b);
    } else {
      assert a + b == b;
    }
  }

  lemma {:induction false} WellFormedAppend(a: seq<Node>, b: seq<Node>)
    ensures WellFormed(a + b) <==> WellFormed(a) && WellFormed(b)
    decreases |a|
  {
    if |a| > 0 {
      assert (a + b)[0] == a[0];
      assert (a + b)[1..] == a[1..] + b;
      WellFormedAppend(a[1..], b);
    } else {
      assert a + b == b;
    }
  }

  // ---------------------------------------------------------------------
  // Invariants of the builder

  function StackNames(st: seq<Frame>): seq<String>
    decreases |st|
  {
    if |st| == 0 then []
    else StackNames(st[..|st| - 1]) + [st[|st| - 1].name] + Names(st[|st| - 1].kids)
  }

  /** All names held by the builder, in the order they were read. */
  function AllNames(b: Builder): seq<String> {
    Names(b.roots) + StackNames(b.stack)
  }

  /** Open frames are directories with well-formed children, and their levels
      strictly increase towards the top. */
  predicate GoodStack(st: seq<Frame>)
    decreases |st|
  {
    |st| == 0 ||
    (&& GoodStack(st[..|st| - 1])
     && !IsFile(st[|st| - 1].name)
     && WellFormed(st[|st| - 1].kids)
     && (|st| > 1 ==> st[|st| - 2].level < st[|st| - 1].level))
  }

  predicate Good(b: Builder) {
    WellFormed(b.roots) && GoodStack(b.stack)
  }

  lemma AttachNames(b: Builder, n: Node)
    ensures AllNames(Attach(b, n)) == AllNames(b) + Names([n])
  {
    if |b.stack| == 0 {
      NamesAppend(b.roots, [n]);
    } else {
      var r := Attach(b, n);
      var k := |b.stack| - 1;
      NamesAppend(b.stack[k].kids, [n]);
      assert r.stack[..k] == b.stack[..k];
    }
  }

  lemma AttachGood(b: Builder, n: Node)
    requires Good(b) && WellFormed([n])
    ensures Good(Attach(b, n))
  {
    if |b.stack| == 0 {
      WellFormedAppend(b.roots, [n]);
    } else {
      var r := Attach(b, n);
      var k := |b.stack| - 1;
      WellFormedAppend(b.stack[k].kids, [n]);
      assert r.stack[..k] == b.stack[..k];
    }
  }

  /** The directory a closed frame becomes. */
  function Finished(f: Frame): Node {
    Node(f.name, false, f.kids)
  }

  lemma CloseNames(b: Builder)
    requires |b.stack| > 0
    ensures AllNames(Close(b)) == AllNames(b)
  {
    var top := b.stack[|b.stack| - 1];
    var below := Builder(b.roots, b.stack[..|b.stack| - 1]);
    assert [Finished(top)][1..] == [];
    assert Names([Finished(top)]) == [top.name] + Names(top.kids) + [];
    AttachNames(below, Finished(top));
  }

  lemma CloseGood(b: Builder)
    requires Good(b) && |b.stack| > 0
    ensures Good(Close(b))
  {
    var top := b.stack[|b.stack| - 1];
    var below := Builder(b.roots, b.stack[..|b.stack| - 1]);
    assert [Finished(top)][1..] == [];
    assert WellFormed([Finished(top)]);
    AttachGood(below, Finished(top));
  }

  lemma {:induction false} PopToNames(b: Builder, level: nat)
    ensures AllNames(PopTo(b, level)) == AllNames(b)
    decreases |b.stack|
  {
    if |b.stack| > 0 && b.stack[|b.stack| - 1].level >= level {
      CloseNames(b);
      PopToNames(Close(b), level);
    }
  }

  lemma {:induction false} PopToGood(b: Builder, level: nat)
    requires Good(b)
    ensures Good(PopTo(b, level))
    ensures var p := PopTo(b, level); |p.stack| > 0 ==> p.stack[|p.stack| - 1].level < level
    decreases |b.stack|
  {
    if |b.stack| > 0 && b.stack[|b.stack| - 1].level >= level {
      CloseGood(b);
      PopToGood(Close(b), level);
    }
  }

  lemma PopToZeroEmpties(b: Builder)
    ensures PopTo(b, 0).stack == []
    decreases |b.stack|
  {
  }

  lemma StepNames(b: Builder, e: Entry)
    ensures AllNames(Step(b, e)) == AllNames(b) + [e.name]
  {
    var p := PopTo(b, e.level);
    PopToNames(b, e.level);
    if IsFile(e.name) {
      var n := Node(e.name, true, []);
      assert [n][1..] == [];
      assert Names([n]) == [e.name];
      AttachNames(p, n);
    } else {
      var q := Builder(p.roots, p.stack + [Frame(e.name, e.level, [])]);
      assert q.stack[..|q.stack| - 1] == p.stack;
    }
  }

  lemma StepGood(b: Builder, e: Entry)
    requires Good(b)
    ensures Good(Step(b, e))
  {
    var p := PopTo(b, e.level);
    PopToGood(b, e.level);
    if IsFile(e.name) {
      var n := Node(e.name, true, []);
      assert [n][1..] == [];
      assert WellFormed([n]);
      AttachGood(p, n);
    } else {
      var q := Builder(p.roots, p.stack + [Frame(e.name, e.level, [])]);
      assert q.stack[..|q.stack| - 1] == p.stack;
    }
  }

  lemma {:induction false} FeedNames(b: Builder, es: seq<Entry>)
    ensures AllNames(Feed(b, es)) == AllNames(b) + EntryNames(es)
    decreases |es|
  {
    if |es| > 0 {
      StepNames(b, es[0]);
      FeedNames(Step(b, es[0]), es[1..]);
      EntryNamesCons(AllNames(b), es);
    }
  }

  lemma EntryNamesCons(a: seq<String>, es: seq<Entry>)
    requires |es| > 0
    ensures a + EntryNames(es) == (a + [es[0].name]) + EntryNames(es[1..])
  {
  }

  lemma {:induction false} FeedGood(b: Builder, es: seq<Entry>)
    requires Good(b)
    ensures Good(Feed(b, es))
    decreases |es|
  {
    if |es| > 0 {
      StepGood(b, es[0]);
      FeedGood(Step(b, es[0]), es[1..]);
    }
  }

  // ---------------------------------------------------------------------
  // Round trip: a rendered forest is rebuilt exactly

  /** The accepted lines a tree printer would produce for `ns`: every node
      once, in pre-order, the top nodes at level `d` and each generation
      `g` levels deeper than its parent. */
  function Render(ns: seq<Node>, d: nat, g: nat): seq<Entry>
    decreases ns
  {
    if |ns| == 0 then []
    else [Entry(ns[0].name, d)] + Render(ns[0].children, d + g, g) + Render(ns[1..], d, g)
  }

  function AttachAll(b: Builder, ns: seq<Node>): Builder
    decreases |ns|
  {
    if |ns| == 0 then b else AttachAll(Attach(b, ns[0]), ns[1..])
  }

  predicate TopBelow(b: Builder, d: nat) {
    |b.stack| == 0 || b.stack[|b.stack| - 1].level < d
  }

  lemma {:induction false} FeedAppend(b: Builder, x: seq<Entry>, y: seq<Entry>)
    ensures Feed(b, x + y) == Feed(Feed(b, x), y)
    decreases |x|
  {
    if |x| > 0 {
      assert (x + y)[0] == x[0];
      assert (x + y)[1..] == x[1..] + y;
      FeedAppend(Step(b, x[0]), x[1..], y);
    } else {
      assert x + y == y;
    }
  }

  /** Feeding one entry is one step. */
  lemma FeedOne(b: Builder, e: Entry)
    ensures Feed(b, [e]) == Step(b, e)
  {
  }

  /** Popping to a deeper level first changes nothing about popping to a
      shallower one. */
  lemma {:induction false} PopToTwice(b: Builder, a: nat, c: nat)
    requires c <= a
    ensures PopTo(PopTo(b, a), c) == PopTo(b, c)
    decreases |b.stack|
  {
    if |b.stack| > 0 && b.stack[|b.stack| - 1].level >= a {
      PopToTwice(Close(b), a, c);
    }
  }

  /** A line at level `d` sees the same builder whether or not the frames at
      level `d` and deeper were popped beforehand. */
  lemma FeedAtLevel(b: Builder, es: seq<Entry>, d: nat)
    requires |es| > 0 && es[0].level == d
    ensures Feed(b, es) == Feed(PopTo(b, d), es)
  {
    PopToTwice(b, d, d);
  }

  lemma {:induction false} AttachAllTop(b: Builder, ns: seq<Node>)
    requires |b.stack| > 0
    ensures var k := |b.stack| - 1;
            AttachAll(b, ns) == Builder(b.roots, b.stack[..k] + [b.stack[k].(kids := b.stack[k].kids + ns)])
    decreases |ns|
  {
    var k := |b.stack| - 1;
    if |ns| == 0 {
      assert b.stack[k].kids + ns == b.stack[k].kids;
      assert b.stack[..k] + [b.stack[k]] == b.stack;
    } else {
      var b1 := Attach(b, ns[0]);
      AttachAllTop(b1, ns[1..]);
      assert b1.stack[..k] == b.stack[..k];
      assert b.stack[k].kids + [ns[0]] + ns[1..] == b.stack[k].kids + ns;
    }
  }

  lemma {:induction false} AttachAllRoots(b: Builder, ns: seq<Node>)
    requires |b.stack| == 0
    ensures AttachAll(b, ns) == Builder(b.roots + ns, [])
    decreases |ns|
  {
    if |ns| == 0 {
      assert b.roots + ns == b.roots;
    } else {
      AttachAllRoots(Attach(b, ns[0]), ns[1..]);
      assert b.roots + [ns[0]] + ns[1..] == b.roots + ns;
    }
  }

  lemma PopToBelow(b: Builder, d: nat)
    requires TopBelow(b, d)
    ensures PopTo(b, d) == b
  {
  }

  /** A file node: its single line attaches it. */
  lemma FeedFileNode(b: Builder, n: Node, d: nat, g: nat)
    requires WellFormed([n]) && TopBelow(b, d) && n.isFile
    ensures PopTo(Feed(b, [Entry(n.name, d)] + Render(n.children, d + g, g)), d) == Attach(b, n)
  {
    var e := Entry(n.name, d);
    assert n.children == [] && IsFile(n.name);
    assert n == Node(n.name, true, []);
    assert Render(n.children, d + g, g) == [];
    assert [e] + Render(n.children, d + g, g) == [e];
    PopToBelow(b, d);
    assert Step(b, e) == Attach(b, n);
    assert Feed(b, [e]) == Feed(Step(b, e), []);
    PopToBelow(Attach(b, n), d);
  }

  /** A directory line at a level above every open frame pushes a frame. */
  lemma FeedDirLine(b: Builder, n: Node, d: nat, inner: seq<Entry>)
    requires TopBelow(b, d) && !IsFile(n.name)
    ensures Feed(b, [Entry(n.name, d)] + inner) == Feed(Builder(b.roots, b.stack + [Frame(n.name, d, [])]), inner)
  {
    var e := Entry(n.name, d);
    PopToBelow(b, d);
    assert Step(b, e) == Builder(b.roots, b.stack + [Frame(n.name, d, [])]);
    FeedAppend(b, [e], inner);
    assert Feed(b, [e]) == Feed(Step(b, e), []);
  }

  /** Closing a frame that holds exactly a directory's children attaches
      that directory. */
  lemma CloseDir(b: Builder, n: Node, d: nat)
    requires TopBelow(b, d) && !n.isFile
    ensures PopTo(Builder(b.roots, b.stack + [Frame(n.name, d, n.children)]), d) == Attach(b, n)
  {
    var q := Builder(b.roots, b.stack + [Frame(n.name, d, n.children)]);
    assert q.stack[..|b.stack|] == b.stack;
    assert n == Node(n.name, false, n.children);
    assert Close(q) == Attach(b, n);
    PopToBelow(Attach(b, n), d);
  }

  /** A directory node: its line pushes a frame, its children's lines fill
      that frame, and popping back to its level attaches it. */
  lemma FeedDirNode(b: Builder, n: Node, d: nat, g: nat)
    requires TopBelow(b, d) && !n.isFile && !IsFile(n.name) && g > 0
    requires Rebuilds(Builder(b.roots, b.stack + [Frame(n.name, d, [])]), n.children, d + g, g)
    ensures PopTo(Feed(b, [Entry(n.name, d)] + Render(n.children, d + g, g)), d) == Attach(b, n)
  {
    var inner := Render(n.children, d + g, g);
    var p := Builder(b.roots, b.stack + [Frame(n.name, d, [])]);
    FeedDirLine(b, n, d, inner);
    FillOpened(b, n, d);
    PopToTwice(Feed(p, inner), d + g, d);
    CloseDir(b, n, d);
  }

  /** Attaching a directory's children to its freshly opened frame fills
      that frame. */
  lemma FillOpened(b: Builder, n: Node, d: nat)
    ensures AttachAll(Builder(b.roots, b.stack + [Frame(n.name, d, [])]), n.children)
            == Builder(b.roots, b.stack + [Frame(n.name, d, n.children)])
  {
    var p := Builder(b.roots, b.stack + [Frame(n.name, d, [])]);
    var k := |b.stack|;
    AttachAllTop(p, n.children);
    assert p.stack[..k] == b.stack;
    assert p.stack[k].kids + n.children == n.children;
  }

  /** Feeding the rendering of `ns` at level `d` to a builder whose open
      frames all lie below `d` appends `ns` to the innermost open frame (once
      the frames opened on the way are popped again). */
  lemma {:induction false} FeedRender(b: Builder, ns: seq<Node>, d: nat, g: nat)
    requires WellFormed(ns) && TopBelow(b, d) && g > 0
    ensures Rebuilds(b, ns, d, g)
    decreases ns
  {
    if |ns| > 0 {
      var n := ns[0];
      FeedRenderPre(b, ns, d, g);
      if !n.isFile {
        FeedRender(Builder(b.roots, b.stack + [Frame(n.name, d, [])]), n.children, d + g, g);
      }
      FeedRender(Attach(b, n), ns[1..], d, g);
      FeedRenderJoin(b, ns, d, g);
    }
  }

  /** Feeding the rendering of `ns` at level `d` to `b`, then closing the
      frames opened on the way, attaches `ns` to `b`. */
  predicate Rebuilds(b: Builder, ns: seq<Node>, d: nat, g: nat) {
    PopTo(Feed(b, Render(ns, d, g)), d) == AttachAll(b, ns)
  }

  /** The first node's lines build the first node, whether it is a file or
      a directory whose children's lines build its children. */
  lemma FeedRenderJoin(b: Builder, ns: seq<Node>, d: nat, g: nat)
    requires |ns| > 0 && WellFormed(ns) && TopBelow(b, d) && g > 0
    requires !ns[0].isFile ==> Rebuilds(Builder(b.roots, b.stack + [Frame(ns[0].name, d, [])]), ns[0].children, d + g, g)
    requires Rebuilds(Attach(b, ns[0]), ns[1..], d, g)
    ensures Rebuilds(b, ns, d, g)
  {
    var n := ns[0];
    FeedRenderPre(b, ns, d, g);
    if n.isFile {
      FeedFileNode(b, n, d, g);
    } else {
      FeedDirNode(b, n, d, g);
    }
    FeedRenderStep(b, ns, d, g);
  }

  /** What the recursive calls of `FeedRender` need about the first node and
      its siblings. */
  lemma FeedRenderPre(b: Builder, ns: seq<Node>, d: nat, g: nat)
    requires |ns| > 0 && WellFormed(ns) && TopBelow(b, d) && g > 0
    ensures WellFormed([ns[0]]) && WellFormed(ns[1..]) && TopBelow(Attach(b, ns[0]), d)
    ensures WellFormed(ns[0].children) && ns[0].isFile == IsFile(ns[0].name)
    ensures TopBelow(Builder(b.roots, b.stack + [Frame(ns[0].name, d, [])]), d + g)
  {
    assert WellFormed([ns[0]]);
  }

  /** Joins the first node's lines with its siblings' lines. */
  lemma FeedRenderStep(b: Builder, ns: seq<Node>, d: nat, g: nat)
    requires |ns| > 0
    requires PopTo(Feed(b, [Entry(ns[0].name, d)] + Render(ns[0].children, d + g, g)), d)
             == Attach(b, ns[0])
    requires PopTo(Feed(Attach(b, ns[0]), Render(ns[1..], d, g)), d)
             == AttachAll(Attach(b, ns[0]), ns[1..])
    ensures PopTo(Feed(b, Render(ns, d, g)), d) == AttachAll(b, ns)
  {
    var n := ns[0];
    var head := [Entry(n.name, d)] + Render(n.children, d + g, g);
    var rest := Render(ns[1..], d, g);
    assert Render(ns, d, g) == head + rest;
    FeedAppend(b, head, rest);
    var u := Feed(b, head);
    if |ns[1..]| == 0 {
      assert rest == [];
    } else {
      FeedAtLevel(u, rest, d);
    }
  }

  /** Building the rendering of a well-formed forest gives the forest back:
      lines at equal levels become siblings, and a line one level deeper than
      a directory becomes its child. */
  lemma BuildRender(f: seq<Node>, d: nat, g: nat)
    requires WellFormed(f) && g > 0
    ensures Build(Render(f, d, g)) == f
  {
    var b := Feed(Start, Render(f, d, g));
    FeedRender(Start, f, d, g);
    PopToTwice(b, d, 0);
    AttachAllRoots(Start, f);
    assert [] + f == f;
  }

  function NestedExample(): seq<Node> {
    [Node("a", false, [Node("b", false, [Node("c.txt", true, [])])])]
  }

  lemma NestedExampleWellFormed()
    ensures WellFormed(NestedExample())
  {
    var c := Node("c.txt", true, []);
    var b := Node("b", false, [c]);
    IsFileCharacterisation("c.txt");
    assert "c.txt"[1] == '.' && '.' !in "c.txt"[2..];
    ContainsOneChar("a", '.');
    ContainsOneChar("b", '.');
    assert WellFormed([c]);
    assert WellFormed([b]);
  }

  lemma NestedExampleRender()
    ensures Render(NestedExample(), 0, 1) == [Entry("a", 0), Entry("b", 1), Entry("c.txt", 2)]
  {
    var c := Node("c.txt", true, []);
    var b := Node("b", false, [c]);
    assert Render([c], 2, 1) == [Entry("c.txt", 2)];
    assert Render([b], 1, 1) == [Entry("b", 1), Entry("c.txt", 2)];
  }

  /** Three nested lines at levels 0, 1 and 2 nest. */
  lemma BuildNestedExample()
    ensures Build([Entry("a", 0), Entry("b", 1), Entry("c.txt", 2)])
            == [Node("a", false, [Node("b", false, [Node("c.txt", true, [])])])]
  {
    NestedExampleWellFormed();
    NestedExampleRender();
    BuildRender(NestedExample(), 0, 1);
  }

  /** A file after a directory at the same level is its sibling, not its
      child. */
  lemma BuildSiblingExample()
    ensures Build([Entry("x", 1), Entry("y.txt", 1)])
            == [Node("x", false, []), Node("y.txt", true, [])]
  {
    var y := Node("y.txt", true, []);
    var flat := [Node("x", false, []), y];
    IsFileCharacterisation("y.txt");
    assert "y.txt"[1] == '.' && '.' !in "y.txt"[2..];
    ContainsOneChar("x", '.');
    assert flat[1..] == [y];
    assert WellFormed([y]);
    assert WellFormed(flat);
    BuildRender(flat, 1, 1);
    assert Render([y], 1, 1) == [Entry("y.txt", 1)];
  }

  /** A directory line at level 0 followed by a rendered forest at levels
      above 0 builds one root directory holding that forest. */
  lemma BuildUnderRoot(name: String, f: seq<Node>, d: nat, g: nat)
    requires WellFormed(f) && !IsFile(name) && d > 0 && g > 0
    ensures Build([Entry(name, 0)] + Render(f, d, g)) == [Node(name, false, f)]
  {
    var p := Builder([], [Frame(name, 0, [])]);
    assert Step(Start, Entry(name, 0)) == p;
    FeedAppend(Start, [Entry(name, 0)], Render(f, d, g));
    assert Feed(Start, [Entry(name, 0)]) == Feed(p, []);
    FeedRender(p, f, d, g);
    AttachAllTop(p, f);
    assert [] + f == f;
    var q := Builder([], [Frame(name, 0, f)]);
    assert AttachAll(p, f) == q;
    PopToTwice(Feed(p, Render(f, d, g)), d, 0);
    assert Close(q) == Builder([Node(name, false, f)], []);
  }
}
