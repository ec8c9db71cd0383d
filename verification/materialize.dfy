/** Materialising a parsed forest on a file system: `generateStructureRecursively`
    and `createFile` of the three tree generators, run against an abstract
    file system that maps paths to directories and files. What the real file
    system would refuse is a parameter: the set of paths where creating an
    entry fails with an I/O error. */
module Materialize {
  import opened JavaText
  import opened Tree
  import opened Paths
  import opened Content

  /** A directory, or a file holding the template it was written with
      (`NoContent` for an empty file). */
  datatype Entity = Dir | File(body: Stub)

  type FS = map<Path, Entity>

  /** A run completes, or is cut short by an exception that escapes the
      generator; either way it leaves a file system behind. */
  datatype Run = Done(fs: FS) | Aborted(fs: FS)

  /** What a file receives: a template, or `None` when computing it throws
      an unchecked exception (after the file has been created). */
  type ContentOf = Path -> Option<Stub>

  // ---------------------------------------------------------------------
  // Observations

  /** `Files.exists`: an entry, or the root or working directory itself. */
  predicate Exists(fs: FS, p: Path) {
    p.segs == [] || p in fs
  }

  /** The first `k` segments of `p`. */
  function Ancestor(p: Path, k: nat): Path
    requires k <= |p.segs|
  {
    Path(p.absolute, p.segs[..k])
  }

  /** Whether `p`'s parent, if it has one, exists. */
  predicate ParentExists(fs: FS, p: Path) {
    match Parent(p)
    case None => true
    case Some(d) => Exists(fs, d)
  }

  /** Whether a file can be created below `p`'s parent. */
  predicate ParentIsDir(fs: FS, p: Path) {
    match Parent(p)
    case None => true
    case Some(d) => d.segs == [] || (d in fs && fs[d] == Dir)
  }

  /** Nothing already present is changed or removed. */
  predicate Extends(fs: FS, g: FS) {
    forall q :: q in fs ==> q in g && g[q] == fs[q]
  }

  /** A file entry holds what `content` gives for its path, or nothing when
      computing that threw. */
  predicate Written(content: ContentOf, q: Path, e: Entity) {
    e.File? && (content(q) == Some(e.body) || (content(q).None? && e.body == NoContent))
  }

  /** Every entry of `g` that `fs` lacks is a directory or a written file. */
  predicate OnlyGenerated(fs: FS, g: FS, content: ContentOf) {
    forall q :: q in g && q !in fs ==> g[q] == Dir || Written(content, q, g[q])
  }

  /** Every new entry of `g` is a directory. */
  predicate OnlyDirs(fs: FS, g: FS) {
    forall q :: q in g && q !in fs ==> g[q] == Dir
  }

  /** `createDirectories` can make every ancestor of `p` from the `k+1`-th
      on a directory: each is a directory already, or absent and allowed. */
  predicate CanMakeFrom(fs: FS, p: Path, k: nat, denied: set<Path>)
    requires k <= |p.segs|
  {
    forall j :: k < j <= |p.segs| ==>
      if Ancestor(p, j) in fs then fs[Ancestor(p, j)] == Dir else Ancestor(p, j) !in denied
  }

  // ---------------------------------------------------------------------
  // Operations

  /** `createDirectories`, from the `k+1`-th ancestor of `p` down to `p`:
      an existing file in the way or a refused creation is an `IOException`,
      which no caller catches. */
  function MakeDirsFrom(fs: FS, p: Path, k: nat, denied: set<Path>): (r: Run)
    requires k <= |p.segs|
    ensures Extends(fs, r.fs) && OnlyDirs(fs, r.fs)
    ensures r.Done? <==> CanMakeFrom(fs, p, k, denied)
    ensures r.Done? ==> forall j :: k < j <= |p.segs| ==> Ancestor(p, j) in r.fs && r.fs[Ancestor(p, j)] == Dir
    decreases |p.segs| - k
  {
    if k == |p.segs| then Done(fs)
    else
      var q := Ancestor(p, k + 1);
      if q in fs then
        if fs[q] == Dir then MakeDirsFrom(fs, p, k + 1, denied) else Aborted(fs)
      else if q in denied then Aborted(fs)
      else
        AncestorsDistinct(p, k + 1);
        MakeDirsFrom(fs[q := Dir], p, k + 1, denied)
  }

  /** `Files.createDirectories(p)`. */
  function MakeDirs(fs: FS, p: Path, denied: set<Path>): Run {
    MakeDirsFrom(fs, p, 0, denied)
  }

  /** `createFile`: the parent's directories are made when the parent is
      missing; an existing path is left alone; otherwise the file is
      created and written. A refused creation, or a parent that is a file,
      is an `IOException`: with `catching` it is reported and swallowed
      (`_22`, `v5`), without it the run is cut short (`v2`). A content
      computation that throws cuts the run short with the file empty. */
  function CreateFile(catching: bool, content: ContentOf, fs: FS, p: Path, denied: set<Path>): (r: Run)
    ensures Extends(fs, r.fs) && OnlyGenerated(fs, r.fs, content)
  {
    var made :=
      match Parent(p)
      case None => Done(fs)
      case Some(d) => if Exists(fs, d) then Done(fs) else MakeDirs(fs, d, denied);
    if made.Aborted? then made
    else
      var g := made.fs;
      if Exists(g, p) then Done(g)
      else if p in denied || !ParentIsDir(g, p) then
        if catching then Done(g) else Aborted(g)
      else match content(p)
        case None => Aborted(g[p := File(NoContent)])
        case Some(s) => Done(g[p := File(s)])
  }

  /** `generateStructureRecursively`: each item is resolved below `parent`;
      a file is created, a missing directory is made and then a directory's
      children are generated below it, in order, until a step is cut short. */
  function Generate(catching: bool, content: ContentOf, fs: FS, items: seq<Node>, parent: Path, denied: set<Path>): (r: Run)
    ensures Extends(fs, r.fs) && OnlyGenerated(fs, r.fs, content)
    decreases items
  {
    if |items| == 0 then Done(fs)
    else
      var p := Resolve(parent, items[0].name);
      var r0 :=
        if items[0].isFile then CreateFile(catching, content, fs, p, denied)
        else
          var made := if Exists(fs, p) then Done(fs) else MakeDirs(fs, p, denied);
          if made.Aborted? then made
          else Generate(catching, content, made.fs, items[0].children, p, denied);
      if r0.Aborted? then r0
      else Generate(catching, content, r0.fs, items[1..], parent, denied)
  }

  /** What the `_22` and `v5` generators write: the template chosen from
      the file name and path, with the package walk as intended. */
  function Content22(p: Path): Option<Stub> {
    Some(BasicContent(LastName(p), p))
  }

  /** The same with the package walk as written: a Java source whose walk
      dereferences the root's missing file name throws. */
  function Content22AsWritten(p: Path): Option<Stub> {
    var n := LastName(p);
    if EndsWith(n, ".java") && PackageAsWritten(p).Crash? then None
    else Some(BasicContent(n, p))
  }

  /** What the `v2` generator writes. */
  function ContentV2(p: Path): Option<Stub> {
    Some(BasicContentV2(LastName(p)))
  }

  /** The file name of a path, as a string. */
  function LastName(p: Path): String {
    match FileName(p)
    case Some(n) => n
    case None => []
  }

  // ---------------------------------------------------------------------
  // A forest already in place

  /** A file item is in place: its parent exists, and the file exists, or
      (when failures are swallowed) creating it fails for a reason that
      persists. */
  predicate FileSettled(catching: bool, fs: FS, p: Path, denied: set<Path>) {
    && ParentExists(fs, p)
    && (Exists(fs, p) || (catching && (p in denied || !ParentIsDir(fs, p))))
  }

  /** Every item of the forest is in place below `parent`. */
  predicate Settled(catching: bool, fs: FS, items: seq<Node>, parent: Path, denied: set<Path>)
    decreases items
  {
    |items| == 0 ||
    (var p := Resolve(parent, items[0].name);
     && (if items[0].isFile then FileSettled(catching, fs, p, denied)
         else Exists(fs, p) && Settled(catching, fs, items[0].children, p, denied))
     && Settled(catching, fs, items[1..], parent, denied))
  }

  // ---------------------------------------------------------------------
  // Lemmas

  lemma AncestorsDistinct(p: Path, k: nat)
    requires 0 < k <= |p.segs|
    ensures forall j :: k < j <= |p.segs| ==> Ancestor(p, j) != Ancestor(p, k)
  {
    forall j | k < j <= |p.segs|
      ensures Ancestor(p, j) != Ancestor(p, k)
    {
      assert |Ancestor(p, j).segs| == j;
    }
  }

  /** Being in place survives growth of the file system. */
  lemma {:induction false} FileSettledGrows(catching: bool, fs: FS, g: FS, p: Path, denied: set<Path>)
    requires FileSettled(catching, fs, p, denied) && Extends(fs, g)
    ensures FileSettled(catching, g, p, denied)
  {
  }

  lemma {:induction false} SettledGrows(catching: bool, fs: FS, g: FS, items: seq<Node>, parent: Path, denied: set<Path>)
    requires Settled(catching, fs, items, parent, denied) && Extends(fs, g)
    ensures Settled(catching, g, items, parent, denied)
    decreases items
  {
    if |items| > 0 {
      var p := Resolve(parent, items[0].name);
      if items[0].isFile {
        FileSettledGrows(catching, fs, g, p, denied);
      } else {
        SettledGrows(catching, fs, g, items[0].children, p, denied);
      }
      SettledGrows(catching, fs, g, items[1..], parent, denied);
    }
  }

  /** A `createFile` that completes leaves its file in place. */
  lemma CreateFileSettles(catching: bool, content: ContentOf, fs: FS, p: Path, denied: set<Path>)
    requires CreateFile(catching, content, fs, p, denied).Done?
    ensures FileSettled(catching, CreateFile(catching, content, fs, p, denied).fs, p, denied)
  {
    match Parent(p)
    case None =>
    case Some(d) =>
      if !Exists(fs, d) {
        var made := MakeDirs(fs, d, denied);
        assert d == Ancestor(d, |d.segs|);
      }
  }

  /** A completed run leaves the whole forest in place. */
  lemma {:induction false} GenerateSettles(catching: bool, content: ContentOf, fs: FS, items: seq<Node>, parent: Path, denied: set<Path>)
    requires Generate(catching, content, fs, items, parent, denied).Done?
    ensures Settled(catching, Generate(catching, content, fs, items, parent, denied).fs, items, parent, denied)
    decreases items
  {
    if |items| > 0 {
      var p := Resolve(parent, items[0].name);
      var fs1: FS;
      if items[0].isFile {
        fs1 := CreateFile(catching, content, fs, p, denied).fs;
        CreateFileSettles(catching, content, fs, p, denied);
      } else {
        var made := if Exists(fs, p) then Done(fs) else MakeDirs(fs, p, denied);
        if !Exists(fs, p) {
          assert p == Ancestor(p, |p.segs|);
        }
        fs1 := Generate(catching, content, made.fs, items[0].children, p, denied).fs;
        GenerateSettles(catching, content, made.fs, items[0].children, p, denied);
      }
      var fs2 := Generate(catching, content, fs1, items[1..], parent, denied).fs;
      GenerateSettles(catching, content, fs1, items[1..], parent, denied);
      if items[0].isFile {
        FileSettledGrows(catching, fs1, fs2, p, denied);
      } else {
        SettledGrows(catching, fs1, fs2, items[0].children, p, denied);
      }
    }
  }

  /** Over a forest already in place, a run completes and changes nothing. */
  lemma {:induction false} SettledIsFixed(catching: bool, content: ContentOf, fs: FS, items: seq<Node>, parent: Path, denied: set<Path>)
    requires Settled(catching, fs, items, parent, denied)
    ensures Generate(catching, content, fs, items, parent, denied) == Done(fs)
    decreases items
  {
    if |items| > 0 {
      var p := Resolve(parent, items[0].name);
      if !items[0].isFile {
        SettledIsFixed(catching, content, fs, items[0].children, p, denied);
      }
      SettledIsFixed(catching, content, fs, items[1..], parent, denied);
    }
  }

  /** Running a generator a second time over what its first run left
      changes nothing. */
  lemma GenerateIdempotent(catching: bool, content: ContentOf, fs: FS, items: seq<Node>, parent: Path, denied: set<Path>)
    requires Generate(catching, content, fs, items, parent, denied).Done?
    ensures var g := Generate(catching, content, fs, items, parent, denied).fs;
            Generate(catching, content, g, items, parent, denied) == Done(g)
  {
    GenerateSettles(catching, content, fs, items, parent, denied);
    SettledIsFixed(catching, content, Generate(catching, content, fs, items, parent, denied).fs, items, parent, denied);
  }

  /** `_22` and `v5`: a file whose creation is refused is skipped, and its
      later siblings are still generated. */
  lemma RefusedFileSwallowed(content: ContentOf, fs: FS, n: Node, rest: seq<Node>, parent: Path, denied: set<Path>)
    requires n.isFile && ParentExists(fs, Resolve(parent, n.name))
    requires !Exists(fs, Resolve(parent, n.name)) && Resolve(parent, n.name) in denied
    ensures Generate(true, content, fs, [n] + rest, parent, denied) == Generate(true, content, fs, rest, parent, denied)
  {
    assert ([n] + rest)[1..] == rest;
  }

  /** `v2`: the same refusal cuts the run short, and no later sibling is
      generated. */
  lemma RefusedFileAborts(content: ContentOf, fs: FS, n: Node, rest: seq<Node>, parent: Path, denied: set<Path>)
    requires n.isFile && ParentExists(fs, Resolve(parent, n.name))
    requires !Exists(fs, Resolve(parent, n.name)) && Resolve(parent, n.name) in denied
    ensures Generate(false, content, fs, [n] + rest, parent, denied) == Aborted(fs)
  {
  }

  /** A new file receives exactly its template, in every variant. */
  lemma NewFileWritten(catching: bool, content: ContentOf, fs: FS, p: Path, denied: set<Path>)
    requires ParentExists(fs, p) && ParentIsDir(fs, p) && !Exists(fs, p) && p !in denied
    requires content(p).Some?
    ensures CreateFile(catching, content, fs, p, denied) == Done(fs[p := File(content(p).value)])
  {
  }

  /** The `v2` template of a new file depends on its name alone. */
  lemma NewFileWrittenV2(catching: bool, fs: FS, p: Path, denied: set<Path>)
    requires ParentExists(fs, p) && ParentIsDir(fs, p) && !Exists(fs, p) && p !in denied
    ensures CreateFile(catching, ContentV2, fs, p, denied) == Done(fs[p := File(BasicContentV2(LastName(p)))])
  {
    NewFileWritten(catching, ContentV2, fs, p, denied);
  }

  /** An existing file is never rewritten, whatever it holds. */
  lemma ExistingFileKept(catching: bool, content: ContentOf, fs: FS, p: Path, denied: set<Path>)
    requires ParentExists(fs, p) && p in fs
    ensures CreateFile(catching, content, fs, p, denied) == Done(fs)
  {
  }

  /** With the package walk as written, a Java source at an absolute path
      with no `java` ancestor is created empty and the run stops there; as
      intended it receives its class. */
  lemma AbsoluteJavaFileStopsRun(catching: bool, fs: FS, denied: set<Path>)
    requires Path(true, ["tmp"]) in fs && fs[Path(true, ["tmp"])] == Dir
    requires Path(true, ["tmp", "Foo.java"]) !in fs && Path(true, ["tmp", "Foo.java"]) !in denied
    ensures CreateFile(catching, Content22AsWritten, fs, Path(true, ["tmp", "Foo.java"]), denied)
            == Aborted(fs[Path(true, ["tmp", "Foo.java"]) := File(NoContent)])
    ensures CreateFile(catching, Content22, fs, Path(true, ["tmp", "Foo.java"]), denied).Done?
  {
    var p := Path(true, ["tmp", "Foo.java"]);
    AbsolutePathCrashes();
    assert p.segs[..1] == ["tmp"];
    assert Parent(p) == Some(Path(true, ["tmp"]));
    assert LastName(p) == "Foo.java";
    assert "Foo.java"[|"Foo.java"| - 5..] == ".java";
  }
}
