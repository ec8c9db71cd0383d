/** The initial content a generator writes into a file it creates, chosen
    from the file name (and, for Java sources, the path). The template texts
    themselves are opaque: a `Stub` names the template and the values
    spliced into it. */
module Content {
  import opened JavaText
  import opened Paths

  /** The four shapes of a generated Java source. */
  datatype JavaKind = TestClass | ExceptionClass | Interface | PlainClass

  /** Which template a file receives. `pkg` is empty when no `package` line
      is written. `GitignoreStub` and `GitignoreStubV2` are two different
      texts, as are `JavaSource` and the one-line `OneLineClass`. */
  datatype Stub =
    | JavaSource(pkg: seq<String>, name: String, kind: JavaKind)
    | OneLineClass(name: String)
    | XmlStub
    | PropertiesStub
    | MarkdownStub(title: String)
    | GitignoreStub
    | GitignoreStubV2
    | PomStub
    | GradleStub
    | YamlStub
    | JsonStub
    | HtmlStub(title: String)
    | CssStub
    | JsStub
    | SqlStub
    | NoContent

  // ---------------------------------------------------------------------
  // Names

  /** `substring(0, lastIndexOf('.'))`; every caller has a `.` in the name. */
  function Stem(f: String): String {
    var i := LastIndexOf(f, '.');
    if i < 0 then f else f[..i]
  }

  /** The text after the last `.`, if there is one. */
  function Extension(f: String): Option<String> {
    var i := LastIndexOf(f, '.');
    if i < 0 then None else Some(f[i + 1..])
  }

  /** The class shape, by precedence: a `Test` suffix, then an `Exception`
      suffix, then an `Interface` suffix or a leading `I`. */
  function Kind(className: String): JavaKind {
    if EndsWith(className, "Test") then TestClass
    else if EndsWith(className, "Exception") then ExceptionClass
    else if EndsWith(className, "Interface") || StartsWith(className, "I") then Interface
    else PlainClass
  }

  // ---------------------------------------------------------------------
  // Package inference

  /** The outcome of walking up from a directory to a `java` ancestor. */
  datatype Walk = Found(parts: seq<String>) | NotFound | Crash

  /** The walk of `generateJavaContent` as written: each ancestor's file
      name is dereferenced, and the root has none, so reaching the root of
      an absolute path without meeting `java` is a `NullPointerException`. */
  function WalkAsWritten(dir: Path, parts: seq<String>): Walk
    decreases |dir.segs|
  {
    match FileName(dir)
    case None => Crash
    case Some(name) =>
      if name == "java" then Found(parts)
      else match Parent(dir)
        case None => NotFound
        case Some(up) => WalkAsWritten(up, [name] + parts)
  }

  /** The package walk as written, from a file path. */
  function PackageAsWritten(file: Path): Walk {
    match Parent(file)
    case None => NotFound
    case Some(dir) => WalkAsWritten(dir, [])
  }

  /** The walk as intended: the root ends the walk like a missing parent. */
  function WalkUp(dir: Path, parts: seq<String>): (r: Walk)
    ensures !r.Crash?
    decreases |dir.segs|
  {
    match FileName(dir)
    case None => NotFound
    case Some(name) =>
      if name == "java" then Found(parts)
      else match Parent(dir)
        case None => NotFound
        case Some(up) => WalkUp(up, [name] + parts)
  }

  /** The segments of the `package` line of a Java source at `file`; empty
      when no line is written. */
  function JavaPackage(file: Path): seq<String> {
    match Parent(file)
    case None => []
    case Some(dir) =>
      match WalkUp(dir, [])
      case Found(parts) => parts
      case _ => []
  }

  /** Index of the last segment named `java`, or -1. */
  function NearestJava(segs: seq<String>): (r: int)
    ensures -1 <= r < |segs|
    ensures r >= 0 ==> segs[r] == "java"
    ensures forall k :: r < k < |segs| ==> segs[k] != "java"
  {
    if |segs| == 0 then -1
    else if segs[|segs| - 1] == "java" then |segs| - 1
    else NearestJava(segs[..|segs| - 1])
  }

  // ---------------------------------------------------------------------
  // Template dispatch

  /** `generateBasicContent` of `_22` and `v5`: the first matching rule
      wins. `pom.xml` ends in `.xml`, so its own rule is never reached. */
  function BasicContent(f: String, file: Path): (r: Stub)
    ensures r != PomStub
    ensures r.JavaSource? <==> EndsWith(f, ".java")
  {
    if EndsWith(f, ".java") then JavaSource(JavaPackage(file), Stem(f), Kind(Stem(f)))
    else if EndsWith(f, ".xml") then XmlStub
    else if EndsWith(f, ".properties") then PropertiesStub
    else if EndsWith(f, ".md") then MarkdownStub(Stem(f))
    else if EndsWith(f, ".gitignore") then GitignoreStub
    else if f == "pom.xml" then PomStub
    else if f == "build.gradle" then GradleStub
    else if EndsWith(f, ".yml") || EndsWith(f, ".yaml") then YamlStub
    else if EndsWith(f, ".json") then JsonStub
    else if EndsWith(f, ".html") then HtmlStub(Stem(f))
    else if EndsWith(f, ".css") then CssStub
    else if EndsWith(f, ".js") then JsStub
    else if EndsWith(f, ".sql") then SqlStub
    else NoContent
  }

  /** `generateBasicContent` of `v2`: seven rules, the same unreachable
      `pom.xml` rule, and a one-line class for Java sources. */
  function BasicContentV2(f: String): (r: Stub)
    ensures r != PomStub
    ensures r.OneLineClass? <==> EndsWith(f, ".java")
  {
    if EndsWith(f, ".java") then OneLineClass(Stem(f))
    else if EndsWith(f, ".xml") then XmlStub
    else if EndsWith(f, ".properties") then PropertiesStub
    else if EndsWith(f, ".md") then MarkdownStub(Stem(f))
    else if EndsWith(f, ".gitignore") then GitignoreStubV2
    else if f == "pom.xml" then PomStub
    else if f == "build.gradle" then GradleStub
    else NoContent
  }

  /** The dispatch of `_22` and `v5` as a table keyed by extension, with no
      order between the rows. */
  function ContentByExtension(f: String, file: Path): Stub {
    match Extension(f)
    case None => NoContent
    case Some(e) =>
      if e == "java" then JavaSource(JavaPackage(file), Stem(f), Kind(Stem(f)))
      else if e == "xml" then XmlStub
      else if e == "properties" then PropertiesStub
      else if e == "md" then MarkdownStub(Stem(f))
      else if e == "gitignore" then GitignoreStub
      else if f == "build.gradle" then GradleStub
      else if e == "yml" || e == "yaml" then YamlStub
      else if e == "json" then JsonStub
      else if e == "html" then HtmlStub(Stem(f))
      else if e == "css" then CssStub
      else if e == "js" then JsStub
      else if e == "sql" then SqlStub
      else NoContent
  }

  /** The dispatch of `v2` as a table keyed by extension. */
  function ContentByExtensionV2(f: String): Stub {
    match Extension(f)
    case None => NoContent
    case Some(e) =>
      if e == "java" then OneLineClass(Stem(f))
      else if e == "xml" then XmlStub
      else if e == "properties" then PropertiesStub
      else if e == "md" then MarkdownStub(Stem(f))
      else if e == "gitignore" then GitignoreStubV2
      else if f == "build.gradle" then GradleStub
      else NoContent
  }

  // ---------------------------------------------------------------------
  // Lemmas

  /** A suffix `.e`, with no `.` in `e`, is exactly extension `e`. */
  lemma SuffixIsExtension(f: String, s: String)
    requires |s| > 0 && s[0] == '.' && forall k :: 1 <= k < |s| ==> s[k] != '.'
    ensures EndsWith(f, s) <==> Extension(f) == Some(s[1..])
  {
    var i := LastIndexOf(f, '.');
    if EndsWith(f, s) {
      var j := |f| - |s|;
      assert f[j..] == s;
      assert f[j] == s[0];
      assert forall k :: j < k < |f| ==> f[k] == s[k - j];
      LastIndexOfExact(f, '.', j);
      assert f[j + 1..] == s[1..];
    }
    if Extension(f) == Some(s[1..]) {
      assert f[i + 1..] == s[1..];
      assert f[i..] == [f[i]] + f[i + 1..];
      assert f[|f| - |s|..] == f[i..];
    }
  }

  /** `SuffixIsExtension` for a literal suffix, stated without slicing. */
  lemma Suffix(f: String, s: String, e: String)
    requires s == "." + e && forall k :: 0 <= k < |e| ==> e[k] != '.'
    ensures EndsWith(f, s) == (Extension(f) == Some(e))
  {
    assert s[1..] == e;
    SuffixIsExtension(f, s);
  }

  /** The suffix tests of the dispatch, each as an extension test. */
  lemma SuffixesAreExtensions(f: String)
    ensures EndsWith(f, ".java") == (Extension(f) == Some("java"))
    ensures EndsWith(f, ".xml") == (Extension(f) == Some("xml"))
    ensures EndsWith(f, ".properties") == (Extension(f) == Some("properties"))
    ensures EndsWith(f, ".md") == (Extension(f) == Some("md"))
    ensures EndsWith(f, ".gitignore") == (Extension(f) == Some("gitignore"))
    ensures EndsWith(f, ".yml") == (Extension(f) == Some("yml"))
    ensures EndsWith(f, ".yaml") == (Extension(f) == Some("yaml"))
    ensures EndsWith(f, ".json") == (Extension(f) == Some("json"))
    ensures EndsWith(f, ".html") == (Extension(f) == Some("html"))
    ensures EndsWith(f, ".css") == (Extension(f) == Some("css"))
    ensures EndsWith(f, ".js") == (Extension(f) == Some("js"))
    ensures EndsWith(f, ".sql") == (Extension(f) == Some("sql"))
  {
    Suffix(f, ".java", "java");
    Suffix(f, ".xml", "xml");
    Suffix(f, ".properties", "properties");
    Suffix(f, ".md", "md");
    Suffix(f, ".gitignore", "gitignore");
    Suffix(f, ".yml", "yml");
    Suffix(f, ".yaml", "yaml");
    Suffix(f, ".json", "json");
    Suffix(f, ".html", "html");
    Suffix(f, ".css", "css");
    Suffix(f, ".js", "js");
    Suffix(f, ".sql", "sql");
  }

  /** `build.gradle` has extension `gradle`. */
  lemma GradleExtension()
    ensures Extension("build.gradle") == Some("gradle")
  {
    LastIndexOfExact("build.gradle", '.', 5);
  }

  /** The ordered dispatch of `_22` and `v5` is the extension table: no two
      rules compete for a name, except `.xml` and `pom.xml`, where the
      earlier rule wins. */
  lemma DispatchIsExtensionTable(f: String, file: Path)
    ensures BasicContent(f, file) == ContentByExtension(f, file)
  {
    PomIsXml();
    if EndsWith(f, ".java") || EndsWith(f, ".xml") || EndsWith(f, ".properties") || EndsWith(f, ".md") || EndsWith(f, ".gitignore") {
      DispatchEarlyRules(f, file);
    } else if f == "build.gradle" {
      DispatchGradle(file);
    } else if EndsWith(f, ".yml") || EndsWith(f, ".yaml") || EndsWith(f, ".json") || EndsWith(f, ".html") {
      DispatchMiddleRules(f, file);
    } else {
      DispatchTailRules(f, file);
    }
  }

  /** The five rules before `pom.xml`. */
  lemma DispatchEarlyRules(f: String, file: Path)
    requires EndsWith(f, ".java") || EndsWith(f, ".xml") || EndsWith(f, ".properties") || EndsWith(f, ".md") || EndsWith(f, ".gitignore")
    ensures BasicContent(f, file) == ContentByExtension(f, file)
  {
    SuffixesAreExtensions(f);
  }

  lemma PomIsXml()
    ensures EndsWith("pom.xml", ".xml")
  {
    assert "pom.xml"[7 - 4..] == ".xml";
  }

  /** The four rules after `build.gradle`. */
  lemma DispatchMiddleRules(f: String, file: Path)
    requires !(EndsWith(f, ".java") || EndsWith(f, ".xml") || EndsWith(f, ".properties") || EndsWith(f, ".md") || EndsWith(f, ".gitignore"))
    requires f != "pom.xml" && f != "build.gradle"
    requires EndsWith(f, ".yml") || EndsWith(f, ".yaml") || EndsWith(f, ".json") || EndsWith(f, ".html")
    ensures BasicContent(f, file) == ContentByExtension(f, file)
  {
    SuffixesAreExtensions(f);
    var x := Extension(f).value;
    assert x != "java" && x != "xml" && x != "properties" && x != "md" && x != "gitignore";
    assert (x == "yml" || x == "yaml") == (EndsWith(f, ".yml") || EndsWith(f, ".yaml"));
    assert (x == "json") == EndsWith(f, ".json");
  }

  /** The last three rules and the fall-through. */
  lemma DispatchTailRules(f: String, file: Path)
    requires !(EndsWith(f, ".java") || EndsWith(f, ".xml") || EndsWith(f, ".properties") || EndsWith(f, ".md") || EndsWith(f, ".gitignore"))
    requires f != "pom.xml" && f != "build.gradle"
    requires !(EndsWith(f, ".yml") || EndsWith(f, ".yaml") || EndsWith(f, ".json") || EndsWith(f, ".html"))
    ensures BasicContent(f, file) == ContentByExtension(f, file)
  {
    SuffixesAreExtensions(f);
    var e := Extension(f);
    if e.Some? {
      var x := e.value;
      assert x != "java" && x != "xml" && x != "properties" && x != "md" && x != "gitignore";
      assert x != "yml" && x != "yaml" && x != "json" && x != "html";
      assert (x == "css") == EndsWith(f, ".css");
      assert (x == "js") == EndsWith(f, ".js");
      assert (x == "sql") == EndsWith(f, ".sql");
    }
  }

  lemma DispatchGradle(file: Path)
    ensures BasicContent("build.gradle", file) == GradleStub == ContentByExtension("build.gradle", file)
  {
    SuffixesAreExtensions("build.gradle");
    GradleExtension();
  }

  /** The same for `v2`. */
  lemma DispatchIsExtensionTableV2(f: String)
    ensures BasicContentV2(f) == ContentByExtensionV2(f)
  {
    SuffixesAreExtensions(f);
    PomIsXml();
    if f == "build.gradle" {
      GradleExtension();
    } else if Extension(f).Some? {
      var x := Extension(f).value;
      assert (x == "java") == EndsWith(f, ".java");
      assert (x == "xml") == EndsWith(f, ".xml");
      assert (x == "properties") == EndsWith(f, ".properties");
      assert (x == "md") == EndsWith(f, ".md");
      assert (x == "gitignore") == EndsWith(f, ".gitignore");
    }
  }

  /** `pom.xml` receives the generic XML stub in every variant. */
  lemma PomGetsXmlStub(file: Path)
    ensures BasicContent("pom.xml", file) == XmlStub
    ensures BasicContentV2("pom.xml") == XmlStub
  {
    assert "pom.xml"[7 - 4..] == ".xml";
    assert !EndsWith("pom.xml", ".java") by {
      assert "pom.xml"[7 - 5..] != ".java";
    }
  }

  /** Kind precedence: a `Test` suffix beats everything, an `Exception`
      suffix beats the interface rules, and any other name with a leading
      `I` is an interface, whether or not an upper-case letter follows. */
  lemma KindPrecedence(c: String)
    ensures EndsWith(c, "Test") ==> Kind(c) == TestClass
    ensures !EndsWith(c, "Test") && EndsWith(c, "Exception") ==> Kind(c) == ExceptionClass
    ensures !EndsWith(c, "Test") && !EndsWith(c, "Exception") && |c| > 0 && c[0] == 'I' ==> Kind(c) == Interface
    ensures Kind(c) == PlainClass <==>
              !EndsWith(c, "Test") && !EndsWith(c, "Exception") && !EndsWith(c, "Interface") && (|c| == 0 || c[0] != 'I')
  {
    if |c| > 0 {
      StartsWithChar(c, 'I');
    }
  }

  /** Where the walk from `dir` ends, in closed form: the segments below
      the nearest `java` ancestor; `orElse` when there is none. */
  function ClosedWalk(dir: Path, parts: seq<String>, orElse: Walk): Walk {
    var i := NearestJava(dir.segs);
    if i >= 0 then Found(dir.segs[i + 1..] + parts) else orElse
  }

  /** Stepping up past a directory not named `java` keeps the closed form. */
  lemma ClosedWalkStep(dir: Path, up: Path, name: String, parts: seq<String>, orElse: Walk)
    requires |dir.segs| > 0 && name == dir.segs[|dir.segs| - 1] && name != "java"
    requires up.segs == dir.segs[..|dir.segs| - 1]
    ensures ClosedWalk(up, [name] + parts, orElse) == ClosedWalk(dir, parts, orElse)
  {
    var segs := dir.segs;
    var i := NearestJava(segs);
    assert NearestJava(up.segs) == i;
    if i >= 0 {
      assert segs[i + 1..] == up.segs[i + 1..] + [name];
    }
  }

  /** The walk as written, in closed form: the segments below the nearest
      `java` ancestor, else a crash for an absolute path and nothing for a
      relative one. */
  lemma {:induction false} WalkAsWrittenClosedForm(dir: Path, parts: seq<String>)
    ensures WalkAsWritten(dir, parts) == ClosedWalk(dir, parts, if dir.absolute then Crash else NotFound)
    decreases |dir.segs|
  {
    var segs := dir.segs;
    var orElse := if dir.absolute then Crash else NotFound;
    if |segs| > 0 {
      var name := segs[|segs| - 1];
      if name == "java" {
        assert segs[|segs| - 1 + 1..] == [];
      } else if Parent(dir).Some? {
        var up := Parent(dir).value;
        assert WalkAsWritten(dir, parts) == WalkAsWritten(up, [name] + parts);
        WalkAsWrittenClosedForm(up, [name] + parts);
        ClosedWalkStep(dir, up, name, parts, orElse);
      }
    }
  }

  /** The corrected walk, in closed form: the segments below the nearest
      `java` ancestor, else nothing. */
  lemma {:induction false} WalkUpClosedForm(dir: Path, parts: seq<String>)
    ensures WalkUp(dir, parts) == ClosedWalk(dir, parts, NotFound)
    decreases |dir.segs|
  {
    var segs := dir.segs;
    if |segs| > 0 {
      var name := segs[|segs| - 1];
      if name == "java" {
        assert segs[|segs| - 1 + 1..] == [];
      } else if Parent(dir).Some? {
        var up := Parent(dir).value;
        assert WalkUp(dir, parts) == WalkUp(up, [name] + parts);
        WalkUpClosedForm(up, [name] + parts);
        ClosedWalkStep(dir, up, name, parts, NotFound);
      }
    }
  }

  /** The package of a Java source is the list of directories strictly
      between its nearest `java` ancestor and the file; there is none when
      no ancestor is named `java`. */
  lemma JavaPackageIsNearestJava(file: Path)
    ensures var dirs := if |file.segs| > 0 then file.segs[..|file.segs| - 1] else [];
            var i := NearestJava(dirs);
            JavaPackage(file) == if i >= 0 then dirs[i + 1..] else []
  {
    if Parent(file).Some? {
      var dir := Parent(file).value;
      WalkUpClosedForm(dir, []);
      var i := NearestJava(dir.segs);
      if i >= 0 {
        assert dir.segs[i + 1..] + [] == dir.segs[i + 1..];
      }
    } else if |file.segs| == 1 {
      assert file.segs[..0] == [];
    }
  }

  /** The walk as written crashes exactly on absolute paths with no `java`
      ancestor; everywhere else it agrees with the corrected walk. */
  lemma CrashExactly(file: Path)
    ensures PackageAsWritten(file).Crash? <==>
              file.absolute && |file.segs| > 0 && NearestJava(file.segs[..|file.segs| - 1]) < 0
    ensures !PackageAsWritten(file).Crash? ==>
              JavaPackage(file) == match PackageAsWritten(file) case Found(parts) => parts case _ => []
  {
    match Parent(file)
    case None =>
    case Some(dir) =>
      WalkAsWrittenClosedForm(dir, []);
      WalkUpClosedForm(dir, []);
  }

  /** A Java source written straight into an absolute output directory,
      such as `/tmp/Foo.java`, crashes the walk as written. */
  lemma AbsolutePathCrashes()
    ensures PackageAsWritten(Path(true, ["tmp", "Foo.java"])) == Crash
  {
    CrashExactly(Path(true, ["tmp", "Foo.java"]));
    assert ["tmp", "Foo.java"][..1] == ["tmp"];
  }

  /** A Java source below `src/main/java/com/acme` gets package
      `com.acme`. */
  lemma PackageExample()
    ensures JavaPackage(Path(false, ["app", "src", "main", "java", "com", "acme", "App.java"])) == ["com", "acme"]
  {
    var file := Path(false, ["app", "src", "main", "java", "com", "acme", "App.java"]);
    JavaPackageIsNearestJava(file);
    var dirs := file.segs[..6];
    assert dirs == ["app", "src", "main", "java", "com", "acme"];
    assert dirs[4] != "java" && dirs[5] != "java";
    assert NearestJava(dirs) == 3;
    assert dirs[4..] == ["com", "acme"];
  }
}
