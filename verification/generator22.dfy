/** The line-level functions of the `_22` generator: which lines are part
    of a tree diagram, and which name a line yields after sanitising. The
    nesting level is the shared `Indent.IndentLevel`. */
module Generator22 {
  import opened JavaText
  import opened Indent
  import opened Tree
  import opened Scan
  import opened Diagram

  // ---------------------------------------------------------------------
  // Structure lines

  /** `[A-Z][a-z]+:.*` as a whole-string match: a capitalised word directly
      followed by a colon, as in `Usage:` or `Build:`. */
  predicate IsProseLabel(t: String) {
    && |t| >= 3
    && IsAsciiUpper(t[0])
    && var q := 1 + RunLen(t[1..], IsAsciiLower);
       q >= 2 && q < |t| && t[q] == ':' && AllDot(t[q + 1..])
  }

  /** The skip list applied to the trimmed line. */
  predicate IsSkipped(t: String) {
    || t == []
    || StartsWith(t, "#")
    || StartsWith(t, "//")
    || StartsWith(t, "```")
    || StartsWith(t, "*")
    || StartsWith(t, "<")
    || StartsWith(t, "xmlns")
    || Contains(t, "=\"")
    || StartsWith(t, "<?xml")
    || StartsWith(t, "<!--")
    || Contains(t, "://")
    || StartsWith(t, "Usage:")
    || StartsWith(t, "Example:")
    || StartsWith(t, "Note:")
    || IsProseLabel(t)
    || StartsWith(t, "---")
    || StartsWith(t, "##")
    || t == "Project Structure"
    || t == "File Contents"
  }

  /** Characters allowed before a connector: `\s` and the vertical bar. */
  predicate IsPrefixChar(c: char) {
    IsRegexSpace(c) || c == Vertical
  }

  predicate IsConnector(c: char) {
    c == Tee || c == Corner
  }

  /** `^\s*[│\s]*[├└]──\s*.*` as a whole-string match. The prefix classes
      cannot hold a connector, so the connector sits right after the longest
      run of prefix characters; after it and any `\s`, the rest must avoid
      line terminators. The two narrower patterns `_22` tries first,
      `^\s*[├└]──\s*.*` and `^\s*│\s*[├└]──\s*.*`, are special cases. */
  predicate HasTreeSymbols(line: String) {
    var p := RunLen(line, IsPrefixChar);
    && p + 3 <= |line|
    && IsConnector(line[p]) && line[p + 1] == Horizontal && line[p + 2] == Horizontal
    && var rest := line[p + 3..];
       AllDot(rest[RunLen(rest, IsRegexSpace)..])
  }

  /** `[a-zA-Z0-9][a-zA-Z0-9._-]*` as a whole-string match. */
  predicate IsPlainName(t: String) {
    |t| >= 1 && IsAsciiAlnum(t[0]) && forall k :: 1 <= k < |t| ==> IsNameChar(t[k])
  }

  /** `\.[a-zA-Z0-9][a-zA-Z0-9._-]*` as a whole-string match. */
  predicate IsHiddenName(t: String) {
    |t| >= 2 && t[0] == '.' && IsPlainName(t[1..])
  }

  /** A line that does not begin with a space or a tab. */
  predicate AtColumnZero(line: String) {
    !StartsWith(line, " ") && !StartsWith(line, "\t")
  }

  /** An unindented `name/` line, taken as the project's root folder. */
  predicate IsRootFolder(line: String) {
    var t := Trim(line);
    AtColumnZero(line) && EndsWith(t, "/") && |t| >= 2 && IsPlainName(t[..|t| - 1])
  }

  /** `isStructureLine`. */
  predicate IsStructureLine(line: String) {
    !IsSkipped(Trim(line)) && (HasTreeSymbols(line) || IsRootFolder(line))
  }

  // ---------------------------------------------------------------------
  // Names

  /** One of the characters `: " < > | ? * =` rejected as illegal. */
  predicate HasIllegalChar(t: String) {
    || Contains(t, ":") || Contains(t, "\"") || Contains(t, "<") || Contains(t, ">")
    || Contains(t, "|") || Contains(t, "?") || Contains(t, "*") || Contains(t, "=")
  }

  /** `[A-Z][a-z]+.*` as a whole-string match: the name starts like a word
      of prose. */
  predicate LooksLikeSentence(t: String) {
    |t| >= 2 && IsAsciiUpper(t[0]) && IsAsciiLower(t[1]) && AllDot(t[2..])
  }

  /** The names `validateAndCleanName` lets through, for an already trimmed
      name: at most 50 characters, a plain or dot-prefixed name, and not
      starting with a capital followed by a lower-case letter. */
  predicate IsValidName(t: String) {
    && 0 < |t| <= 50
    && (IsPlainName(t) || IsHiddenName(t))
    && !(|t| >= 2 && IsAsciiUpper(t[0]) && IsAsciiLower(t[1]))
  }

  /** `validateAndCleanName`: trims, then rejects illegal characters,
      spaces, over-long names, sentence-like names and anything that is not a
      plain or dot-prefixed name. */
  function ValidateAndCleanName(name: String): (r: Option<String>)
    ensures r.Some? <==> IsValidName(Trim(name))
    ensures r.Some? ==> r.value == Trim(name)
    ensures r.Some? ==> forall k :: 0 <= k < |r.value| ==> IsNameChar(r.value[k])
  {
    var t := Trim(name);
    ValidNameChars(t);
    assert t != [] ==> name != [];
    if name == [] then None
    else if HasIllegalChar(t) then None
    else if Contains(t, " ") || |t| > 50 || LooksLikeSentence(t) || t == [] then None
    else if IsPlainName(t) || IsHiddenName(t) then Some(t)
    else None
  }

  /** `extractItemName`. An unindented line whose trimmed text ends in `/`
      always takes the root-folder branch, whatever glyphs it holds;
      otherwise the text after the first `├──` (else `└──`) is trimmed, loses
      one trailing `/`, is cut at the first `#`, and is validated. */
  function ExtractItemName(line: String): (r: Option<String>)
    ensures r.Some? ==> IsValidName(r.value) && Trim(r.value) == r.value
  {
    var t := Trim(line);
    var r :=
      if AtColumnZero(line) && EndsWith(t, "/") then ValidateAndCleanName(t[..|t| - 1])
      else if HasTreeSymbols(line) then
        var idx := ConnectorIndex(line);
        if idx == -1 then None else AfterConnector(line, idx)
      else None;
    if r.Some? then TrimOfValid(r.value); r else r
  }

  /** The name a connector at `idx` introduces. */
  function AfterConnector(line: String, idx: nat): Option<String>
    requires idx + 3 <= |line|
  {
    ValidateAndCleanName(NameAfter(line[idx + 3..]))
  }

  /** Position of the first `├──`, or else of the first `└──`, or -1. */
  function ConnectorIndex(line: String): (idx: int)
    ensures idx == -1 || idx + 3 <= |line|
  {
    var tee := IndexOf(line, [Tee, Horizontal, Horizontal]);
    if tee != -1 then tee else IndexOf(line, [Corner, Horizontal, Horizontal])
  }

  /** The text after a connector, trimmed, without one trailing `/` (unless
      that is all there is), and cut at the first `#`. */
  function NameAfter(tail: String): String {
    var n1 := Trim(tail);
    var n2 := if EndsWith(n1, "/") && |n1| > 1 then n1[..|n1| - 1] else n1;
    CutComment(n2)
  }

  /** `name.substring(0, name.indexOf("#")).trim()` when a `#` is present. */
  function CutComment(n: String): String {
    var h := IndexOf(n, "#");
    if h >= 0 then Trim(n[..h]) else n
  }

  lemma TrimOfValid(v: String)
    requires IsValidName(v)
    ensures Trim(v) == v
  {
    ValidNameChars(v);
    TrimOfTrimmed(v);
  }

  /** The `_22` generator as an instance of the shared scanner. */
  const Dialect22 := Dialect(IsStructureLine, IndentLevel, ExtractItemName)

  // ---------------------------------------------------------------------
  // Lemmas

  /** A valid name consists of name characters only, so it holds none of
      the rejected characters and no space; a name of at most 50 characters
      that is plain or dot-prefixed and not sentence-like passes every
      check. */
  lemma ValidNameChars(t: String)
    ensures IsPlainName(t) || IsHiddenName(t) ==> forall k :: 0 <= k < |t| ==> IsNameChar(t[k])
    ensures IsPlainName(t) || IsHiddenName(t) ==> !HasIllegalChar(t) && !Contains(t, " ")
    ensures IsPlainName(t) || IsHiddenName(t) ==> IsTrimmed(t)
    ensures IsPlainName(t) || IsHiddenName(t) ==> (LooksLikeSentence(t) <==> |t| >= 2 && IsAsciiUpper(t[0]) && IsAsciiLower(t[1]))
  {
    if IsPlainName(t) || IsHiddenName(t) {
      EveryCharIsNameChar(t);
      NoRejectedChar(t);
    }
  }

  lemma EveryCharIsNameChar(t: String)
    requires IsPlainName(t) || IsHiddenName(t)
    ensures forall k :: 0 <= k < |t| ==> IsNameChar(t[k])
  {
    forall k | 0 <= k < |t| ensures IsNameChar(t[k]) {
      if IsHiddenName(t) && k > 0 {
        assert t[k] == t[1..][k - 1];
      }
    }
  }

  lemma NoRejectedChar(t: String)
    requires forall k :: 0 <= k < |t| ==> IsNameChar(t[k])
    ensures !HasIllegalChar(t) && !Contains(t, " ")
  {
    forall c | c in ":\"<>|?*= " ensures !Contains(t, [c]) {
      ContainsOneChar(t, c);
    }
    assert ":" == [':'] && "\"" == ['"'] && "<" == ['<'] && ">" == ['>'];
    assert "|" == ['|'] && "?" == ['?'] && "*" == ['*'] && "=" == ['='] && " " == [' '];
  }

  /** A name the validator returns is returned unchanged when validated
      again. */
  lemma ValidateFixedPoint(name: String)
    requires ValidateAndCleanName(name).Some?
    ensures ValidateAndCleanName(ValidateAndCleanName(name).value) == ValidateAndCleanName(name)
  {
    TrimOfValid(Trim(name));
  }

  /** `Main.java` starts like a sentence and is rejected. */
  lemma MainJavaRejected(n: String)
    requires n == "Main.java"
    ensures ValidateAndCleanName(n) == None
  {
    TrimOfTrimmed(n);
  }

  /** A dot-prefixed name such as `.idea` is accepted as it is. */
  lemma HiddenNameAccepted(n: String)
    requires n == ".idea"
    ensures ValidateAndCleanName(n) == Some(n)
  {
    assert IsTrimmed(n);
    TrimOfTrimmed(n);
    assert IsPlainName(n[1..]);
    assert IsValidName(Trim(n));
  }

  /** A name with an inner space is rejected. */
  lemma SpaceInNameRejected()
    ensures ValidateAndCleanName("my file") == None
  {
    var a := "my file";
    assert IsTrimmed(a);
    TrimOfTrimmed(a);
    assert !IsNameChar(a[2]);
  }

  /** Blanks around a valid name are removed and the name is accepted. */
  lemma PaddedNameAccepted(a: String, n: String, b: String)
    requires forall k :: 0 <= k < |a| ==> IsTrimmable(a[k])
    requires forall k :: 0 <= k < |b| ==> IsTrimmable(b[k])
    requires IsValidName(n)
    ensures ValidateAndCleanName(a + n + b) == Some(n)
  {
    TrimPadded(a, n, b);
    TrimOfValid(n);
  }

  /** ` src ` is accepted as `src`. */
  lemma BlanksAroundNameRemoved()
    ensures ValidateAndCleanName(" src ") == Some("src")
  {
    assert " src " == " " + "src" + " ";
    assert IsPlainName("src");
    PaddedNameAccepted(" ", "src", " ");
  }

  // ---------------------------------------------------------------------
  // Printed tree lines

  /** The conditions under which a printed line is read back: the prefix
      holds only blanks and bars, the name is valid, and a directory line is
      indented by a space or a tab (an unindented `name/` line is always read
      as a root folder). */
  predicate Printable(p: String, conn: char, n: String, slash: String) {
    && (forall k :: 0 <= k < |p| ==> IsPrefixChar(p[k]))
    && IsConnector(conn)
    && IsValidName(n)
    && (slash == "" || (slash == "/" && |p| > 0 && (p[0] == ' ' || p[0] == '\t')))
  }

  lemma TreeLineChar(p: String, conn: char, n: String, slash: String, k: nat)
    requires Printable(p, conn, n, slash)
    requires k < |TreeLine(p, conn, n, slash)|
    ensures var line := TreeLine(p, conn, n, slash);
            && line[k] != '=' && line[k] != ':'
            && (k < |p| ==> line[k] == p[k])
            && (k == |p| ==> line[k] == conn)
            && (|p| < k < |p| + 3 ==> line[k] == Horizontal)
            && (k == |p| + 3 ==> line[k] == ' ')
            && (|p| + 4 <= k < |p| + 4 + |n| ==> line[k] == n[k - |p| - 4] && IsNameChar(line[k]))
            && (|p| + 4 + |n| <= k ==> line[k] == '/')
            && (conn == Corner || k != |p| ==> line[k] != Tee)
            && (k < |p| ==> IsTrimmable(line[k]) || line[k] == Vertical)
            && (k >= |p| && k != |p| + 3 ==> !IsTrimmable(line[k]))
  {
    ValidNameChars(n);
  }

  lemma TreeLineHasSymbols(p: String, conn: char, n: String, slash: String)
    requires Printable(p, conn, n, slash)
    ensures HasTreeSymbols(TreeLine(p, conn, n, slash))
  {
    var line := TreeLine(p, conn, n, slash);
    var c := |p|;
    forall k | 0 <= k <= c + 3 ensures k < c ==> IsPrefixChar(line[k]) {
      TreeLineChar(p, conn, n, slash, k);
    }
    RunLenExact(line, IsPrefixChar, c);
    TreeLineTail(p, conn, n, slash);
    SpaceThenName(n, slash);
  }

  /** After the connector's bars: one space, then the name, all on one line. */
  lemma SpaceThenName(n: String, slash: String)
    requires IsValidName(n) && (slash == "" || slash == "/")
    ensures var rest := [' '] + n + slash;
            RunLen(rest, IsRegexSpace) == 1 && AllDot(rest[1..])
  {
    var rest := [' '] + n + slash;
    ValidNameChars(n);
    RunLenExact(rest, IsRegexSpace, 1);
    assert rest[1..] == n + slash;
  }

  /** The shape of `Trim(s)` when only blanks and bars come before a
      significant character at `c`, and the last character is significant. */
  lemma TrimmedShape(s: String, c: nat)
    requires c < |s| && !IsTrimmable(s[c]) && !IsTrimmable(s[|s| - 1])
    requires forall k :: 0 <= k < c ==> IsTrimmable(s[k]) || s[k] == Vertical
    ensures var t := Trim(s);
            && |t| > 0
            && (t[0] == Vertical || t[0] == s[c])
            && t[|t| - 1] == s[|s| - 1]
            && forall x :: x in t ==> x in s
  {
    var t := Trim(s);
    var i := LeadingTrimLen(s);
    assert i <= c;
    assert t[0] == s[i];
    assert i + |t| == |s|;
    forall x | x in t ensures x in s {
      var k :| 0 <= k < |t| && t[k] == x;
      assert s[i + k] == x;
    }
  }

  lemma TreeLineNoEqColon(p: String, conn: char, n: String, slash: String)
    requires Printable(p, conn, n, slash)
    ensures '=' !in TreeLine(p, conn, n, slash) && ':' !in TreeLine(p, conn, n, slash)
  {
    var line := TreeLine(p, conn, n, slash);
    forall k | 0 <= k < |line| ensures line[k] != '=' && line[k] != ':' {
      TreeLineChar(p, conn, n, slash, k);
    }
  }

  /** The trimmed printed line starts at a bar or at the connector, ends
      where the line ends, and holds no `=` or `:`. */
  lemma TreeLineTrimmed(p: String, conn: char, n: String, slash: String)
    requires Printable(p, conn, n, slash)
    ensures var line := TreeLine(p, conn, n, slash);
            var t := Trim(line);
            && |t| > 0
            && (t[0] == Vertical || IsConnector(t[0]))
            && t[|t| - 1] == line[|line| - 1]
            && '=' !in t && ':' !in t
  {
    var line := TreeLine(p, conn, n, slash);
    var c := |p|;
    forall k | 0 <= k < c ensures IsTrimmable(line[k]) || line[k] == Vertical {
      TreeLineChar(p, conn, n, slash, k);
    }
    TreeLineChar(p, conn, n, slash, c);
    TreeLineChar(p, conn, n, slash, |line| - 1);
    TreeLineNoEqColon(p, conn, n, slash);
    TrimmedShape(line, c);
  }

  /** A trimmed line that starts with a bar or a connector and holds no `=`
      or `:` escapes the whole skip list. */
  lemma GlyphStartNotSkipped(t: String)
    requires |t| > 0 && (t[0] == Vertical || IsConnector(t[0]))
    requires '=' !in t && ':' !in t
    ensures !IsSkipped(t)
  {
    NoSkipInfixes(t);
    GlyphNoPrefixes(t);
  }

  lemma GlyphNoPrefixes(t: String)
    requires |t| > 0 && (t[0] == Vertical || IsConnector(t[0]))
    ensures !StartsWith(t, "#") && !StartsWith(t, "//") && !StartsWith(t, "```")
    ensures !StartsWith(t, "*") && !StartsWith(t, "<") && !StartsWith(t, "<?xml")
    ensures !StartsWith(t, "<!--") && !StartsWith(t, "Usage:") && !StartsWith(t, "Example:")
    ensures !StartsWith(t, "Note:") && !StartsWith(t, "---") && !StartsWith(t, "##")
    ensures !StartsWith(t, "xmlns")
    ensures t != "Project Structure" && t != "File Contents"
  {
    var heads := ["#", "//", "```", "*", "<", "<?xml", "<!--", "---", "##",
                  "Usage:", "Example:", "Note:", "xmlns"];
    forall x | x in heads ensures !StartsWith(t, x) {
      NotPrefixAt(t, x, 0);
    }
    assert "Project Structure"[0] != t[0] && "File Contents"[0] != t[0];
  }

  lemma TreeLineNotSkipped(p: String, conn: char, n: String, slash: String)
    requires Printable(p, conn, n, slash)
    ensures !IsSkipped(Trim(TreeLine(p, conn, n, slash)))
  {
    TreeLineTrimmed(p, conn, n, slash);
    GlyphStartNotSkipped(Trim(TreeLine(p, conn, n, slash)));
  }

  lemma TreeLineConnector(p: String, conn: char, n: String, slash: String)
    requires Printable(p, conn, n, slash)
    ensures ConnectorIndex(TreeLine(p, conn, n, slash)) == |p|
  {
    var line := TreeLine(p, conn, n, slash);
    var c := |p|;
    TreeLineChar(p, conn, n, slash, c);
    TreeLineChar(p, conn, n, slash, c + 1);
    TreeLineChar(p, conn, n, slash, c + 2);
    assert line[c..c + 3] == [conn, Horizontal, Horizontal];
    forall k | 0 <= k < c ensures line[k] != Tee && line[k] != Corner {
      TreeLineChar(p, conn, n, slash, k);
    }
    if conn == Tee {
      IndexOfFirst(line, [Tee, Horizontal, Horizontal], c);
    } else {
      forall k | 0 <= k < |line| ensures line[k] != Tee {
        TreeLineChar(p, conn, n, slash, k);
      }
      IndexOfAbsent(line, [Tee, Horizontal, Horizontal]);
      IndexOfFirst(line, [Corner, Horizontal, Horizontal], c);
    }
  }

  lemma NameCharsOnly(n: String)
    requires IsValidName(n)
    ensures IsTrimmed(n) && IsTrimmed(n + "/")
    ensures '#' !in n && !EndsWith(n, "/")
  {
    ValidNameChars(n);
    assert (n + "/")[0] == n[0];
  }

  lemma TreeLineName(n: String, slash: String)
    requires IsValidName(n) && (slash == "" || slash == "/")
    ensures NameAfter([' '] + n + slash) == n
  {
    NameCharsOnly(n);
    PaddedTrim(n + slash);
    assert [' '] + (n + slash) == [' '] + n + slash;
    NameAfterTrimmed([' '] + n + slash, n, slash);
  }

  lemma PaddedTrim(m: String)
    requires IsTrimmed(m)
    ensures Trim([' '] + m) == m
  {
    assert [' '] + m == [' '] + m + [];
    TrimPadded([' '], m, []);
    TrimOfTrimmed(m);
  }

  /** A tail that trims to a comment-free name, with or without one
      trailing `/`, names exactly that name. */
  lemma NameAfterTrimmed(tail: String, n: String, slash: String)
    requires Trim(tail) == n + slash && '#' !in n && |n| > 0
    requires (slash == "" && !EndsWith(n, "/")) || slash == "/"
    ensures NameAfter(tail) == n
  {
    var m := n + slash;
    if slash == "/" {
      assert m[|m| - 1] == '/';
      assert m[..|m| - 1] == n;
    } else {
      assert m == n;
    }
    IndexOfAbsent(n, "#");
  }

  /** An indented or slash-less line with a connector is named by the text
      after its first connector. */
  lemma ExtractAfterConnector(line: String, c: nat)
    requires !(AtColumnZero(line) && EndsWith(Trim(line), "/"))
    requires HasTreeSymbols(line) && ConnectorIndex(line) == c
    ensures c + 3 <= |line|
    ensures ExtractItemName(line) == ValidateAndCleanName(NameAfter(line[c + 3..]))
  {
    assert c + 3 <= |line|;
    var t := Trim(line);
    assert !(AtColumnZero(line) && EndsWith(t, "/"));
    assert ExtractItemName(line) == AfterConnector(line, c);
  }

  lemma TreeLineNotRoot(p: String, conn: char, n: String, slash: String)
    requires Printable(p, conn, n, slash)
    ensures var line := TreeLine(p, conn, n, slash);
            !(AtColumnZero(line) && EndsWith(Trim(line), "/"))
  {
    var line := TreeLine(p, conn, n, slash);
    if slash == "" {
      TreeLineEndsWithName(p, conn, n, slash);
    } else {
      TreeLineIndented(p, conn, n, slash);
    }
  }

  lemma TreeLineEndsWithName(p: String, conn: char, n: String, slash: String)
    requires Printable(p, conn, n, slash) && slash == ""
    ensures !EndsWith(Trim(TreeLine(p, conn, n, slash)), "/")
  {
    var line := TreeLine(p, conn, n, slash);
    ValidNameChars(n);
    TreeLineLast(p, conn, n);
    TrimKeepsLast(line);
    LastNotSlash(Trim(line));
  }

  lemma TreeLineLast(p: String, conn: char, n: String)
    requires |n| > 0
    ensures var line := TreeLine(p, conn, n, "");
            line[|line| - 1] == n[|n| - 1]
  {
  }

  lemma LastNotSlash(t: String)
    requires |t| > 0 && t[|t| - 1] != '/'
    ensures !EndsWith(t, "/")
  {
    EndsWithChar(t, '/');
    assert "/" == ['/'];
  }

  lemma TreeLineIndented(p: String, conn: char, n: String, slash: String)
    requires Printable(p, conn, n, slash) && slash == "/"
    ensures !AtColumnZero(TreeLine(p, conn, n, slash))
  {
    var line := TreeLine(p, conn, n, slash);
    TreeLineChar(p, conn, n, slash, 0);
    StartsWithChar(line, ' ');
    StartsWithChar(line, '\t');
    assert " " == [' '] && "\t" == ['\t'];
  }

  lemma TreeLineTail(p: String, conn: char, n: String, slash: String)
    ensures TreeLine(p, conn, n, slash)[|p| + 3..] == [' '] + n + slash
  {
  }

  /** A printed line is a structure line and yields its name back. */
  lemma ExtractTreeLine(p: String, conn: char, n: String, slash: String)
    requires Printable(p, conn, n, slash)
    ensures IsStructureLine(TreeLine(p, conn, n, slash))
    ensures ExtractItemName(TreeLine(p, conn, n, slash)) == Some(n)
  {
    var line := TreeLine(p, conn, n, slash);
    var c := |p|;
    TreeLineHasSymbols(p, conn, n, slash);
    TreeLineNotSkipped(p, conn, n, slash);
    TreeLineNotRoot(p, conn, n, slash);
    TreeLineConnector(p, conn, n, slash);
    ExtractAfterConnector(line, c);
    TreeLineTail(p, conn, n, slash);
    TreeLineName(n, slash);
    TrimOfValid(n);
  }

  // ---------------------------------------------------------------------
  // Root folder lines

  /** An unindented `name/` line names the root folder, at level 0, unless
      the name happens to start with `xmlns`. */
  lemma RootFolderLine(n: String)
    requires IsValidName(n) && IsPlainName(n) && !StartsWith(n, "xmlns")
    ensures IsStructureLine(n + "/")
    ensures ExtractItemName(n + "/") == Some(n)
    ensures IndentLevel(n + "/") == 0
  {
    RootLineShape(n);
    RootLineNotSkipped(n);
    RootLineExtract(n);
    RootLineLevel(n);
  }

  /** `name/` is trimmed, unindented, ends with `/` and drops to `name`. */
  lemma RootLineShape(n: String)
    requires IsValidName(n)
    ensures var line := n + "/";
            Trim(line) == line && AtColumnZero(line) && EndsWith(line, "/")
            && |line| >= 2 && line[..|line| - 1] == n
  {
    var line := n + "/";
    NameCharsOnly(n);
    TrimOfTrimmed(line);
    assert line[0] == n[0] && line[..|line| - 1] == n;
    StartsWithChar(line, ' ');
    StartsWithChar(line, '\t');
    assert " " == [' '] && "\t" == ['\t'];
    EndsWithChar(line, '/');
    assert "/" == ['/'];
  }

  lemma RootLineExtract(n: String)
    requires IsValidName(n)
    requires var line := n + "/";
             Trim(line) == line && AtColumnZero(line) && EndsWith(line, "/")
             && |line| >= 2 && line[..|line| - 1] == n
    ensures ExtractItemName(n + "/") == Some(n)
  {
    TrimOfValid(n);
  }

  lemma RootLineLevel(n: String)
    requires |n| > 0 && IsAsciiAlnum(n[0])
    ensures IndentLevel(n + "/") == 0
  {
    IndentIgnoresTail([], n[0], n[1..] + "/");
    assert n + "/" == [] + [n[0]] + (n[1..] + "/");
  }

  lemma NoSkipInfixes(t: String)
    requires '=' !in t && ':' !in t
    ensures !Contains(t, "=\"") && !Contains(t, "://") && !IsProseLabel(t)
  {
    if Contains(t, "=\"") {
      ContainsHead(t, "=\"");
    }
    if Contains(t, "://") {
      ContainsHead(t, "://");
    }
  }

  lemma NoSkipPrefixes(t: String)
    requires |t| > 0 && IsAsciiAlnum(t[0]) && !StartsWith(t, "xmlns") && ':' !in t && ' ' !in t
    ensures !StartsWith(t, "#") && !StartsWith(t, "//") && !StartsWith(t, "```")
    ensures !StartsWith(t, "*") && !StartsWith(t, "<") && !StartsWith(t, "<?xml")
    ensures !StartsWith(t, "<!--") && !StartsWith(t, "Usage:") && !StartsWith(t, "Example:")
    ensures !StartsWith(t, "Note:") && !StartsWith(t, "---") && !StartsWith(t, "##")
    ensures t != "Project Structure" && t != "File Contents"
  {
    var heads := ["#", "//", "```", "*", "<", "<?xml", "<!--", "---", "##"];
    forall x | x in heads ensures !StartsWith(t, x) {
      NotPrefixAt(t, x, 0);
    }
    NotPrefixAt(t, "Usage:", 5);
    NotPrefixAt(t, "Example:", 7);
    NotPrefixAt(t, "Note:", 4);
    assert "Project Structure"[7] == ' ' && "File Contents"[4] == ' ';
  }

  /** A trimmed line that starts with a letter or digit, holds no `=`, `:`
      or space, and does not start with `xmlns` escapes the skip list. */
  lemma AlnumStartNotSkipped(t: String)
    requires |t| > 0 && IsAsciiAlnum(t[0]) && !StartsWith(t, "xmlns")
    requires '=' !in t && ':' !in t && ' ' !in t
    ensures !IsSkipped(t)
  {
    NoSkipInfixes(t);
    NoSkipPrefixes(t);
  }

  lemma RootLineNotSkipped(n: String)
    requires IsValidName(n) && IsPlainName(n) && !StartsWith(n, "xmlns")
    ensures !IsSkipped(n + "/")
  {
    var t := n + "/";
    ValidNameChars(n);
    forall k | 0 <= k < |t| ensures t[k] != '=' && t[k] != ':' && t[k] != ' ' {
      if k < |n| {
        assert t[k] == n[k];
      }
    }
    StartsWithAppend(n, "xmlns", '/');
    AlnumStartNotSkipped(t);
  }

  // ---------------------------------------------------------------------
  // Lines that name nothing

  /** A connector line at column zero that names a folder takes the
      root-folder branch of `extractItemName`: the candidate name is the
      whole line before the `/`, which starts with the connector, so the
      line names nothing whatever follows the connector. */
  lemma ColumnZeroFolderNamesNothing(conn: char, n: String)
    requires IsConnector(conn)
    ensures ExtractItemName(TreeLine("", conn, n, "/")) == None
  {
    var line := TreeLine("", conn, n, "/");
    ColumnZeroShape(conn, n);
    ConnectorNameRejected(line[..|line| - 1]);
  }

  lemma ColumnZeroShape(conn: char, n: String)
    requires IsConnector(conn)
    ensures var line := TreeLine("", conn, n, "/");
            && Trim(line) == line && AtColumnZero(line) && EndsWith(line, "/")
            && |line| > 1 && line[0] == conn
  {
    var line := TreeLine("", conn, n, "/");
    assert line[0] == conn && line[|line| - 1] == '/';
    TrimOfTrimmed(line);
    StartsWithChar(line, ' ');
    StartsWithChar(line, '\t');
    EndsWithChar(line, '/');
    assert " " == [' '] && "\t" == ['\t'] && "/" == ['/'];
  }

  /** A candidate name that starts with a connector is rejected. */
  lemma ConnectorNameRejected(u: String)
    requires |u| > 0 && IsConnector(u[0])
    ensures ValidateAndCleanName(u) == None
  {
    LeadingTrimLenExact(u, 0);
    var t := Trim(u);
    assert t != [] && t[0] == u[0];
  }

  /** With a valid name the same line still passes `isStructureLine`, so
      inside a block it is read and then dropped: `├── src/` at column zero
      contributes no entry. */
  lemma ColumnZeroFolderDropped(conn: char, n: String)
    requires IsConnector(conn) && IsValidName(n)
    ensures IsStructureLine(TreeLine("", conn, n, "/"))
    ensures LineEntry(Dialect22, TreeLine("", conn, n, "/"), true) == []
  {
    ColumnZeroFolderNamesNothing(conn, n);
    ColumnZeroFolderSymbols(conn, n);
    ColumnZeroFolderNotSkipped(conn, n);
  }

  lemma ColumnZeroFolderSymbols(conn: char, n: String)
    requires IsConnector(conn) && IsValidName(n)
    ensures HasTreeSymbols(TreeLine("", conn, n, "/"))
  {
    var line := TreeLine("", conn, n, "/");
    RunLenExact(line, IsPrefixChar, 0);
    assert line[3..] == [' '] + n + "/";
    SpaceThenName(n, "/");
  }

  lemma ColumnZeroFolderNotSkipped(conn: char, n: String)
    requires IsConnector(conn) && IsValidName(n)
    ensures !IsSkipped(Trim(TreeLine("", conn, n, "/")))
  {
    var line := TreeLine("", conn, n, "/");
    ColumnZeroShape(conn, n);
    ValidNameChars(n);
    forall k | 0 <= k < |line| ensures line[k] != '=' && line[k] != ':' {
      if 4 <= k < 4 + |n| {
        assert line[k] == n[k - 4];
      }
    }
    GlyphStartNotSkipped(line);
  }

  /** An indented connector line whose text after the connector is `m`: only
      blanks and bars before the connector, no `├` after it, nothing that
      ends a line, and a significant first character. */
  predicate Connected(p: String, conn: char, m: String) {
    && |p| > 0 && (p[0] == ' ' || p[0] == '\t')
    && (forall k :: 0 <= k < |p| ==> IsPrefixChar(p[k]))
    && IsConnector(conn)
    && |m| > 0 && !IsTrimmable(m[0]) && AllDot(m)
    && (forall k :: 0 <= k < |m| ==> m[k] != Tee)
  }

  /** Such a line is named by its text after the connector. */
  lemma ConnectedLineName(p: String, conn: char, m: String)
    requires Connected(p, conn, m)
    ensures ExtractItemName(TreeLine(p, conn, m, "")) == ValidateAndCleanName(NameAfter([' '] + m))
  {
    var line := TreeLine(p, conn, m, "");
    ConnectedShape(p, conn, m);
    ConnectedIndex(p, conn, m);
    assert line[|p| + 3..] == [' '] + m;
    NamedAfterConnector(line, |p|, [' '] + m);
  }

  /** A line that is not at column zero, with tree symbols and its first
      connector at `c`, is named by the text after that connector. */
  lemma NamedAfterConnector(line: String, c: nat, tail: String)
    requires !AtColumnZero(line) && HasTreeSymbols(line) && ConnectorIndex(line) == c
    requires c + 3 <= |line| && line[c + 3..] == tail
    ensures ExtractItemName(line) == ValidateAndCleanName(NameAfter(tail))
  {
    ExtractAfterConnector(line, c);
  }

  lemma ConnectedShape(p: String, conn: char, m: String)
    requires Connected(p, conn, m)
    ensures !AtColumnZero(TreeLine(p, conn, m, "")) && HasTreeSymbols(TreeLine(p, conn, m, ""))
  {
    var line := TreeLine(p, conn, m, "");
    var c := |p|;
    assert line[0] == p[0];
    StartsWithChar(line, ' ');
    StartsWithChar(line, '\t');
    assert " " == [' '] && "\t" == ['\t'];
    assert line[c] == conn && line[c + 1] == Horizontal && line[c + 2] == Horizontal;
    forall k | 0 <= k < c ensures line[k] == p[k] {
    }
    RunLenExact(line, IsPrefixChar, c);
    var rest := line[c + 3..];
    assert rest == [' '] + m;
    RunLenExact(rest, IsRegexSpace, 1);
    assert rest[1..] == m;
  }

  lemma ConnectedIndex(p: String, conn: char, m: String)
    requires Connected(p, conn, m)
    ensures ConnectorIndex(TreeLine(p, conn, m, "")) == |p|
  {
    var line := TreeLine(p, conn, m, "");
    var c := |p|;
    assert line[c..c + 3] == [conn, Horizontal, Horizontal];
    forall k | 0 <= k < c ensures !OccursAt(line, [Tee, Horizontal, Horizontal], k)
                              && !OccursAt(line, [Corner, Horizontal, Horizontal], k) {
      assert line[k] == p[k];
      if k + 3 <= |line| {
        assert line[k..k + 3][0] == line[k];
      }
    }
    if conn == Tee {
      IndexOfFirst(line, [Tee, Horizontal, Horizontal], c);
    } else {
      forall k | 0 <= k < |line| ensures line[k] != Tee {
        if k >= c + 4 {
          assert line[k] == m[k - c - 4];
        }
      }
      IndexOfAbsent(line, [Tee, Horizontal, Horizontal]);
      IndexOfFirst(line, [Corner, Horizontal, Horizontal], c);
    }
  }

  /** After the connector, `pre # c` is cut at its first `#`: what is left is
      `pre`, whatever the comment `c` holds. The trailing `/` is looked for
      only at the end of the whole text, before the cut. */
  lemma NameBeforeComment(pre: String, c: String)
    requires pre != [] && IsTrimmed(pre) && '#' !in pre
    ensures NameAfter([' '] + pre + " # " + c) == pre
  {
    var tail := [' '] + pre + " # " + c;
    var h := |pre| + 1;
    var n1 := Trim(tail);
    CommentTrim(pre, c);
    var n2 := if EndsWith(n1, "/") && |n1| > 1 then n1[..|n1| - 1] else n1;
    DropSlashKeepsHead(n1, pre + " #");
    CutAtComment(n2, pre);
  }

  /** Trimming `␣pre # c` keeps at least `pre #` at its head. */
  lemma CommentTrim(pre: String, c: String)
    requires pre != [] && IsTrimmed(pre)
    ensures var n1 := Trim([' '] + pre + " # " + c);
            |n1| >= |pre| + 2 && n1[..|pre| + 2] == pre + " #"
  {
    var tail := [' '] + pre + " # " + c;
    var h := |pre| + 1;
    assert tail[h + 1] == '#';
    assert tail[1] == pre[0];
    LeadingTrimLenExact(tail, 1);
    var n1 := Trim(tail);
    assert 1 + |n1| > h + 1;
    assert n1 == tail[1..1 + |n1|];
    assert n1[..h + 1] == tail[1..h + 2] == pre + " #";
  }

  /** Dropping one trailing `/` keeps a head that ends in `#`. */
  lemma DropSlashKeepsHead(n1: String, head: String)
    requires |head| > 0 && head[|head| - 1] == '#'
    requires |n1| >= |head| && n1[..|head|] == head
    ensures var n2 := if EndsWith(n1, "/") && |n1| > 1 then n1[..|n1| - 1] else n1;
            |n2| >= |head| && n2[..|head|] == head
  {
    if |n1| == |head| {
      assert n1[|n1| - 1] == head[|head| - 1];
      EndsWithChar(n1, '/');
      assert "/" == ['/'];
    }
  }

  /** A text starting `pre #` is cut back to `pre`. */
  lemma CutAtComment(n2: String, pre: String)
    requires pre != [] && IsTrimmed(pre) && '#' !in pre
    requires |n2| >= |pre| + 2 && n2[..|pre| + 2] == pre + " #"
    ensures CutComment(n2) == pre
  {
    var h := |pre| + 1;
    forall k | 0 <= k < h ensures !OccursAt(n2, "#", k) {
      assert n2[k] == (pre + " #")[k];
      if k < |pre| {
        assert n2[k] == pre[k];
      }
      assert n2[k..k + 1][0] == n2[k];
    }
    assert n2[h..h + 1] == "#";
    IndexOfFirst(n2, "#", h);
    assert n2[..h] == [] + pre + " ";
    TrimPadded([], pre, " ");
    TrimOfTrimmed(pre);
  }

  /** An inline comment after a file or folder name is cut off, and the line
      names what comes before it: `├── src # sources` names `src`. */
  lemma CommentAfterName(p: String, conn: char, n: String, c: String)
    requires IsValidName(n) && Connected(p, conn, n + " # " + c)
    ensures ExtractItemName(TreeLine(p, conn, n + " # " + c, "")) == Some(n)
  {
    ConnectedLineName(p, conn, n + " # " + c);
    NameCommentCut(n, c);
    ValidName(n);
  }

  lemma NameCommentCut(n: String, c: String)
    requires IsValidName(n)
    ensures NameAfter([' '] + (n + " # " + c)) == n
  {
    NameCharsOnly(n);
    assert [' '] + (n + " # " + c) == [' '] + n + " # " + c;
    NameBeforeComment(n, c);
  }

  /** A valid name is accepted unchanged. */
  lemma ValidName(n: String)
    requires IsValidName(n)
    ensures ValidateAndCleanName(n) == Some(n)
  {
    TrimOfValid(n);
  }

  /** A folder's `/` before an inline comment is kept, since only a `/` at
      the very end is dropped, and `name/` is not a valid name:
      `├── src/ # sources` names nothing. */
  lemma CommentAfterFolderRejected(p: String, conn: char, n: String, c: String)
    requires IsValidName(n) && Connected(p, conn, n + "/ # " + c)
    ensures ExtractItemName(TreeLine(p, conn, n + "/ # " + c, "")) == None
  {
    ConnectedLineName(p, conn, n + "/ # " + c);
    FolderCommentCut(n, c);
    SlashNameRejected(n);
  }

  lemma FolderCommentCut(n: String, c: String)
    requires IsValidName(n)
    ensures NameAfter([' '] + (n + "/ # " + c)) == n + "/"
  {
    var d := n + "/";
    NameCharsOnly(n);
    assert [' '] + (n + "/ # " + c) == [' '] + d + " # " + c;
    assert '#' !in d by {
      assert forall k :: 0 <= k < |d| ==> d[k] == '/' || d[k] == n[k];
    }
    NameBeforeComment(d, c);
  }

  /** `name/` is not a valid name: `/` is not a name character. */
  lemma SlashNameRejected(n: String)
    requires IsValidName(n)
    ensures ValidateAndCleanName(n + "/") == None
  {
    var d := n + "/";
    assert IsTrimmed(d) by {
      NameCharsOnly(n);
    }
    TrimOfTrimmed(d);
    NotNameWithSlash(d, |n|);
  }

  lemma NotNameWithSlash(d: String, k: nat)
    requires 0 < k < |d| && d[k] == '/'
    ensures !IsValidName(d)
  {
    assert d[1..][k - 1] == '/';
  }

}
