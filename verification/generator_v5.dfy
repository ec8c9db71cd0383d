/** The line-level functions of the `v5` generator. Its structure test is
    permissive (any glyph, an extension, a bare name or mere indentation),
    its name extraction deletes every glyph and `\s` character anywhere in
    the line and validates nothing, and its nesting level and file rule are
    the shared `Indent.IndentLevel` and `Tree.IsFile`. */
module GeneratorV5 {
  import opened JavaText
  import opened Indent
  import opened Tree
  import opened Scan
  import opened Diagram

  // ---------------------------------------------------------------------
  // Structure lines

  /** The skip list applied to the trimmed line: empty, a heading, a
      comment, a fence, a bullet, or a dash line without a horizontal bar. */
  predicate IsSkippedV5(t: String) {
    || t == []
    || StartsWith(t, "#")
    || StartsWith(t, "//")
    || StartsWith(t, "```")
    || StartsWith(t, "*")
    || (StartsWith(t, "-") && !Contains(t, [Horizontal]))
  }

  /** `.*[│├└─].*` as a whole-string match. Glyphs are not line terminators,
      so this is a glyph somewhere in a terminator-free string. */
  predicate HasGlyph(t: String) {
    AllDot(t) && exists k :: 0 <= k < |t| && IsGlyph(t[k])
  }

  /** `.*\.[a-zA-Z0-9]+$` as a whole-string match: a `.` followed only by
      one or more letters and digits, with no line terminator before it. */
  predicate EndsWithExtension(t: String) {
    exists i :: 0 <= i < |t| - 1 && t[i] == '.' && AllDot(t[..i])
                && forall k :: i < k < |t| ==> IsAsciiAlnum(t[k])
  }

  /** `^[a-zA-Z0-9._-]+/?$` as a whole-string match. */
  predicate IsSimpleItem(t: String) {
    || (|t| >= 1 && forall k :: 0 <= k < |t| ==> IsNameChar(t[k]))
    || (|t| >= 2 && t[|t| - 1] == '/' && forall k :: 0 <= k < |t| - 1 ==> IsNameChar(t[k]))
  }

  /** `^\s+.*` as a whole-string match on the untrimmed line: at least one
      leading `\s`, and no line terminator after the leading run. */
  predicate IsIndentedItem(line: String) {
    var w := RunLen(line, IsRegexSpace);
    w >= 1 && AllDot(line[w..])
  }

  /** `isStructureLine` of `v5`. */
  predicate IsStructureLineV5(line: String) {
    var t := Trim(line);
    && !IsSkippedV5(t)
    && (HasGlyph(t) || EndsWithExtension(t) || IsSimpleItem(t) || IsIndentedItem(line))
  }

  // ---------------------------------------------------------------------
  // Names

  /** The class `[│├└─\s]` the extractor deletes. */
  predicate IsGlyphOrSpace(c: char) {
    IsGlyph(c) || IsRegexSpace(c)
  }

  /** `replaceAll("[│├└─\\s]*", "")`: every glyph and `\s` character is
      deleted, wherever it stands. */
  function Strip(s: String): (r: String)
    ensures |r| <= |s|
    ensures forall k :: 0 <= k < |r| ==> !IsGlyphOrSpace(r[k])
  {
    if |s| == 0 then []
    else (if IsGlyphOrSpace(s[0]) then [] else [s[0]]) + Strip(s[1..])
  }

  /** Group 3 of `^(\s*)[│├└─\s]*([├└]──)?\s*(.+)$` under a whole-string
      match, or `None` when the pattern does not match. Everything before
      group 3 consumes only glyphs and `\s`, so group 3 starts at the end of
      the leading run of those at the latest; the greedy run makes it start
      exactly there, and when the run is the whole line the engine backs off
      one character, leaving the last one. */
  function SymbolFallback(line: String): (r: Option<String>)
    ensures r.Some? ==> |r.value| > 0 && AllDot(r.value)
    ensures r.Some? ==> exists s :: 0 <= s < |line| && r.value == line[s..]
  {
    var p := RunLen(line, IsGlyphOrSpace);
    if p < |line| then
      if AllDot(line[p..]) then Some(line[p..]) else None
    else if |line| > 0 && !IsLineTerminator(line[|line| - 1]) then
      assert [line[|line| - 1]] == line[|line| - 1..];
      Some([line[|line| - 1]])
    else None
  }

  /** One trailing `/` dropped, unless it is all there is. */
  function DropOneSlash(c: String): (r: String)
    ensures r == c || (|c| > 1 && c == r + "/")
  {
    if EndsWith(c, "/") && |c| > 1 then c[..|c| - 1] else c
  }

  /** What is left of a line once glyphs and blanks are deleted and the
      rest is trimmed. */
  function Cleaned(line: String): String {
    Trim(Strip(line))
  }

  /** `extractItemName` of `v5`: glyphs and `\s` deleted and the rest
      trimmed; when nothing is left, the fallback pattern's last group,
      trimmed; then one trailing `/` dropped unless it is all there is; an
      empty result is `null`. */
  function ExtractV5(line: String): (r: Option<String>)
    ensures r.Some? ==> r.value != []
  {
    var cleaned := Cleaned(line);
    var c2 :=
      if cleaned != [] then cleaned
      else match SymbolFallback(line)
        case Some(g) => Trim(g)
        case None => [];
    var c3 := DropOneSlash(c2);
    if c3 == [] then None else Some(c3)
  }

  /** The `v5` generator as an instance of the shared scanner. */
  const DialectV5 := Dialect(IsStructureLineV5, IndentLevel, ExtractV5)

  // ---------------------------------------------------------------------
  // Lemmas

  lemma {:induction false} StripAppend(a: String, b: String)
    ensures Strip(a + b) == Strip(a) + Strip(b)
    decreases |a|
  {
    if |a| == 0 {
      assert a + b == b;
    } else {
      assert (a + b)[0] == a[0] && (a + b)[1..] == a[1..] + b;
      StripAppend(a[1..], b);
    }
  }

  /** A string of deleted characters vanishes entirely. */
  lemma {:induction false} StripAll(s: String)
    requires forall k :: 0 <= k < |s| ==> IsGlyphOrSpace(s[k])
    ensures Strip(s) == []
    decreases |s|
  {
    if |s| > 0 {
      StripAll(s[1..]);
    }
  }

  /** A string without deleted characters is kept whole. */
  lemma {:induction false} StripNone(s: String)
    requires forall k :: 0 <= k < |s| ==> !IsGlyphOrSpace(s[k])
    ensures Strip(s) == s
    decreases |s|
  {
    if |s| > 0 {
      StripNone(s[1..]);
      assert s == [s[0]] + s[1..];
    }
  }

  /** When glyphs and blanks are deleted, no glyph or blank survives in
      the name; the name is what is left, trimmed, less one trailing `/`. */
  lemma CleanedName(line: String)
    requires Cleaned(line) != []
    ensures ExtractV5(line).Some?
    ensures var n := ExtractV5(line).value;
            (n == Cleaned(line) || Cleaned(line) == n + "/")
            && forall k :: 0 <= k < |n| ==> !IsGlyphOrSpace(n[k])
  {
    var c := Cleaned(line);
    var st := Strip(line);
    var i := LeadingTrimLen(st);
    assert forall k :: 0 <= k < |c| ==> c[k] == st[i + k];
    var n := DropOneSlash(c);
    assert forall k :: 0 <= k < |n| ==> n[k] == c[k];
  }

  /** A line whose deleted characters leave exactly a trimmed name without
      a trailing `/` is named by it. */
  lemma StrippedName(line: String, n: String)
    requires Strip(line) == n && n != [] && IsTrimmed(n) && !EndsWith(n, "/")
    ensures ExtractV5(line) == Some(n)
  {
    TrimOfTrimmed(n);
  }

  /** Deleting glyphs and blanks from a tree line leaves the name, itself
      stripped, and its slash. */
  lemma StripTreeLine(p: String, conn: char, n: String, slash: String)
    requires forall k :: 0 <= k < |p| ==> IsGlyphOrSpace(p[k])
    requires IsGlyph(conn) && (slash == "" || slash == "/")
    ensures Strip(TreeLine(p, conn, n, slash)) == Strip(n) + slash
  {
    var head := p + [conn, Horizontal, Horizontal, ' '];
    assert TreeLine(p, conn, n, slash) == head + n + slash;
    assert forall k :: 0 <= k < |head| ==> IsGlyphOrSpace(head[k]);
    StripAll(head);
    StripNone(slash);
    StripAppend(head, n);
    StripAppend(head + n, slash);
  }

  /** Inner blanks are deleted, not rejected: a file line naming `a b`,
      with `a` and `b` free of glyphs and blanks, names `ab`. */
  lemma SpaceDeletedFromName(p: String, conn: char, a: String, b: String)
    requires forall k :: 0 <= k < |p| ==> IsGlyphOrSpace(p[k])
    requires IsGlyph(conn)
    requires forall k :: 0 <= k < |a| ==> !IsGlyphOrSpace(a[k])
    requires forall k :: 0 <= k < |b| ==> !IsGlyphOrSpace(b[k])
    requires |a| > 0 && |b| > 0 && !IsTrimmable(a[0]) && !IsTrimmable(b[|b| - 1])
    requires b[|b| - 1] != '/'
    ensures ExtractV5(TreeLine(p, conn, a + " " + b, "")) == Some(a + b)
  {
    StripTreeLine(p, conn, a + " " + b, "");
    StripNone(a);
    StripNone(b);
    StripAll(" ");
    StripAppend(a, " ");
    StripAppend(a + " ", b);
    assert a + " " + b == (a + " ") + b;
    assert Strip(a + " " + b) + "" == a + b;
    StrippedName(TreeLine(p, conn, a + " " + b, ""), a + b);
  }

  /** A line of a lone vertical bar falls through to the fallback pattern,
      which yields the bar itself as a name. */
  lemma BarOnlyLineNamesBar()
    ensures ExtractV5("\U{2502}") == Some("\U{2502}")
  {
    StripAll("\U{2502}");
    assert Cleaned("\U{2502}") == [];
    assert RunLen("\U{2502}", IsGlyphOrSpace) == 1;
    TrimOfTrimmed("\U{2502}");
  }

  /** A bar followed by blanks yields no name: the fallback keeps only the
      last blank, which trimming removes. */
  lemma BarThenBlankNamesNothing()
    ensures ExtractV5("\U{2502} ") == None
  {
    var line := "\U{2502} ";
    StripAll(line);
    assert Cleaned(line) == [];
    RunLenExact(line, IsGlyphOrSpace, 2);
    assert SymbolFallback(line) == Some(" ");
    TrimUnique(" ", 1, 1);
  }

  /** A dash line without a horizontal bar is skipped. */
  lemma DashLineSkipped(line: String)
    requires StartsWith(Trim(line), "-") && Horizontal !in Trim(line)
    ensures !IsStructureLineV5(line)
  {
    ContainsOneChar(Trim(line), Horizontal);
  }

  /** Any indented line of prose that escapes the skip list is a structure
      line. */
  lemma IndentedProseAccepted(line: String)
    requires |line| > 0 && IsRegexSpace(line[0]) && AllDot(line)
    requires !IsSkippedV5(Trim(line))
    ensures IsStructureLineV5(line)
  {
    var w := RunLen(line, IsRegexSpace);
    assert forall k :: 0 <= k < |line[w..]| ==> line[w..][k] == line[w + k];
  }
}
