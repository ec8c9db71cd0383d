/** The `_23` generator: a markdown document is cut into sections at each
    `####` header, a section whose first line is a header and whose first
    fenced block is not blank records that block under the header's path,
    and every recorded path is then written with its block. */
module Sections {
  import opened JavaText

  // ---------------------------------------------------------------------
  // Cutting the document

  /** The lookahead `(?=####\s+)` holds at index `i`: four `#` and a `\s`. */
  predicate HeaderAt(s: String, i: nat) {
    i + 5 <= |s| && s[i..i + 4] == "####" && IsRegexSpace(s[i + 4])
  }

  /** The first index from `i` on where a header starts, or the end. */
  function NextCut(s: String, i: nat): (r: nat)
    requires i <= |s|
    ensures i <= r <= |s|
    ensures r < |s| ==> HeaderAt(s, r)
    ensures forall k :: i <= k < r ==> !HeaderAt(s, k)
    decreases |s| - i
  {
    if i == |s| then |s| else if HeaderAt(s, i) then i else NextCut(s, i + 1)
  }

  /** The pieces of `s[start..]`, each running up to the next header. */
  function PiecesFrom(s: String, start: nat): (r: seq<String>)
    requires start < |s|
    decreases |s| - start
  {
    var j := NextCut(s, start + 1);
    [s[start..j]] + (if j < |s| then PiecesFrom(s, j) else [])
  }

  /** `split("(?=####\\s+)")`: the text is cut before every header but one
      at index 0 (a zero-width match there yields no empty first piece);
      no piece is empty, so none is dropped as trailing. An empty text is
      its own single piece. */
  function SplitSections(s: String): seq<String> {
    if |s| == 0 then [s] else PiecesFrom(s, 0)
  }

  /** The pieces, put back together. */
  function Concat(ps: seq<String>): String {
    if |ps| == 0 then [] else ps[0] + Concat(ps[1..])
  }

  // ---------------------------------------------------------------------
  // The header line

  /** `lines[0]` of `section.split("\n")`: the text before the first line
      feed (an all-feed section has no lines and is skipped like an empty
      first line). */
  function FirstLine(section: String): (r: String)
    ensures '\n' !in r
    ensures StartsWith(section, r)
    ensures |r| == |section| || section[|r|] == '\n'
  {
    var k := IndexOf(section, "\n");
    if k < 0 then
      NoCharBefore(section, '\n', |section|);
      section
    else
      NoCharBefore(section, '\n', k);
      assert section[k..k + 1][0] == section[k];
      section[..k]
  }

  /** No one-character pattern occurs before `n`: the character does not. */
  lemma NoCharBefore(s: String, c: char, n: nat)
    requires n <= |s|
    requires forall j :: 0 <= j < n ==> !OccursAt(s, [c], j)
    ensures forall j :: 0 <= j < n ==> s[j] != c
  {
    forall j | 0 <= j < n
      ensures s[j] != c
    {
      assert !OccursAt(s, [c], j);
      assert s[j..j + 1] == [s[j]];
    }
  }

  /** Group 1 of `####\s+(.+)` under a whole-string match. The greedy `\s+`
      takes the whole blank run; when that leaves nothing, it gives back
      one character for `.+`. */
  function HeaderCapture(line: String): (r: Option<String>)
    ensures r.Some? ==> |r.value| > 0 && AllDot(r.value)
  {
    if |line| < 4 || line[..4] != "####" then None
    else
      var rest := line[4..];
      var w := RunLen(rest, IsRegexSpace);
      if w == 0 then None
      else if w < |rest| then
        if AllDot(rest[w..]) then Some(rest[w..]) else None
      else if w >= 2 && !IsLineTerminator(rest[w - 1]) then
        assert rest[w - 1..] == [rest[w - 1]];
        Some([rest[w - 1]])
      else None
  }

  /** The whole-string match of `####\s+(.+)` with `g` as the group: a
      non-empty blank run after the `####`, then `g`. */
  predicate HeaderSplit(line: String, w: nat, g: String) {
    && 1 <= w && 4 + w <= |line| && line[..4] == "####"
    && (forall k :: 4 <= k < 4 + w ==> IsRegexSpace(line[k]))
    && line[4 + w..] == g && |g| > 0 && AllDot(g)
  }

  // ---------------------------------------------------------------------
  // The first fenced block

  /** The body of a block, as indices into the section. */
  datatype Span = Span(start: nat, end: nat)

  /** `````(\w+)?\s*\n([\s\S]*?)````` tried at index `i`. The tag is the
      whole word run (a shorter one leaves a word character where `\s*\n`
      needs a blank); the greedy `\s*` backs off to the last line feed of
      the blank run that follows; the lazy body stops at the first fence
      after it. Backing off further only adds blanks before the body, and
      blanks hold no fence, so a failure there is a failure at `i`. */
  function FenceAt(s: String, i: nat): (r: Option<Span>)
    ensures r.Some? ==> i + 4 <= r.value.start <= r.value.end && r.value.end + 3 <= |s|
    ensures r.Some? ==> OccursAt(s, "```", i) && OccursAt(s, "```", r.value.end)
    ensures r.Some? ==> forall k :: r.value.start <= k < r.value.end ==> !OccursAt(s, "```", k)
  {
    if !OccursAt(s, "```", i) then None else FenceAfterTag(s, TagEnd(s, i))
  }

  /** Where the optional tag after a fence mark at `i` ends. */
  function TagEnd(s: String, i: nat): (t: nat)
    requires i + 3 <= |s|
    ensures i + 3 <= t <= |s|
  {
    i + 3 + RunLen(s[i + 3..], IsWordChar)
  }

  /** The rest of the block pattern once the tag ends at `t`: a blank run
      holding a line feed, backed off to its last line feed. */
  function FenceAfterTag(s: String, t: nat): (r: Option<Span>)
    requires t <= |s|
    ensures r.Some? ==> t + 1 <= r.value.start <= r.value.end && r.value.end + 3 <= |s|
    ensures r.Some? ==> OccursAt(s, "```", r.value.end)
    ensures r.Some? ==> forall k :: r.value.start <= k < r.value.end ==> !OccursAt(s, "```", k)
  {
    var w := RunLen(s[t..], IsRegexSpace);
    var j := LastIndexOf(s[t..][..w], '\n');
    if j < 0 then None else FenceBody(s, t + j + 1)
  }

  /** The lazy body from `b` to the first fence mark after it. */
  function FenceBody(s: String, b: nat): (r: Option<Span>)
    ensures r.Some? ==> r.value.start == b <= r.value.end && r.value.end + 3 <= |s|
    ensures r.Some? ==> OccursAt(s, "```", r.value.end)
    ensures r.Some? ==> forall k :: b <= k < r.value.end ==> !OccursAt(s, "```", k)
    ensures r.None? ==> forall k :: b <= k ==> !OccursAt(s, "```", k)
  {
    var c := IndexOfFrom(s, "```", b);
    if c < 0 then None else Some(Span(b, c))
  }

  /** `find()`: the first index from `i` on where the block pattern
      matches. */
  function FirstFence(s: String, i: nat): (r: Option<Span>)
    ensures r.Some? ==> r.value.start <= r.value.end <= |s|
    decreases |s| - i
  {
    if i + 3 > |s| then None
    else match FenceAt(s, i)
      case Some(sp) => Some(sp)
      case None => FirstFence(s, i + 1)
  }

  /** `extractCodeContent`: the first block's body, trimmed, or `""`. */
  function ExtractCode(section: String): (r: String)
    ensures IsTrimmed(r)
    ensures !Contains(r, "```")
    ensures !Contains(section, "```") ==> r == []
  {
    FirstFenceBody(section, 0);
    match FirstFence(section, 0)
    case None => []
    case Some(sp) =>
      TrimNoFence(section, sp.start, sp.end);
      Trim(section[sp.start..sp.end])
  }

  /** Trimming a stretch that holds no fence mark leaves none. */
  lemma TrimNoFence(s: String, b: nat, c: nat)
    requires b <= c <= |s|
    requires forall k :: b <= k < c ==> !OccursAt(s, "```", k)
    ensures !Contains(Trim(s[b..c]), "```")
  {
    var x := s[b..c];
    forall k | 0 <= k
      ensures !OccursAt(x, "```", k)
    {
      if k + 3 <= |x| {
        SliceOfSlice(s, b, c - b, k, 3);
        assert !OccursAt(s, "```", b + k);
      }
    }
    TrimKeepsNoFence(x);
  }

  /** Trimming a text that holds no fence mark leaves none. */
  lemma TrimKeepsNoFence(x: String)
    requires forall k :: 0 <= k ==> !OccursAt(x, "```", k)
    ensures !Contains(Trim(x), "```")
  {
    var r := Trim(x);
    var i := LeadingTrimLen(x);
    assert r == x[i..i + |r|];
    forall k | 0 <= k
      ensures !OccursAt(r, "```", k)
    {
      if k + 3 <= |r| {
        SliceOfSlice(x, i, |r|, k, 3);
        assert !OccursAt(x, "```", i + k);
      }
    }
  }

  /** A slice of a slice is a slice of the whole. */
  lemma SliceOfSlice(x: String, i: nat, n: nat, k: nat, m: nat)
    requires i + n <= |x| && k + m <= n
    ensures x[i..i + n][k..k + m] == x[i + k..i + k + m]
  {
    var y := x[i..i + n][k..k + m];
    var z := x[i + k..i + k + m];
    forall t | 0 <= t < m
      ensures y[t] == z[t]
    {
      assert y[t] == x[i..i + n][k + t] == x[i + k + t];
    }
  }

  // ---------------------------------------------------------------------
  // Recording and writing

  /** A path and the block recorded for it. */
  datatype Record = Record(path: String, body: String)

  /** What one section contributes: nothing unless its first line is a
      header and its block is not blank. */
  function SectionRecord(section: String): (r: Option<Record>)
    ensures r.Some? ==> r.value.body != [] && IsTrimmed(r.value.path) && IsTrimmed(r.value.body)
    ensures r.Some? <==> HeaderCapture(FirstLine(section)).Some? && ExtractCode(section) != []
  {
    match HeaderCapture(FirstLine(section))
    case None => None
    case Some(g) =>
      var body := ExtractCode(section);
      TrimIsTrimmed(g);
      if body == [] then None else Some(Record(Trim(g), body))
  }

  /** What each section contributes, in document order. */
  function SectionRecords(sections: seq<String>): (r: seq<Option<Record>>)
    ensures |r| == |sections|
    ensures forall i :: 0 <= i < |r| ==> r[i] == SectionRecord(sections[i])
  {
    seq(|sections|, i requires 0 <= i < |sections| => SectionRecord(sections[i]))
  }

  /** The `files` map of `parseAndCreateFiles`, filled record by record; a
      later record replaces an earlier one with the same path. */
  function Collect(records: seq<Option<Record>>, files: map<String, String>): map<String, String>
    decreases |records|
  {
    if |records| == 0 then files
    else Collect(records[1..], CollectOne(records[0], files))
  }

  /** The map after one record. */
  function CollectOne(record: Option<Record>, files: map<String, String>): map<String, String> {
    match record
    case None => files
    case Some(rec) => files[rec.path := rec.body]
  }

  /** The recorded files of a document. */
  function ParseFiles(document: String): map<String, String> {
    Collect(SectionRecords(SplitSections(document)), map[])
  }

  /** The path cleanup of `createFile`: every `(Root)` deleted, then
      trimmed. */
  function CleanPath(path: String): String {
    Trim(RemoveAll(path, "(Root)"))
  }

  /** One `createFile`: a location and the block written there. */
  datatype Write = Write(location: String, body: String)

  /** The writes of `createFile` in the map's iteration order `order`. */
  function Writes(order: seq<String>, files: map<String, String>): (r: seq<Write>)
    requires forall k :: 0 <= k < |order| ==> order[k] in files
    ensures |r| == |order|
    ensures forall i :: 0 <= i < |r| ==> r[i] == Write(CleanPath(order[i]), files[order[i]])
  {
    seq(|order|, i requires 0 <= i < |order| => Write(CleanPath(order[i]), files[order[i]]))
  }

  /** The writes performed on a store keyed by location. A write truncates:
      the location then holds exactly the block, whatever it held. */
  function WriteAll(store: map<String, String>, ws: seq<Write>): map<String, String>
    decreases |ws|
  {
    if |ws| == 0 then store
    else WriteAll(store[ws[0].location := ws[0].body], ws[1..])
  }

  // ---------------------------------------------------------------------
  // Lemmas: cutting

  /** Two headers are at least five characters apart: the fifth character
      of one is a blank, where the next would need a `#`. */
  lemma HeadersApart(s: String, i: nat, k: nat)
    requires HeaderAt(s, i) && i < k < i + 5
    ensures !HeaderAt(s, k)
  {
    if k + 4 <= |s| {
      assert s[k..k + 4][i + 4 - k] == s[i + 4];
    }
  }

  lemma {:induction false} PiecesConcat(s: String, start: nat)
    requires start < |s|
    ensures Concat(PiecesFrom(s, start)) == s[start..]
    decreases |s| - start
  {
    var j := NextCut(s, start + 1);
    if j < |s| {
      PiecesConcat(s, j);
      assert s[start..] == s[start..j] + s[j..];
    }
  }

  /** A piece holds no header after its first character. */
  predicate NoInnerHeader(piece: String) {
    forall k :: 0 < k < |piece| ==> !HeaderAt(piece, k)
  }

  lemma PieceHeaders(s: String, start: nat)
    requires start < |s| && (start == 0 || HeaderAt(s, start))
    ensures var piece := s[start..NextCut(s, start + 1)];
            |piece| > 0 && NoInnerHeader(piece) && (start > 0 ==> HeaderAt(piece, 0))
  {
    var j := NextCut(s, start + 1);
    var piece := s[start..j];
    forall k | 0 < k < |piece|
      ensures !HeaderAt(piece, k)
    {
      if HeaderAt(piece, k) {
        assert s[start + k..start + k + 4] == piece[k..k + 4];
        assert HeaderAt(s, start + k);
      }
    }
    if start > 0 {
      if j < start + 5 {
        HeadersApart(s, start, j);
      }
      assert piece[..4] == s[start..start + 4];
    }
  }

  lemma {:induction false} PiecesShape(s: String, start: nat)
    requires start < |s| && (start == 0 || HeaderAt(s, start))
    ensures var ps := PiecesFrom(s, start);
            forall i :: 0 <= i < |ps| ==>
              |ps[i]| > 0 && NoInnerHeader(ps[i]) && (i > 0 || start > 0 ==> HeaderAt(ps[i], 0))
    decreases |s| - start
  {
    var j := NextCut(s, start + 1);
    PieceHeaders(s, start);
    var ps := PiecesFrom(s, start);
    if j < |s| {
      PiecesShape(s, j);
      assert forall i :: 0 < i < |ps| ==> ps[i] == PiecesFrom(s, j)[i - 1];
    }
  }

  /** The sections put back together are the document; every section but
      the first starts with a header; no section holds a header anywhere
      else. */
  lemma SplitSectionsShape(s: String)
    ensures Concat(SplitSections(s)) == s
    ensures var ps := SplitSections(s);
            forall i :: 0 <= i < |ps| ==> NoInnerHeader(ps[i]) && (i > 0 ==> HeaderAt(ps[i], 0))
  {
    if |s| > 0 {
      PiecesConcat(s, 0);
      PiecesShape(s, 0);
    }
  }

  // ---------------------------------------------------------------------
  // Lemmas: the header

  /** What the capture returns is a match: `####`, a blank run, the group. */
  lemma HeaderCaptureSound(line: String)
    requires HeaderCapture(line).Some?
    ensures var g := HeaderCapture(line).value;
            HeaderSplit(line, |line| - 4 - |g|, g)
  {
    var rest := line[4..];
    var w := RunLen(rest, IsRegexSpace);
    assert forall k :: 4 <= k < |line| ==> line[k] == rest[k - 4];
    if w == |rest| {
      assert line[|line| - 1..] == [rest[w - 1]];
    } else {
      assert line[4 + w..] == rest[w..];
    }
  }

  /** Every match is found, and the greedy blank run leaves the shortest
      group of all matches. */
  lemma HeaderCaptureComplete(line: String, w: nat, g: String)
    requires HeaderSplit(line, w, g)
    ensures HeaderCapture(line).Some? && |HeaderCapture(line).value| <= |g|
  {
    var rest := line[4..];
    var v := RunLen(rest, IsRegexSpace);
    assert forall k :: 0 <= k < |rest| ==> rest[k] == line[4 + k];
    assert forall k :: 0 <= k < w ==> IsRegexSpace(rest[k]);
    assert rest[w..] == g;
    if v < |rest| {
      assert forall k :: 0 <= k < |rest[v..]| ==> rest[v..][k] == g[k + v - w];
    } else {
      assert rest[v - 1] == g[|g| - 1];
    }
  }

  /** A header written `#### title` names `title`. */
  lemma HeaderOfTitle(title: String)
    requires |title| > 0 && AllDot(title) && !IsRegexSpace(title[0])
    ensures HeaderCapture("#### " + title) == Some(title)
  {
    var line := "#### " + title;
    assert line[..4] == "####";
    var rest := line[4..];
    assert rest == " " + title;
    RunLenExact(rest, IsRegexSpace, 1);
    assert rest[1..] == title;
  }

  // ---------------------------------------------------------------------
  // Lemmas: the block

  /** The block `find()` returns ends at a fence mark and holds none
      inside its body. */
  lemma {:induction false} FirstFenceBody(s: String, i: nat)
    ensures var r := FirstFence(s, i);
            r.Some? ==> && OccursAt(s, "```", r.value.end)
                        && forall k :: r.value.start <= k < r.value.end ==> !OccursAt(s, "```", k)
    decreases |s| - i
  {
    if i + 3 <= |s| && FenceAt(s, i).None? {
      FirstFenceBody(s, i + 1);
    }
  }

  /** No block starts before `f` when no fence mark does. */
  lemma {:induction false} FirstFenceSkips(s: String, i: nat, f: nat)
    requires i <= f
    requires forall k :: i <= k < f ==> !OccursAt(s, "```", k)
    ensures FirstFence(s, i) == FirstFence(s, f)
    decreases f - i
  {
    if i < f {
      FirstFenceSkips(s, i + 1, f);
    }
  }

  /** `s` starts as a section a document would hold: a header line
      `#### title`, then a block with an optional language tag; anything may
      follow. */
  predicate LaidOut(s: String, title: String, tag: String, body: String) {
    var f := 6 + |title|;
    var b := f + 4 + |tag|;
    && b + |body| + 3 <= |s|
    && s[..f - 1] == "#### " + title && s[f - 1] == '\n'
    && s[f..f + 3] == "```" && s[f + 3..b - 1] == tag && s[b - 1] == '\n'
    && s[b..b + |body|] == body && s[b + |body|..b + |body| + 3] == "```"
  }

  /** The block pattern at `i`, when the text there is a fence mark, a
      word run of `tagLen`, a line feed, a body from `b` to `c` with no
      backquote and not starting with a blank, and a fence mark. */
  lemma FenceAtLaidOut(s: String, i: nat, tagLen: nat, b: nat, c: nat)
    requires b == i + 4 + tagLen && b <= c && b < |s|
    requires OccursAt(s, "```", i)
    requires forall k :: i + 3 <= k < i + 3 + tagLen ==> IsWordChar(s[k])
    requires s[b - 1] == '\n'
    requires OccursAt(s, "```", c)
    requires forall k :: b <= k < c ==> s[k] != '`'
    requires !IsRegexSpace(s[b])
    ensures FenceAt(s, i) == Some(Span(b, c))
  {
    assert FenceAt(s, i) == FenceAfterTag(s, b - 1) by {
      FenceAtTag(s, i, tagLen);
    }
    assert FenceAfterTag(s, b - 1) == FenceBody(s, b) by {
      FenceAfterLineFeed(s, b - 1);
    }
    FenceBodyAt(s, b, c);
  }

  lemma FenceAtTag(s: String, i: nat, tagLen: nat)
    requires OccursAt(s, "```", i) && i + 3 + tagLen < |s|
    requires forall k :: i + 3 <= k < i + 3 + tagLen ==> IsWordChar(s[k])
    requires s[i + 3 + tagLen] == '\n'
    ensures FenceAt(s, i) == FenceAfterTag(s, i + 3 + tagLen)
  {
    assert FenceAt(s, i) == FenceAfterTag(s, TagEnd(s, i));
    assert TagEnd(s, i) == i + 3 + tagLen by {
      RunLenExact(s[i + 3..], IsWordChar, tagLen);
    }
  }

  /** A single line feed, then a character that is not blank. */
  lemma FenceAfterLineFeed(s: String, t: nat)
    requires t + 1 < |s| && s[t] == '\n' && !IsRegexSpace(s[t + 1])
    ensures FenceAfterTag(s, t) == FenceBody(s, t + 1)
  {
    RunLenExact(s[t..], IsRegexSpace, 1);
    LastIndexOfExact(s[t..][..1], '\n', 0);
  }

  /** A body with no backquote up to a fence mark. */
  lemma FenceBodyAt(s: String, b: nat, c: nat)
    requires b <= c && OccursAt(s, "```", c)
    requires forall k :: b <= k < c ==> s[k] != '`'
    ensures FenceBody(s, b) == Some(Span(b, c))
  {
    forall k | b <= k < c
      ensures !OccursAt(s, "```", k)
    {
      if k + 3 <= |s| {
        assert s[k..k + 3][0] == s[k];
      }
    }
    IndexOfFromExact(s, "```", b, c);
  }

  /** What the text holds around a block whose fence mark is at `f`, with
      a tag of `tagLen` and a body from `b` to `c`: no backquote before the
      mark, a word run, a line feed, a body with no backquote and not
      starting with a blank, and the closing mark. */
  predicate FenceFacts(s: String, f: nat, tagLen: nat, b: nat, c: nat) {
    && b == f + 4 + tagLen && b <= c && b < |s|
    && OccursAt(s, "```", f)
    && (forall k :: 0 <= k < f ==> s[k] != '`')
    && (forall k :: f + 3 <= k < f + 3 + tagLen ==> IsWordChar(s[k]))
    && s[b - 1] == '\n'
    && OccursAt(s, "```", c)
    && (forall k :: b <= k < c ==> s[k] != '`')
    && !IsRegexSpace(s[b])
  }

  /** The first block is the one at `f` when no backquote comes before
      it. */
  lemma FirstFenceLaidOut(s: String, f: nat, tagLen: nat, b: nat, c: nat)
    requires FenceFacts(s, f, tagLen, b, c)
    ensures FirstFence(s, 0) == Some(Span(b, c))
  {
    forall k | 0 <= k < f
      ensures !OccursAt(s, "```", k)
    {
      if k + 3 <= |s| {
        assert s[k..k + 3][0] == s[k];
      }
    }
    FirstFenceSkips(s, 0, f);
    FenceAtLaidOut(s, f, tagLen, b, c);
  }

  /** The first line ends at the first line feed. */
  lemma FirstLineLaidOut(s: String, n: nat)
    requires n < |s| && s[n] == '\n'
    requires forall k :: 0 <= k < n ==> s[k] != '\n'
    ensures FirstLine(s) == s[..n]
  {
    assert s[n..n + 1] == "\n";
    forall k | 0 <= k < n
      ensures !OccursAt(s, "\n", k)
    {
      assert s[k..k + 1][0] == s[k];
    }
    IndexOfFirst(s, "\n", n);
  }

  /** Where the parts of a laid-out section stand, character by
      character. */
  lemma LaidOutChars(s: String, title: String, tag: String, body: String, f: nat, b: nat, c: nat)
    requires LaidOut(s, title, tag, body)
    requires AllDot(title) && '`' !in title
    requires forall k :: 0 <= k < |tag| ==> IsWordChar(tag[k])
    requires '`' !in body && (body == [] || !IsRegexSpace(body[0]))
    requires f == 6 + |title| && b == f + 4 + |tag| && c == b + |body|
    ensures FenceFacts(s, f, |tag|, b, c) && s[b..c] == body
    ensures forall k :: 0 <= k < f - 1 ==> s[k] != '\n'
  {
    var x := "#### " + title;
    assert forall k :: 0 <= k < f - 1 ==> s[k] == s[..f - 1][k];
    assert forall k :: 5 <= k < f - 1 ==> x[k] == title[k - 5];
    assert forall k :: f + 3 <= k < b - 1 ==> s[k] == s[f + 3..b - 1][k - f - 3];
    assert forall k :: b <= k < b + |body| ==> s[k] == s[b..b + |body|][k - b];
    if body == [] {
      assert s[b] == s[b + |body|..b + |body| + 3][0];
    } else {
      assert s[b] == s[b..b + |body|][0];
    }
  }

  /** The code of a section whose first block runs from `b` to `c`. */
  lemma CodeOfFence(s: String, f: nat, tagLen: nat, b: nat, c: nat)
    requires FenceFacts(s, f, tagLen, b, c)
    ensures c <= |s| && ExtractCode(s) == Trim(s[b..c])
  {
    FirstFenceLaidOut(s, f, tagLen, b, c);
  }

  /** The code of a laid-out section is its body, trimmed. */
  lemma LaidOutCode(s: String, title: String, tag: String, body: String)
    requires LaidOut(s, title, tag, body)
    requires AllDot(title) && '`' !in title
    requires forall k :: 0 <= k < |tag| ==> IsWordChar(tag[k])
    requires '`' !in body && (body == [] || !IsRegexSpace(body[0]))
    ensures ExtractCode(s) == Trim(body)
  {
    var f := 6 + |title|;
    var b := f + 4 + |tag|;
    var c := b + |body|;
    LaidOutChars(s, title, tag, body, f, b, c);
    CodeOfFence(s, f, |tag|, b, c);
  }

  /** The header of a laid-out section names its title. */
  lemma LaidOutHeader(s: String, title: String, tag: String, body: String)
    requires LaidOut(s, title, tag, body)
    requires |title| > 0 && AllDot(title) && !IsRegexSpace(title[0]) && '`' !in title
    requires forall k :: 0 <= k < |tag| ==> IsWordChar(tag[k])
    requires '`' !in body && (body == [] || !IsRegexSpace(body[0]))
    ensures HeaderCapture(FirstLine(s)) == Some(title)
  {
    var f := 6 + |title|;
    LaidOutChars(s, title, tag, body, f, f + 4 + |tag|, f + 4 + |tag| + |body|);
    FirstLineLaidOut(s, f - 1);
    HeaderOfTitle(title);
  }

  /** The record of a laid-out section: the trimmed title and the trimmed
      body, unless the body is blank. */
  lemma LaidOutRecord(s: String, title: String, tag: String, body: String)
    requires LaidOut(s, title, tag, body)
    requires |title| > 0 && AllDot(title) && !IsRegexSpace(title[0]) && '`' !in title
    requires forall k :: 0 <= k < |tag| ==> IsWordChar(tag[k])
    requires '`' !in body && (body == [] || !IsRegexSpace(body[0]))
    ensures SectionRecord(s) == if Trim(body) == [] then None else Some(Record(Trim(title), Trim(body)))
  {
    LaidOutCode(s, title, tag, body);
    LaidOutHeader(s, title, tag, body);
  }

  /** The body is lazy: a fence mark inside what was meant as the block
      ends it there, and the code is only what comes before that mark. */
  lemma InnerFenceCutsBody(s: String, title: String, tag: String, pre: String, rest: String)
    requires LaidOut(s, title, tag, pre + "```" + rest)
    requires AllDot(title) && '`' !in title
    requires forall k :: 0 <= k < |tag| ==> IsWordChar(tag[k])
    requires '`' !in pre && (pre == [] || !IsRegexSpace(pre[0]))
    ensures ExtractCode(s) == Trim(pre)
  {
    var b := 10 + |title| + |tag|;
    var body := pre + "```" + rest;
    assert forall t :: 0 <= t < |body| ==> s[b + t] == s[b..b + |body|][t] == body[t];
    assert forall t :: 0 <= t < |pre| ==> body[t] == pre[t];
    assert s[b..b + |pre|] == pre;
    assert s[b + |pre|..b + |pre| + 3] == "```" by {
      assert forall t :: 0 <= t < 3 ==> body[|pre| + t] == "```"[t];
    }
    LaidOutCode(s, title, tag, pre);
  }

  /** A section whose text does not open with `####` and a blank has no
      header line, so it records nothing, whatever block it holds; this is
      the fate of the text before the first header. */
  lemma NoHeaderNoRecord(s: String)
    requires !(|s| >= 5 && s[..4] == "####" && IsRegexSpace(s[4]))
    ensures SectionRecord(s) == None
  {
    HeaderOpens(s);
  }

  /** A section whose first line is a header opens with `####` and a
      blank. */
  lemma HeaderOpens(s: String)
    ensures HeaderCapture(FirstLine(s)).Some? ==>
              |s| >= 5 && s[..4] == "####" && IsRegexSpace(s[4])
  {
    var line := FirstLine(s);
    if |line| >= 5 {
      assert line[4..][0] == line[4];
      assert s[..|line|] == line;
      assert s[..4] == line[..4] && s[4] == line[4];
    }
  }




  // ---------------------------------------------------------------------
  // Lemmas: recording

  /** A record for `path`. */
  predicate RecordsPath(record: Option<Record>, path: String) {
    record.Some? && record.value.path == path
  }

  /** A path is recorded exactly when it was already, or some record names
      it. */
  lemma {:induction false} CollectKeys(records: seq<Option<Record>>, files: map<String, String>, p: String)
    ensures p in Collect(records, files) <==>
            p in files || exists i :: 0 <= i < |records| && RecordsPath(records[i], p)
    decreases |records|
  {
    if |records| > 0 {
      var next := CollectOne(records[0], files);
      CollectKeys(records[1..], next, p);
      assert p in next <==> p in files || RecordsPath(records[0], p);
      if exists i :: 0 <= i < |records[1..]| && RecordsPath(records[1..][i], p) {
        var i :| 0 <= i < |records[1..]| && RecordsPath(records[1..][i], p);
        assert RecordsPath(records[i + 1], p);
      }
      if exists i :: 0 <= i < |records| && RecordsPath(records[i], p) {
        var i :| 0 <= i < |records| && RecordsPath(records[i], p);
        if i > 0 {
          assert RecordsPath(records[1..][i - 1], p);
        }
      }
    }
  }

  /** A path no record names keeps what it had. */
  lemma {:induction false} CollectUntouched(records: seq<Option<Record>>, files: map<String, String>, p: String)
    requires p in files
    requires forall j :: 0 <= j < |records| ==> !RecordsPath(records[j], p)
    ensures p in Collect(records, files) && Collect(records, files)[p] == files[p]
    decreases |records|
  {
    if |records| > 0 {
      CollectUntouched(records[1..], CollectOne(records[0], files), p);
    }
  }

  /** The last record naming a path decides its block. */
  lemma {:induction false} CollectLastWins(records: seq<Option<Record>>, files: map<String, String>, i: nat)
    requires i < |records| && records[i].Some?
    requires forall j :: i < j < |records| ==> !RecordsPath(records[j], records[i].value.path)
    ensures var rec := records[i].value;
            rec.path in Collect(records, files) && Collect(records, files)[rec.path] == rec.body
    decreases |records|
  {
    var next := CollectOne(records[0], files);
    if i == 0 {
      CollectUntouched(records[1..], next, records[0].value.path);
    } else {
      CollectLastWins(records[1..], next, i - 1);
    }
  }

  /** A block worth writing: non-empty, no blank ends. */
  predicate GoodBlock(b: String) {
    b != [] && IsTrimmed(b)
  }

  lemma CollectOneGood(record: Option<Record>, files: map<String, String>)
    requires forall p :: p in files ==> GoodBlock(files[p])
    requires record.Some? ==> GoodBlock(record.value.body)
    ensures var r := CollectOne(record, files);
            forall p :: p in r ==> GoodBlock(r[p])
  {
  }

  /** Every recorded block is non-empty and trimmed when every record's
      is. */
  lemma {:induction false} CollectBlocks(records: seq<Option<Record>>, files: map<String, String>)
    requires forall p :: p in files ==> GoodBlock(files[p])
    requires forall i :: 0 <= i < |records| && records[i].Some? ==> GoodBlock(records[i].value.body)
    ensures var r := Collect(records, files);
            forall p :: p in r ==> GoodBlock(r[p])
    decreases |records|
  {
    if |records| > 0 {
      var next := CollectOne(records[0], files);
      CollectOneGood(records[0], files);
      assert forall i :: 0 <= i < |records[1..]| ==> records[1..][i] == records[i + 1];
      CollectBlocks(records[1..], next);
      assert Collect(records, files) == Collect(records[1..], next);
    }
  }

  /** A document's recorded blocks are non-empty and trimmed. */
  lemma ParsedBlocks(document: String)
    ensures var r := ParseFiles(document);
            forall p :: p in r ==> r[p] != [] && IsTrimmed(r[p])
  {
    var records := SectionRecords(SplitSections(document));
    assert forall i :: 0 <= i < |records| && records[i].Some? ==> GoodBlock(records[i].value.body);
    CollectBlocks(records, map[]);
    assert ParseFiles(document) == Collect(records, map[]);
  }

  // ---------------------------------------------------------------------
  // Lemmas: writing

  /** A location no write targets keeps what it held. */
  lemma {:induction false} WriteElsewhere(store: map<String, String>, ws: seq<Write>, q: String)
    requires forall k :: 0 <= k < |ws| ==> ws[k].location != q
    ensures var r := WriteAll(store, ws);
            (q in r <==> q in store) && (q in store ==> r[q] == store[q])
    decreases |ws|
  {
    if |ws| > 0 {
      WriteElsewhere(store[ws[0].location := ws[0].body], ws[1..], q);
    }
  }

  /** Some write to `q` has none after it. */
  lemma {:induction false} LastTarget(ws: seq<Write>, q: String, j0: nat)
    requires j0 < |ws| && ws[j0].location == q
    ensures exists j :: j0 <= j < |ws| && ws[j].location == q && forall j' :: j < j' < |ws| ==> ws[j'].location != q
    decreases |ws| - j0
  {
    if exists j' :: j0 < j' < |ws| && ws[j'].location == q {
      var j' :| j0 < j' < |ws| && ws[j'].location == q;
      LastTarget(ws, q, j');
    }
  }

  /** A write's block is there afterwards, whatever the location held,
      unless a later write to the same location brings another block. */
  lemma {:induction false} WriteLastWins(store: map<String, String>, ws: seq<Write>, i: nat)
    requires i < |ws|
    requires forall j :: i < j < |ws| && ws[j].location == ws[i].location ==> ws[j].body == ws[i].body
    ensures var r := WriteAll(store, ws);
            ws[i].location in r && r[ws[i].location] == ws[i].body
    decreases |ws|
  {
    var next := store[ws[0].location := ws[0].body];
    var later := ws[1..];
    if i == 0 {
      var q := ws[0].location;
      if exists j :: 0 <= j < |later| && later[j].location == q {
        var j0 :| 0 <= j0 < |later| && later[j0].location == q;
        LastTarget(later, q, j0);
        var j :| j0 <= j < |later| && later[j].location == q && forall j' :: j < j' < |later| ==> later[j'].location != q;
        assert later[j] == ws[j + 1];
        WriteLastWins(next, later, j);
      } else {
        WriteElsewhere(next, later, q);
      }
    } else {
      WriteLastWins(next, later, i - 1);
    }
  }

  /** When no two recorded paths clean to the same location and every
      recorded path is written, each location holds exactly its block. */
  lemma WriteEveryFile(store: map<String, String>, order: seq<String>, files: map<String, String>)
    requires forall k :: 0 <= k < |order| ==> order[k] in files
    requires forall p :: p in files ==> p in order
    requires forall p, q :: p in files && q in files && CleanPath(p) == CleanPath(q) ==> p == q
    ensures var r := WriteAll(store, Writes(order, files));
            forall p :: p in files ==> CleanPath(p) in r && r[CleanPath(p)] == files[p]
  {
    var ws := Writes(order, files);
    forall p | p in files
      ensures CleanPath(p) in WriteAll(store, ws)
      ensures WriteAll(store, ws)[CleanPath(p)] == files[p]
    {
      var i :| 0 <= i < |order| && order[i] == p;
      WriteLastWins(store, ws, i);
    }
  }

  /** A leading `(Root)` label is dropped from a path. */
  lemma RootLabelDropped(p: String)
    requires !Contains(p, "(Root)")
    ensures CleanPath("(Root)" + p) == Trim(p)
  {
    var s := "(Root)" + p;
    assert s[..6] == "(Root)" && s[6..] == p;
  }
}
