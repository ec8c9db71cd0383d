/** The small part of java.lang.String and java.util.regex that the tree
    parsers rely on, stated over `seq<char>`.

    Character classes follow Java's defaults: `String.trim()` strips every
    character at or below U+0020, the regex class `\s` is `[ \t\n\x0B\f\r]`,
    `\w` is `[a-zA-Z_0-9]`, and `.` matches anything except the five line
    terminators. */
module JavaText {

  type String = seq<char>

  /** A Java reference that may be `null`. */
  datatype Option<T> = None | Some(value: T)

  /** Characters removed by `String.trim()`. */
  predicate IsTrimmable(c: char) {
    c <= ' '
  }

  /** The regex class `\s` (without UNICODE_CHARACTER_CLASS). */
  predicate IsRegexSpace(c: char) {
    c == ' ' || c == '\t' || c == '\n' || c == '\r' || c as int == 0x0B || c as int == 0x0C
  }

  /** Characters the regex `.` does not match (no DOTALL flag). */
  predicate IsLineTerminator(c: char) {
    c == '\n' || c == '\r' || c as int == 0x85 || c as int == 0x2028 || c as int == 0x2029
  }

  predicate IsAsciiUpper(c: char) { 'A' <= c <= 'Z' }
  predicate IsAsciiLower(c: char) { 'a' <= c <= 'z' }
  predicate IsAsciiDigit(c: char) { '0' <= c <= '9' }

  /** The regex class `[a-zA-Z0-9]`. */
  predicate IsAsciiAlnum(c: char) {
    IsAsciiUpper(c) || IsAsciiLower(c) || IsAsciiDigit(c)
  }

  /** The regex class `\w`. */
  predicate IsWordChar(c: char) {
    IsAsciiAlnum(c) || c == '_'
  }

  /** The regex class `[a-zA-Z0-9._-]` of file and folder names. */
  predicate IsNameChar(c: char) {
    IsAsciiAlnum(c) || c == '.' || c == '_' || c == '-'
  }

  /** Every character of `s` is matched by the regex `.`, so `.*` matches `s`. */
  predicate AllDot(s: String) {
    forall i :: 0 <= i < |s| ==> !IsLineTerminator(s[i])
  }

  /** Length of the longest prefix of `s` whose characters satisfy `p`. */
  function RunLen(s: String, p: char -> bool): (n: nat)
    ensures n <= |s|
    ensures forall i :: 0 <= i < n ==> p(s[i])
    ensures n < |s| ==> !p(s[n])
  {
    if |s| == 0 || !p(s[0]) then 0 else 1 + RunLen(s[1..], p)
  }

  /** `RunLen` is pinned down by where the run stops. */
  lemma RunLenExact(s: String, p: char -> bool, c: nat)
    requires c <= |s|
    requires forall i :: 0 <= i < c ==> p(s[i])
    requires c < |s| ==> !p(s[c])
    ensures RunLen(s, p) == c
  {
  }

  /** Number of characters `String.trim()` drops from the left. */
  function LeadingTrimLen(s: String): (n: nat)
    ensures n <= |s|
    ensures forall k :: 0 <= k < n ==> IsTrimmable(s[k])
    ensures n < |s| ==> !IsTrimmable(s[n])
  {
    if |s| == 0 || !IsTrimmable(s[0]) then 0 else 1 + LeadingTrimLen(s[1..])
  }

  /** Number of characters `String.trim()` drops from the right, counted on
      the whole string (the left scan is not taken into account). */
  function TrailingTrimLen(s: String): (n: nat)
    ensures n <= |s|
    ensures forall k :: |s| - n <= k < |s| ==> IsTrimmable(s[k])
    ensures n < |s| ==> !IsTrimmable(s[|s| - 1 - n])
  {
    if |s| == 0 || !IsTrimmable(s[|s| - 1]) then 0 else 1 + TrailingTrimLen(s[..|s| - 1])
  }

  /** `String.trim()`: the slice of `s` left after dropping the characters at
      or below U+0020 from both ends. */
  function Trim(s: String): (r: String)
    ensures var i := LeadingTrimLen(s);
            i + |r| <= |s| && r == s[i..i + |r|]
            && (forall k :: i + |r| <= k < |s| ==> IsTrimmable(s[k]))
    ensures r == [] || (!IsTrimmable(r[0]) && !IsTrimmable(r[|r| - 1]))
    ensures r == [] <==> forall k :: 0 <= k < |s| ==> IsTrimmable(s[k])
  {
    var i := LeadingTrimLen(s);
    if i == |s| then [] else s[i..|s| - TrailingTrimLen(s)]
  }

  /** The leading run is pinned down by where it stops. */
  lemma LeadingTrimLenExact(s: String, i: nat)
    requires i <= |s|
    requires forall k :: 0 <= k < i ==> IsTrimmable(s[k])
    requires i < |s| ==> !IsTrimmable(s[i])
    ensures LeadingTrimLen(s) == i
  {
  }

  /** The trailing run is pinned down by where it stops. */
  lemma TrailingTrimLenExact(s: String, j: nat)
    requires j <= |s|
    requires forall k :: j <= k < |s| ==> IsTrimmable(s[k])
    requires 0 < j ==> !IsTrimmable(s[j - 1])
    ensures TrailingTrimLen(s) == |s| - j
  {
  }

  /** Any slice whose outside is insignificant and whose ends are significant
      is what `String.trim()` returns. */
  lemma TrimUnique(s: String, i: nat, j: nat)
    requires i <= j <= |s|
    requires forall k :: 0 <= k < i ==> IsTrimmable(s[k])
    requires forall k :: j <= k < |s| ==> IsTrimmable(s[k])
    requires i < j ==> !IsTrimmable(s[i]) && !IsTrimmable(s[j - 1])
    ensures Trim(s) == s[i..j]
  {
    if i < j {
      LeadingTrimLenExact(s, i);
      TrailingTrimLenExact(s, j);
    } else {
      assert forall k :: 0 <= k < |s| ==> IsTrimmable(s[k]);
    }
  }

  /** A significant last character survives trimming, still last. */
  lemma TrimKeepsLast(s: String)
    requires |s| > 0 && !IsTrimmable(s[|s| - 1])
    ensures var t := Trim(s);
            |t| > 0 && t[|t| - 1] == s[|s| - 1]
  {
    var t := Trim(s);
    var i := LeadingTrimLen(s);
    assert t != [];
    assert i + |t| == |s|;
    assert t[|t| - 1] == s[i + |t| - 1];
  }

  predicate IsTrimmed(s: String) {
    s == [] || (!IsTrimmable(s[0]) && !IsTrimmable(s[|s| - 1]))
  }

  /** A string whose ends are already significant is left unchanged. */
  lemma TrimOfTrimmed(s: String)
    requires IsTrimmed(s)
    ensures Trim(s) == s
  {
    TrimUnique(s, 0, |s|);
  }

  lemma TrimIsTrimmed(s: String)
    ensures IsTrimmed(Trim(s))
  {
  }

  /** Insignificant padding on either side does not reach the result. */
  lemma TrimPadded(a: String, s: String, b: String)
    requires forall k :: 0 <= k < |a| ==> IsTrimmable(a[k])
    requires forall k :: 0 <= k < |b| ==> IsTrimmable(b[k])
    ensures Trim(a + s + b) == Trim(s)
  {
    var i := LeadingTrimLen(s);
    var j := if i == |s| then i else |s| - TrailingTrimLen(s);
    PaddedTrimAt(a, s, b, i, j);
  }

  lemma PaddedTrimAt(a: String, s: String, b: String, i: nat, j: nat)
    requires i <= j <= |s|
    requires forall k :: 0 <= k < |a| ==> IsTrimmable(a[k])
    requires forall k :: 0 <= k < |b| ==> IsTrimmable(b[k])
    requires forall k :: 0 <= k < i ==> IsTrimmable(s[k])
    requires forall k :: j <= k < |s| ==> IsTrimmable(s[k])
    requires i < j ==> !IsTrimmable(s[i]) && !IsTrimmable(s[j - 1])
    ensures Trim(a + s + b) == Trim(s)
  {
    var x := a + s + b;
    PaddedOutside(a, s, b, i, j);
    PaddedSlice(a, s, b, i, j);
    if i < j {
      assert x[|a| + i] == s[i] && x[|a| + j - 1] == s[j - 1];
    }
    TrimUnique(x, |a| + i, |a| + j);
    TrimUnique(s, i, j);
  }

  lemma PaddedOutside(a: String, s: String, b: String, i: nat, j: nat)
    requires i <= j <= |s|
    requires forall k :: 0 <= k < |a| ==> IsTrimmable(a[k])
    requires forall k :: 0 <= k < |b| ==> IsTrimmable(b[k])
    requires forall k :: 0 <= k < i ==> IsTrimmable(s[k])
    requires forall k :: j <= k < |s| ==> IsTrimmable(s[k])
    ensures var x := a + s + b;
            (forall k :: 0 <= k < |a| + i ==> IsTrimmable(x[k]))
            && (forall k :: |a| + j <= k < |x| ==> IsTrimmable(x[k]))
  {
    var x := a + s + b;
    forall k | 0 <= k < |a| + i ensures IsTrimmable(x[k]) {
      if k < |a| { assert x[k] == a[k]; } else { assert x[k] == s[k - |a|]; }
    }
    forall k | |a| + j <= k < |x| ensures IsTrimmable(x[k]) {
      if k < |a| + |s| { assert x[k] == s[k - |a|]; } else { assert x[k] == b[k - |a| - |s|]; }
    }
  }

  lemma PaddedSlice(a: String, s: String, b: String, i: nat, j: nat)
    requires i <= j <= |s|
    ensures (a + s + b)[|a| + i..|a| + j] == s[i..j]
  {
    assert a + s + b == a + (s + b);
  }

  predicate StartsWith(s: String, p: String) {
    |p| <= |s| && s[..|p|] == p
  }

  predicate EndsWith(s: String, p: String) {
    |p| <= |s| && s[|s| - |p|..] == p
  }

  lemma StartsWithChar(s: String, c: char)
    requires |s| > 0
    ensures StartsWith(s, [c]) <==> s[0] == c
  {
    if s[0] == c {
      assert s[..1] == [c];
    }
  }

  lemma StartsWithHead(s: String, p: String)
    requires |p| > 0 && StartsWith(s, p)
    ensures |s| > 0 && s[0] == p[0]
  {
    assert s[..|p|][0] == s[0];
  }

  /** Appending a character the pattern lacks cannot create a prefix match. */
  lemma StartsWithAppend(s: String, p: String, c: char)
    requires !StartsWith(s, p) && c !in p
    ensures !StartsWith(s + [c], p)
  {
    if |p| <= |s| {
      assert (s + [c])[..|p|] == s[..|p|];
    } else if |p| == |s| + 1 {
      assert (s + [c])[..|p|][|s|] == c != p[|s|];
    }
  }

  /** A string differing from a pattern at some position the string reaches
      does not start with the pattern. */
  lemma NotPrefixAt(s: String, p: String, i: nat)
    requires i < |p| && (i < |s| ==> s[i] != p[i])
    ensures !StartsWith(s, p)
  {
    if |p| <= |s| {
      assert s[..|p|][i] == s[i];
    }
  }

  lemma EndsWithChar(s: String, c: char)
    requires |s| > 0
    ensures EndsWith(s, [c]) <==> s[|s| - 1] == c
  {
    if s[|s| - 1] == c {
      assert s[|s| - 1..] == [c];
    }
  }

  predicate OccursAt(s: String, p: String, i: int) {
    0 <= i && i + |p| <= |s| && s[i..i + |p|] == p
  }

  /** `s.indexOf(p, from)`: the first occurrence at or after `from`, or -1. */
  function IndexOfFrom(s: String, p: String, from: nat): (r: int)
    ensures r == -1 || (from <= r && OccursAt(s, p, r))
    ensures forall k :: from <= k && (r == -1 || k < r) ==> !OccursAt(s, p, k)
    decreases |s| - from
  {
    if from + |p| > |s| then -1
    else if s[from..from + |p|] == p then from
    else IndexOfFrom(s, p, from + 1)
  }

  /** The first occurrence at or after `from` is the one at `c` when none
      comes between. */
  lemma IndexOfFromExact(s: String, p: String, from: nat, c: nat)
    requires from <= c && OccursAt(s, p, c)
    requires forall k :: from <= k < c ==> !OccursAt(s, p, k)
    ensures IndexOfFrom(s, p, from) == c
  {
  }

  /** `s.indexOf(p)`. */
  function IndexOf(s: String, p: String): (r: int)
    ensures r == -1 || OccursAt(s, p, r)
    ensures forall k :: 0 <= k && (r == -1 || k < r) ==> !OccursAt(s, p, k)
  {
    IndexOfFrom(s, p, 0)
  }

  /** `s.contains(p)`. */
  predicate Contains(s: String, p: String) {
    IndexOf(s, p) >= 0
  }

  /** A one-character pattern occurs exactly when the character does. */
  lemma ContainsOneChar(s: String, c: char)
    ensures Contains(s, [c]) <==> c in s
  {
    var k := IndexOf(s, [c]);
    if k >= 0 {
      assert s[k..k + 1] == [c];
      assert s[k] == c;
    }
    if c in s {
      var j :| 0 <= j < |s| && s[j] == c;
      assert s[j..j + 1] == [c];
      assert OccursAt(s, [c], j);
    }
  }

  /** A pattern can only occur where its first character does. */
  lemma ContainsHead(s: String, p: String)
    requires |p| > 0 && Contains(s, p)
    ensures p[0] in s
  {
    var k := IndexOf(s, p);
    assert s[k..k + |p|][0] == s[k];
  }

  /** `indexOf` finds an occurrence with none before it. */
  lemma IndexOfFirst(s: String, p: String, i: nat)
    requires OccursAt(s, p, i)
    requires forall k :: 0 <= k < i ==> !OccursAt(s, p, k)
    ensures IndexOf(s, p) == i
  {
  }

  /** A pattern whose first character is absent does not occur. */
  lemma IndexOfAbsent(s: String, p: String)
    requires |p| > 0 && p[0] !in s
    ensures IndexOf(s, p) == -1
  {
    if IndexOf(s, p) >= 0 {
      ContainsHead(s, p);
    }
  }

  /** `s.lastIndexOf(c)`. */
  function LastIndexOf(s: String, c: char): (r: int)
    ensures -1 <= r < |s|
    ensures r >= 0 ==> s[r] == c
    ensures forall k :: r < k < |s| ==> s[k] != c
  {
    if |s| == 0 then -1
    else if s[|s| - 1] == c then |s| - 1
    else LastIndexOf(s[..|s| - 1], c)
  }

  /** `lastIndexOf` answers -1 exactly when the character is absent. */
  lemma LastIndexOfAbsent(s: String, c: char)
    ensures LastIndexOf(s, c) == -1 <==> c !in s
  {
  }

  /** The last occurrence is pinned down by the character there and the
      absence of `c` after it. */
  lemma LastIndexOfExact(s: String, c: char, r: int)
    requires -1 <= r < |s|
    requires r >= 0 ==> s[r] == c
    requires forall k :: r < k < |s| ==> s[k] != c
    ensures LastIndexOf(s, c) == r
  {
  }

  /** `String.join(sep, parts)`. */
  function Join(parts: seq<String>, sep: String): String {
    if |parts| == 0 then []
    else if |parts| == 1 then parts[0]
    else parts[0] + sep + Join(parts[1..], sep)
  }

  /** `s.replace(t, "")`: every occurrence of `t`, found left to right
      without overlap, is deleted in a single pass. */
  function RemoveAll(s: String, t: String): (r: String)
    requires |t| > 0
    ensures |r| <= |s|
    ensures !Contains(s, t) ==> r == s
    decreases |s|
  {
    if |s| < |t| then s
    else if s[..|t|] == t then
      assert OccursAt(s, t, 0);
      RemoveAll(s[|t|..], t)
    else
      var rest := RemoveAll(s[1..], t);
      ContainsTail(s, t);
      assert !Contains(s, t) ==> [s[0]] + rest == s;
      [s[0]] + rest
  }

  /** An occurrence in the tail is an occurrence in the whole. */
  lemma ContainsTail(s: String, t: String)
    requires |s| > 0
    ensures Contains(s[1..], t) ==> Contains(s, t)
  {
    if Contains(s[1..], t) {
      var k := IndexOf(s[1..], t);
      assert s[k + 1..k + 1 + |t|] == s[1..][k..k + |t|];
      assert OccursAt(s, t, k + 1);
    }
  }
}
