/** The nesting level of a tree-diagram line, shared by the `_22` and `v5`
    generators: the leading run of spaces, tabs and box-drawing glyphs is
    weighed (space 1, tab 4, glyph 2) and the total halved. */
module Indent {
  import opened JavaText

  const Vertical: char := '\U{2502}'    // │
  const Tee: char := '\U{251C}'         // ├
  const Corner: char := '\U{2514}'      // └
  const Horizontal: char := '\U{2500}'  // ─

  /** One of the four box-drawing glyphs of a tree diagram. */
  predicate IsGlyph(c: char) {
    c == Vertical || c == Tee || c == Corner || c == Horizontal
  }

  /** Characters that continue the indentation run. */
  predicate IsIndentChar(c: char) {
    c == ' ' || c == '\t' || IsGlyph(c)
  }

  function Weight(c: char): nat {
    if c == ' ' then 1 else if c == '\t' then 4 else if IsGlyph(c) then 2 else 0
  }

  /** Total weight of the leading indentation run of `s`. */
  function RunWeight(s: String): nat {
    if |s| == 0 || !IsIndentChar(s[0]) then 0 else Weight(s[0]) + RunWeight(s[1..])
  }

  /** `getIndentLevel` of the `_22` and `v5` generators. */
  function IndentLevel(line: String): nat {
    RunWeight(line) / 2
  }

  /** Number of characters of `s` that satisfy `p`. */
  function CountWhere(s: String, p: char -> bool): nat {
    if |s| == 0 then 0 else (if p(s[0]) then 1 else 0) + CountWhere(s[1..], p)
  }

  /** The level in terms of what the run holds: one for every two spaces,
      two for every tab and one for every glyph, rounded down. */
  lemma {:induction false} IndentByCounts(line: String)
    ensures var run := line[..RunLen(line, IsIndentChar)];
            IndentLevel(line)
              == (CountWhere(run, c => c == ' ') + 4 * CountWhere(run, c => c == '\t')
                  + 2 * CountWhere(run, IsGlyph)) / 2
  {
    RunWeightByCounts(line);
  }

  lemma {:induction false} RunWeightByCounts(s: String)
    ensures var run := s[..RunLen(s, IsIndentChar)];
            RunWeight(s)
              == CountWhere(run, c => c == ' ') + 4 * CountWhere(run, c => c == '\t')
                 + 2 * CountWhere(run, IsGlyph)
  {
    var run := s[..RunLen(s, IsIndentChar)];
    if |s| == 0 || !IsIndentChar(s[0]) {
      assert run == [];
    } else {
      RunWeightByCounts(s[1..]);
      var run' := s[1..][..RunLen(s[1..], IsIndentChar)];
      assert RunLen(s, IsIndentChar) == 1 + RunLen(s[1..], IsIndentChar);
      assert run[0] == s[0] && run[1..] == run';
    }
  }

  /** Whatever follows the first character outside the run is ignored. */
  lemma {:induction false} IndentIgnoresTail(s: String, c: char, t: String)
    requires forall k :: 0 <= k < |s| ==> IsIndentChar(s[k])
    requires !IsIndentChar(c)
    ensures IndentLevel(s + [c] + t) == IndentLevel(s)
  {
    RunWeightAppend(s, [c] + t);
    assert s + [c] + t == s + ([c] + t);
    assert RunWeight([c] + t) == 0;
    RunWeightAppend(s, []);
    assert s + [] == s;
  }

  /** An indentation prefix adds its weight to whatever follows. */
  lemma {:induction false} RunWeightAppend(s: String, t: String)
    requires forall k :: 0 <= k < |s| ==> IsIndentChar(s[k])
    ensures RunWeight(s + t) == RunWeight(s) + RunWeight(t)
    decreases |s|
  {
    if |s| == 0 {
      assert s + t == t;
    } else {
      assert (s + t)[0] == s[0];
      assert (s + t)[1..] == s[1..] + t;
      RunWeightAppend(s[1..], t);
    }
  }

  /** The Java loop: walk the run, adding each character's weight. */
  method GetIndentLevel(line: String) returns (level: nat)
    ensures level == IndentLevel(line)
  {
    var total := 0;
    var i := 0;
    while i < |line| && IsIndentChar(line[i])
      invariant 0 <= i <= |line|
      invariant forall k :: 0 <= k < i ==> IsIndentChar(line[k])
      invariant total + RunWeight(line[i..]) == RunWeight(line)
    {
      RunWeightStep(line, i);
      total := total + Weight(line[i]);
      i := i + 1;
    }
    level := total / 2;
  }

  lemma RunWeightStep(line: String, i: nat)
    requires i < |line| && IsIndentChar(line[i])
    ensures RunWeight(line[i..]) == Weight(line[i]) + RunWeight(line[i + 1..])
  {
    assert line[i..][1..] == line[i + 1..];
  }

  /** Levels of a few typical diagram lines. */
  lemma IndentExamples()
    ensures IndentLevel("src/") == 0
    ensures IndentLevel([Tee, Horizontal, Horizontal] + " src/") == 3
    ensures IndentLevel([Vertical] + "   " + [Tee, Horizontal, Horizontal] + " main/") == 6
    ensures IndentLevel("\tpom.xml") == 2
  {
    IndentIgnoresTail([], 's', "rc/");
    assert "src/" == [] + ['s'] + "rc/";
    var a := [Tee, Horizontal, Horizontal, ' '];
    IndentIgnoresTail(a, 's', "rc/");
    assert [Tee, Horizontal, Horizontal] + " src/" == a + ['s'] + "rc/";
    assert RunWeight(a[3..]) == 1;
    assert RunWeight(a[2..]) == 3;
    assert RunWeight(a[1..]) == 5;
    var b := [Vertical] + "   " + a;
    IndentIgnoresTail(b, 'm', "ain/");
    assert [Vertical] + "   " + [Tee, Horizontal, Horizontal] + " main/" == b + ['m'] + "ain/";
    RunWeightAppend([Vertical] + "   ", a);
    assert RunWeight(a) == 7;
    var v := [Vertical] + "   ";
    assert v[1..] == "   " && v[2..] == "  " && v[3..] == " " && v[4..] == [];
    assert RunWeight(v[3..]) == 1;
    assert RunWeight(v[2..]) == 2;
    assert RunWeight(v[1..]) == 3;
    assert RunWeight(v) == 5;
    IndentIgnoresTail("\t", 'p', "om.xml");
    assert "\tpom.xml" == "\t" + ['p'] + "om.xml";
  }
}
