/**
 * The whitespace normalisation that ends the building of every SOAP request
 * (soap.go:117-118): first the regexp `>\s+<` is replaced by `><`, then the
 * regexp `\s+` by a single space, each with Go's ReplaceAllString
 * (leftmost match first, matches never overlap).
 */
module Normalize {
  import opened Text

  // ---------------------------------------------------------------------------
  // Runs of whitespace
  // ---------------------------------------------------------------------------

  /** The length of the run of `\s` characters at the start of s. */
  function SpaceRun(s: string): (n: nat)
    ensures n <= |s|
    ensures n < |s| ==> !IsSpace(s[n])
  {
    if s != [] && IsSpace(s[0]) then 1 + SpaceRun(s[1..]) else 0
  }

  /** The leading run is all whitespace. */
  lemma {:induction false} SpaceRunSpaces(s: string)
    ensures forall i | 0 <= i < SpaceRun(s) :: IsSpace(s[i])
  {
    if s != [] && IsSpace(s[0]) {
      SpaceRunSpaces(s[1..]);
      assert forall i | 1 <= i < SpaceRun(s) :: s[i] == s[1..][i - 1];
    }
  }

  /** A string that ends in a non-space character has a leading run that stops before its end. */
  lemma SpaceRunBeforeEnd(s: string)
    ensures |s| > 0 && !IsSpace(s[|s| - 1]) ==> SpaceRun(s) < |s|
  {
    SpaceRunSpaces(s);
  }

  /** A whitespace character in front lengthens the leading run by one. */
  lemma SpaceRunCons(c: char, t: string)
    requires IsSpace(c)
    ensures SpaceRun([c] + t) == 1 + SpaceRun(t)
  {
    assert ([c] + t)[1..] == t;
  }

  /** A run of spaces that stops inside x stops at the same place in x + y. */
  lemma {:induction false} SpaceRunConcat(x: string, y: string)
    requires SpaceRun(x) < |x|
    ensures SpaceRun(x + y) == SpaceRun(x)
    decreases |x|
  {
    if IsSpace(x[0]) {
      assert (x + y)[1..] == x[1..] + y;
      SpaceRunConcat(x[1..], y);
    }
  }

  // ---------------------------------------------------------------------------
  // `>\s+<` to `><`
  // ---------------------------------------------------------------------------

  /** A match of `>\s+<` starts at index 0 of s. */
  predicate GapAtStart(s: string) {
    |s| >= 1 && s[0] == '>' &&
    var n := SpaceRun(s[1..]);
    n > 0 && 1 + n < |s| && s[1 + n] == '<'
  }

  /** No match of `>\s+<` starts anywhere in s. */
  predicate GapFree(s: string) {
    forall i | 0 <= i <= |s| :: !GapAtStart(s[i..])
  }

  /**
   * Every match of `>\s+<` replaced by `><`. A match ends at its `<`, which
   * cannot begin the next match, so scanning on from the `<` is the same as
   * scanning on after it.
   */
  function CloseTagGaps(s: string): string
    decreases |s|
  {
    if s == [] then []
    else if GapAtStart(s) then ">" + CloseTagGaps(s[1 + SpaceRun(s[1..])..])
    else [s[0]] + CloseTagGaps(s[1..])
  }

  /** Gap closing keeps the first and the last character. */
  lemma {:induction false} CloseTagGapsEnds(s: string)
    ensures var r := CloseTagGaps(s);
      |s| > 0 ==> |r| > 0 && r[0] == s[0] && r[|r| - 1] == s[|s| - 1]
    decreases |s|
  {
    if s != [] {
      var k := if GapAtStart(s) then 1 + SpaceRun(s[1..]) else 1;
      CloseTagGapsEnds(s[k..]);
      if k < |s| {
        assert s[k..][|s[k..]| - 1] == s[|s| - 1];
      }
    }
  }

  /** Gap closing leaves a string of whitespace alone. */
  lemma {:induction false} CloseTagGapsAllSpace(s: string)
    requires SpaceRun(s) == |s|
    ensures CloseTagGaps(s) == s
    decreases |s|
  {
    if s != [] {
      assert !GapAtStart(s);
      CloseTagGapsAllSpace(s[1..]);
      assert [s[0]] + s[1..] == s;
    }
  }

  /** Gap closing leaves a leading run of whitespace, and the character after it, where they were. */
  lemma {:induction false} CloseTagGapsLeadingRun(s: string)
    ensures SpaceRun(CloseTagGaps(s)) == SpaceRun(s)
    ensures SpaceRun(s) < |s| ==>
      SpaceRun(s) < |CloseTagGaps(s)| && CloseTagGaps(s)[SpaceRun(s)] == s[SpaceRun(s)]
    decreases |s|
  {
    if s != [] && IsSpace(s[0]) {
      var t := s[1..];
      var rt := CloseTagGaps(t);
      CloseTagGapsLeadingRun(t);
      assert s == [s[0]] + t;
      assert !GapAtStart(s);
      assert CloseTagGaps(s) == [s[0]] + rt;
      SpaceRunCons(s[0], t);
      SpaceRunCons(s[0], rt);
    }
  }

  /** A gap-free string stays gap-free behind one more character, unless that character opens a gap. */
  lemma ShiftGapFree(c: char, s: string)
    requires GapFree(s)
    requires !GapAtStart([c] + s)
    ensures GapFree([c] + s)
  {
    var t := [c] + s;
    forall i | 1 <= i <= |t|
      ensures !GapAtStart(t[i..])
    {
      assert t[i..] == s[i - 1..];
    }
  }

  /** A character that opens no gap in front of t opens none in front of t with its gaps closed. */
  lemma NoGapAfterClosing(c: char, t: string)
    requires !GapAtStart([c] + t)
    ensures !GapAtStart([c] + CloseTagGaps(t))
  {
    var rt := CloseTagGaps(t);
    assert ([c] + t)[1..] == t;
    assert ([c] + rt)[1..] == rt;
    if c == '>' {
      CloseTagGapsLeadingRun(t);
      if SpaceRun(t) == |t| {
        CloseTagGapsAllSpace(t);
      }
    }
  }

  /** After gap closing no match of `>\s+<` is left. */
  lemma {:induction false} CloseTagGapsGapFree(s: string)
    ensures GapFree(CloseTagGaps(s))
    decreases |s|
  {
    if s != [] {
      if GapAtStart(s) {
        var rest := CloseTagGaps(s[1 + SpaceRun(s[1..])..]);
        CloseTagGapsGapFree(s[1 + SpaceRun(s[1..])..]);
        assert (">" + rest)[1..] == rest;
        ShiftGapFree('>', rest);
      } else {
        var rest := CloseTagGaps(s[1..]);
        CloseTagGapsGapFree(s[1..]);
        assert s == [s[0]] + s[1..];
        NoGapAfterClosing(s[0], s[1..]);
        ShiftGapFree(s[0], rest);
      }
    }
  }

  // ---------------------------------------------------------------------------
  // `\s+` to a single space
  // ---------------------------------------------------------------------------

  /** Every match of `\s+` replaced by one space. */
  function CollapseSpaces(s: string): string
    decreases |s|
  {
    if s == [] then []
    else if IsSpace(s[0]) then " " + CollapseSpaces(s[SpaceRun(s)..])
    else [s[0]] + CollapseSpaces(s[1..])
  }

  /** Collapsing never lengthens, empties only the empty string, and keeps the ends apart from whitespace becoming a space. */
  lemma {:induction false} CollapseSpacesEnds(s: string)
    ensures var r := CollapseSpaces(s);
      && |r| <= |s|
      && (|r| == 0 <==> |s| == 0)
      && (|s| > 0 && IsSpace(s[0]) ==> r[0] == ' ')
      && (|s| > 0 && !IsSpace(s[0]) ==> r[0] == s[0])
      && (|s| > 0 && !IsSpace(s[|s| - 1]) ==> r[|r| - 1] == s[|s| - 1])
    decreases |s|
  {
    if s != [] {
      var k := if IsSpace(s[0]) then SpaceRun(s) else 1;
      SpaceRunBeforeEnd(s);
      CollapseSpacesEnds(s[k..]);
      if k < |s| {
        assert s[k..][|s[k..]| - 1] == s[|s| - 1];
      }
    }
  }

  /** Whitespace is single spaces only. */
  predicate SingleSpaced(s: string) {
    (forall i | 0 <= i < |s| && IsSpace(s[i]) :: s[i] == ' ')
    && (forall i | 0 <= i < |s| - 1 && s[i] == ' ' :: s[i + 1] != ' ')
  }

  /** After collapsing, whitespace is single spaces only. */
  lemma {:induction false} CollapseSpacesShape(s: string)
    ensures SingleSpaced(CollapseSpaces(s))
    decreases |s|
  {
    if s != [] {
      var k := if IsSpace(s[0]) then SpaceRun(s) else 1;
      var t := s[k..];
      var c := CollapseSpaces(t);
      CollapseSpacesShape(t);
      var r := CollapseSpaces(s);
      if IsSpace(s[0]) {
        assert r == " " + c;
        if k < |s| {
          assert t[0] == s[k];
        }
      } else {
        assert r == [s[0]] + c;
      }
      forall i | 0 <= i < |r| && IsSpace(r[i])
        ensures r[i] == ' '
      {
        if i > 0 {
          assert r[i] == c[i - 1];
          assert IsSpace(c[i - 1]);
        } else {
          assert IsSpace(s[0]);
        }
      }
      forall i | 0 <= i < |r| - 1 && r[i] == ' '
        ensures r[i + 1] != ' '
      {
        assert r[i + 1] == c[i];
        if i > 0 {
          assert r[i] == c[i - 1];
          assert c[i - 1] == ' ';
        } else {
          assert IsSpace(s[0]) && k < |s|;
          assert c[0] == s[k];
        }
      }
    }
  }

  /** The normalisation applied to every request: `>\s+<` to `><`, then `\s+` to a space. */
  function Clean(s: string): string {
    CollapseSpaces(CloseTagGaps(s))
  }

  /** No single space separates a `>` from a `<`. */
  predicate NoSpacedTags(s: string) {
    forall i | 0 <= i < |s| - 2 && s[i] == '>' && s[i + 1] == ' ' :: s[i + 2] != '<'
  }

  /** Whitespace is single spaces only, and no space separates a `>` from a `<`. */
  predicate IsClean(s: string) {
    SingleSpaced(s) && NoSpacedTags(s)
  }

  /** Every suffix of a gap-free string is gap-free. */
  lemma GapFreeSuffix(s: string, k: nat)
    requires GapFree(s) && k <= |s|
    ensures GapFree(s[k..])
  {
    var t := s[k..];
    forall i | 0 <= i <= |t|
      ensures !GapAtStart(t[i..])
    {
      assert t[i..] == s[k + i..];
    }
  }

  /** One more character in front keeps a string free of spaced tags, unless it is a `>` before " <". */
  lemma NoSpacedTagsCons(x: char, c: string)
    requires NoSpacedTags(c)
    requires !(x == '>' && |c| > 1 && c[0] == ' ' && c[1] == '<')
    ensures NoSpacedTags([x] + c)
  {
    var r := [x] + c;
    forall i | 1 <= i < |r| - 2 && r[i] == '>' && r[i + 1] == ' '
      ensures r[i + 2] != '<'
    {
      assert r[i] == c[i - 1] && r[i + 1] == c[i] && r[i + 2] == c[i + 1];
    }
  }

  /** In a gap-free string, the space that a run after `>` collapses to is not followed by `<`. */
  lemma CollapseAfterTagEnd(s: string)
    requires GapFree(s) && |s| > 1 && s[0] == '>' && IsSpace(s[1])
    ensures var c := CollapseSpaces(s[1..]); !(|c| > 1 && c[0] == ' ' && c[1] == '<')
  {
    assert !GapAtStart(s[0..]);
    var t := s[1..];
    var n := SpaceRun(t);
    assert t[0] == s[1];
    assert CollapseSpaces(t) == " " + CollapseSpaces(t[n..]);
    if 1 + n < |s| {
      assert t[n..][0] == s[1 + n];
    }
  }

  /** Collapsing a gap-free string leaves no space between a `>` and a `<`. */
  lemma {:induction false} CollapseKeepsGapFree(s: string)
    requires GapFree(s)
    ensures NoSpacedTags(CollapseSpaces(s))
    decreases |s|
  {
    if s != [] {
      var k := if IsSpace(s[0]) then SpaceRun(s) else 1;
      var c := CollapseSpaces(s[k..]);
      GapFreeSuffix(s, k);
      CollapseKeepsGapFree(s[k..]);
      var r := CollapseSpaces(s);
      assert r == [r[0]] + c;
      if s[0] == '>' && |s| > 1 && IsSpace(s[1]) {
        CollapseAfterTagEnd(s);
      } else if s[0] == '>' && |s| > 1 {
        assert s[k..][0] == s[1];
      }
      NoSpacedTagsCons(r[0], c);
    }
  }

  /** Cleaning leaves single spaces only, and none between a `>` and a `<`. */
  lemma CleanIsClean(s: string)
    ensures IsClean(Clean(s))
  {
    CloseTagGapsGapFree(s);
    CollapseKeepsGapFree(CloseTagGaps(s));
    CollapseSpacesShape(CloseTagGaps(s));
  }

  // ---------------------------------------------------------------------------
  // Clean strings are left alone
  // ---------------------------------------------------------------------------

  /** Every suffix of a clean string is clean. */
  lemma CleanSuffix(s: string)
    requires IsClean(s) && |s| > 0
    ensures IsClean(s[1..])
  {
    var t := s[1..];
    forall i | 0 <= i < |t| ensures t[i] == s[i + 1] { }
  }

  /** No gap starts a clean string. */
  lemma CleanNoGapAtStart(s: string)
    requires IsClean(s)
    ensures !GapAtStart(s)
  {
    if |s| > 2 && s[0] == '>' && IsSpace(s[1]) {
      assert s[1] == ' ' && s[2] != ' ';
      assert SpaceRun(s[1..]) == 1 by {
        assert s[1..][0] == s[1] && s[1..][1] == s[2];
      }
      assert s[2] != '<';
    }
  }

  /** A clean string has no gap to close. */
  lemma {:induction false} CloseTagGapsFixesClean(s: string)
    requires IsClean(s)
    ensures CloseTagGaps(s) == s
    decreases |s|
  {
    if s != [] {
      CleanNoGapAtStart(s);
      CleanSuffix(s);
      CloseTagGapsFixesClean(s[1..]);
      assert [s[0]] + s[1..] == s;
    }
  }

  /** The head of a clean string: a space in it is a lone space, and the rest is clean. */
  lemma CleanHead(s: string)
    requires IsClean(s) && |s| > 0
    ensures IsClean(s[1..])
    ensures IsSpace(s[0]) ==> s[0] == ' ' && SpaceRun(s) == 1
  {
    CleanSuffix(s);
    if IsSpace(s[0]) && |s| > 1 {
      assert s[1] != ' ';
      assert s[1..][0] == s[1];
    }
  }

  /** A clean string has no run of spaces longer than one and no other whitespace. */
  lemma {:induction false} CollapseFixesClean(s: string)
    requires IsClean(s)
    ensures CollapseSpaces(s) == s
    decreases |s|
  {
    if s != [] {
      CleanHead(s);
      CollapseFixesClean(s[1..]);
      assert [s[0]] + s[1..] == s;
    }
  }

  /** Cleaning a clean string changes nothing. */
  lemma CleanFixesClean(s: string)
    requires IsClean(s)
    ensures Clean(s) == s
  {
    CloseTagGapsFixesClean(s);
    CollapseFixesClean(s);
  }

  /** Cleaning is idempotent. */
  lemma CleanIdempotent(s: string)
    ensures Clean(Clean(s)) == Clean(s)
  {
    CleanIsClean(s);
    CleanFixesClean(Clean(s));
  }

  /** A string without whitespace is clean, so cleaning keeps it. */
  lemma CleanKeepsSpaceless(s: string)
    requires NoSpace(s)
    ensures Clean(s) == s
  {
    CleanFixesClean(s);
  }

  // ---------------------------------------------------------------------------
  // Cleaning piece by piece
  // ---------------------------------------------------------------------------

  /** A gap that starts in a, which ends in a non-space, is the same gap in a + b. */
  lemma GapAtStartConcat(a: string, b: string)
    requires |a| > 1 && !IsSpace(a[|a| - 1])
    ensures (a + b)[1..] == a[1..] + b
    ensures SpaceRun(a[1..]) < |a| - 1
    ensures SpaceRun((a + b)[1..]) == SpaceRun(a[1..])
    ensures GapAtStart(a + b) <==> GapAtStart(a)
  {
    assert (a + b)[1..] == a[1..] + b;
    var x := a[1..];
    assert x[|x| - 1] == a[|a| - 1];
    SpaceRunBeforeEnd(x);
    SpaceRunConcat(x, b);
  }

  /** A non-space character before a string that does not start with whitespace opens no gap. */
  lemma CloseTagGapsSingle(c: char, b: string)
    requires !IsSpace(c)
    requires |b| > 0 && !IsSpace(b[0])
    ensures CloseTagGaps([c] + b) == [c] + CloseTagGaps(b)
    ensures CloseTagGaps([c]) == [c]
  {
    assert ([c] + b)[1..] == b;
    assert SpaceRun(b) == 0;
    assert !GapAtStart([c] + b);
    assert !GapAtStart([c]);
    assert [c][1..] == [];
  }

  /** Closing the gaps of a string that starts with one. */
  lemma CloseTagGapsGap(s: string, n: nat)
    requires GapAtStart(s) && n == SpaceRun(s[1..])
    ensures CloseTagGaps(s) == ">" + CloseTagGaps(s[1 + n..])
  {
  }

  /** One step of CloseTagGapsConcat, when a starts with a gap. */
  lemma CloseTagGapsConcatGap(a: string, b: string, n: nat)
    requires |a| > 1 && !IsSpace(a[|a| - 1]) && GapAtStart(a)
    requires n == SpaceRun(a[1..])
    requires CloseTagGaps(a[1 + n..] + b) == CloseTagGaps(a[1 + n..]) + CloseTagGaps(b)
    ensures CloseTagGaps(a + b) == CloseTagGaps(a) + CloseTagGaps(b)
  {
    GapAtStartConcat(a, b);
    DropConcat(a, b, 1 + n);
    CloseTagGapsGap(a + b, n);
    CloseTagGapsGap(a, n);
    FrontAssoc(">", CloseTagGaps(a[1 + n..]), CloseTagGaps(b), CloseTagGaps(a + b), CloseTagGaps(a));
  }

  /** One step of CloseTagGapsConcat, when a does not start with a gap. */
  lemma CloseTagGapsConcatNoGap(a: string, b: string)
    requires |a| > 1 && !IsSpace(a[|a| - 1]) && !GapAtStart(a)
    requires CloseTagGaps(a[1..] + b) == CloseTagGaps(a[1..]) + CloseTagGaps(b)
    ensures CloseTagGaps(a + b) == CloseTagGaps(a) + CloseTagGaps(b)
  {
    GapAtStartConcat(a, b);
  }

  /** Gap closing works on each side of a boundary between two non-space characters. */
  lemma {:induction false} CloseTagGapsConcat(a: string, b: string)
    requires |a| > 0 && !IsSpace(a[|a| - 1])
    requires |b| > 0 && !IsSpace(b[0])
    ensures CloseTagGaps(a + b) == CloseTagGaps(a) + CloseTagGaps(b)
    decreases |a|
  {
    if |a| == 1 {
      assert a == [a[0]];
      CloseTagGapsSingle(a[0], b);
    } else if GapAtStart(a) {
      var n := SpaceRun(a[1..]);
      var a' := a[1 + n..];
      assert a'[|a'| - 1] == a[|a| - 1];
      CloseTagGapsConcat(a', b);
      CloseTagGapsConcatGap(a, b, n);
    } else {
      var a' := a[1..];
      assert a'[|a'| - 1] == a[|a| - 1];
      CloseTagGapsConcat(a', b);
      CloseTagGapsConcatNoGap(a, b);
    }
  }

  /** Collapsing a string that starts with a run of whitespace. */
  lemma CollapseSpacesRun(s: string, m: nat)
    requires |s| > 0 && IsSpace(s[0]) && m == SpaceRun(s)
    ensures CollapseSpaces(s) == " " + CollapseSpaces(s[m..])
  {
  }

  /** Collapsing a string that starts with another character. */
  lemma CollapseSpacesChar(s: string)
    requires |s| > 0 && !IsSpace(s[0])
    ensures CollapseSpaces(s) == [s[0]] + CollapseSpaces(s[1..])
  {
  }

  /** Putting the same front before a concatenation. */
  lemma FrontAssoc(c: string, x: string, y: string, whole: string, part: string)
    requires whole == c + (x + y) && part == c + x
    ensures whole == part + y
  {
  }

  /** One step of CollapseConcat, when a starts with whitespace. */
  lemma CollapseConcatSpace(a: string, b: string, m: nat)
    requires |a| > 0 && IsSpace(a[0]) && !IsSpace(a[|a| - 1])
    requires m == SpaceRun(a) && m < |a|
    requires CollapseSpaces(a[m..] + b) == CollapseSpaces(a[m..]) + CollapseSpaces(b)
    ensures CollapseSpaces(a + b) == CollapseSpaces(a) + CollapseSpaces(b)
  {
    SpaceRunConcat(a, b);
    assert (a + b)[m..] == a[m..] + b;
    CollapseSpacesRun(a + b, m);
    CollapseSpacesRun(a, m);
    FrontAssoc(" ", CollapseSpaces(a[m..]), CollapseSpaces(b), CollapseSpaces(a + b), CollapseSpaces(a));
  }

  /** One step of CollapseConcat, when a starts with another character. */
  lemma CollapseConcatChar(a: string, b: string)
    requires |a| > 0 && !IsSpace(a[0])
    requires CollapseSpaces(a[1..] + b) == CollapseSpaces(a[1..]) + CollapseSpaces(b)
    ensures CollapseSpaces(a + b) == CollapseSpaces(a) + CollapseSpaces(b)
  {
    assert (a + b)[1..] == a[1..] + b;
    CollapseSpacesChar(a + b);
    CollapseSpacesChar(a);
    FrontAssoc([a[0]], CollapseSpaces(a[1..]), CollapseSpaces(b), CollapseSpaces(a + b), CollapseSpaces(a));
  }

  /** Space collapsing works on each side of a boundary after a non-space character. */
  lemma {:induction false} CollapseConcat(a: string, b: string)
    requires |a| > 0 && !IsSpace(a[|a| - 1])
    ensures CollapseSpaces(a + b) == CollapseSpaces(a) + CollapseSpaces(b)
    decreases |a|
  {
    if IsSpace(a[0]) {
      SpaceRunBeforeEnd(a);
      var m := SpaceRun(a);
      CollapseConcat(a[m..], b);
      CollapseConcatSpace(a, b, m);
    } else if |a| > 1 {
      CollapseConcat(a[1..], b);
      CollapseConcatChar(a, b);
    } else {
      assert a[1..] + b == b;
      CollapseConcatChar(a, b);
    }
  }

  /** Cleaning works on each side of a boundary between two non-space characters. */
  lemma CleanConcat(a: string, b: string)
    requires |a| > 0 && !IsSpace(a[|a| - 1])
    requires |b| > 0 && !IsSpace(b[0])
    ensures Clean(a + b) == Clean(a) + Clean(b)
  {
    CloseTagGapsConcat(a, b);
    CloseTagGapsEnds(a);
    CollapseConcat(CloseTagGaps(a), CloseTagGaps(b));
  }

  /** s is empty or starts and ends with a character that is not whitespace. */
  predicate Trimmed(s: string) {
    s == [] || (!IsSpace(s[0]) && !IsSpace(s[|s| - 1]))
  }

  /** Cleaning a piece placed between two non-space characters cleans the three parts apart. */
  lemma CleanAround(a: string, s: string, b: string)
    requires |a| > 0 && !IsSpace(a[|a| - 1])
    requires |b| > 0 && !IsSpace(b[0])
    requires Trimmed(s)
    ensures Clean(a + s + b) == Clean(a) + Clean(s) + Clean(b)
  {
    if s == [] {
      assert a + s + b == a + b;
      CleanConcat(a, b);
    } else {
      CleanConcat(a, s);
      var front := a + s;
      assert front[|front| - 1] == s[|s| - 1];
      CleanConcat(front, b);
    }
  }

  /** Cleaning keeps the first and the last character when they are not whitespace. */
  lemma CleanKeepsEnds(s: string)
    requires |s| > 0 && !IsSpace(s[0]) && !IsSpace(s[|s| - 1])
    ensures |Clean(s)| > 0
    ensures Clean(s)[0] == s[0]
    ensures Clean(s)[|Clean(s)| - 1] == s[|s| - 1]
  {
    CloseTagGapsEnds(s);
    CollapseSpacesEnds(CloseTagGaps(s));
  }
}
