/**
 * The functions of Go's `strings` package that the core calls, on strings
 * taken as sequences of Unicode characters.
 */
module Text {

  /** One character of the class `\s` of Go's regexp syntax: tab, newline, form feed, carriage return, space. */
  predicate IsSpace(c: char) {
    c == ' ' || c == '\t' || c == '\n' || c == '\U{000C}' || c == '\r'
  }

  /** No character of s belongs to `\s`. */
  predicate NoSpace(s: string) {
    forall i | 0 <= i < |s| :: !IsSpace(s[i])
  }

  /** strings.HasPrefix. */
  predicate HasPrefix(s: string, p: string) {
    |p| <= |s| && s[..|p|] == p
  }

  /** strings.HasSuffix. */
  predicate HasSuffix(s: string, p: string) {
    |p| <= |s| && s[|s| - |p|..] == p
  }

  /** p occurs in s starting at index i. */
  predicate OccursAt(s: string, p: string, i: int) {
    0 <= i && i + |p| <= |s| && s[i..i + |p|] == p
  }

  /** Occurrences in s[1..] are the occurrences in s shifted by one. */
  lemma OccursAtShift(s: string, p: string)
    requires |s| > 0
    ensures forall j :: OccursAt(s[1..], p, j) ==> OccursAt(s, p, j + 1)
    ensures forall j :: OccursAt(s, p, j) && j >= 1 ==> OccursAt(s[1..], p, j - 1)
  {
    forall j | j >= 0
      ensures OccursAt(s[1..], p, j) <==> OccursAt(s, p, j + 1)
    {
      if 0 <= j && j + |p| <= |s| - 1 {
        assert s[1..][j..j + |p|] == s[j + 1..j + 1 + |p|];
      }
    }
  }

  /** strings.Index: the index of the first occurrence of p in s, or -1 when p does not occur. */
  function IndexOf(s: string, p: string): (r: int)
    ensures r == -1 || 0 <= r
    ensures r >= 0 ==> OccursAt(s, p, r) && forall j | 0 <= j < r :: !OccursAt(s, p, j)
    ensures r == -1 ==> forall j :: !OccursAt(s, p, j)
    decreases |s|
  {
    if |s| < |p| then -1
    else if s[..|p|] == p then 0
    else
      var r := IndexOf(s[1..], p);
      OccursAtShift(s, p);
      if r < 0 then -1 else r + 1
  }

  /** strings.Contains(s, p), the same as `strings.Index(s, p) != -1`. */
  predicate Contains(s: string, p: string) {
    IndexOf(s, p) >= 0
  }

  /** strings.Replace(s, pat, rep, 1): the first occurrence of pat, if any, replaced by rep. */
  function ReplaceFirst(s: string, pat: string, rep: string): (r: string)
    ensures !Contains(s, pat) ==> r == s
    ensures Contains(s, pat) ==>
      exists i :: OccursAt(s, pat, i) && (forall j | 0 <= j < i :: !OccursAt(s, pat, j))
        && r == s[..i] + rep + s[i + |pat|..]
  {
    var i := IndexOf(s, pat);
    if i < 0 then s else s[..i] + rep + s[i + |pat|..]
  }

  /** Removing a prefix through its first occurrence takes it off the front. */
  lemma ReplaceFirstAtStart(s: string, p: string)
    requires HasPrefix(s, p)
    ensures ReplaceFirst(s, p, "") == s[|p|..]
  {
    assert OccursAt(s, p, 0);
  }

  /** strings.Replace(s, string(from), string(to), -1): every `from` becomes `to`. */
  function ReplaceChar(s: string, from: char, to: char): (r: string)
    ensures |r| == |s|
    ensures forall i | 0 <= i < |s| && s[i] == from :: r[i] == to
    ensures forall i | 0 <= i < |s| && s[i] != from :: r[i] == s[i]
  {
    if s == [] then []
    else [if s[0] == from then to else s[0]] + ReplaceChar(s[1..], from, to)
  }

  /** Replacing a character by one the inputs never hold loses nothing: two different inputs stay different. */
  lemma ReplaceCharInjective(a: string, b: string, from: char, to: char)
    requires to !in a && to !in b
    requires ReplaceChar(a, from, to) == ReplaceChar(b, from, to)
    ensures a == b
  {
    var ra, rb := ReplaceChar(a, from, to), ReplaceChar(b, from, to);
    assert |a| == |b|;
    forall i | 0 <= i < |a|
      ensures a[i] == b[i]
    {
      assert a[i] != to && b[i] != to;
      assert ra[i] == rb[i];
    }
  }

  /** The case mapping of Go's unicode.ToLower on every character whose lower case is ASCII. */
  function LowerChar(c: char): char {
    if 'A' <= c <= 'Z' then (c as int + 32) as char
    else if c == '\U{0130}' then 'i'  // LATIN CAPITAL LETTER I WITH DOT ABOVE
    else if c == '\U{212A}' then 'k'  // KELVIN SIGN
    else c
  }

  /** strings.ToLower, character by character. */
  function Lower(s: string): (r: string)
    ensures |r| == |s|
    ensures forall i | 0 <= i < |s| :: r[i] == LowerChar(s[i])
  {
    if s == [] then [] else [LowerChar(s[0])] + Lower(s[1..])
  }

  /** Lowering works character by character, so it distributes over concatenation. */
  lemma LowerConcat(a: string, b: string)
    ensures Lower(a + b) == Lower(a) + Lower(b)
  {
    var l := Lower(a + b);
    var r := Lower(a) + Lower(b);
    forall i | 0 <= i < |a + b|
      ensures l[i] == r[i]
    {
      if i < |a| {
        assert (a + b)[i] == a[i];
      } else {
        assert (a + b)[i] == b[i - |a|];
      }
    }
  }

  /** Lowering twice is lowering once. */
  lemma LowerIdempotent(s: string)
    ensures Lower(Lower(s)) == Lower(s)
  {
    var l := Lower(s);
    forall i | 0 <= i < |s|
      ensures Lower(l)[i] == l[i]
    {
    }
  }

  /** strings.Split(s, string(sep)): the pieces between the separators, in order. */
  function Split(s: string, sep: char): (r: seq<string>)
    ensures |r| >= 1
    ensures forall k | 0 <= k < |r| :: sep !in r[k]
  {
    if s == [] then [""]
    else
      var rest := Split(s[1..], sep);
      if s[0] == sep then [""] + rest else [[s[0]] + rest[0]] + rest[1..]
  }

  /** strings.Join(parts, string(sep)). */
  function Join(parts: seq<string>, sep: char): string {
    if |parts| == 0 then ""
    else if |parts| == 1 then parts[0]
    else parts[0] + [sep] + Join(parts[1..], sep)
  }

  /** Joining the pieces back with the separator gives the string that was split. */
  lemma {:induction false} SplitJoin(s: string, sep: char)
    ensures Join(Split(s, sep), sep) == s
  {
    if s != [] {
      var rest := Split(s[1..], sep);
      SplitJoin(s[1..], sep);
      if s[0] == sep {
        assert Split(s, sep) == [""] + rest;
        assert Join([""] + rest, sep) == "" + [sep] + Join(rest, sep);
        assert [sep] + s[1..] == s;
      } else {
        assert Split(s, sep) == [[s[0]] + rest[0]] + rest[1..];
        if |rest| == 1 {
          assert Join(rest, sep) == rest[0];
        } else {
          assert Join(rest, sep) == rest[0] + [sep] + Join(rest[1..], sep);
          assert ([[s[0]] + rest[0]] + rest[1..])[1..] == rest[1..];
        }
        assert [s[0]] + s[1..] == s;
      }
    }
  }

  /** Split on a string that starts with a known character. */
  lemma SplitCons(c: char, s: string, sep: char)
    ensures Split([c] + s, sep) ==
      if c == sep then [""] + Split(s, sep)
      else [[c] + Split(s, sep)[0]] + Split(s, sep)[1..]
  {
    assert ([c] + s)[1..] == s;
  }

  /** A piece without the separator, then the separator, splits off as the first piece. */
  lemma {:induction false} SplitAfterPiece(p: string, rest: string, sep: char)
    requires sep !in p
    ensures Split(p + [sep] + rest, sep) == [p] + Split(rest, sep)
  {
    if p == [] {
      assert p + [sep] + rest == [sep] + rest;
      SplitCons(sep, rest, sep);
    } else {
      var tail := p[1..] + [sep] + rest;
      assert p + [sep] + rest == [p[0]] + tail;
      SplitAfterPiece(p[1..], rest, sep);
      var r := Split(tail, sep);
      assert r == [p[1..]] + Split(rest, sep);
      SplitCons(p[0], tail, sep);
      assert [p[0]] + r[0] == p;
      assert r[1..] == Split(rest, sep);
    }
  }

  /** A string without the separator is one piece. */
  lemma {:induction false} SplitWithoutSeparator(s: string, sep: char)
    requires sep !in s
    ensures Split(s, sep) == [s]
  {
    if s != [] {
      assert s[0] != sep;
      assert sep !in s[1..];
      SplitWithoutSeparator(s[1..], sep);
      assert [s[0]] + s[1..] == s;
    }
  }

  /** Splitting what was joined gives back the pieces, when no piece holds the separator. */
  lemma {:induction false} JoinSplit(parts: seq<string>, sep: char)
    requires |parts| >= 1
    requires forall k | 0 <= k < |parts| :: sep !in parts[k]
    ensures Split(Join(parts, sep), sep) == parts
  {
    if |parts| == 1 {
      SplitWithoutSeparator(parts[0], sep);
    } else {
      JoinSplit(parts[1..], sep);
      SplitAfterPiece(parts[0], Join(parts[1..], sep), sep);
      assert [parts[0]] + parts[1..] == parts;
    }
  }

  /** The first piece is the longest prefix of s without the separator. */
  lemma {:induction false} SplitFirst(s: string, sep: char)
    ensures HasPrefix(s, Split(s, sep)[0])
    ensures |Split(s, sep)[0]| < |s| ==> s[|Split(s, sep)[0]|] == sep
  {
    if s != [] && s[0] != sep {
      SplitFirst(s[1..], sep);
      var f := Split(s[1..], sep)[0];
      assert Split(s, sep)[0] == [s[0]] + f;
      assert s[..|f| + 1] == [s[0]] + s[1..][..|f|];
    }
  }

  /** The strings concatenated in order. */
  function Concat(parts: seq<string>): string {
    if parts == [] then "" else parts[0] + Concat(parts[1..])
  }

  /** Concatenating two lists of strings one after the other. */
  lemma {:induction false} ConcatAppend(a: seq<string>, b: seq<string>)
    ensures Concat(a + b) == Concat(a) + Concat(b)
  {
    if a != [] {
      assert (a + b)[0] == a[0];
      assert (a + b)[1..] == a[1..] + b;
      ConcatAppend(a[1..], b);
    } else {
      assert a + b == b;
    }
  }

  /** Every part occurs in the concatenation, right after the parts before it. */
  lemma ConcatOccurs(parts: seq<string>, k: nat)
    requires k < |parts|
    ensures OccursAt(Concat(parts), parts[k], |Concat(parts[..k])|)
    ensures Contains(Concat(parts), parts[k])
  {
    var before, p, after := Concat(parts[..k]), parts[k], Concat(parts[k + 1..]);
    assert parts == parts[..k] + parts[k..];
    ConcatAppend(parts[..k], parts[k..]);
    assert parts[k..][0] == p && parts[k..][1..] == parts[k + 1..];
    assert Concat(parts[k..]) == p + after;
    var c := Concat(parts);
    assert c == before + (p + after);
    assert c[|before|..|before| + |p|] == p;
    assert OccursAt(c, p, |before|);
  }

  /** Appending nothing. */
  lemma AppendEmpty(s: string)
    ensures s + "" == s
  {
  }

  /** The two sides of a concatenation are its slices at the seam. */
  lemma Slices<T>(x: seq<T>, y: seq<T>)
    ensures (x + y)[..|x|] == x && (x + y)[|x|..] == y
  {
  }

  /** The outer parts of a three-part concatenation are its outer slices. */
  lemma Slices3(x: string, y: string, z: string)
    ensures (x + y + z)[..|x|] == x && (x + y + z)[|x| + |y|..] == z
  {
  }

  /** Dropping a prefix of the left part of a concatenation. */
  lemma DropConcat(a: string, b: string, k: nat)
    requires k <= |a|
    ensures (a + b)[k..] == a[k..] + b
  {
  }

  /** An index past the left part of a concatenation reads the right part. */
  lemma IndexAppend<T>(a: seq<T>, b: seq<T>, k: nat)
    requires |a| <= k < |a| + |b|
    ensures (a + b)[k] == b[k - |a|]
  {
  }

  /**
   * Every '<' of s is followed, inside s, by a character other than c: no
   * tag written in s has a name that starts with c.
   */
  predicate OpensAvoid(s: string, c: char) {
    forall i | 0 <= i < |s| && s[i] == '<' :: i + 1 < |s| && s[i + 1] != c
  }

  /** Text without '<' may follow a string whose tags avoid c. */
  lemma OpensAvoidPlain(x: string, y: string, c: char)
    requires OpensAvoid(x, c) && '<' !in y
    ensures OpensAvoid(x + y, c)
  {
    forall i | |x| <= i < |x| + |y|
      ensures (x + y)[i] != '<'
    {
      assert (x + y)[i] == y[i - |x|];
    }
  }

  /** Two strings whose tags avoid c make one whose tags avoid c. */
  lemma OpensAvoidAppend(x: string, y: string, c: char)
    requires OpensAvoid(x, c) && OpensAvoid(y, c)
    ensures OpensAvoid(x + y, c)
  {
    forall i | |x| <= i < |x| + |y| && (x + y)[i] == '<'
      ensures i + 1 < |x| + |y| && (x + y)[i + 1] != c
    {
      assert (x + y)[i] == y[i - |x|];
    }
  }

  /** A '<' followed by a name that starts with another character and holds no '<'. */
  lemma OpensAvoidTag(name: string, c: char)
    requires |name| > 0 && name[0] != c && '<' !in name
    ensures OpensAvoid("<" + name, c)
  {
    forall i | 1 <= i <= |name|
      ensures ("<" + name)[i] == name[i - 1]
    {
    }
  }

  /** The tags of a concatenation avoid c when those of every part do. */
  lemma {:induction false} OpensAvoidConcat(parts: seq<string>, c: char)
    requires forall k | 0 <= k < |parts| :: OpensAvoid(parts[k], c)
    ensures OpensAvoid(Concat(parts), c)
  {
    if parts != [] {
      OpensAvoidConcat(parts[1..], c);
      OpensAvoidAppend(parts[0], Concat(parts[1..]), c);
    }
  }

  /** A string whose tags avoid c holds no tag "<c...". */
  lemma OpensAvoidExcludes(s: string, p: string)
    requires |p| >= 2 && p[0] == '<' && OpensAvoid(s, p[1])
    ensures !Contains(s, p)
  {
    forall i | 0 <= i && i + |p| <= |s|
      ensures !OccursAt(s, p, i)
    {
      assert s[i..i + |p|][0] == s[i] && s[i..i + |p|][1] == s[i + 1];
    }
  }
}
