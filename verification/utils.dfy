/** The scalar converters of utils.go. */
module Utils {
  import opened Wrappers
  import opened Text
  import opened Strconv
  import opened Values

  /** interfaceToString: the string a value holds, or "" when it holds something else. */
  function InterfaceToString(v: Value): string {
    if v.Str? then v.text else ""
  }

  /** interfaceToBool: whether the string the value holds, lower-cased, is "true". */
  predicate InterfaceToBool(v: Value) {
    Lower(InterfaceToString(v)) == "true"
  }

  /** interfaceToInt: Atoi of the string the value holds, its error discarded. */
  function InterfaceToInt(v: Value): Int64 {
    Atoi(InterfaceToString(v)).value
  }

  /** intToString: strconv.Itoa. */
  function IntToString(n: Int64): string {
    Itoa(n)
  }

  /** boolToString. */
  function BoolToString(b: bool): string {
    if b then "true" else "false"
  }

  /** The word an authorization error names. */
  const Authorized: string := "authorized"

  /** CheckAuthorizedError: whether the lower-cased message contains "authorized". */
  predicate CheckAuthorizedError(msg: string) {
    IndexOf(Lower(msg), Authorized) != -1
  }

  /** Only a string is converted; every other value reads as "". */
  lemma InterfaceToStringCases(v: Value)
    ensures v.Str? ==> InterfaceToString(v) == v.text
    ensures !v.Str? ==> InterfaceToString(v) == ""
  {
  }

  /** A character lowers to an ASCII lower-case letter other than i and k only from that letter or its upper case. */
  lemma LowerCharToAscii(c: char, l: char)
    requires 'a' <= l <= 'z' && l != 'i' && l != 'k'
    ensures LowerChar(c) == l <==> c == l || c == (l as int - 32) as char
  {
  }

  /** interfaceToBool accepts exactly the spellings of "true" in any mix of cases, and nothing that is not a string. */
  lemma InterfaceToBoolAccepts(v: Value)
    ensures InterfaceToBool(v) <==>
      v.Str? && |v.text| == 4
      && (v.text[0] == 't' || v.text[0] == 'T') && (v.text[1] == 'r' || v.text[1] == 'R')
      && (v.text[2] == 'u' || v.text[2] == 'U') && (v.text[3] == 'e' || v.text[3] == 'E')
  {
    var s := InterfaceToString(v);
    var l := Lower(s);
    if |s| == 4 {
      LowerCharToAscii(s[0], 't');
      LowerCharToAscii(s[1], 'r');
      LowerCharToAscii(s[2], 'u');
      LowerCharToAscii(s[3], 'e');
      assert l == "true" <==> l[0] == 't' && l[1] == 'r' && l[2] == 'u' && l[3] == 'e';
    }
  }

  /** boolToString then interfaceToBool gives back the boolean. */
  lemma BoolRoundTrip(b: bool)
    ensures InterfaceToBool(Str(BoolToString(b))) == b
  {
    InterfaceToBoolAccepts(Str(BoolToString(b)));
  }

  /** intToString then interfaceToInt gives back every 64-bit int. */
  lemma IntRoundTrip(n: Int64)
    ensures InterfaceToInt(Str(IntToString(n))) == n
  {
    AtoiItoa(n);
  }

  /** interfaceToInt reads a well-formed decimal as its value, clamped to 64 bits. */
  lemma InterfaceToIntWellFormed(s: string)
    requires WellFormed(s)
    ensures InterfaceToInt(Str(s)) == Clamp(SignedValue(s))
  {
    AtoiWellFormed(s);
  }

  /** interfaceToInt reads a malformed string as 0, unless its leading digits overflow first, and a non-string as 0. */
  lemma InterfaceToIntMalformed(v: Value)
    requires !WellFormed(InterfaceToString(v))
    requires var s := InterfaceToString(v);
      var digits := if |s| > 0 && (s[0] == '+' || s[0] == '-') then s[1..] else s;
      DigitsValue(DigitPrefix(digits)) <= MaxUint64
    ensures InterfaceToInt(v) == 0
  {
    AtoiMalformed(InterfaceToString(v));
  }

  /** CheckAuthorizedError holds exactly when "authorized" occurs, in any case, somewhere in the message. */
  lemma CheckAuthorizedErrorMeaning(msg: string)
    ensures CheckAuthorizedError(msg) <==> exists i :: OccursAt(Lower(msg), Authorized, i)
  {
    var r := IndexOf(Lower(msg), Authorized);
    if r >= 0 {
      assert OccursAt(Lower(msg), Authorized, r);
    }
  }

  /** The check ignores case: the message and its lower-case form are classified alike. */
  lemma CheckAuthorizedErrorIgnoresCase(msg: string)
    ensures CheckAuthorizedError(Lower(msg)) == CheckAuthorizedError(msg)
  {
    LowerIdempotent(msg);
  }

  /** A message holding any spelling of "authorized", in any mix of cases, is an authorization error. */
  lemma CheckAuthorizedErrorAt(pre: string, word: string, post: string)
    requires Lower(word) == Authorized
    ensures CheckAuthorizedError(pre + word + post)
  {
    var m := pre + word + post;
    forall j | 0 <= j < |word|
      ensures Lower(m)[|pre| + j] == Lower(word)[j]
    {
      assert m[|pre| + j] == word[j];
    }
    assert Lower(m)[|pre|..|pre| + |word|] == Lower(word);
    assert OccursAt(Lower(m), Authorized, |pre|);
    CheckAuthorizedErrorMeaning(m);
  }
}
