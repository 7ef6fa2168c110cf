/**
 * Go's conversion `[]byte(s)` of a string to its UTF-8 bytes, which the
 * password digest hashes (soap.go:128), and the decoding that undoes it.
 */
module Utf8 {
  import opened Wrappers

  newtype byte = b: int | 0 <= b < 256

  type Bytes = seq<byte>

  /** A continuation byte carrying the six bits v. */
  function Cont(v: int): byte
    requires 0 <= v < 64
  {
    (0x80 + v) as byte
  }

  /** The UTF-8 encoding of one Unicode scalar value: one to four bytes. */
  function EncodeChar(c: char): (r: Bytes)
    ensures 1 <= |r| <= 4
  {
    var n := c as int;
    if n < 0x80 then [n as byte]
    else if n < 0x800 then [(0xC0 + n / 64) as byte, Cont(n % 64)]
    else if n < 0x10000 then [(0xE0 + n / 4096) as byte, Cont(n / 64 % 64), Cont(n % 64)]
    else [(0xF0 + n / 262144) as byte, Cont(n / 4096 % 64), Cont(n / 64 % 64), Cont(n % 64)]
  }

  /** `[]byte(s)`: the encodings of the characters one after the other. */
  function Encode(s: string): Bytes {
    if s == [] then [] else EncodeChar(s[0]) + Encode(s[1..])
  }

  /** The bytes of a concatenation are the concatenation of the bytes. */
  lemma {:induction false} EncodeConcat(a: string, b: string)
    ensures Encode(a + b) == Encode(a) + Encode(b)
    decreases |a|
  {
    if a == [] {
      assert a + b == b;
    } else {
      assert (a + b)[0] == a[0];
      assert (a + b)[1..] == a[1..] + b;
      EncodeConcat(a[1..], b);
    }
  }

  /** The number of bytes that a sequence starting with lead byte b takes, or 0 for a byte no sequence starts with. */
  function SequenceLength(b: byte): nat {
    if b < 0x80 then 1
    else if b < 0xC0 then 0
    else if b < 0xE0 then 2
    else if b < 0xF0 then 3
    else if b < 0xF8 then 4
    else 0
  }

  predicate IsCont(b: byte) {
    0x80 <= b < 0xC0
  }

  /** The value a sequence of the right length denotes, when it is a Unicode scalar value. */
  function DecodeValue(bs: Bytes): Option<char>
    requires |bs| >= 1 && |bs| == SequenceLength(bs[0])
  {
    if exists i | 1 <= i < |bs| :: !IsCont(bs[i]) then None
    else
      var n :=
        if |bs| == 1 then bs[0] as int
        else if |bs| == 2 then (bs[0] as int - 0xC0) * 64 + (bs[1] as int - 0x80)
        else if |bs| == 3 then
          (bs[0] as int - 0xE0) * 4096 + (bs[1] as int - 0x80) * 64 + (bs[2] as int - 0x80)
        else
          (bs[0] as int - 0xF0) * 262144 + (bs[1] as int - 0x80) * 4096
            + (bs[2] as int - 0x80) * 64 + (bs[3] as int - 0x80);
      if 0 <= n < 0xD800 || 0xE000 <= n < 0x11_0000 then Some(n as char) else None
  }

  /** The characters a byte sequence encodes, or None when it is not a sequence of whole characters. */
  function Decode(bs: Bytes): Option<string>
    decreases |bs|
  {
    if bs == [] then Some([])
    else
      var len := SequenceLength(bs[0]);
      if len == 0 || len > |bs| then None
      else match DecodeValue(bs[..len])
        case None => None
        case Some(c) =>
          match Decode(bs[len..])
          case None => None
          case Some(rest) => Some([c] + rest)
  }

  /** Two-byte sequences: eleven bits split five and six. */
  lemma DecodeTwo(n: int)
    requires 0x80 <= n < 0x800
    ensures var bs: Bytes := [(0xC0 + n / 64) as byte, Cont(n % 64)];
      SequenceLength(bs[0]) == 2 && (bs[0] as int - 0xC0) * 64 + (bs[1] as int - 0x80) == n
  {
  }

  /** Three-byte sequences: sixteen bits split four, six and six. */
  lemma DecodeThree(n: int)
    requires 0x800 <= n < 0x10000
    ensures var bs: Bytes := [(0xE0 + n / 4096) as byte, Cont(n / 64 % 64), Cont(n % 64)];
      SequenceLength(bs[0]) == 3
      && (bs[0] as int - 0xE0) * 4096 + (bs[1] as int - 0x80) * 64 + (bs[2] as int - 0x80) == n
  {
    var q := n / 64;
    assert q * 64 + n % 64 == n;
    assert (q / 64) * 64 + q % 64 == q;
    assert n / 4096 == q / 64;
  }

  /** Four-byte sequences: twenty-one bits split three, six, six and six. */
  lemma DecodeFour(n: int)
    requires 0x10000 <= n < 0x11_0000
    ensures var bs: Bytes := [(0xF0 + n / 262144) as byte, Cont(n / 4096 % 64), Cont(n / 64 % 64), Cont(n % 64)];
      SequenceLength(bs[0]) == 4
      && (bs[0] as int - 0xF0) * 262144 + (bs[1] as int - 0x80) * 4096
        + (bs[2] as int - 0x80) * 64 + (bs[3] as int - 0x80) == n
  {
    var q := n / 64;
    var q2 := q / 64;
    assert q * 64 + n % 64 == n;
    assert q2 * 64 + q % 64 == q;
    assert (q2 / 64) * 64 + q2 % 64 == q2;
    assert n / 4096 == q2;
    assert n / 262144 == q2 / 64;
  }

  /** One character decodes back from its encoding. */
  lemma DecodeEncodeChar(c: char)
    ensures SequenceLength(EncodeChar(c)[0]) == |EncodeChar(c)|
    ensures DecodeValue(EncodeChar(c)) == Some(c)
  {
    var n := c as int;
    if n < 0x80 {
    } else if n < 0x800 {
      DecodeEncodeTwo(c);
    } else if n < 0x10000 {
      DecodeEncodeThree(c);
    } else {
      DecodeEncodeFour(c);
    }
  }

  lemma DecodeEncodeTwo(c: char)
    requires 0x80 <= c as int < 0x800
    ensures SequenceLength(EncodeChar(c)[0]) == |EncodeChar(c)| == 2
    ensures DecodeValue(EncodeChar(c)) == Some(c)
  {
    DecodeTwo(c as int);
    assert IsCont(EncodeChar(c)[1]);
  }

  lemma DecodeEncodeThree(c: char)
    requires 0x800 <= c as int < 0x10000
    ensures SequenceLength(EncodeChar(c)[0]) == |EncodeChar(c)| == 3
    ensures DecodeValue(EncodeChar(c)) == Some(c)
  {
    DecodeThree(c as int);
    var r := EncodeChar(c);
    assert forall i | 1 <= i < |r| :: IsCont(r[i]);
  }

  lemma DecodeEncodeFour(c: char)
    requires 0x10000 <= c as int
    ensures SequenceLength(EncodeChar(c)[0]) == |EncodeChar(c)| == 4
    ensures DecodeValue(EncodeChar(c)) == Some(c)
  {
    DecodeFour(c as int);
    var r := EncodeChar(c);
    assert forall i | 1 <= i < |r| :: IsCont(r[i]);
  }

  /** Decoding undoes `[]byte(s)`. */
  lemma {:induction false} DecodeEncode(s: string)
    ensures Decode(Encode(s)) == Some(s)
    decreases |s|
  {
    if s != [] {
      var e := EncodeChar(s[0]);
      var bs := Encode(s);
      DecodeEncodeChar(s[0]);
      assert bs == e + Encode(s[1..]);
      assert bs[..|e|] == e;
      assert bs[|e|..] == Encode(s[1..]);
      DecodeEncode(s[1..]);
      assert [s[0]] + s[1..] == s;
    }
  }

  /** `[]byte(s)` loses nothing: different strings have different bytes. */
  lemma EncodeInjective(a: string, b: string)
    requires Encode(a) == Encode(b)
    ensures a == b
  {
    DecodeEncode(a);
    DecodeEncode(b);
  }
}
