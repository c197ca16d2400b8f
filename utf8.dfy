/** Go's strings are byte sequences holding UTF-8; the model keeps Go strings as Dafny
    strings and converts with this codec wherever the source converts between `string`
    and `[]byte` (registry keys and values, file contents).  Decoding follows
    `utf8.DecodeRune`: a byte that does not start a valid encoding becomes U+FFFD and
    decoding resumes at the next byte. */
module Utf8 {

  newtype byte = x: int | 0 <= x < 256
  type Bytes = seq<byte>

  const RuneError: char := '�'

  predicate IsContinuation(b: byte) { 0x80 <= b < 0xC0 }

  /** The UTF-8 encoding of one scalar value. */
  function EncodeChar(c: char): (r: Bytes)
    ensures 1 <= |r| <= 4
    ensures (c as int < 0x80) <==> |r| == 1
    ensures |r| == 1 ==> r[0] as int == c as int
    ensures !IsContinuation(r[0])
    ensures |r| > 1 ==> r[0] >= 0xC0
    ensures forall i :: 1 <= i < |r| ==> IsContinuation(r[i])
  {
    var n := c as int;
    if n < 0x80 then
      [n as byte]
    else if n < 0x800 then
      [(0xC0 + n / 0x40) as byte, (0x80 + n % 0x40) as byte]
    else if n < 0x10000 then
      [(0xE0 + n / 0x1000) as byte, (0x80 + n / 0x40 % 0x40) as byte, (0x80 + n % 0x40) as byte]
    else
      [(0xF0 + n / 0x40000) as byte, (0x80 + n / 0x1000 % 0x40) as byte,
       (0x80 + n / 0x40 % 0x40) as byte, (0x80 + n % 0x40) as byte]
  }

  /** `[]byte(s)` */
  function Encode(s: string): (r: Bytes)
    ensures |s| <= |r| <= 4 * |s|
  {
    if s == [] then [] else EncodeChar(s[0]) + Encode(s[1..])
  }

  /** `utf8.DecodeRune`: the first scalar value of `b` and the number of bytes it takes. */
  function DecodeRune(b: Bytes): (r: (char, nat))
    requires |b| > 0
    ensures 1 <= r.1 <= |b|
  {
    var b0 := b[0] as int;
    if b0 < 0x80 then
      (b0 as char, 1)
    else if 0xC0 <= b0 < 0xE0 && |b| >= 2 && IsContinuation(b[1]) then
      var n := (b0 - 0xC0) * 0x40 + (b[1] as int - 0x80);
      if n >= 0x80 then (n as char, 2) else (RuneError, 1)
    else if 0xE0 <= b0 < 0xF0 && |b| >= 3 && IsContinuation(b[1]) && IsContinuation(b[2]) then
      var n := (b0 - 0xE0) * 0x1000 + (b[1] as int - 0x80) * 0x40 + (b[2] as int - 0x80);
      if n >= 0x800 && !(0xD800 <= n < 0xE000) then (n as char, 3) else (RuneError, 1)
    else if 0xF0 <= b0 < 0xF8 && |b| >= 4 && IsContinuation(b[1]) && IsContinuation(b[2])
            && IsContinuation(b[3]) then
      var n := (b0 - 0xF0) * 0x40000 + (b[1] as int - 0x80) * 0x1000
               + (b[2] as int - 0x80) * 0x40 + (b[3] as int - 0x80);
      if 0x10000 <= n < 0x110000 then (n as char, 4) else (RuneError, 1)
    else
      (RuneError, 1)
  }

  /** `string(b)`, read rune by rune. */
  function Decode(b: Bytes): (s: string)
    ensures |s| <= |b|
    decreases |b|
  {
    if b == [] then [] else var r := DecodeRune(b); [r.0] + Decode(b[r.1..])
  }

  lemma DecodeRuneOfEncodeChar(c: char, rest: Bytes)
    ensures DecodeRune(EncodeChar(c) + rest) == (c, |EncodeChar(c)|)
  {
    var n := c as int;
    var b := EncodeChar(c) + rest;
    if n < 0x80 {
    } else if n < 0x800 {
      assert (b[0] as int - 0xC0) * 0x40 + (b[1] as int - 0x80) == n;
    } else if n < 0x10000 {
      var q := n / 0x40;
      assert q / 0x40 == n / 0x1000;
      assert (b[0] as int - 0xE0) * 0x1000 + (b[1] as int - 0x80) * 0x40 + (b[2] as int - 0x80) == n;
    } else {
      var q := n / 0x40;
      var q2 := q / 0x40;
      assert q2 == n / 0x1000;
      assert q2 / 0x40 == n / 0x40000;
      assert (b[0] as int - 0xF0) * 0x40000 + (b[1] as int - 0x80) * 0x1000
             + (b[2] as int - 0x80) * 0x40 + (b[3] as int - 0x80) == n;
    }
  }

  /** Converting a string to bytes and back gives the string back. */
  lemma {:induction false} DecodeEncode(s: string)
    ensures Decode(Encode(s)) == s
  {
    if s != [] {
      var e := EncodeChar(s[0]);
      DecodeRuneOfEncodeChar(s[0], Encode(s[1..]));
      assert (e + Encode(s[1..]))[|e|..] == Encode(s[1..]);
      DecodeEncode(s[1..]);
    }
  }

  /** Distinct strings have distinct bytes, so byte keys built from names keep names apart. */
  lemma EncodeInjective(s: string, t: string)
    requires Encode(s) == Encode(t)
    ensures s == t
  {
    DecodeEncode(s);
    DecodeEncode(t);
  }

  lemma {:induction false} EncodeAppend(s: string, t: string)
    ensures Encode(s + t) == Encode(s) + Encode(t)
  {
    if s == [] {
      assert s + t == t;
    } else {
      assert (s + t)[1..] == s[1..] + t;
      EncodeAppend(s[1..], t);
    }
  }

  lemma EncodeOne(c: char)
    ensures Encode([c]) == EncodeChar(c)
  {
    assert [c][1..] == [];
  }

  /** An ASCII character is encoded as the single byte of its code. */
  lemma EncodeAsciiChar(c: char)
    requires c as int < 0x80
    ensures Encode([c]) == [c as int as byte]
  {
    assert [c][1..] == [];
  }
}
