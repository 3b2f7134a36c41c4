/**
  Byte strings and their hexadecimal text.

  Go converts between `[]byte` and `string` without changing a single byte, and the
  system leans on that, so one type serves for both: a byte is a character below 256.
 */
module Bytes {
  import opened Option

  type byte = c: char | c as int < 256 witness 'a'
  type Bytes = seq<byte>

  function Byte(n: int): byte
    requires 0 <= n < 256
  {
    n as char
  }

  /** The lower-case digit that `%x` and encoding/hex print. */
  function HexDigit(n: int): (c: byte)
    requires 0 <= n < 16
    ensures Nibble(c) == Some(n) && IsLowerHex(c)
  {
    if n < 10 then ('0' as int + n) as char else ('a' as int + n - 10) as char
  }

  /** Value of a hexadecimal digit of either case, as the decoders accept it. */
  function Nibble(c: char): (n: Option<int>)
    ensures n.Some? ==> 0 <= n.value < 16
  {
    if '0' <= c <= '9' then Some(c as int - '0' as int)
    else if 'a' <= c <= 'f' then Some(c as int - 'a' as int + 10)
    else if 'A' <= c <= 'F' then Some(c as int - 'A' as int + 10)
    else None
  }

  /** The digits of either case, and nothing else. */
  lemma NibbleDigits(c: char)
    ensures Nibble(c).Some? ==> c == "0123456789abcdef"[Nibble(c).value] || c == "0123456789ABCDEF"[Nibble(c).value]
    ensures Nibble(c).None? ==> c !in "0123456789abcdef" && c !in "0123456789ABCDEF"
  {
  }

  predicate IsLowerHex(c: char) {
    '0' <= c <= '9' || 'a' <= c <= 'f'
  }

  predicate LowerHex(s: string) {
    forall i :: 0 <= i < |s| ==> IsLowerHex(s[i])
  }

  function EncodeHex(bs: Bytes): (s: Bytes)
    ensures |s| == 2 * |bs|
    ensures LowerHex(s)
  {
    if bs == [] then []
    else [HexDigit(bs[0] as int / 16), HexDigit(bs[0] as int % 16)] + EncodeHex(bs[1..])
  }

  /** encoding/hex.DecodeString with its error ignored: the bytes decoded before the first bad pair. */
  function DecodeHex(s: string): Bytes {
    if |s| < 2 || Nibble(s[0]).None? || Nibble(s[1]).None? then []
    else [Byte(Nibble(s[0]).value * 16 + Nibble(s[1]).value)] + DecodeHex(s[2..])
  }

  predicate IsPySpace(c: char) {
    c == ' ' || 9 <= c as int <= 13
  }

  /** Python's bytes.fromhex: blanks between pairs are skipped, anything else raises. */
  function FromHex(s: string): Option<Bytes> {
    if s == "" then Some([])
    else if IsPySpace(s[0]) then FromHex(s[1..])
    else if |s| < 2 || Nibble(s[0]).None? || Nibble(s[1]).None? then None
    else
      match FromHex(s[2..])
      case None => None
      case Some(rest) => Some([Byte(Nibble(s[0]).value * 16 + Nibble(s[1]).value)] + rest)
  }

  /** Gateway (Go) and verifier (Python) read back exactly the bytes that were printed. */
  lemma {:induction false} HexRoundTrip(bs: Bytes)
    ensures DecodeHex(EncodeHex(bs)) == bs
    ensures FromHex(EncodeHex(bs)) == Some(bs)
  {
    if bs == [] {
    } else {
      HexRoundTrip(bs[1..]);
      var s := EncodeHex(bs);
      assert s[2..] == EncodeHex(bs[1..]);
      assert !IsPySpace(s[0]) by { assert IsLowerHex(s[0]); }
      assert Byte(Nibble(s[0]).value * 16 + Nibble(s[1]).value) == bs[0];
    }
  }

  lemma EncodeHexInjective(a: Bytes, b: Bytes)
    requires EncodeHex(a) == EncodeHex(b)
    ensures a == b
  {
    HexRoundTrip(a);
    HexRoundTrip(b);
  }

  lemma {:induction false} EncodeHexConcat(a: Bytes, b: Bytes)
    ensures EncodeHex(a + b) == EncodeHex(a) + EncodeHex(b)
  {
    if a == [] {
      assert a + b == b;
    } else {
      assert (a + b)[1..] == a[1..] + b;
      EncodeHexConcat(a[1..], b);
    }
  }
}
