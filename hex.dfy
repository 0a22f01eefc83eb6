/**
 * The hexadecimal codec the DEK-Info header uses: encoding writes two lower-case digits per byte,
 * high nibble first; decoding accepts digits of either case and fails on anything else or on an
 * odd number of digits.
 */
module Hex {
  import opened Wrappers
  import opened Asn1

  /** The digits the encoder writes. */
  predicate IsLowerHexDigit(c: char) {
    ('0' <= c <= '9') || ('a' <= c <= 'f')
  }

  /** The digit for a nibble. */
  function Digit(v: int): (c: char)
    requires 0 <= v < 16
    ensures IsLowerHexDigit(c)
  {
    if v < 10 then ('0' as int + v) as char else ('a' as int + v - 10) as char
  }

  /** The nibble a digit stands for, in either case. */
  function DigitValue(c: char): (r: Option<int>)
    ensures r.Some? ==> 0 <= r.value < 16
  {
    if '0' <= c <= '9' then Some(c as int - '0' as int)
    else if 'a' <= c <= 'f' then Some(c as int - 'a' as int + 10)
    else if 'A' <= c <= 'F' then Some(c as int - 'A' as int + 10)
    else None
  }

  /** `Hex.encode`. */
  function Encode(b: seq<byte>): (r: seq<char>)
    ensures |r| == 2 * |b|
    ensures forall i :: 0 <= i < |r| ==> IsLowerHexDigit(r[i])
  {
    if b == [] then [] else [Digit(b[0] as int / 16), Digit(b[0] as int % 16)] + Encode(b[1..])
  }

  /** `Hex.decode`; `None` is the decoder's exception. */
  function Decode(s: seq<char>): (r: Option<seq<byte>>)
    ensures r.Some? ==> 2 * |r.value| == |s|
  {
    if s == [] then Some([])
    else if |s| == 1 then None
    else
      match (DigitValue(s[0]), DigitValue(s[1]), Decode(s[2..]))
      case (Some(hi), Some(lo), Some(tail)) => Some([(hi * 16 + lo) as byte] + tail)
      case _ => None
  }

  /** An encoding holds no character other than the lower-case digits. */
  lemma EncodeWithout(b: seq<byte>, c: char)
    requires !IsLowerHexDigit(c)
    ensures c !in Encode(b)
  {
  }

  /** Decoding what was encoded gives the bytes back. */
  lemma {:induction false} DecodeEncode(b: seq<byte>)
    ensures Decode(Encode(b)) == Some(b)
  {
    if b != [] {
      var e := Encode(b);
      DecodeEncode(b[1..]);
      assert e[2..] == Encode(b[1..]);
      assert DigitValue(e[0]) == Some(b[0] as int / 16);
      assert DigitValue(e[1]) == Some(b[0] as int % 16);
      assert b == [b[0]] + b[1..];
    }
  }

  /** Decoding does not depend on the case of the letters. */
  lemma {:induction false} DecodeIgnoresCase(s: seq<char>, t: seq<char>)
    requires |s| == |t| && forall i :: 0 <= i < |s| ==> DigitValue(s[i]) == DigitValue(t[i])
    ensures Decode(s) == Decode(t)
    decreases |s|
  {
    if |s| >= 2 {
      DecodeIgnoresCase(s[2..], t[2..]);
    }
  }

  /** `writeHexEncoded`: the characters of `Hex.encode(bytes)`, written one at a time. */
  method WriteHexEncoded(bytes: seq<byte>) returns (out: string)
    ensures out == Encode(bytes)
  {
    var encoded := Encode(bytes);
    out := [];
    var i := 0;
    while i != |encoded|
      invariant 0 <= i <= |encoded|
      invariant out == encoded[..i]
    {
      out := out + [encoded[i]];
      i := i + 1;
    }
  }
}
