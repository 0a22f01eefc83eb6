/**
 * The Base64 alphabet of RFC 4648 section 4, with `=` padding: the encoder and decoder the PEM
 * bodies and the Netscape SPKI text go through. Decoding is strict: the length must be a multiple
 * of four, only the last group may be padded, and every other character must be in the alphabet.
 */
module Base64 {
  import opened Wrappers
  import opened Asn1

  /** The 64 characters of the alphabet. */
  predicate IsAlphabet(c: char) {
    ('A' <= c <= 'Z') || ('a' <= c <= 'z') || ('0' <= c <= '9') || c == '+' || c == '/'
  }

  /** A character an encoding may hold: the alphabet and the pad. */
  predicate IsEncodingChar(c: char) {
    IsAlphabet(c) || c == '='
  }

  /** The character for a six-bit value. */
  function CharOf(v: int): (c: char)
    requires 0 <= v < 64
    ensures IsAlphabet(c)
  {
    if v < 26 then ('A' as int + v) as char
    else if v < 52 then ('a' as int + v - 26) as char
    else if v < 62 then ('0' as int + v - 52) as char
    else if v == 62 then '+'
    else '/'
  }

  /** The six-bit value of an alphabet character. */
  function ValueOf(c: char): (v: int)
    requires IsAlphabet(c)
    ensures 0 <= v < 64
  {
    if 'A' <= c <= 'Z' then c as int - 'A' as int
    else if 'a' <= c <= 'z' then c as int - 'a' as int + 26
    else if '0' <= c <= '9' then c as int - '0' as int + 52
    else if c == '+' then 62
    else 63
  }

  lemma ValueOfCharOf(v: int)
    requires 0 <= v < 64
    ensures ValueOf(CharOf(v)) == v
  {
  }

  /** One last byte as a doubly padded group. */
  function EncodeOne(a: byte): (r: seq<char>)
    ensures |r| == 4
  {
    [CharOf(a as int / 4), CharOf(a as int % 4 * 16), '=', '=']
  }

  /** Two last bytes as a singly padded group. */
  function EncodeTwo(a: byte, b: byte): (r: seq<char>)
    ensures |r| == 4
  {
    [CharOf(a as int / 4), CharOf(a as int % 4 * 16 + b as int / 16), CharOf(b as int % 16 * 4), '=']
  }

  /** Three bytes as four characters. */
  function EncodeBlock(a: byte, b: byte, c: byte): (r: seq<char>)
    ensures |r| == 4
  {
    [CharOf(a as int / 4), CharOf(a as int % 4 * 16 + b as int / 16),
     CharOf(b as int % 16 * 4 + c as int / 64), CharOf(c as int % 64)]
  }

  /** `Base64.encode`: every group of three bytes becomes four characters, padded at the end. */
  function Encode(b: seq<byte>): (r: seq<char>)
    decreases |b|
    ensures |r| == 4 * ((|b| + 2) / 3)
  {
    if |b| == 0 then []
    else if |b| == 1 then EncodeOne(b[0])
    else if |b| == 2 then EncodeTwo(b[0], b[1])
    else EncodeBlock(b[0], b[1], b[2]) + Encode(b[3..])
  }

  /** An encoding holds only alphabet and pad characters. */
  lemma {:induction false} EncodeChars(b: seq<byte>)
    ensures forall i :: 0 <= i < |Encode(b)| ==> IsEncodingChar(Encode(b)[i])
    decreases |b|
  {
    if |b| >= 3 {
      EncodeChars(b[3..]);
      var e, h := Encode(b), EncodeBlock(b[0], b[1], b[2]);
      assert e == h + Encode(b[3..]);
      forall i | 0 <= i < |e| ensures IsEncodingChar(e[i]) {
        if i >= 4 { assert e[i] == Encode(b[3..])[i - 4]; }
      }
    }
  }

  /** The first `n` characters of `g` are in the alphabet. */
  predicate AlphabetPrefix(g: seq<char>, n: nat)
    requires n <= |g|
  {
    forall i :: 0 <= i < n ==> IsAlphabet(g[i])
  }

  /** The six-bit values of alphabet characters, in order. */
  function Sextets(g: seq<char>): (vs: seq<int>)
    requires AlphabetPrefix(g, |g|)
    ensures |vs| == |g| && forall i :: 0 <= i < |vs| ==> 0 <= vs[i] < 64
  {
    if g == [] then [] else [ValueOf(g[0])] + Sextets(g[1..])
  }

  /** Each value is the value of the character at the same position. */
  lemma {:induction false} SextetsAt(g: seq<char>)
    requires AlphabetPrefix(g, |g|)
    ensures forall i :: 0 <= i < |g| ==> Sextets(g)[i] == ValueOf(g[i])
  {
    if g != [] {
      SextetsAt(g[1..]);
      assert Sextets(g) == [ValueOf(g[0])] + Sextets(g[1..]);
    }
  }

  /** Four alphabet characters as three bytes. */
  function DecodeFull(g: seq<char>): (r: Option<seq<byte>>)
    requires |g| == 4
    ensures r.Some? ==> |r.value| == 3
  {
    if AlphabetPrefix(g, 4) then
      var v := Sextets(g);
      Some([(v[0] * 4 + v[1] / 16) as byte, (v[1] % 16 * 16 + v[2] / 4) as byte, (v[2] % 4 * 64 + v[3]) as byte])
    else None
  }

  /** The last group, which may carry one or two pad characters. */
  function DecodeLast(g: seq<char>): (r: Option<seq<byte>>)
    requires |g| == 4
  {
    if g[2] == '=' && g[3] == '=' then
      if AlphabetPrefix(g, 2) then
        var v := Sextets(g[..2]);
        Some([(v[0] * 4 + v[1] / 16) as byte])
      else None
    else if g[3] == '=' then
      if AlphabetPrefix(g, 3) then
        var v := Sextets(g[..3]);
        Some([(v[0] * 4 + v[1] / 16) as byte, (v[1] % 16 * 16 + v[2] / 4) as byte])
      else None
    else DecodeFull(g)
  }

  /** `Base64.decode`; `None` is the exception the decoder raises on malformed text. */
  function Decode(s: seq<char>): (r: Option<seq<byte>>)
    decreases |s|
  {
    if |s| == 0 then Some([])
    else if |s| < 4 then None
    else if |s| == 4 then DecodeLast(s)
    else
      match DecodeFull(s[..4])
      case None => None
      case Some(head) =>
        match Decode(s[4..])
        case None => None
        case Some(tail) => Some(head + tail)
  }

  /** The values an encoded group carries, before any padding. */
  lemma EncodedSextets(vs: seq<int>)
    requires 0 < |vs| <= 4 && forall i :: 0 <= i < |vs| ==> 0 <= vs[i] < 64
    ensures var g := seq(|vs|, i requires 0 <= i < |vs| => CharOf(vs[i]));
      AlphabetPrefix(g, |g|) && Sextets(g) == vs
  {
    var g := seq(|vs|, i requires 0 <= i < |vs| => CharOf(vs[i]));
    forall i | 0 <= i < |vs| ensures ValueOf(g[i]) == vs[i] {
      ValueOfCharOf(vs[i]);
    }
    SextetsAt(g);
  }

  /** A full group round-trips. */
  lemma DecodeBlock(a: byte, b: byte, c: byte)
    ensures DecodeFull(EncodeBlock(a, b, c)) == Some([a, b, c])
  {
    var x, y, z := a as int, b as int, c as int;
    var vs := [x / 4, x % 4 * 16 + y / 16, y % 16 * 4 + z / 64, z % 64];
    EncodedSextets(vs);
    assert EncodeBlock(a, b, c) == seq(4, i requires 0 <= i < 4 => CharOf(vs[i]));
    Regroup(x, y, z);
  }

  /** The six-bit values of three bytes put back together give the bytes. */
  lemma Regroup(x: int, y: int, z: int)
    requires 0 <= x < 256 && 0 <= y < 256 && 0 <= z < 256
    ensures var v0, v1, v2, v3 := x / 4, x % 4 * 16 + y / 16, y % 16 * 4 + z / 64, z % 64;
      v0 * 4 + v1 / 16 == x && v1 % 16 * 16 + v2 / 4 == y && v2 % 4 * 64 + v3 == z
  {
  }

  /** The six-bit values of one or two bytes put back together give the bytes. */
  lemma RegroupPadded(x: int, y: int)
    requires 0 <= x < 256 && 0 <= y < 256
    ensures var v0, v1, v2 := x / 4, x % 4 * 16 + y / 16, y % 16 * 4;
      v0 * 4 + v1 / 16 == x && v1 % 16 * 16 + v2 / 4 == y && (x % 4 * 16) / 16 == x % 4
  {
  }

  /** A single trailing byte round-trips through a doubly padded group. */
  lemma DecodeOne(a: byte)
    ensures Decode(Encode([a])) == Some([a])
  {
    var e := Encode([a]);
    var vs := [a as int / 4, a as int % 4 * 16];
    EncodedSextets(vs);
    assert e[..2] == seq(2, i requires 0 <= i < 2 => CharOf(vs[i]));
    RegroupPadded(a as int, 0);
    assert Decode(e) == DecodeLast(e);
  }

  /** Two trailing bytes round-trip through a singly padded group. */
  lemma DecodeTwo(a: byte, b: byte)
    ensures Decode(Encode([a, b])) == Some([a, b])
  {
    var e := Encode([a, b]);
    var vs := [a as int / 4, a as int % 4 * 16 + b as int / 16, b as int % 16 * 4];
    EncodedSextets(vs);
    assert e[..3] == seq(3, i requires 0 <= i < 3 => CharOf(vs[i]));
    RegroupPadded(a as int, b as int);
    assert Decode(e) == DecodeLast(e);
  }

  /** Decoding what was encoded gives the bytes back. */
  lemma {:induction false} DecodeEncode(b: seq<byte>)
    ensures Decode(Encode(b)) == Some(b)
    decreases |b|
  {
    if |b| == 0 {
    } else if |b| == 1 {
      DecodeOne(b[0]);
      assert b == [b[0]];
    } else if |b| == 2 {
      DecodeTwo(b[0], b[1]);
      assert b == [b[0], b[1]];
    } else {
      DecodeEncode(b[3..]);
      DecodeEncodeStep(b);
    }
  }

  /** A leading full group followed by a text that round-trips. */
  lemma DecodeEncodeStep(b: seq<byte>)
    requires |b| >= 3 && Decode(Encode(b[3..])) == Some(b[3..])
    ensures Decode(Encode(b)) == Some(b)
  {
    var h := EncodeBlock(b[0], b[1], b[2]);
    DecodeBlock(b[0], b[1], b[2]);
    SplitFirstThree(b);
    DecodeGroupThen(h, Encode(b[3..]));
  }

  lemma SplitFirstThree(b: seq<byte>)
    requires |b| >= 3
    ensures b == [b[0], b[1], b[2]] + b[3..]
  {
  }

  /** Decoding a full group followed by more text. */
  lemma DecodeGroupThen(g: seq<char>, t: seq<char>)
    requires |g| == 4 && DecodeFull(g).Some? && Decode(t).Some?
    ensures Decode(g + t) == Some(DecodeFull(g).value + Decode(t).value)
  {
    if t == [] {
      assert g + t == g;
      DecodeLastOfFull(g);
      assert DecodeFull(g).value + [] == DecodeFull(g).value;
    } else {
      assert (g + t)[..4] == g && (g + t)[4..] == t;
    }
  }

  /** An unpadded group is decoded the same way whether or not it is the last one. */
  lemma DecodeLastOfFull(g: seq<char>)
    requires |g| == 4 && DecodeFull(g).Some?
    ensures DecodeLast(g) == DecodeFull(g)
  {
  }

  /**
   * Splitting a decodable text after a whole number of groups splits its bytes: the two parts
   * decode on their own, and their bytes make up the whole.
   */
  lemma {:induction false} DecodeAppend(a: seq<char>, b: seq<char>)
    requires |a| % 4 == 0 && Decode(a + b).Some?
    ensures Decode(a).Some? && Decode(b).Some?
    ensures Decode(a + b).value == Decode(a).value + Decode(b).value
    decreases |a|
  {
    if |a| == 0 {
      assert a + b == b;
    } else if b == [] {
      assert a + b == a;
      assert Decode(a).value + [] == Decode(a).value;
    } else if |a| == 4 {
      DecodeAppendGroup(a, b);
    } else {
      var ab := a + b;
      assert ab[..4] == a[..4] && ab[4..] == a[4..] + b;
      DecodeHead(ab);
      DecodeAppend(a[4..], b);
      DecodeAppendMore(a, b);
    }
  }

  /** One full group in front of a non-empty text. */
  lemma DecodeAppendGroup(a: seq<char>, b: seq<char>)
    requires |a| == 4 && b != [] && Decode(a + b).Some?
    ensures Decode(a).Some? && Decode(b).Some?
    ensures Decode(a + b).value == Decode(a).value + Decode(b).value
  {
    var ab := a + b;
    assert ab[..4] == a && ab[4..] == b;
    DecodeHead(ab);
    DecodeLastOfFull(a);
    assert Decode(a) == DecodeLast(a);
  }

  /** More than one group in front of a non-empty text, given the split of the rest. */
  lemma DecodeAppendMore(a: seq<char>, b: seq<char>)
    requires |a| > 4 && b != [] && Decode(a + b).Some?
    requires Decode(a[4..]).Some? && Decode(b).Some?
    requires Decode(a[4..] + b).Some? && Decode(a[4..] + b).value == Decode(a[4..]).value + Decode(b).value
    ensures Decode(a).Some?
    ensures Decode(a + b).value == Decode(a).value + Decode(b).value
  {
    var ab := a + b;
    assert ab[..4] == a[..4] && ab[4..] == a[4..] + b;
    DecodeHead(ab);
    DecodeHead(a);
  }

  /** A text longer than one group decodes as its first group and then the rest. */
  lemma DecodeHead(s: seq<char>)
    requires |s| > 4
    ensures Decode(s).Some? <==> DecodeFull(s[..4]).Some? && Decode(s[4..]).Some?
    ensures Decode(s).Some? ==> Decode(s).value == DecodeFull(s[..4]).value + Decode(s[4..]).value
  {
  }
}
