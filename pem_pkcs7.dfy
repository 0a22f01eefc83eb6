/**
 * `readPKCS7`: unlike the other readers it decodes the Base64 text as the lines arrive, a whole
 * number of four-character groups at a time, and a remainder left at the end is an error.
 */
module PemPkcs7 {
  import opened Wrappers
  import opened Asn1
  import opened Text
  import opened PemLines
  import opened PemRead
  import Base64

  /** `(length / 4) * 4`: the length of the longest prefix of whole groups. */
  function WholeGroups(length: nat): (n: nat)
    ensures n <= length && n % 4 == 0 && length - n < 4
  {
    length - length % 4
  }

  /**
   * The streaming loop from line `k`, with the characters `buf` not yet decoded and the bytes
   * `out` decoded so far. Each line is trimmed into the buffer, the longest prefix of whole groups
   * is decoded and removed; a remainder at the end marker or at the end of the input is reported
   * before a missing end marker.
   */
  function StreamFrom(lines: seq<string>, k: nat, endMarker: string, buf: string, out: seq<byte>): Result<seq<byte>, PemError>
    requires k <= |lines|
    decreases |lines| - k
  {
    if k == |lines| then
      if buf != "" then Err(Truncated) else Err(EndNotFound(endMarker))
    else if Contains(lines[k], endMarker) then
      if buf != "" then Err(Truncated) else Ok(out)
    else
      var b := buf + Trim(Trim(lines[k]));
      var n := WholeGroups(|b|);
      match Base64.Decode(b[..n])
      case None => Err(BadBase64)
      case Some(d) => StreamFrom(lines, k + 1, endMarker, b[n..], out + d)
  }

  /** The loop of `readPKCS7`; the buffer never holds a whole group between lines. */
  method ReadStreamed(lines: seq<string>, from: nat, endMarker: string) returns (r: Result<seq<byte>, PemError>)
    requires from <= |lines|
    ensures r == StreamFrom(lines, from, endMarker, "", [])
  {
    var buf := "";
    var out: seq<byte> := [];
    var k := from;
    while k < |lines|
      invariant from <= k <= |lines| && |buf| < 4
      invariant StreamFrom(lines, from, endMarker, "", []) == StreamFrom(lines, k, endMarker, buf, out)
    {
      IndexOfContains(lines[k], endMarker);
      if IndexFrom(lines[k], endMarker, 0) != -1 {
        break;
      }
      var line := Trim(lines[k]);
      buf := buf + Trim(line);
      var n := WholeGroups(|buf|);
      var decoded := Base64.Decode(buf[..n]);
      if decoded.None? {
        return Err(BadBase64);
      }
      out := out + decoded.value;
      buf := buf[n..];
      k := k + 1;
    }
    if buf != "" {
      return Err(Truncated);
    }
    if k == |lines| {
      return Err(EndNotFound(endMarker));
    }
    r := Ok(out);
  }

  /** The content read from the decoded bytes; every failure is a PKCS#7 parse problem. */
  function SignedDataOf(env: Env, bytes: seq<byte>): Result<Node, PemError> {
    match env.der.readObject(bytes)
    case Malformed => Err(Pkcs7Problem(BadDer))
    case AtEnd => Err(Pkcs7Problem(MissingObject))
    case Parsed(n, _) => if env.acceptsSignedData(n) then Ok(n) else Err(Pkcs7Problem(Rejected))
  }

  /** `readPKCS7(in, p, endMarker)`. */
  function Pkcs7ReadOf(env: Env, lines: seq<string>, from: nat, endMarker: string): Result<Node, PemError>
    requires from <= |lines|
  {
    match StreamFrom(lines, from, endMarker, "", [])
    case Err(e) => Err(e)
    case Ok(bytes) => SignedDataOf(env, bytes)
  }

  method ReadPkcs7Body(env: Env, lines: seq<string>, from: nat, endMarker: string) returns (r: Result<Node, PemError>)
    requires from <= |lines|
    ensures r == Pkcs7ReadOf(env, lines, from, endMarker)
  {
    var bytes := ReadStreamed(lines, from, endMarker);
    if bytes.Err? {
      return Err(bytes.error);
    }
    r := SignedDataOf(env, bytes.value);
  }

  /**
   * The public `readPKCS7(in, f)`: the first line holding the `PKCS7` BEGIN marker starts the
   * object; without one the result is `null`.
   */
  function ReadPkcs7Of(env: Env, lines: seq<string>): Result<Option<Node>, PemError> {
    var k := FirstWith(lines, 0, Begin(Pkcs7Label));
    if k == |lines| then Ok(None) else InContext("PKCS7", Pkcs7ReadOf(env, lines, k + 1, End(Pkcs7Label)))
  }

  method ReadPkcs7(env: Env, lines: seq<string>) returns (r: Result<Option<Node>, PemError>)
    ensures r == ReadPkcs7Of(env, lines)
  {
    var k := 0;
    while k < |lines| && IndexFrom(lines[k], Begin(Pkcs7Label), 0) == -1
      invariant 0 <= k <= |lines|
      invariant forall j :: 0 <= j < k ==> !Contains(lines[j], Begin(Pkcs7Label))
    {
      IndexOfContains(lines[k], Begin(Pkcs7Label));
      k := k + 1;
    }
    if k < |lines| {
      IndexOfContains(lines[k], Begin(Pkcs7Label));
    }
    FirstWithAt(lines, 0, Begin(Pkcs7Label), k);
    if k == |lines| {
      return Ok(None);
    }
    var content := ReadPkcs7Body(env, lines, k + 1, End(Pkcs7Label));
    assert ReadPkcs7Of(env, lines) == InContext("PKCS7", Pkcs7ReadOf(env, lines, k + 1, End(Pkcs7Label)));
    r := InContext("PKCS7", content);
  }

  /**
   * When the loop succeeds, the undecoded characters and the trimmed lines up to the end marker
   * make a whole number of groups: nothing is left over.
   */
  lemma {:induction false} StreamedAligned(lines: seq<string>, k: nat, endMarker: string, buf: string, out: seq<byte>)
    requires k <= |lines| && StreamFrom(lines, k, endMarker, buf, out).Ok?
    ensures (|buf| + |TrimmedConcat(lines[k..FirstWith(lines, k, endMarker)])|) % 4 == 0
    decreases |lines| - k
  {
    if k < |lines| && !Contains(lines[k], endMarker) {
      var b := buf + Trim(Trim(lines[k]));
      var n := WholeGroups(|b|);
      var decoded := Base64.Decode(b[..n]).value;
      assert StreamFrom(lines, k, endMarker, buf, out) == StreamFrom(lines, k + 1, endMarker, b[n..], out + decoded);
      StreamedAligned(lines, k + 1, endMarker, b[n..], out + decoded);
      var e := FirstWith(lines, k, endMarker);
      assert e == FirstWith(lines, k + 1, endMarker);
      TrimIdempotent(lines[k]);
      TrimmedConcatFirst(lines, k, e);
      var rest := TrimmedConcat(lines[k + 1..e]);
      GroupsShift(|b[n..]| + |rest|, n);
    } else {
      assert buf == "";
      assert lines[k..FirstWith(lines, k, endMarker)] == [];
    }
  }

  /** The gathered text of a range starts with its first line. */
  lemma TrimmedConcatFirst(lines: seq<string>, k: nat, e: nat)
    requires k < e <= |lines|
    ensures TrimmedConcat(lines[k..e]) == Trim(lines[k]) + TrimmedConcat(lines[k + 1..e])
  {
    assert lines[k..e][1..] == lines[k + 1..e];
  }

  /** Adding whole groups keeps a length aligned. */
  lemma GroupsShift(a: nat, n: nat)
    requires n % 4 == 0
    ensures (a + n) % 4 == a % 4
  {
  }

  /**
   * Lines `k` up to `e` of whole groups that decode together are decoded one line at a time,
   * leaving nothing over.
   */
  lemma {:induction false} StreamAligned(lines: seq<string>, k: nat, e: nat, endMarker: string, out: seq<byte>)
    requires k <= e <= |lines| && |endMarker| > 0 && endMarker[0] == '-'
    requires forall j :: k <= j < e ==> IsBase64Line(lines[j]) && |lines[j]| % 4 == 0
    requires Base64.Decode(Concat(lines[k..e])).Some?
    ensures StreamFrom(lines, k, endMarker, "", out) ==
      StreamFrom(lines, e, endMarker, "", out + Base64.Decode(Concat(lines[k..e])).value)
    decreases e - k
  {
    if k == e {
      assert lines[k..k] == [];
      assert Base64.Decode(Concat([])).value == [];
      assert out + [] == out;
    } else {
      DecodeFirstLine(lines, k, e);
      StreamAligned(lines, k + 1, e, endMarker, out + Base64.Decode(lines[k]).value);
      StreamJoin(lines, k, e, endMarker, out);
    }
  }

  /** One decoded line followed by the lines after it is the whole range decoded. */
  lemma StreamJoin(lines: seq<string>, k: nat, e: nat, endMarker: string, out: seq<byte>)
    requires k < e <= |lines| && |endMarker| > 0 && endMarker[0] == '-'
    requires IsBase64Line(lines[k]) && |lines[k]| % 4 == 0 && Base64.Decode(Concat(lines[k..e])).Some?
    requires Base64.Decode(lines[k]).Some? && Base64.Decode(Concat(lines[k + 1..e])).Some?
    requires var o := out + Base64.Decode(lines[k]).value;
      StreamFrom(lines, k + 1, endMarker, "", o) ==
      StreamFrom(lines, e, endMarker, "", o + Base64.Decode(Concat(lines[k + 1..e])).value)
    ensures StreamFrom(lines, k, endMarker, "", out) ==
      StreamFrom(lines, e, endMarker, "", out + Base64.Decode(Concat(lines[k..e])).value)
  {
    DecodeFirstLine(lines, k, e);
    StreamLine(lines, k, endMarker, out);
    assert out + Base64.Decode(lines[k]).value + Base64.Decode(Concat(lines[k + 1..e])).value ==
      out + Base64.Decode(Concat(lines[k..e])).value;
  }

  /** Lines that decode together, the first of whole groups, decode as the first line and the rest. */
  lemma DecodeFirstLine(lines: seq<string>, k: nat, e: nat)
    requires k < e <= |lines| && |lines[k]| % 4 == 0 && Base64.Decode(Concat(lines[k..e])).Some?
    ensures Base64.Decode(lines[k]).Some? && Base64.Decode(Concat(lines[k + 1..e])).Some?
    ensures Base64.Decode(Concat(lines[k..e])).value ==
      Base64.Decode(lines[k]).value + Base64.Decode(Concat(lines[k + 1..e])).value
  {
    assert lines[k..e] == [lines[k]] + lines[k + 1..e];
    assert Concat(lines[k..e]) == lines[k] + Concat(lines[k + 1..e]);
    Base64.DecodeAppend(lines[k], Concat(lines[k + 1..e]));
  }

  /** A decodable line of whole groups is decoded at once and leaves the buffer empty. */
  lemma StreamLine(lines: seq<string>, k: nat, endMarker: string, out: seq<byte>)
    requires k < |lines| && |endMarker| > 0 && endMarker[0] == '-'
    requires IsBase64Line(lines[k]) && |lines[k]| % 4 == 0 && Base64.Decode(lines[k]).Some?
    ensures StreamFrom(lines, k, endMarker, "", out) ==
      StreamFrom(lines, k + 1, endMarker, "", out + Base64.Decode(lines[k]).value)
  {
    var line := lines[k];
    assert endMarker[0] !in line;
    NotContainsWithoutFirstChar(line, endMarker);
    TrimNoSpace(line);
    TrimNoSpace(Trim(line));
    assert "" + line == line && line[..|line|] == line && line[|line|..] == "";
  }

  /**
   * Characters that do not fill a whole group are carried over to the next line. When the input
   * ends or the end marker comes while some are still carried, the stream is truncated.
   */
  lemma StreamTruncated(lines: seq<string>, k: nat, endMarker: string, buf: string, out: seq<byte>)
    requires k < |lines| && !Contains(lines[k], endMarker)
    requires 0 < |buf + Trim(Trim(lines[k]))| < 4
    requires k + 1 == |lines| || Contains(lines[k + 1], endMarker)
    ensures StreamFrom(lines, k, endMarker, buf, out) == Err(Truncated)
  {
    var b := buf + Trim(Trim(lines[k]));
    assert WholeGroups(|b|) == 0 && b[..0] == [] && b[0..] == b;
  }

  /** A PKCS7 body of three characters before the END line is truncated. */
  lemma StreamTruncatedExample()
    ensures StreamFrom(["abc", EndLine(Pkcs7Label)], 0, End(Pkcs7Label), "", []) == Err(Truncated)
  {
    var lines := ["abc", EndLine(Pkcs7Label)];
    assert End(Pkcs7Label)[0] == '-' && '-' !in lines[0];
    NotContainsWithoutFirstChar(lines[0], End(Pkcs7Label));
    EndLineHolds(Pkcs7Label, Pkcs7Label);
    TrimNoSpace(lines[0]);
    StreamTruncated(lines, 0, End(Pkcs7Label), "", []);
  }

  /** Wrapping a text of whole groups cuts it into lines of whole groups. */
  lemma {:induction false} Wrap64Aligned(t: string)
    requires |t| % 4 == 0
    ensures forall j :: 0 <= j < |Wrap64(t)| ==> |Wrap64(t)[j]| % 4 == 0
    decreases |t|
  {
    if |t| > 64 {
      Wrap64Aligned(t[64..]);
      var w := Wrap64(t);
      assert forall j :: 1 <= j < |w| ==> w[j] == Wrap64(t[64..])[j - 1];
    }
  }

  /** The body lines of an armored text: Base64 lines of whole groups that decode to the bytes. */
  lemma ArmoredBodyLines(name: string, bytes: seq<byte>)
    ensures var lines, n := Armored(name, bytes).lines, |Wrap64(Base64.Encode(bytes))|;
      |lines| == n + 2 && lines[n + 1] == EndLine(name) &&
      (forall j :: 1 <= j < 1 + n ==> IsBase64Line(lines[j]) && |lines[j]| % 4 == 0) &&
      Base64.Decode(Concat(lines[1..1 + n])) == Some(bytes)
  {
    var text := Base64.Encode(bytes);
    var w := Wrap64(text);
    var lines := Armored(name, bytes).lines;
    assert lines[1..1 + |w|] == w;
    assert forall j :: 1 <= j < 1 + |w| ==> lines[j] == w[j - 1];
    assert forall j :: 0 <= j < |w| ==> IsBase64Line(w[j]) && |w[j]| % 4 == 0 by {
      EncodingIsBase64Line(bytes);
      Wrap64Chars(text);
      Wrap64Aligned(text);
    }
    assert Base64.Decode(Concat(w)) == Some(bytes) by {
      Wrap64Shape(text);
      Base64.DecodeEncode(bytes);
    }
  }

  /** The streaming loop reads the body of an armored text back to the bytes it was written from. */
  lemma StreamArmored(name: string, bytes: seq<byte>)
    requires IsLabel(name)
    ensures StreamFrom(Armored(name, bytes).lines, 1, End(name), "", []) == Ok(bytes)
  {
    var lines, n := Armored(name, bytes).lines, |Wrap64(Base64.Encode(bytes))|;
    ArmoredBodyLines(name, bytes);
    StreamAligned(lines, 1, 1 + n, End(name), []);
    assert [] + bytes == bytes;
    EndLineHolds(name, name);
    assert StreamFrom(lines, 1 + n, End(name), "", bytes) == Ok(bytes);
  }

  /** An armored `PKCS7` object is read back by the public `readPKCS7`. */
  lemma Pkcs7RoundTrip(env: Env, content: Node)
    requires Sound(env.der) && env.acceptsSignedData(content)
    ensures ReadPkcs7Of(env, Armored(Pkcs7Label, env.der.encode(content)).lines) == Ok(Some(content))
  {
    var bytes := env.der.encode(content);
    var lines := Armored(Pkcs7Label, bytes).lines;
    assert IsLabel(Pkcs7Label) by {
      assert forall i :: 0 <= i < |Pkcs7Label| ==> Pkcs7Label[i] != '-';
    }
    BeginLineHolds(Pkcs7Label, Pkcs7Label);
    assert Pkcs7Label <= Pkcs7Label;
    FirstWithAt(lines, 0, Begin(Pkcs7Label), 0);
    StreamArmored(Pkcs7Label, bytes);
    ReadSingle(env.der, content);
    assert Pkcs7ReadOf(env, lines, 1, End(Pkcs7Label)) == Ok(content);
  }
}
