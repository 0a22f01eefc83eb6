/**
 * The line layer of `PEMInputOutput`: the armor markers, the Base64 body wrapped at 64 columns
 * (RFC 7468 section 2), and the loop that gathers the trimmed body lines up to an end marker.
 * A PEM input is the sequence of its lines, as `BufferedReader.readLine` returns them; a reader
 * position is the index of the next line to read.
 */
module PemLines {
  import opened Wrappers
  import opened Asn1
  import opened Text
  import Base64

  const Bef: string := "-----"
  const Aft: string := "-----"
  const BeginPrefix: string := Bef + "BEGIN "
  const EndPrefix: string := Bef + "END "

  const PublicLabel: string := "PUBLIC KEY"
  const DsaLabel: string := "DSA PRIVATE KEY"
  const RsaLabel: string := "RSA PRIVATE KEY"
  const RsaPublicLabel: string := "RSA PUBLIC KEY"
  const X509OldLabel: string := "X509 CERTIFICATE"
  const X509Label: string := "CERTIFICATE"
  const X509TrustedLabel: string := "TRUSTED CERTIFICATE"
  const X509CrlLabel: string := "X509 CRL"
  const X509ReqLabel: string := "CERTIFICATE REQUEST"
  const Pkcs7Label: string := "PKCS7"
  const DhParamsLabel: string := "DH PARAMETERS"

  /** The failures of the PEM readers and writers, with the messages of the source. */
  datatype PemError =
    | EndNotFound(marker: string)             // "<endMarker> not found"
    | BadBase64                               // the Base64 decoder throws
    | BadHex                                  // the Hex decoder throws
    | BadDer                                  // the ASN.1 stream throws, or an object has the wrong type
    | MissingObject                           // a null object where one is required
    | Rejected                                // the certificate, CRL, request or CMS parser throws
    | ParseProblem(cause: PemError)           // "problem parsing cert: " + cause
    | Pkcs7Problem(cause: PemError)           // "problem parsing PKCS7 object: " + cause
    | Creating(context: string, cause: PemError)  // "problem creating <context>: " + cause
    | MissingToken                            // the DEK-Info tokenizer runs dry, or DEK-Info is absent
    | ShortDekInfo                            // `substring(10)` of a line shorter than ten characters
    | UnknownEncryption                       // "unknown encryption with private key"
    | NullPassword                            // "Password is null, but a password is required"
    | DecryptFailed                           // the cipher's `doFinal` throws while reading
    | KeyFactoryFailed                        // the key factory rejects the key specification
    | Truncated                               // "base64 data appears to be truncated"
    | InvalidDhParameters                     // "invalid DH PARAMETERS"
    | UnknownWriteAlgorithm                   // "unknown algorithm in write_DSAPrivateKey"
    | CipherException                         // "exception using cipher: " + cause
    | ModulusNotPositive                      // `modPow` with a modulus that is not positive

  /** The `BEF_G + name` marker a reader searches for. */
  function Begin(name: string): string { BeginPrefix + name }

  /** The `BEF_E + name` marker that ends a body. */
  function End(name: string): string { EndPrefix + name }

  /** The lines a writer puts around a body. */
  function BeginLine(name: string): string { Begin(name) + Aft }
  function EndLine(name: string): string { End(name) + Aft }

  /** A string without `-`. */
  predicate DashFree(s: string) {
    forall i :: 0 <= i < |s| ==> s[i] != '-'
  }

  /** The labels of the source: non-empty and without `-`. */
  predicate IsLabel(l: string) {
    |l| > 0 && DashFree(l)
  }

  /**
   * A line of the form `-----m-----` holds `-----q`, for dash-free `m` and `q`, exactly when
   * `q` is a prefix of `m`.
   */
  lemma DashedContains(m: string, q: string)
    requires |m| > 0 && |q| > 0 && DashFree(m) && DashFree(q)
    ensures Contains(Bef + m + Aft, Bef + q) <==> q <= m
  {
    var s, p := Bef + m + Aft, Bef + q;
    if q <= m {
      assert s[..|p|] == p;
      assert OccursAt(s, p, 0);
    }
    if Contains(s, p) {
      var i: nat :| OccursAt(s, p, i);
      if i < 5 {
        CharAt(s, p, i, 5 - i);
      }
      CharAt(s, p, i, 0);
      assert i == 0;
      if |q| > |m| {
        CharAt(s, p, 0, 5 + |m|);
      }
      assert |q| <= |m|;
      forall k | 0 <= k < |q| ensures q[k] == m[k] {
        assert q[k] == p[5 + k] == s[5 + k];
      }
      assert q == m[..|q|];
    }
  }

  /** The characters of an occurrence. */
  lemma CharAt(s: string, p: string, i: nat, k: nat)
    requires OccursAt(s, p, i) && k < |p|
    ensures s[i + k] == p[k]
  {
    assert s[i..i + |p|][k] == s[i + k];
  }

  /** The BEGIN line of `name` holds the BEGIN marker of `other` exactly when `other` is a prefix of `name`. */
  lemma BeginLineHolds(name: string, other: string)
    requires IsLabel(name) && IsLabel(other)
    ensures Contains(BeginLine(name), Begin(other)) <==> other <= name
  {
    var m, q := "BEGIN " + name, "BEGIN " + other;
    assert DashFree(m) by {
      forall i | 0 <= i < |m| ensures m[i] != '-' {
        if i >= 6 { assert m[i] == name[i - 6]; }
      }
    }
    assert DashFree(q) by {
      forall i | 0 <= i < |q| ensures q[i] != '-' {
        if i >= 6 { assert q[i] == other[i - 6]; }
      }
    }
    assert BeginLine(name) == Bef + m + Aft;
    assert Begin(other) == Bef + q;
    DashedContains(m, q);
    assert q <= m <==> other <= name by {
      if q <= m {
        assert other == q[6..] == m[6..|q|] == name[..|other|];
      }
      if other <= name {
        assert q == m[..|q|];
      }
    }
  }

  /** An END line holds no BEGIN marker, and it holds its own END marker. */
  lemma EndLineHolds(name: string, other: string)
    requires IsLabel(name) && IsLabel(other)
    ensures !Contains(EndLine(name), Begin(other))
    ensures Contains(EndLine(name), End(name))
  {
    var m, q := "END " + name, "BEGIN " + other;
    assert DashFree(m) by {
      forall i | 0 <= i < |m| ensures m[i] != '-' {
        if i >= 4 { assert m[i] == name[i - 4]; }
      }
    }
    assert DashFree(q) by {
      forall i | 0 <= i < |q| ensures q[i] != '-' {
        if i >= 6 { assert q[i] == other[i - 6]; }
      }
    }
    assert EndLine(name) == Bef + m + Aft;
    assert Begin(other) == Bef + q;
    DashedContains(m, q);
    assert q[0] != m[0];
    assert End(name) <= EndLine(name);
    ContainsPrefix(EndLine(name), End(name));
  }

  /** A line of Base64 text. */
  predicate IsBase64Line(l: string) {
    forall i :: 0 <= i < |l| ==> Base64.IsEncodingChar(l[i])
  }

  /** A Base64 line holds no marker and is left as it is by `trim`. */
  lemma Base64LineFacts(l: string, name: string)
    requires IsBase64Line(l)
    ensures !Contains(l, Begin(name)) && !Contains(l, End(name)) && Trim(l) == l
  {
    assert Begin(name)[0] == '-' && End(name)[0] == '-';
    assert '-' !in l;
    NotContainsWithoutFirstChar(l, Begin(name));
    NotContainsWithoutFirstChar(l, End(name));
    TrimNoSpace(l);
  }

  /** The lines joined without separators. */
  function Concat(ls: seq<string>): string {
    if ls == [] then "" else ls[0] + Concat(ls[1..])
  }

  /** The lines trimmed and joined, as the readers' `StringBuffer` collects them. */
  function TrimmedConcat(ls: seq<string>): string {
    if ls == [] then "" else Trim(ls[0]) + TrimmedConcat(ls[1..])
  }

  /** Appending one line to the buffer appends its trimmed form. */
  lemma {:induction false} TrimmedConcatSnoc(ls: seq<string>, l: string)
    ensures TrimmedConcat(ls + [l]) == TrimmedConcat(ls) + Trim(l)
  {
    if ls == [] {
      assert [] + [l] == [l];
      assert TrimmedConcat([l]) == Trim(l) + TrimmedConcat([]);
    } else {
      assert (ls + [l])[1..] == ls[1..] + [l];
      TrimmedConcatSnoc(ls[1..], l);
    }
  }

  /** Gathering one more line of the input. */
  lemma TrimmedConcatStep(lines: seq<string>, from: nat, k: nat)
    requires from <= k < |lines|
    ensures TrimmedConcat(lines[from..k + 1]) == TrimmedConcat(lines[from..k]) + Trim(lines[k])
  {
    assert lines[from..k + 1] == lines[from..k] + [lines[k]];
    TrimmedConcatSnoc(lines[from..k], lines[k]);
  }

  /** Base64 lines are gathered as they are. */
  lemma {:induction false} TrimmedConcatOfBase64(ls: seq<string>, name: string)
    requires forall k :: 0 <= k < |ls| ==> IsBase64Line(ls[k])
    ensures TrimmedConcat(ls) == Concat(ls)
  {
    if ls != [] {
      Base64LineFacts(ls[0], name);
      TrimmedConcatOfBase64(ls[1..], name);
    }
  }

  /** The Base64 text cut into lines of 64 characters, the last one possibly shorter. */
  function Wrap64(t: string): seq<string>
    decreases |t|
  {
    if |t| == 0 then [] else if |t| <= 64 then [t] else [t[..64]] + Wrap64(t[64..])
  }

  /**
   * The shape of a wrapped body: no lines for an empty text, every line but the last exactly
   * 64 characters, the last between 1 and 64, and together they spell the text.
   */
  lemma {:induction false} Wrap64Shape(t: string)
    ensures Wrap64(t) == [] <==> |t| == 0
    ensures forall k :: 0 <= k < |Wrap64(t)| - 1 ==> |Wrap64(t)[k]| == 64
    ensures |Wrap64(t)| > 0 ==> 0 < |Wrap64(t)[|Wrap64(t)| - 1]| <= 64
    ensures Concat(Wrap64(t)) == t
    decreases |t|
  {
    if |t| > 64 {
      Wrap64Shape(t[64..]);
      var w := Wrap64(t);
      assert w[1..] == Wrap64(t[64..]);
      assert t == t[..64] + t[64..];
      forall k | 0 <= k < |w| - 1 ensures |w[k]| == 64 {
        if k > 0 { assert w[k] == Wrap64(t[64..])[k - 1]; }
      }
    } else if |t| > 0 {
      assert Concat([t]) == t + Concat([]);
    }
  }

  /** Wrapping Base64 text yields Base64 lines. */
  lemma {:induction false} Wrap64Chars(t: string)
    requires IsBase64Line(t)
    ensures forall k :: 0 <= k < |Wrap64(t)| ==> IsBase64Line(Wrap64(t)[k])
    decreases |t|
  {
    if |t| > 64 {
      Wrap64Chars(t[64..]);
      var w := Wrap64(t);
      forall k | 0 <= k < |w| ensures IsBase64Line(w[k]) {
        if k > 0 { assert w[k] == Wrap64(t[64..])[k - 1]; }
        else {
          forall j | 0 <= j < |w[0]| ensures Base64.IsEncodingChar(w[0][j]) {
            assert w[0][j] == t[j];
          }
        }
      }
    }
  }

  /** The encoding of some bytes is Base64 text. */
  lemma EncodingIsBase64Line(bytes: seq<byte>)
    ensures IsBase64Line(Base64.Encode(bytes))
  {
    Base64.EncodeChars(bytes);
  }

  /** One step of the writer: the next line is the next 64 characters, or what is left. */
  lemma Wrap64Advance(t: string, i: nat, lines: seq<string>)
    requires i < |t| && lines + Wrap64(t[i..]) == Wrap64(t)
    ensures var line := t[i..if i + 64 < |t| then i + 64 else |t|];
      (i + 64 <= |t| ==> lines + [line] + Wrap64(t[i + 64..]) == Wrap64(t)) &&
      (i + 64 > |t| ==> lines + [line] == Wrap64(t))
  {
    if i + 64 < |t| {
      Wrap64Within(t, i);
      assert lines + [t[i..i + 64]] + Wrap64(t[i + 64..]) == lines + ([t[i..i + 64]] + Wrap64(t[i + 64..]));
    } else {
      Wrap64Last(t, i);
    }
  }

  /** Away from the end, the wrapped rest starts with the next 64 characters. */
  lemma Wrap64Within(t: string, i: nat)
    requires i + 64 < |t|
    ensures Wrap64(t[i..]) == [t[i..i + 64]] + Wrap64(t[i + 64..])
  {
    var u := t[i..];
    assert u[..64] == t[i..i + 64] && u[64..] == t[i + 64..];
    Wrap64Split(u);
  }

  /** Near the end, the wrapped rest is one line, and nothing follows it. */
  lemma Wrap64Last(t: string, i: nat)
    requires i < |t| <= i + 64
    ensures Wrap64(t[i..]) == [t[i..|t|]]
    ensures i + 64 == |t| ==> Wrap64(t[i + 64..]) == []
  {
    assert t[i..] == t[i..|t|];
  }

  /** A text longer than a line is its first line and the rest. */
  lemma Wrap64Split(u: string)
    requires |u| > 64
    ensures Wrap64(u) == [u[..64]] + Wrap64(u[64..])
  {
  }

  /**
   * `writeEncoded`: Base64-encodes the bytes and writes the text through a 64-character
   * buffer, one line per buffer load.
   */
  method WriteEncoded(bytes: seq<byte>) returns (lines: seq<string>)
    ensures lines == Wrap64(Base64.Encode(bytes))
  {
    var buf := new char[64];
    var text := Base64.Encode(bytes);
    lines := [];
    var i := 0;
    while i < |text|
      invariant 0 <= i
      invariant i <= |text| ==> lines + Wrap64(text[i..]) == Wrap64(text)
      invariant i > |text| ==> lines == Wrap64(text)
      decreases |text| - i
    {
      var index := 0;
      while index != buf.Length
        invariant 0 <= index <= buf.Length && i + index <= |text|
        invariant buf[..index] == text[i..i + index]
      {
        if i + index >= |text| {
          break;
        }
        buf[index] := text[i + index];
        index := index + 1;
      }
      Wrap64Advance(text, i, lines);
      assert index == if i + 64 < |text| then 64 else |text| - i;
      lines := lines + [buf[..index]];
      i := i + buf.Length;
    }
  }

  /** What a writer produces: its lines, and whether the last one is followed by a newline. */
  datatype Written = Written(lines: seq<string>, newlineAtEnd: bool)

  /**
   * The armored form every plain writer produces (`writeX509Certificate`, `writeX509CRL`,
   * `writeX509Request`, `writePKCS7`, the public-key writers, the unencrypted private-key
   * writers and `writeDHParameters`): BEGIN line, wrapped Base64 body, END line.
   */
  function Armored(name: string, der: seq<byte>): Written {
    Written([BeginLine(name)] + Wrap64(Base64.Encode(der)) + [EndLine(name)], true)
  }

  /** A body the readers gathered: its text and the position after the END line. */
  datatype Body = Body(text: string, next: nat)

  /** The index of the first line at or after `from` holding `marker`, or `|lines|`. */
  function FirstWith(lines: seq<string>, from: nat, marker: string): (r: nat)
    requires from <= |lines|
    ensures from <= r <= |lines|
    ensures r < |lines| ==> Contains(lines[r], marker)
    ensures forall j :: from <= j < r ==> !Contains(lines[j], marker)
    decreases |lines| - from
  {
    if from == |lines| || Contains(lines[from], marker) then from
    else FirstWith(lines, from + 1, marker)
  }

  /** `FirstWith` is the index of the first line holding the marker. */
  lemma FirstWithAt(lines: seq<string>, from: nat, marker: string, k: nat)
    requires from <= k <= |lines|
    requires forall j :: from <= j < k ==> !Contains(lines[j], marker)
    requires k < |lines| ==> Contains(lines[k], marker)
    ensures FirstWith(lines, from, marker) == k
  {
  }

  /**
   * What the body loop of `readBytes`, `readCertificate`, `readAuxCertificate`, `readCRL` and
   * `readCertificateRequest` gathers: the trimmed lines strictly before the first line holding
   * the end marker, or the "not found" failure when the input runs out first.
   */
  function BodyOf(lines: seq<string>, from: nat, endMarker: string): Result<Body, PemError>
    requires from <= |lines|
  {
    var k := FirstWith(lines, from, endMarker);
    if k == |lines| then Err(EndNotFound(endMarker))
    else Ok(Body(TrimmedConcat(lines[from..k]), k + 1))
  }

  /** The body loop itself. */
  method ReadBody(lines: seq<string>, from: nat, endMarker: string) returns (r: Result<Body, PemError>)
    requires from <= |lines|
    ensures r == BodyOf(lines, from, endMarker)
  {
    var buf := "";
    var k := from;
    while k < |lines| && IndexFrom(lines[k], endMarker, 0) == -1
      invariant from <= k <= |lines|
      invariant buf == TrimmedConcat(lines[from..k])
      invariant FirstWith(lines, from, endMarker) == FirstWith(lines, k, endMarker)
    {
      IndexOfContains(lines[k], endMarker);
      TrimmedConcatStep(lines, from, k);
      buf := buf + Trim(lines[k]);
      k := k + 1;
    }
    if k < |lines| {
      IndexOfContains(lines[k], endMarker);
    }
    assert k == FirstWith(lines, from, endMarker);
    if k == |lines| {
      r := Err(EndNotFound(endMarker));
    } else {
      r := Ok(Body(buf, k + 1));
    }
  }

  /**
   * Reading the body of an armored text, from the line after its BEGIN line, gives back the
   * Base64 text it was written from and stops after the last line.
   */
  lemma ReadArmored(name: string, der: seq<byte>)
    requires IsLabel(name)
    ensures BodyOf(Armored(name, der).lines, 1, End(name)) ==
      Ok(Body(Base64.Encode(der), |Armored(name, der).lines|))
  {
    var text := Base64.Encode(der);
    var w := Wrap64(text);
    var lines := Armored(name, der).lines;
    EncodingIsBase64Line(der);
    Wrap64Chars(text);
    Wrap64Shape(text);
    forall j | 1 <= j < |lines| - 1 ensures !Contains(lines[j], End(name)) {
      assert lines[j] == w[j - 1];
      Base64LineFacts(w[j - 1], name);
    }
    EndLineHolds(name, name);
    assert lines[|lines| - 1] == EndLine(name);
    FirstWithAt(lines, 1, End(name), |lines| - 1);
    assert lines[1..|lines| - 1] == w;
    TrimmedConcatOfBase64(w, name);
  }
}
