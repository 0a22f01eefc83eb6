/**
 * `readPEM` and the readers it dispatches to: the public-key reader, `readAuxCertificate`,
 * `readCertificate`, `readCRL`, `readCertificateRequest` and (in `PemKeys`) `readKeyPair`, with
 * `writeX509Aux` and the round trips through `readPEM`. The certificate, CRL, request and
 * public-key factories are not part of this model: they appear as acceptance predicates of `Env`.
 */
module PemRead {
  import opened Wrappers
  import opened Asn1
  import opened Text
  import opened PemLines
  import opened PemAux
  import opened PemKeys
  import Base64

  /**
   * The libraries the readers call: the ASN.1 stream, the cryptographic library, and whether the
   * key factory (for an algorithm), the certificate factory, the CRL factory and the PKCS#10
   * parser accept the given DER bytes, and whether `ContentInfo` and `CMSSignedData` accept an
   * object read from the stream.
   */
  datatype Env = Env(
    der: DerCodec,
    crypto: Crypto,
    acceptsPublicKey: (string, seq<byte>) -> bool,
    acceptsCertificate: seq<byte> -> bool,
    acceptsCrl: seq<byte> -> bool,
    acceptsRequest: seq<byte> -> bool,
    acceptsSignedData: Node -> bool)

  /**
   * What the readers return: a public key with the algorithm that accepted it, a key pair, a
   * certificate (its DER tree) with its optional auxiliary trust record, a CRL or a certificate
   * request (their DER bytes).
   */
  datatype PemObject =
    | PublicKey(alg: string, encoded: seq<byte>)
    | KeyPairObject(pair: KeyPair)
    | AuxCertificate(cert: Node, aux: Option<X509Aux>)
    | Crl(encoded: seq<byte>)
    | Request(encoded: seq<byte>)

  /** `readBytes`: the body, Base64-decoded. */
  function BytesOf(lines: seq<string>, from: nat, endMarker: string): Result<seq<byte>, PemError>
    requires from <= |lines|
  {
    match BodyOf(lines, from, endMarker)
    case Err(e) => Err(e)
    case Ok(body) =>
      match Base64.Decode(body.text)
      case None => Err(BadBase64)
      case Some(b) => Ok(b)
  }

  method ReadBytes(lines: seq<string>, from: nat, endMarker: string) returns (r: Result<seq<byte>, PemError>)
    requires from <= |lines|
    ensures r == BytesOf(lines, from, endMarker)
  {
    var body := ReadBody(lines, from, endMarker);
    if body.Err? {
      return Err(body.error);
    }
    var decoded := Base64.Decode(body.value.text);
    if decoded.None? {
      return Err(BadBase64);
    }
    r := Ok(decoded.value);
  }

  /** The algorithms `readPublicKey` tries, in order. */
  const PublicKeyAlgorithms: seq<string> := ["RSA", "DSA"]

  /** The public key built by the first algorithm whose key factory accepts the bytes, if any. */
  function FirstAccepted(accepts: (string, seq<byte>) -> bool, algs: seq<string>, b: seq<byte>): (r: Option<PemObject>)
    ensures r.None? <==> forall i :: 0 <= i < |algs| ==> !accepts(algs[i], b)
    ensures r.Some? ==> exists i :: 0 <= i < |algs| && accepts(algs[i], b) && r.value == PublicKey(algs[i], b) &&
                                 (forall j :: 0 <= j < i ==> !accepts(algs[j], b))
  {
    if algs == [] then None
    else if accepts(algs[0], b) then Some(PublicKey(algs[0], b))
    else
      var r := FirstAccepted(accepts, algs[1..], b);
      assert forall i :: 1 <= i < |algs| ==> algs[i] == algs[1..][i - 1];
      r
  }

  /** `readPublicKey(in, endMarker)`: the bytes are read first; a rejected key is `null`, not an error. */
  function PublicKeyReadOf(env: Env, lines: seq<string>, from: nat, endMarker: string): (r: Result<Option<PemObject>, PemError>)
    requires from <= |lines|
    ensures r.Ok? && r.value.Some? ==> r.value.value.PublicKey?
  {
    match BytesOf(lines, from, endMarker)
    case Err(e) => Err(e)
    case Ok(b) => Ok(FirstAccepted(env.acceptsPublicKey, PublicKeyAlgorithms, b))
  }

  method ReadPublicKey(env: Env, lines: seq<string>, from: nat, endMarker: string) returns (r: Result<Option<PemObject>, PemError>)
    requires from <= |lines|
    ensures r == PublicKeyReadOf(env, lines, from, endMarker)
  {
    var bytes := ReadBytes(lines, from, endMarker);
    if bytes.Err? {
      return Err(bytes.error);
    }
    var algs := PublicKeyAlgorithms;
    for i := 0 to |algs|
      invariant FirstAccepted(env.acceptsPublicKey, algs, bytes.value) ==
        FirstAccepted(env.acceptsPublicKey, algs[i..], bytes.value)
    {
      if env.acceptsPublicKey(algs[i], bytes.value) {
        return Ok(Some(PublicKey(algs[i], bytes.value)));
      }
      assert algs[i..][1..] == algs[i + 1..];
    }
    r := Ok(None);
  }

  /**
   * `readCertificate` after its body loop: a Base64 failure is not caught, a certificate factory
   * failure is reported as a parse problem.
   */
  function CertificateOf(env: Env, text: string): Result<seq<byte>, PemError> {
    match Base64.Decode(text)
    case None => Err(BadBase64)
    case Some(b) => if env.acceptsCertificate(b) then Ok(b) else Err(ParseProblem(Rejected))
  }

  function CertificateReadOf(env: Env, lines: seq<string>, from: nat, endMarker: string): Result<seq<byte>, PemError>
    requires from <= |lines|
  {
    match BodyOf(lines, from, endMarker)
    case Err(e) => Err(e)
    case Ok(body) => CertificateOf(env, body.text)
  }

  method ReadCertificate(env: Env, lines: seq<string>, from: nat, endMarker: string) returns (r: Result<seq<byte>, PemError>)
    requires from <= |lines|
    ensures r == CertificateReadOf(env, lines, from, endMarker)
  {
    var body := ReadBody(lines, from, endMarker);
    if body.Err? {
      return Err(body.error);
    }
    r := CertificateOf(env, body.value.text);
  }

  /** `readCRL` after its body loop, with the same error handling as `readCertificate`. */
  function CrlOf(env: Env, text: string): Result<PemObject, PemError> {
    match Base64.Decode(text)
    case None => Err(BadBase64)
    case Some(b) => if env.acceptsCrl(b) then Ok(Crl(b)) else Err(ParseProblem(Rejected))
  }

  function CrlReadOf(env: Env, lines: seq<string>, from: nat, endMarker: string): (r: Result<PemObject, PemError>)
    requires from <= |lines|
    ensures r.Ok? ==> r.value.Crl?
  {
    match BodyOf(lines, from, endMarker)
    case Err(e) => Err(e)
    case Ok(body) => CrlOf(env, body.text)
  }

  method ReadCrl(env: Env, lines: seq<string>, from: nat, endMarker: string) returns (r: Result<PemObject, PemError>)
    requires from <= |lines|
    ensures r == CrlReadOf(env, lines, from, endMarker)
  {
    var body := ReadBody(lines, from, endMarker);
    if body.Err? {
      return Err(body.error);
    }
    r := CrlOf(env, body.value.text);
  }

  /** `readCertificateRequest` after its body loop: here the Base64 decoding is inside the `try`. */
  function RequestOf(env: Env, text: string): Result<PemObject, PemError> {
    match Base64.Decode(text)
    case None => Err(ParseProblem(BadBase64))
    case Some(b) => if env.acceptsRequest(b) then Ok(Request(b)) else Err(ParseProblem(Rejected))
  }

  function RequestReadOf(env: Env, lines: seq<string>, from: nat, endMarker: string): Result<PemObject, PemError>
    requires from <= |lines|
  {
    match BodyOf(lines, from, endMarker)
    case Err(e) => Err(e)
    case Ok(body) => RequestOf(env, body.text)
  }

  method ReadCertificateRequest(env: Env, lines: seq<string>, from: nat, endMarker: string) returns (r: Result<PemObject, PemError>)
    requires from <= |lines|
    ensures r == RequestReadOf(env, lines, from, endMarker)
  {
    var body := ReadBody(lines, from, endMarker);
    if body.Err? {
      return Err(body.error);
    }
    r := RequestOf(env, body.value.text);
  }

  /**
   * `readAuxCertificate` after its body loop. The Base64 decoding and the first object are read
   * outside the `try`; the certificate factory sees the re-encoded first object; the second
   * object, if there is one, must be a sequence of auxiliary fields.
   */
  function AuxCertificateOf(env: Env, text: string): Result<PemObject, PemError> {
    match Base64.Decode(text)
    case None => Err(BadBase64)
    case Some(b) =>
      match env.der.readObject(b)
      case Malformed => Err(BadDer)
      case AtEnd => Err(MissingObject)
      case Parsed(cert, rest) =>
        if !env.acceptsCertificate(env.der.encode(cert)) then Err(ParseProblem(Rejected))
        else
          match env.der.readObject(rest)
          case AtEnd => Ok(AuxCertificate(cert, None))
          case Malformed => Err(ParseProblem(BadDer))
          case Parsed(n, _) =>
            if !n.Seq? then Err(ParseProblem(BadDer))
            else
              match AuxOf(n.items)
              case Err(e) => Err(ParseProblem(e))
              case Ok(aux) => Ok(AuxCertificate(cert, Some(aux)))
  }

  function AuxCertificateReadOf(env: Env, lines: seq<string>, from: nat, endMarker: string): (r: Result<PemObject, PemError>)
    requires from <= |lines|
    ensures r.Ok? ==> r.value.AuxCertificate?
  {
    match BodyOf(lines, from, endMarker)
    case Err(e) => Err(e)
    case Ok(body) => AuxCertificateOf(env, body.text)
  }

  method ReadAuxCertificate(env: Env, lines: seq<string>, from: nat, endMarker: string) returns (r: Result<PemObject, PemError>)
    requires from <= |lines|
    ensures r == AuxCertificateReadOf(env, lines, from, endMarker)
  {
    var body := ReadBody(lines, from, endMarker);
    if body.Err? {
      return Err(body.error);
    }
    var decoded := Base64.Decode(body.value.text);
    if decoded.None? {
      return Err(BadBase64);
    }
    var first := env.der.readObject(decoded.value);
    if first.Malformed? {
      return Err(BadDer);
    } else if first.AtEnd? {
      return Err(MissingObject);
    }
    if !env.acceptsCertificate(env.der.encode(first.node)) {
      return Err(ParseProblem(Rejected));
    }
    var second := env.der.readObject(first.rest);
    if second.AtEnd? {
      return Ok(AuxCertificate(first.node, None));
    } else if second.Malformed? || !second.node.Seq? {
      return Err(ParseProblem(BadDer));
    }
    var aux := ReadAuxFields(second.node.items);
    if aux.Err? {
      return Err(ParseProblem(aux.error));
    }
    r := Ok(AuxCertificate(first.node, Some(aux.value)));
  }

  /**
   * The certificate, CRL and request readers take the bytes `readBytes` would give. A certificate
   * or CRL the factory rejects is a parse problem. A Base64 failure escapes the certificate and
   * CRL readers as it is, because their decoding is outside the `try`. The request reader decodes
   * inside its `try`, so there it becomes a parse problem too.
   */
  lemma ReadersOverBytes(env: Env, lines: seq<string>, from: nat, endMarker: string)
    requires from <= |lines|
    ensures var b := BytesOf(lines, from, endMarker);
      CertificateReadOf(env, lines, from, endMarker) ==
        (if b.Ok? then (if env.acceptsCertificate(b.value) then Ok(b.value) else Err(ParseProblem(Rejected)))
         else Err(b.error))
    ensures var b := BytesOf(lines, from, endMarker);
      CrlReadOf(env, lines, from, endMarker) ==
        (if b.Ok? then (if env.acceptsCrl(b.value) then Ok(Crl(b.value)) else Err(ParseProblem(Rejected)))
         else Err(b.error))
    ensures var b := BytesOf(lines, from, endMarker);
      RequestReadOf(env, lines, from, endMarker) ==
        (if b.Ok? then (if env.acceptsRequest(b.value) then Ok(Request(b.value)) else Err(ParseProblem(Rejected)))
         else if b.error == BadBase64 then Err(ParseProblem(BadBase64))
         else Err(b.error))
    ensures var b := BytesOf(lines, from, endMarker);
      PublicKeyReadOf(env, lines, from, endMarker) ==
        (if b.Ok? then Ok(FirstAccepted(env.acceptsPublicKey, PublicKeyAlgorithms, b.value)) else Err(b.error))
  {
    var body := BodyOf(lines, from, endMarker);
    if body.Ok? && Base64.Decode(body.value.text).None? {
      assert BytesOf(lines, from, endMarker) == Err(BadBase64);
    }
  }

  /** The bytes read back from an armoured block are exactly the bytes written into it. */
  lemma BytesArmored(name: string, der: seq<byte>)
    requires IsLabel(name)
    ensures BytesOf(Armored(name, der).lines, 1, End(name)) == Ok(der)
  {
    ReadArmored(name, der);
    Base64.DecodeEncode(der);
  }

  /**
   * An armoured certificate, CRL or request reads back as the written bytes when its factory
   * accepts them, and as a parse problem otherwise. An armoured public key is the first of RSA,
   * DSA whose key factory accepts the bytes, or `null`.
   */
  lemma ReadersArmored(env: Env, name: string, der: seq<byte>)
    requires IsLabel(name)
    ensures CertificateReadOf(env, Armored(name, der).lines, 1, End(name)) ==
      (if env.acceptsCertificate(der) then Ok(der) else Err(ParseProblem(Rejected)))
    ensures CrlReadOf(env, Armored(name, der).lines, 1, End(name)) ==
      (if env.acceptsCrl(der) then Ok(Crl(der)) else Err(ParseProblem(Rejected)))
    ensures RequestReadOf(env, Armored(name, der).lines, 1, End(name)) ==
      (if env.acceptsRequest(der) then Ok(Request(der)) else Err(ParseProblem(Rejected)))
    ensures PublicKeyReadOf(env, Armored(name, der).lines, 1, End(name)) ==
      Ok(FirstAccepted(env.acceptsPublicKey, PublicKeyAlgorithms, der))
  {
    BytesArmored(name, der);
    ReadersOverBytes(env, Armored(name, der).lines, 1, End(name));
  }

  /** With no line holding the end marker, every body reader fails with "<endMarker> not found". */
  lemma ReadersEndNotFound(env: Env, lines: seq<string>, from: nat, endMarker: string)
    requires from <= |lines|
    requires forall j :: from <= j < |lines| ==> !Contains(lines[j], endMarker)
    ensures BytesOf(lines, from, endMarker) == Err(EndNotFound(endMarker))
    ensures PublicKeyReadOf(env, lines, from, endMarker) == Err(EndNotFound(endMarker))
    ensures CertificateReadOf(env, lines, from, endMarker) == Err(EndNotFound(endMarker))
    ensures CrlReadOf(env, lines, from, endMarker) == Err(EndNotFound(endMarker))
    ensures RequestReadOf(env, lines, from, endMarker) == Err(EndNotFound(endMarker))
    ensures AuxCertificateReadOf(env, lines, from, endMarker) == Err(EndNotFound(endMarker))
  {
    FirstWithAt(lines, from, endMarker, |lines|);
  }

  /**
   * A body that is not Base64, here a line holding `!`, fails in `readBytes`, `readCertificate`
   * and `readCRL` with the decoder's exception itself, and in `readCertificateRequest` as a parse
   * problem.
   */
  lemma BadBase64Split(env: Env)
    ensures var lines := ["a!==", EndLine(X509Label)];
      BytesOf(lines, 0, End(X509Label)) == Err(BadBase64) &&
      CertificateReadOf(env, lines, 0, End(X509Label)) == Err(BadBase64) &&
      CrlReadOf(env, lines, 0, End(X509Label)) == Err(BadBase64) &&
      RequestReadOf(env, lines, 0, End(X509Label)) == Err(ParseProblem(BadBase64))
  {
    var lines := ["a!==", EndLine(X509Label)];
    var e := End(X509Label);
    assert !Contains(lines[0], e) by {
      assert e[0] == '-' && '-' !in lines[0];
      NotContainsWithoutFirstChar(lines[0], e);
    }
    EndLineHolds(X509Label, X509Label);
    FirstWithAt(lines, 0, e, 1);
    assert Trim(lines[0]) == lines[0] by {
      TrimNoSpace(lines[0]);
    }
    assert lines[1] == EndLine(X509Label) && Contains(lines[1], e);
    assert FirstWith(lines, 0, e) == 1;
    assert lines[0..1] == [lines[0]];
    assert TrimmedConcat(lines[0..1]) == Trim(lines[0]) + TrimmedConcat([]);
    assert TrimmedConcat(lines[0..1]) == "a!==";
    assert BodyOf(lines, 0, e) == Ok(Body(TrimmedConcat(lines[0..1]), 2));
    assert Base64.Decode("a!==").None?;
    ReadersOverBytes(env, lines, 0, e);
  }

  /** The branches of `readPEM`, in the order it tests them. */
  datatype Branch =
    | PublicKeyBranch | DsaKeyBranch | RsaPublicKeyBranch | X509OldBranch
    | X509Branch | TrustedBranch | CrlBranch | RequestBranch

  /** The label whose BEGIN marker selects a branch. */
  function LabelOf(b: Branch): string {
    match b
    case PublicKeyBranch => PublicLabel
    case DsaKeyBranch => DsaLabel
    case RsaPublicKeyBranch => RsaPublicLabel
    case X509OldBranch => X509OldLabel
    case X509Branch => X509Label
    case TrustedBranch => X509TrustedLabel
    case CrlBranch => X509CrlLabel
    case RequestBranch => X509ReqLabel
  }

  /** The position of a branch in the chain of tests. */
  function Rank(b: Branch): nat {
    match b
    case PublicKeyBranch => 0
    case DsaKeyBranch => 1
    case RsaPublicKeyBranch => 2
    case X509OldBranch => 3
    case X509Branch => 4
    case TrustedBranch => 5
    case CrlBranch => 6
    case RequestBranch => 7
  }

  /**
   * The chain of `indexOf` tests `readPEM` applies to one line: the first branch whose BEGIN
   * marker the line holds, or none.
   */
  function Classify(line: string): (r: Option<Branch>)
    ensures r.Some? ==> Contains(line, Begin(LabelOf(r.value)))
    ensures forall b :: (r.None? || Rank(b) < Rank(r.value)) ==> !Contains(line, Begin(LabelOf(b)))
  {
    if Contains(line, Begin(PublicLabel)) then Some(PublicKeyBranch)
    else if Contains(line, Begin(DsaLabel)) then Some(DsaKeyBranch)
    else if Contains(line, Begin(RsaPublicLabel)) then Some(RsaPublicKeyBranch)
    else if Contains(line, Begin(X509OldLabel)) then Some(X509OldBranch)
    else if Contains(line, Begin(X509Label)) then Some(X509Branch)
    else if Contains(line, Begin(X509TrustedLabel)) then Some(TrustedBranch)
    else if Contains(line, Begin(X509CrlLabel)) then Some(CrlBranch)
    else if Contains(line, Begin(X509ReqLabel)) then Some(RequestBranch)
    else None
  }

  /** The index of the first line at or after `from` that one of the branches selects, or `|lines|`. */
  function FirstBegin(lines: seq<string>, from: nat): (r: nat)
    requires from <= |lines|
    ensures from <= r <= |lines|
    ensures r < |lines| ==> Classify(lines[r]).Some?
    ensures forall j :: from <= j < r ==> Classify(lines[j]).None?
    decreases |lines| - from
  {
    if from == |lines| || Classify(lines[from]).Some? then from else FirstBegin(lines, from + 1)
  }

  /** A failure of a reader, as `readPEM` re-raises it. */
  function InContext<T>(context: string, r: Result<T, PemError>): Result<Option<T>, PemError> {
    match r
    case Err(e) => Err(Creating(context, e))
    case Ok(v) => Ok(Some(v))
  }

  /** A failure of a reader that may return `null`, as `readPEM` re-raises it. */
  function Reraise(context: string, r: Result<Option<PemObject>, PemError>): Result<Option<PemObject>, PemError> {
    if r.Err? then Err(Creating(context, r.error)) else r
  }

  /** A key pair read by `readKeyPair`, as an object. */
  function KeyPairObjectOf(r: Result<KeyPair, PemError>): Result<PemObject, PemError> {
    if r.Err? then Err(r.error) else Ok(KeyPairObject(r.value))
  }

  /** What a branch of `readPEM` returns, reading from the line after the BEGIN line. */
  function Dispatch(env: Env, b: Branch, lines: seq<string>, from: nat, password: Option<seq<char>>): (r: Result<Option<PemObject>, PemError>)
    requires from <= |lines|
    ensures r.Ok? && r.value.Some? && r.value.value.Request? ==> b == RequestBranch
  {
    match b
    case PublicKeyBranch => Reraise("public key", PublicKeyReadOf(env, lines, from, End(PublicLabel)))
    case DsaKeyBranch =>
      InContext("DSA private key", KeyPairObjectOf(ReadKeyPairOf(env.crypto, env.der, lines, from, password, "DSA", End(DsaLabel))))
    case RsaPublicKeyBranch => Reraise("RSA public key", PublicKeyReadOf(env, lines, from, End(RsaPublicLabel)))
    case X509OldBranch => InContext("X509 Aux certificate", AuxCertificateReadOf(env, lines, from, End(X509OldLabel)))
    case X509Branch => InContext("X509 Aux certificate", AuxCertificateReadOf(env, lines, from, End(X509Label)))
    case TrustedBranch => InContext("X509 Aux certificate", AuxCertificateReadOf(env, lines, from, End(X509TrustedLabel)))
    case CrlBranch => InContext("X509 CRL", CrlReadOf(env, lines, from, End(X509CrlLabel)))
    case RequestBranch => InContext("X509 REQ", RequestReadOf(env, lines, from, End(X509ReqLabel)))
  }

  /**
   * `readPEM`: the first line that a branch selects decides what is read from the lines after
   * it; without such a line the result is `null`.
   */
  function ReadPemOf(env: Env, lines: seq<string>, password: Option<seq<char>>): Result<Option<PemObject>, PemError> {
    var k := FirstBegin(lines, 0);
    if k == |lines| then Ok(None) else Dispatch(env, Classify(lines[k]).value, lines, k + 1, password)
  }

  /** One branch of `readPEM`: the reader it calls, with its failure re-raised. */
  method DispatchBranch(env: Env, b: Branch, lines: seq<string>, from: nat, password: Option<seq<char>>)
    returns (r: Result<Option<PemObject>, PemError>)
    requires from <= |lines|
    ensures r == Dispatch(env, b, lines, from, password)
  {
    match b
    case PublicKeyBranch =>
      var k := ReadPublicKey(env, lines, from, End(PublicLabel));
      r := Reraise("public key", k);
    case DsaKeyBranch =>
      var pair := ReadKeyPair(env.crypto, env.der, lines, from, password, "DSA", End(DsaLabel));
      r := InContext("DSA private key", KeyPairObjectOf(pair));
    case RsaPublicKeyBranch =>
      var k := ReadPublicKey(env, lines, from, End(RsaPublicLabel));
      r := Reraise("RSA public key", k);
    case X509OldBranch =>
      var c := ReadAuxCertificate(env, lines, from, End(X509OldLabel));
      r := InContext("X509 Aux certificate", c);
    case X509Branch =>
      var c := ReadAuxCertificate(env, lines, from, End(X509Label));
      r := InContext("X509 Aux certificate", c);
    case TrustedBranch =>
      var c := ReadAuxCertificate(env, lines, from, End(X509TrustedLabel));
      r := InContext("X509 Aux certificate", c);
    case CrlBranch =>
      var c := ReadCrl(env, lines, from, End(X509CrlLabel));
      r := InContext("X509 CRL", c);
    case RequestBranch =>
      var q := ReadCertificateRequest(env, lines, from, End(X509ReqLabel));
      r := InContext("X509 REQ", q);
  }

  /** The `readPEM` loop. */
  method ReadPem(env: Env, lines: seq<string>, password: Option<seq<char>>) returns (r: Result<Option<PemObject>, PemError>)
    ensures r == ReadPemOf(env, lines, password)
  {
    var k := 0;
    while k < |lines|
      invariant 0 <= k <= |lines|
      invariant FirstBegin(lines, 0) == FirstBegin(lines, k)
    {
      var b := Classify(lines[k]);
      if b.Some? {
        r := DispatchBranch(env, b.value, lines, k + 1, password);
        return;
      }
      k := k + 1;
    }
    r := Ok(None);
  }

  /**
   * The branch a line `-----BEGIN name-----` lands in: the first branch whose label is a prefix
   * of `name`.
   */
  function BranchOfLabel(name: string): Option<Branch> {
    if PublicLabel <= name then Some(PublicKeyBranch)
    else if DsaLabel <= name then Some(DsaKeyBranch)
    else if RsaPublicLabel <= name then Some(RsaPublicKeyBranch)
    else if X509OldLabel <= name then Some(X509OldBranch)
    else if X509Label <= name then Some(X509Branch)
    else if X509TrustedLabel <= name then Some(TrustedBranch)
    else if X509CrlLabel <= name then Some(CrlBranch)
    else if X509ReqLabel <= name then Some(RequestBranch)
    else None
  }

  /** The labels of the branches are labels. */
  lemma BranchLabels()
    ensures forall b :: IsLabel(LabelOf(b))
  {
    forall b ensures IsLabel(LabelOf(b)) {
      var l := LabelOf(b);
      assert forall i :: 0 <= i < |l| ==> l[i] != '-';
    }
  }

  /** The branch of a BEGIN line is decided by which branch labels are prefixes of its label. */
  lemma ClassifyBeginLine(name: string)
    requires IsLabel(name)
    ensures Classify(BeginLine(name)) == BranchOfLabel(name)
  {
    BranchLabels();
    BeginLineHolds(name, PublicLabel);
    BeginLineHolds(name, DsaLabel);
    BeginLineHolds(name, RsaPublicLabel);
    BeginLineHolds(name, X509OldLabel);
    BeginLineHolds(name, X509Label);
    BeginLineHolds(name, X509TrustedLabel);
    BeginLineHolds(name, X509CrlLabel);
    BeginLineHolds(name, X509ReqLabel);
  }

  /**
   * The `CERTIFICATE REQUEST` branch is never taken: every line holding its BEGIN marker also holds
   * the BEGIN marker of `CERTIFICATE`, whose test comes first.
   */
  lemma RequestBranchUnreachable(line: string)
    ensures Classify(line) != Some(RequestBranch)
  {
    if Contains(line, Begin(X509ReqLabel)) {
      assert Begin(X509Label) <= Begin(X509ReqLabel);
      ContainsShorter(line, Begin(X509ReqLabel), Begin(X509Label));
    }
  }

  /** Hence `readPEM` never returns a certificate request. */
  lemma ReadPemNeverRequest(env: Env, lines: seq<string>, password: Option<seq<char>>)
    ensures !(ReadPemOf(env, lines, password).Ok? && ReadPemOf(env, lines, password).value.Some? &&
              ReadPemOf(env, lines, password).value.value.Request?)
  {
    var k := FirstBegin(lines, 0);
    if k < |lines| {
      RequestBranchUnreachable(lines[k]);
    }
  }

  /** A line `-----BEGIN CERTIFICATE REQUEST-----` is dispatched to the certificate reader. */
  lemma RequestLineReadAsCertificate()
    ensures Classify(BeginLine(X509ReqLabel)) == Some(X509Branch)
  {
    BranchLabels();
    ClassifyBeginLine(X509ReqLabel);
    DifferAt(PublicLabel, X509ReqLabel, 0);
    DifferAt(DsaLabel, X509ReqLabel, 0);
    DifferAt(RsaPublicLabel, X509ReqLabel, 0);
    DifferAt(X509OldLabel, X509ReqLabel, 0);
  }

  /** A `TRUSTED CERTIFICATE` BEGIN line is dispatched to the auxiliary-certificate reader with its own END marker. */
  lemma TrustedLineBranch()
    ensures Classify(BeginLine(X509TrustedLabel)) == Some(TrustedBranch)
  {
    BranchLabels();
    ClassifyBeginLine(X509TrustedLabel);
    DifferAt(PublicLabel, X509TrustedLabel, 0);
    DifferAt(DsaLabel, X509TrustedLabel, 0);
    DifferAt(RsaPublicLabel, X509TrustedLabel, 0);
    DifferAt(X509OldLabel, X509TrustedLabel, 0);
    DifferAt(X509Label, X509TrustedLabel, 0);
  }

  /** A `DSA PRIVATE KEY` BEGIN line is dispatched to `readKeyPair`. */
  lemma DsaLineBranch()
    ensures Classify(BeginLine(DsaLabel)) == Some(DsaKeyBranch)
  {
    BranchLabels();
    ClassifyBeginLine(DsaLabel);
    DifferAt(PublicLabel, DsaLabel, 0);
  }

  /** No branch selects a Base64 line or an END line. */
  lemma ArmoredBodyUnselected(name: string, der: seq<byte>)
    requires IsLabel(name)
    ensures forall j :: 1 <= j < |Armored(name, der).lines| ==> Classify(Armored(name, der).lines[j]).None?
  {
    var text := Base64.Encode(der);
    var w := Wrap64(text);
    var lines := Armored(name, der).lines;
    EncodingIsBase64Line(der);
    Wrap64Chars(text);
    BranchLabels();
    forall j | 1 <= j < |lines| ensures Classify(lines[j]).None? {
      if j < |lines| - 1 {
        assert lines[j] == w[j - 1];
        forall b ensures !Contains(lines[j], Begin(LabelOf(b))) {
          Base64LineFacts(w[j - 1], LabelOf(b));
        }
      } else {
        assert lines[j] == EndLine(name);
        forall b ensures !Contains(lines[j], Begin(LabelOf(b))) {
          EndLineHolds(name, LabelOf(b));
        }
      }
    }
  }

  /**
   * An armored text whose label no branch takes, such as `RSA PRIVATE KEY`, `PKCS7` or
   * `DH PARAMETERS`, is read by `readPEM` as `null`.
   */
  lemma ReadPemUnrecognised(env: Env, name: string, der: seq<byte>, password: Option<seq<char>>)
    requires IsLabel(name) && BranchOfLabel(name).None?
    ensures ReadPemOf(env, Armored(name, der).lines, password) == Ok(None)
  {
    var lines := Armored(name, der).lines;
    ClassifyBeginLine(name);
    ArmoredBodyUnselected(name, der);
    FirstWithNone(lines);
  }

  /** Without a selected line, the scan reaches the end. */
  lemma FirstWithNone(lines: seq<string>)
    requires forall j :: 0 <= j < |lines| ==> Classify(lines[j]).None?
    ensures FirstBegin(lines, 0) == |lines|
  {
  }

  /** `RSA PRIVATE KEY`, `PKCS7` and `DH PARAMETERS` are among the labels no branch of `readPEM` takes. */
  lemma UnrecognisedLabels()
    ensures BranchOfLabel(RsaLabel).None? && BranchOfLabel(Pkcs7Label).None? && BranchOfLabel(DhParamsLabel).None?
  {
    DifferAt(PublicLabel, RsaLabel, 0);
    DifferAt(DsaLabel, RsaLabel, 0);
    DifferAt(RsaPublicLabel, RsaLabel, 5);
    DifferAt(X509OldLabel, RsaLabel, 0);
    DifferAt(X509Label, RsaLabel, 0);
    DifferAt(X509TrustedLabel, RsaLabel, 0);
    DifferAt(X509CrlLabel, RsaLabel, 0);
    DifferAt(X509ReqLabel, RsaLabel, 0);
    DifferAt(PublicLabel, Pkcs7Label, 1);
    DifferAt(DsaLabel, Pkcs7Label, 0);
    DifferAt(RsaPublicLabel, Pkcs7Label, 0);
    DifferAt(X509OldLabel, Pkcs7Label, 0);
    DifferAt(X509Label, Pkcs7Label, 0);
    DifferAt(X509TrustedLabel, Pkcs7Label, 0);
    DifferAt(X509CrlLabel, Pkcs7Label, 0);
    DifferAt(X509ReqLabel, Pkcs7Label, 0);
    DifferAt(PublicLabel, DhParamsLabel, 0);
    DifferAt(DsaLabel, DhParamsLabel, 1);
    DifferAt(RsaPublicLabel, DhParamsLabel, 0);
    DifferAt(X509OldLabel, DhParamsLabel, 0);
    DifferAt(X509Label, DhParamsLabel, 0);
    DifferAt(X509TrustedLabel, DhParamsLabel, 0);
    DifferAt(X509CrlLabel, DhParamsLabel, 0);
    DifferAt(X509ReqLabel, DhParamsLabel, 0);
  }

  /**
   * `writeX509Aux`: the certificate's DER bytes, followed by the DER of the auxiliary sequence
   * when there is an auxiliary record, armored as a `TRUSTED CERTIFICATE`.
   */
  function WriteX509Aux(der: DerCodec, cert: Node, aux: Option<X509Aux>): Written {
    Armored(X509TrustedLabel, der.encode(cert) + (if aux.Some? then der.encode(Seq(AuxItems(aux.value))) else []))
  }

  /** The bytes `writeX509Aux` encodes are read back as the certificate and its record. */
  lemma AuxCertificateBytes(env: Env, cert: Node, aux: Option<X509Aux>)
    requires Sound(env.der) && env.acceptsCertificate(env.der.encode(cert))
    ensures var bytes := env.der.encode(cert) + (if aux.Some? then env.der.encode(Seq(AuxItems(aux.value))) else []);
      AuxCertificateOf(env, Base64.Encode(bytes)) == Ok(AuxCertificate(cert, aux))
  {
    var tail := if aux.Some? then env.der.encode(Seq(AuxItems(aux.value))) else [];
    var bytes := env.der.encode(cert) + tail;
    Base64.DecodeEncode(bytes);
    assert env.der.readObject(bytes) == Parsed(cert, tail);
    if aux.Some? {
      ReadSingle(env.der, Seq(AuxItems(aux.value)));
      AuxRoundTrip(aux.value);
    }
  }

  /** What `writeX509Aux` writes, `readPEM` reads back as the same certificate and the same record. */
  lemma X509AuxRoundTrip(env: Env, cert: Node, aux: Option<X509Aux>, password: Option<seq<char>>)
    requires Sound(env.der) && env.acceptsCertificate(env.der.encode(cert))
    ensures ReadPemOf(env, WriteX509Aux(env.der, cert, aux).lines, password) == Ok(Some(AuxCertificate(cert, aux)))
  {
    var bytes := env.der.encode(cert) + (if aux.Some? then env.der.encode(Seq(AuxItems(aux.value))) else []);
    var lines := WriteX509Aux(env.der, cert, aux).lines;
    TrustedLineBranch();
    assert Classify(lines[0]) == Some(TrustedBranch);
    ReadArmored(X509TrustedLabel, bytes);
    AuxCertificateBytes(env, cert, aux);
  }

  /**
   * What `writeDSAPrivateKey` writes, `readPEM` reads back, with the same password, as the key
   * pair whose public value is `g^x mod p`.
   */
  lemma DsaPrivateKeyPemRoundTrip(env: Env, k: DsaPrivateKey, algo: Option<string>, password: Option<seq<char>>, salt: seq<byte>)
    requires Sound(env.der) && CipherSound(env.crypto) && |salt| > 0
    requires WriteDsaPrivateKey(env.crypto, env.der, k, algo, password, salt).Ok?
    requires env.crypto.acceptsKeyPair(DsaPair(k.p, k.q, k.g, ModPow(k.g, k.x, k.p), k.x))
    ensures ReadPemOf(env, WriteDsaPrivateKey(env.crypto, env.der, k, algo, password, salt).value.lines, password) ==
      Ok(Some(KeyPairObject(DsaPair(k.p, k.q, k.g, ModPow(k.g, k.x, k.p), k.x))))
  {
    var lines := WriteDsaPrivateKey(env.crypto, env.der, k, algo, password, salt).value.lines;
    DsaPrivateKeyRoundTrip(env.crypto, env.der, k, algo, password, salt);
    DsaLineBranch();
    assert Classify(lines[0]) == Some(DsaKeyBranch);
  }
}
