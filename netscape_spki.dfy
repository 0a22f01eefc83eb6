/**
 * `OpenSSL::Netscape::SPKI`: a signed public key and challenge. `new` reads a request given as
 * Base64 text or as DER, keeps its challenge and turns its public key into an RSA or DSA key
 * object; `to_der` rebuilds the request structure around the stored key and challenge; `sign`
 * builds and signs a new request under the signature algorithm the OID table names for the key
 * and digest.
 * The request codec and signer, key objects and the OID table are not part of this model: they
 * are the functions of an `SpkiLibrary` value.
 */
module NetscapeSpki {
  import opened Wrappers
  import opened Asn1
  import opened Text
  import Base64

  /** An `OpenSSL::PKey`: its algorithm, its `to_der`, its public key and, when present, its private key. */
  datatype PKey = PKey(algorithm: string, der: seq<byte>, publicKey: seq<byte>, privateKey: Option<seq<byte>>)

  /** An `OpenSSL::Digest`, by `getAlgorithm()`. */
  datatype Digest = Digest(algorithm: string)

  /**
   * A `NetscapeCertRequest`: its challenge, the algorithm and encoding of its public key, and
   * its ASN.1 structure (`toASN1Object`).
   */
  datatype Request = Request(challenge: string, keyAlgorithm: string, keyEncoded: seq<byte>, tree: Node)

  /**
   * The libraries the SPKI object calls: reading a request from DER (`None` for the swallowed
   * `IOException`), `PKey::RSA.new` and `PKey::DSA.new` on an encoded public key, building a
   * request from a challenge, an algorithm OID and a public key, signing it (`None` for the
   * swallowed `GeneralSecurityException`), replacing its public key, verifying it (false for a
   * swallowed exception), the DER codec, and the OID table of the ASN.1 module.
   */
  datatype SpkiLibrary = SpkiLibrary(
    parse: seq<byte> -> Option<Request>,
    newKey: (string, seq<byte>) -> PKey,
    build: (string, Option<string>, seq<byte>) -> Request,
    sign: (Request, Option<seq<byte>>) -> Option<Request>,
    withKey: (Request, seq<byte>) -> Request,
    verify: (Request, string) -> bool,
    der: DerCodec,
    oids: map<string, string>)

  /** The errors the SPKI object raises. */
  datatype SpkiError =
    | NotImplementedAlgo(algorithm: Option<string>)  // "not implemented algo for public key: <algorithm>"
    | Uninitialized                                   // a Java `null` field is used
    | UnexpectedShape                                 // a cast in `to_der` fails

  /** The bytes of an ASCII text, as `String.getBytes` gives them. */
  function AsciiBytes(s: seq<char>): (r: seq<byte>)
    requires forall i :: 0 <= i < |s| ==> s[i] as int < 256
    ensures |r| == |s| && forall i :: 0 <= i < |s| ==> r[i] == s[i] as int as byte
  {
    seq(|s|, i requires 0 <= i < |s| => s[i] as int as byte)
  }

  /** The bytes `new` hands to the request reader: the Base64 decoding of the argument, or the argument itself. */
  function InputBytes(arg: seq<byte>): seq<byte> {
    match Base64.Decode(Latin1(arg))
    case Some(b) => b
    case None => arg
  }

  /** The node at a path of item indices, when every step is into a sequence long enough. */
  function Path(n: Node, p: seq<nat>): Option<Node>
    decreases |p|
  {
    if p == [] then Some(n)
    else if n.Seq? && p[0] < |n.items| then Path(n.items[p[0]], p[1..])
    else None
  }

  /**
   * The structure `to_der` encodes: the encryption OID from path 0/0/0/0 of the request, the
   * stored key as a BIT STRING, the stored challenge as an IA5String, the signature OID from
   * the algorithm identifier at index 1, and the signature at index 2.
   */
  function ToDerTree(tree: Node, keyDer: seq<byte>, challenge: string): Result<Node, SpkiError> {
    var enc := Path(tree, [0, 0, 0, 0]);
    var alg := Path(tree, [1, 0]);
    var sig := Path(tree, [2]);
    if enc.Some? && enc.value.Oid? && alg.Some? && alg.value.Oid? && sig.Some? && sig.value.BitString? then
      Ok(Seq([Seq([Seq([Seq([enc.value, Null]), BitString(keyDer)]), IA5(challenge)]), Seq([alg.value, Null]), sig.value]))
    else Err(UnexpectedShape)
  }

  /** The key under which `sign` looks up the signature OID: lower-case key algorithm, "-", lower-case digest. */
  function SignOidKey(keyAlg: string, digAlg: string): string {
    Lower(keyAlg) + "-" + Lower(digAlg)
  }

  /** The signature OID the table holds for a key and digest, if any. */
  function SignOid(oids: map<string, string>, keyAlg: string, digAlg: string): Option<string> {
    var k := SignOidKey(keyAlg, digAlg);
    if k in oids then Some(oids[k]) else None
  }

  class Spki {
    var publicKey: Option<PKey>
    var challenge: Option<string>
    var cert: Option<Request>

    /** `SPKI.new` without an argument: nothing is set. */
    constructor ()
      ensures publicKey.None? && challenge.None? && cert.None?
    {
      publicKey, challenge, cert := None, None, None;
    }

    /**
     * `SPKI.new(arg)`: reads the request from the decoded or raw argument, keeps it and its
     * challenge, and keeps its public key as an RSA or DSA key object, the family compared
     * ignoring case. A request that cannot be read leaves the fields as they were and fails
     * with the algorithm unknown.
     */
    method Initialize(lib: SpkiLibrary, arg: seq<byte>) returns (r: Result<(), SpkiError>)
      modifies this
      ensures var req := lib.parse(InputBytes(arg));
        if req.None? then
          r == Err(NotImplementedAlgo(None)) && unchanged(this)
        else
          cert == req && challenge == Some(req.value.challenge) &&
          var alg := req.value.keyAlgorithm;
          if EqualsIgnoreCase("RSA", alg) then r == Ok(()) && publicKey == Some(lib.newKey("RSA", req.value.keyEncoded))
          else if EqualsIgnoreCase("DSA", alg) then r == Ok(()) && publicKey == Some(lib.newKey("DSA", req.value.keyEncoded))
          else r == Err(NotImplementedAlgo(Some(alg))) && publicKey == old(publicKey)
    {
      var b := arg;
      var decoded := Base64.Decode(Latin1(arg));
      if decoded.Some? {
        b := decoded.value;
      }
      var req := lib.parse(b);
      if req.None? {
        return Err(NotImplementedAlgo(None));
      }
      cert := req;
      challenge := Some(req.value.challenge);
      var alg := req.value.keyAlgorithm;
      if EqualsIgnoreCase("RSA", alg) {
        publicKey := Some(lib.newKey("RSA", req.value.keyEncoded));
      } else if EqualsIgnoreCase("DSA", alg) {
        publicKey := Some(lib.newKey("DSA", req.value.keyEncoded));
      } else {
        return Err(NotImplementedAlgo(Some(alg)));
      }
      r := Ok(());
    }

    /** `to_der`: the DER of `ToDerTree` over the request, the stored key and the stored challenge. */
    function ToDer(lib: SpkiLibrary): (r: Result<seq<byte>, SpkiError>)
      reads this
      ensures r.Ok? <==> cert.Some? && publicKey.Some? && challenge.Some? &&
                         ToDerTree(cert.value.tree, publicKey.value.der, challenge.value).Ok?
      ensures r.Ok? ==> r.value == lib.der.encode(ToDerTree(cert.value.tree, publicKey.value.der, challenge.value).value)
    {
      if cert.None? || publicKey.None? || challenge.None? then Err(Uninitialized)
      else
        match ToDerTree(cert.value.tree, publicKey.value.der, challenge.value)
        case Err(e) => Err(e)
        case Ok(t) => Ok(lib.der.encode(t))
    }

    /** `to_pem` and `to_s`: the Base64 text of `to_der`, without armor lines. */
    function ToPem(lib: SpkiLibrary): (r: Result<seq<char>, SpkiError>)
      reads this
      ensures r.Ok? <==> ToDer(lib).Ok?
      ensures r.Ok? ==> Base64.Decode(r.value) == Some(ToDer(lib).value)
    {
      match ToDer(lib)
      case Err(e) => Err(e)
      case Ok(d) =>
        Base64.DecodeEncode(d);
        Ok(Base64.Encode(d))
    }

    /** `public_key=`. */
    method SetPublicKey(k: PKey)
      modifies this
      ensures publicKey == Some(k) && challenge == old(challenge) && cert == old(cert)
    {
      publicKey := Some(k);
    }

    /** `challenge=`. */
    method SetChallenge(c: string)
      modifies this
      ensures challenge == Some(c) && publicKey == old(publicKey) && cert == old(cert)
    {
      challenge := Some(c);
    }

    /**
     * `sign`: builds a new request from the stored challenge, the OID the table holds for the
     * key and digest, and the stored public key, and signs it with the key's private key; a
     * failed signature leaves the unsigned request.
     */
    method Sign(lib: SpkiLibrary, key: PKey, digest: Digest) returns (r: Result<(), SpkiError>)
      modifies this
      ensures challenge == old(challenge) && publicKey == old(publicKey)
      ensures old(challenge).None? || old(publicKey).None? ==> r == Err(Uninitialized) && cert == old(cert)
      ensures old(challenge).Some? && old(publicKey).Some? ==> (r == Ok(()) &&
        var built := lib.build(old(challenge).value, SignOid(lib.oids, key.algorithm, digest.algorithm), old(publicKey).value.publicKey);
        cert == if lib.sign(built, key.privateKey).Some? then lib.sign(built, key.privateKey) else Some(built))
    {
      var alg := SignOid(lib.oids, key.algorithm, digest.algorithm);
      if challenge.None? || publicKey.None? {
        return Err(Uninitialized);
      }
      var built := lib.build(challenge.value, alg, publicKey.value.publicKey);
      cert := Some(built);
      var signed := lib.sign(built, key.privateKey);
      if signed.Some? {
        cert := signed;
      }
      r := Ok(());
    }

    /** `verify`: puts the key's public key into the request, then checks it against the stored challenge. */
    method Verify(lib: SpkiLibrary, key: PKey) returns (r: Result<bool, SpkiError>)
      modifies this
      ensures challenge == old(challenge) && publicKey == old(publicKey)
      ensures old(cert).None? ==> r == Err(Uninitialized) && cert.None?
      ensures old(cert).Some? ==> (cert == Some(lib.withKey(old(cert).value, key.publicKey)) &&
        r == if challenge.Some? then Ok(lib.verify(cert.value, challenge.value)) else Err(Uninitialized))
    {
      if cert.None? {
        return Err(Uninitialized);
      }
      cert := Some(lib.withKey(cert.value, key.publicKey));
      if challenge.None? {
        return Err(Uninitialized);
      }
      r := Ok(lib.verify(cert.value, challenge.value));
    }
  }

  /**
   * `to_der` keeps the encryption OID, the signature OID and the signature of the request at
   * their paths and puts the stored key and challenge at theirs.
   */
  lemma ToDerTreePaths(tree: Node, keyDer: seq<byte>, challenge: string)
    requires ToDerTree(tree, keyDer, challenge).Ok?
    ensures var t := ToDerTree(tree, keyDer, challenge).value;
      Path(t, [0, 0, 0, 0]) == Path(tree, [0, 0, 0, 0]) && Path(t, [0, 0, 0, 1]) == Some(Null) &&
      Path(t, [0, 0, 1]) == Some(BitString(keyDer)) && Path(t, [0, 1]) == Some(IA5(challenge)) &&
      Path(t, [1, 0]) == Path(tree, [1, 0]) && Path(t, [1, 1]) == Some(Null) && Path(t, [2]) == Path(tree, [2])
  {
    var t := ToDerTree(tree, keyDer, challenge).value;
    PathStep(t, [0, 0, 0, 0]);
    PathStep(t, [0, 0, 0, 1]);
    PathStep(t, [0, 0, 1]);
    PathStep(t, [0, 1]);
    PathStep(t, [1, 0]);
    PathStep(t, [1, 1]);
    PathStep(t, [2]);
  }

  /** One step along a path. */
  lemma PathStep(n: Node, p: seq<nat>)
    requires p != [] && n.Seq? && p[0] < |n.items|
    ensures Path(n, p) == Path(n.items[p[0]], p[1..])
  {
  }

  /** Rebuilding a structure `to_der` built, with the same key and challenge, changes nothing. */
  lemma ToDerTreeIdempotent(tree: Node, keyDer: seq<byte>, challenge: string)
    requires ToDerTree(tree, keyDer, challenge).Ok?
    ensures var t := ToDerTree(tree, keyDer, challenge).value;
      ToDerTree(t, keyDer, challenge) == Ok(t)
  {
    ToDerTreePaths(tree, keyDer, challenge);
  }

  /** The characters of the bytes of an ASCII text are the text. */
  lemma Latin1OfAscii(s: seq<char>)
    requires forall i :: 0 <= i < |s| ==> s[i] as int < 256
    ensures Latin1(AsciiBytes(s)) == s
  {
  }

  /** The text `to_pem` writes, given to `new`, reaches the request reader as the DER `to_der` writes. */
  lemma PemInputRoundTrip(der: seq<byte>)
    ensures var text := Base64.Encode(der);
      (forall i :: 0 <= i < |text| ==> text[i] as int < 256) &&
      InputBytes(AsciiBytes(text)) == der
  {
    var text := Base64.Encode(der);
    Base64.EncodeChars(der);
    assert forall i :: 0 <= i < |text| ==> text[i] as int < 256 by {
      forall i | 0 <= i < |text| ensures text[i] as int < 256 {
        assert Base64.IsEncodingChar(text[i]);
      }
    }
    Latin1OfAscii(text);
    Base64.DecodeEncode(der);
  }

  /** Input that is not Base64 reaches the request reader unchanged. */
  lemma RawInputKept(arg: seq<byte>)
    requires Base64.Decode(Latin1(arg)).None?
    ensures InputBytes(arg) == arg
  {
  }

  /** The lookup key ignores the case of both names and keeps them apart with "-". */
  lemma SignOidKeyCase(keyAlg: string, digAlg: string, keyAlg2: string, digAlg2: string)
    requires EqualsIgnoreCase(keyAlg, keyAlg2) && EqualsIgnoreCase(digAlg, digAlg2)
    ensures SignOidKey(keyAlg, digAlg) == SignOidKey(keyAlg2, digAlg2)
    ensures SignOidKey(keyAlg, digAlg)[..|keyAlg|] == Lower(keyAlg)
    ensures SignOidKey(keyAlg, digAlg)[|keyAlg|] == '-'
    ensures SignOidKey(keyAlg, digAlg)[|keyAlg| + 1..] == Lower(digAlg)
  {
    EqualsIgnoreCaseIff(keyAlg, keyAlg2);
    EqualsIgnoreCaseIff(digAlg, digAlg2);
  }
}
