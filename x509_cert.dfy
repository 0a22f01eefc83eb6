/**
 * `OpenSSL::X509::Certificate`: the fields a certificate holds, the `changed` flag that its
 * setters, `add_extension` and `sign` drive and that makes `verify` fail closed, the pairs of key
 * and digest `sign` refuses, and the rule that merges a second Subject Alternative Name extension
 * (OID 2.5.29.17, RFC 5280 section 4.2.1.6) into the first one instead of adding it.
 * The certificate factory, the certificate generator, signature verification, the ASN.1 decoding
 * of extension values and the extension factory are not part of this model: they are the
 * functions of a `CertLibrary` value.
 */
module X509Cert {
  import opened Wrappers
  import opened Asn1
  import opened Text

  /** The OID of the Subject Alternative Name extension. */
  const SanOid: string := "2.5.29.17"

  /** An `OpenSSL::X509::Name`, by its DER encoding. */
  datatype Name = Name(der: seq<byte>)

  /** An `OpenSSL::PKey`: its algorithm name, its public key and, when it has one, its private key. */
  datatype PKey = PKey(algorithm: string, publicKey: seq<byte>, privateKey: Option<seq<byte>>)

  /** An `OpenSSL::Digest`: `getAlgorithm()` and `name`. */
  datatype Digest = Digest(algorithm: string, name: string)

  /**
   * A Ruby `Time`: the instant in milliseconds (the precision of `java.util.Date`), the
   * microseconds beyond it, and whether it is in UTC.
   */
  datatype Time = Time(millis: int, extraMicros: int, utc: bool)

  /** An `X509Extensions.Extension`: its OID, criticality and DER-encoded value. */
  datatype Extension = Extension(oid: string, critical: bool, value: seq<byte>)

  /** What the `X509V3CertificateGenerator` holds, as far as the certificate object sets it. */
  datatype Generator = Generator(
    serial: Option<int>,
    subject: Option<Name>,
    issuer: Option<Name>,
    notBefore: Option<int>,
    notAfter: Option<int>,
    publicKey: Option<seq<byte>>,
    extensions: seq<Extension>,
    signatureAlgorithm: Option<string>)

  const EmptyGenerator := Generator(None, None, None, None, None, None, [], None)

  /** A certificate the library produced: its encoding and its public key. */
  datatype CertData = CertData(encoded: seq<byte>, publicKey: seq<byte>)

  /** One extension of a parsed certificate: the OID and `getExtensionValue(oid)`. */
  datatype RawExtension = RawExtension(oid: string, value: seq<byte>)

  /** What `CertificateFactory.generateCertificate` yields. */
  datatype ParsedCert = ParsedCert(
    cert: CertData,
    serial: int,
    notBefore: int,
    notAfter: int,
    subject: Name,
    issuer: Name,
    keyAlgorithm: string,
    critical: seq<RawExtension>,
    nonCritical: seq<RawExtension>)

  /** The outcome of `X509Certificate.verify(publicKey)`. */
  datatype VerifyOutcome = Verified | InvalidKey | OtherFailure

  /**
   * The libraries the certificate calls: the certificate factory, the ASN.1 decoding of an
   * extension value to the contents of its OCTET STRING, `ExtensionFactory#create_ext` (either of
   * these two may raise, which is `None`), the ASN.1
   * stream that reads and writes `GeneralNames`, the generator's `generate` with a private key,
   * and signature verification.
   */
  datatype CertLibrary = CertLibrary(
    parse: seq<byte> -> Option<ParsedCert>,
    octetContent: seq<byte> -> Option<seq<byte>>,
    createExt: (string, seq<byte>, bool) -> Option<Extension>,
    names: DerCodec,
    generate: (Generator, Option<seq<byte>>) -> Option<CertData>,
    verify: (CertData, seq<byte>) -> VerifyOutcome)

  /** The exceptions the certificate raises. */
  datatype CertError =
    | ParseFailed                           // CertificateError from the certificate factory
    | UnsupportedAlgorithm(algorithm: string)  // "The algorithm <algorithm> is unsupported for public keys"
    | SignRefused                           // CertificateError raised by `sign` for a refused pair
    | VerifyFailed                          // CertificateError from `verify`
    | NamesUnreadable                       // an extension value that is not a sequence of general names
    | NoCertificate                         // the Java `null` certificate is used
    | ShortExtensionValue                   // `substring(2)` or the four-byte copy on a shorter value
    | ExtensionUndecodable                  // `ASN1.decode` raises on an extension value
    | ExtensionNotCreated                   // `create_ext` raises

  /** All fields of a certificate object, for stating what a method leaves unchanged. */
  datatype CertState = CertState(
    serial: Option<int>,
    notBefore: Option<Time>,
    notAfter: Option<Time>,
    issuer: Option<Name>,
    subject: Option<Name>,
    publicKey: Option<PKey>,
    sigAlg: Option<string>,
    version: Option<int>,
    extensions: seq<Extension>,
    changed: bool,
    generator: Generator,
    cert: Option<CertData>)

  /** The time `not_before=` and `not_after=` store: the same instant, in UTC, microseconds cleared. */
  function UtcWithoutMicros(t: Time): (u: Time)
    ensures u.millis == t.millis && u.extraMicros == 0 && u.utc
  {
    Time(t.millis, 0, true)
  }

  /** The index of the first Subject Alternative Name extension from `from` on, or `|exts|`. */
  function FirstSan(exts: seq<Extension>, from: nat): (i: nat)
    requires from <= |exts|
    ensures from <= i <= |exts|
    ensures i < |exts| ==> exts[i].oid == SanOid
    ensures forall j :: from <= j < i ==> exts[j].oid != SanOid
    decreases |exts| - from
  {
    if from == |exts| || exts[from].oid == SanOid then from else FirstSan(exts, from + 1)
  }

  /** The general names in an extension value, as `GeneralNames.getInstance(...).getNames()` reads them. */
  function NamesOf(der: DerCodec, value: seq<byte>): Result<seq<Node>, CertError> {
    match der.readObject(value)
    case Parsed(Seq(items), _) => Ok(items)
    case _ => Err(NamesUnreadable)
  }

  /**
   * The extension list after `add_extension(ext)`: anything but a Subject Alternative Name, and
   * a Subject Alternative Name when the list holds none, is appended; otherwise the first one in
   * the list takes the names it had followed by the names of `ext`, and `ext` is not added.
   */
  function AddExtensionOf(der: DerCodec, exts: seq<Extension>, ext: Extension): Result<seq<Extension>, CertError> {
    if ext.oid != SanOid then Ok(exts + [ext])
    else
      var i := FirstSan(exts, 0);
      if i == |exts| then Ok(exts + [ext])
      else
        match (NamesOf(der, exts[i].value), NamesOf(der, ext.value))
        case (Ok(n1), Ok(n2)) => Ok(exts[i := exts[i].(value := der.encode(Seq(n1 + n2)))])
        case _ => Err(NamesUnreadable)
  }

  /** The pairs `sign` refuses: DSA with MD5, RSA with the DSS1 digest, DSA with the SHA1 digest. */
  predicate SignRefusedFor(key: PKey, digest: Digest) {
    (EqualsIgnoreCase("DSA", key.algorithm) && EqualsIgnoreCase("MD5", digest.algorithm)) ||
    (EqualsIgnoreCase("RSA", key.algorithm) && digest.name == "DSS1") ||
    (EqualsIgnoreCase("DSA", key.algorithm) && digest.name == "SHA1")
  }

  /**
   * The text the constructor hands to `create_ext` for one extension of a parsed certificate.
   * Every value is decoded first, even where the result goes unused, so an undecodable value
   * raises. Then a Subject Alternative Name gets its decoded value as it is, another critical
   * extension its decoded value without the first two characters, and another non-critical
   * extension its raw value without the first four bytes.
   */
  function ExtensionText(lib: CertLibrary, raw: RawExtension, critical: bool): Result<seq<byte>, CertError> {
    var c := lib.octetContent(raw.value);
    if c.None? then Err(ExtensionUndecodable)
    else if raw.oid == SanOid then Ok(c.value)
    else if critical then
      if |c.value| < 2 then Err(ShortExtensionValue) else Ok(c.value[2..])
    else if |raw.value| < 4 then Err(ShortExtensionValue) else Ok(raw.value[4..])
  }

  /** Whether the constructor's loop gets as far as `add_extension` for `raw`. */
  predicate ReachesAdd(lib: CertLibrary, raw: RawExtension, critical: bool) {
    var text := ExtensionText(lib, raw, critical);
    text.Ok? && lib.createExt(raw.oid, text.value, critical).Some?
  }

  /**
   * The extension list after the constructor's loop over `raws`, each turned into an extension
   * by `create_ext` and added with `add_extension`, and the error that stopped the loop, if any.
   * The first failure of decoding, of `create_ext` or of `add_extension` stops the loop.
   */
  function AddRawOf(lib: CertLibrary, exts: seq<Extension>, raws: seq<RawExtension>, critical: bool): (seq<Extension>, Option<CertError>)
    decreases |raws|
  {
    if raws == [] then (exts, None)
    else
      match ExtensionText(lib, raws[0], critical)
      case Err(e) => (exts, Some(e))
      case Ok(text) =>
        match lib.createExt(raws[0].oid, text, critical)
        case None => (exts, Some(ExtensionNotCreated))
        case Some(ext) =>
          match AddExtensionOf(lib.names, exts, ext)
          case Err(e) => (exts, Some(e))
          case Ok(next) => AddRawOf(lib, next, raws[1..], critical)
  }

  /** The extension list the constructor builds: the critical extensions, then the others. */
  function InitialExtensionsOf(lib: CertLibrary, p: ParsedCert): (seq<Extension>, Option<CertError>) {
    var (c, err) := AddRawOf(lib, [], p.critical, true);
    if err.Some? then (c, err) else AddRawOf(lib, c, p.nonCritical, false)
  }

  /** The public key object the constructor makes for the certificate's key, or the error. */
  function KeyObjectOf(p: ParsedCert): Result<PKey, CertError> {
    if EqualsIgnoreCase("RSA", p.keyAlgorithm) then Ok(PKey("RSA", p.cert.publicKey, None))
    else if EqualsIgnoreCase("DSA", p.keyAlgorithm) then Ok(PKey("DSA", p.cert.publicKey, None))
    else Err(UnsupportedAlgorithm(p.keyAlgorithm))
  }

  class Certificate {
    var serial: Option<int>
    var notBefore: Option<Time>
    var notAfter: Option<Time>
    var issuer: Option<Name>
    var subject: Option<Name>
    var publicKey: Option<PKey>
    var sigAlg: Option<string>
    var version: Option<int>
    var extensions: seq<Extension>
    var changed: bool
    var generator: Generator
    var cert: Option<CertData>

    /** The fields, as one value. */
    function State(): CertState
      reads this
    {
      CertState(serial, notBefore, notAfter, issuer, subject, publicKey, sigAlg, version,
                extensions, changed, generator, cert)
    }

    /** `Certificate.new` without an argument: every field nil, no extensions, and `changed` set. */
    constructor ()
      ensures State() == CertState(None, None, None, None, None, None, None, None, [], true, EmptyGenerator, None)
    {
      serial, notBefore, notAfter, issuer, subject := None, None, None, None, None;
      publicKey, sigAlg, version := None, None, None;
      extensions := [];
      changed := true;
      generator := EmptyGenerator;
      cert := None;
    }

    /** `version=`: `changed` is set only when the version differs from the stored one. */
    method SetVersion(v: int)
      modifies this
      ensures State() == old(State()).(version := Some(v), changed := old(changed) || old(version) != Some(v))
    {
      if Some(v) != version {
        changed := true;
      }
      version := Some(v);
    }

    /** `serial=`: also hands the serial to the generator. */
    method SetSerial(num: int)
      modifies this
      ensures State() == old(State()).(serial := Some(num), changed := old(changed) || old(serial) != Some(num),
                                       generator := old(generator).(serial := Some(num)))
    {
      if Some(num) != serial {
        changed := true;
      }
      serial := Some(num);
      generator := generator.(serial := Some(num));
    }

    /** `subject=`. */
    method SetSubject(n: Name)
      modifies this
      ensures State() == old(State()).(subject := Some(n), changed := old(changed) || old(subject) != Some(n),
                                       generator := old(generator).(subject := Some(n)))
    {
      if Some(n) != subject {
        changed := true;
      }
      subject := Some(n);
      generator := generator.(subject := Some(n));
    }

    /** `issuer=`. */
    method SetIssuer(n: Name)
      modifies this
      ensures State() == old(State()).(issuer := Some(n), changed := old(changed) || old(issuer) != Some(n),
                                       generator := old(generator).(issuer := Some(n)))
    {
      if Some(n) != issuer {
        changed := true;
      }
      issuer := Some(n);
      generator := generator.(issuer := Some(n));
    }

    /** `public_key=`: the generator gets the public key of the key object. */
    method SetPublicKey(k: PKey)
      modifies this
      ensures State() == old(State()).(publicKey := Some(k), changed := old(changed) || old(publicKey) != Some(k),
                                       generator := old(generator).(publicKey := Some(k.publicKey)))
    {
      if Some(k) != publicKey {
        changed := true;
      }
      publicKey := Some(k);
      generator := generator.(publicKey := Some(k.publicKey));
    }

    /** `not_before=`: always sets `changed`, and stores the time in UTC with microseconds cleared. */
    method SetNotBefore(t: Time)
      modifies this
      ensures State() == old(State()).(notBefore := Some(UtcWithoutMicros(t)), changed := true,
                                       generator := old(generator).(notBefore := Some(t.millis)))
    {
      changed := true;
      notBefore := Some(UtcWithoutMicros(t));
      generator := generator.(notBefore := Some(notBefore.value.millis));
    }

    /** `not_after=`. */
    method SetNotAfter(t: Time)
      modifies this
      ensures State() == old(State()).(notAfter := Some(UtcWithoutMicros(t)), changed := true,
                                       generator := old(generator).(notAfter := Some(t.millis)))
    {
      changed := true;
      notAfter := Some(UtcWithoutMicros(t));
      generator := generator.(notAfter := Some(notAfter.value.millis));
    }

    /** `extensions=`: replaces the list and leaves `changed` as it was. */
    method SetExtensions(exts: seq<Extension>)
      modifies this
      ensures State() == old(State()).(extensions := exts)
    {
      extensions := exts;
    }

    /**
     * `add_extension`: always sets `changed`; the list becomes `AddExtensionOf`, found by a walk
     * over the list that stops at the first Subject Alternative Name. When a value cannot be
     * read as general names the list is left as it was.
     */
    method AddExtension(der: DerCodec, ext: Extension) returns (r: Result<(), CertError>)
      modifies this
      ensures r.Ok? <==> AddExtensionOf(der, old(extensions), ext).Ok?
      ensures r.Err? ==> r.error == AddExtensionOf(der, old(extensions), ext).error
      ensures State() == old(State()).(changed := true,
        extensions := if r.Ok? then AddExtensionOf(der, old(extensions), ext).value else old(extensions))
    {
      changed := true;
      r := Ok(());
      if ext.oid == SanOid {
        var one := true;
        var i := 0;
        while i < |extensions|
          invariant 0 <= i <= |extensions| && extensions == old(extensions)
          invariant FirstSan(extensions, 0) == FirstSan(extensions, i)
        {
          if extensions[i].oid == SanOid {
            var n1 := NamesOf(der, extensions[i].value);
            var n2 := NamesOf(der, ext.value);
            if n1.Err? || n2.Err? {
              return Err(NamesUnreadable);
            }
            var merged := der.encode(Seq(n1.value + n2.value));
            extensions := extensions[i := extensions[i].(value := merged)];
            one := false;
            break;
          }
          i := i + 1;
        }
        if one {
          extensions := extensions + [ext];
        }
      } else {
        extensions := extensions + [ext];
      }
    }

    /**
     * `sign`: refuses the denied pairs before touching anything; otherwise hands every extension
     * to the generator in list order, records the digest as the signature algorithm, names
     * `digest + "WITH" + key` to the generator, keeps the certificate the generator produces (a
     * failure is swallowed and leaves the old one), and clears `changed` in any case.
     */
    method Sign(lib: CertLibrary, key: PKey, digest: Digest) returns (r: Result<(), CertError>)
      modifies this
      ensures SignRefusedFor(key, digest) ==> r == Err(SignRefused) && State() == old(State())
      ensures !SignRefusedFor(key, digest) ==> (r == Ok(()) &&
        var g := old(generator).(extensions := old(generator).extensions + old(extensions),
                                 signatureAlgorithm := Some(digest.algorithm + "WITH" + key.algorithm));
        State() == old(State()).(sigAlg := Some(digest.algorithm), generator := g, changed := false,
          cert := if lib.generate(g, key.privateKey).Some? then lib.generate(g, key.privateKey) else old(cert)))
    {
      if SignRefusedFor(key, digest) {
        return Err(SignRefused);
      }
      HandExtensions();
      sigAlg := Some(digest.algorithm);
      generator := generator.(signatureAlgorithm := Some(digest.algorithm + "WITH" + key.algorithm));
      var produced := lib.generate(generator, key.privateKey);
      if produced.Some? {
        cert := produced;
      }
      changed := false;
      r := Ok(());
    }

    /** The loop of `sign` that gives every extension of the list, in order, to the generator. */
    method HandExtensions()
      modifies this
      ensures State() == old(State()).(generator := old(generator).(extensions := old(generator).extensions + old(extensions)))
    {
      var i := 0;
      while i < |extensions|
        invariant 0 <= i <= |extensions|
        invariant State() == old(State()).(generator := old(generator).(extensions := old(generator).extensions + extensions[..i]))
      {
        generator := generator.(extensions := generator.extensions + [extensions[i]]);
        assert extensions[..i + 1] == extensions[..i] + [extensions[i]];
        i := i + 1;
      }
      assert extensions[..i] == extensions;
    }

    /**
     * `verify`: false while `changed` is set, without looking at the key; otherwise the
     * library's verdict, where an invalid key is false and every other failure raises.
     */
    function Verify(lib: CertLibrary, key: PKey): (r: Result<bool, CertError>)
      reads this
      ensures changed ==> r == Ok(false)
      ensures r == Ok(true) <==> !changed && cert.Some? && lib.verify(cert.value, key.publicKey) == Verified
      ensures r.Err? <==> !changed && (cert.None? || lib.verify(cert.value, key.publicKey) == OtherFailure)
    {
      if changed then Ok(false)
      else if cert.None? then Err(NoCertificate)
      else
        match lib.verify(cert.value, key.publicKey)
        case Verified => Ok(true)
        case InvalidKey => Ok(false)
        case OtherFailure => Err(VerifyFailed)
    }

    /** `check_private_key`: whether the certificate's public key is the key's public key. */
    function CheckPrivateKey(key: PKey): (r: Result<bool, CertError>)
      reads this
      ensures r.Ok? <==> cert.Some?
      ensures r == Ok(true) <==> cert.Some? && cert.value.publicKey == key.publicKey
    {
      if cert.None? then Err(NoCertificate) else Ok(cert.value.publicKey == key.publicKey)
    }

    /**
     * The constructor's loop over one set of extensions of the parsed certificate: `changed` is
     * set once the first `add_extension` is reached.
     */
    method AddRaw(lib: CertLibrary, raws: seq<RawExtension>, critical: bool) returns (err: Option<CertError>)
      modifies this
      ensures var (exts, e) := AddRawOf(lib, old(extensions), raws, critical);
        err == e && State() == old(State()).(extensions := exts, changed := changed)
      ensures changed == (old(changed) || (|raws| > 0 && ReachesAdd(lib, raws[0], critical)))
    {
      err := None;
      var k := 0;
      while k < |raws|
        invariant 0 <= k <= |raws|
        invariant AddRawOf(lib, old(extensions), raws, critical) == AddRawOf(lib, extensions, raws[k..], critical)
        invariant State() == old(State()).(extensions := extensions, changed := changed)
        invariant k == 0 ==> changed == old(changed)
        invariant k > 0 ==> changed && ReachesAdd(lib, raws[0], critical)
      {
        var text := ExtensionText(lib, raws[k], critical);
        if text.Err? {
          return Some(text.error);
        }
        var ext := lib.createExt(raws[k].oid, text.value, critical);
        if ext.None? {
          return Some(ExtensionNotCreated);
        }
        var added := AddExtension(lib.names, ext.value);
        if added.Err? {
          return Some(added.error);
        }
        k := k + 1;
      }
    }

    /** The fields `Certificate.new(der)` takes from the parsed certificate through their setters. */
    method Load(p: ParsedCert)
      modifies this
      requires extensions == []
      ensures State() == LoadedState(old(State()), p)
    {
      cert := Some(p.cert);
      SetSerial(p.serial);
      SetNotBefore(Time(p.notBefore, 0, false));
      SetNotAfter(Time(p.notAfter, 0, false));
      SetSubject(p.subject);
      SetIssuer(p.issuer);
    }

    /**
     * `Certificate.new(der)`: clears the extension list, parses, sets serial, validity, subject
     * and issuer through their setters, makes the public key object (RSA and DSA only), adds the
     * critical and then the non-critical extensions, and clears `changed`. An error leaves the
     * fields set so far as they are.
     */
    method Initialize(lib: CertLibrary, der: seq<byte>) returns (r: Result<(), CertError>)
      modifies this
      ensures lib.parse(der).None? ==> r == Err(ParseFailed) && State() == old(State()).(extensions := [])
      ensures lib.parse(der).Some? ==>
        var p := lib.parse(der).value;
        var loaded := LoadedState(old(State()), p);
        match KeyObjectOf(p)
        case Err(e) => r == Err(e) && State() == loaded
        case Ok(k) =>
          var (exts, err) := InitialExtensionsOf(lib, p);
          var keyed := loaded.(publicKey := Some(k), generator := loaded.generator.(publicKey := Some(k.publicKey)));
          (err.Some? ==> r == Err(err.value) && State() == keyed.(extensions := exts)) &&
          (err.None? ==> r == Ok(()) && State() == keyed.(extensions := exts, changed := false))
    {
      extensions := [];
      var parsed := lib.parse(der);
      if parsed.None? {
        return Err(ParseFailed);
      }
      var p := parsed.value;
      Load(p);
      var key := KeyObjectOf(p);
      if key.Err? {
        return Err(key.error);
      }
      SetPublicKey(key.value);
      var err := AddRaw(lib, p.critical, true);
      if err.Some? {
        return Err(err.value);
      }
      err := AddRaw(lib, p.nonCritical, false);
      if err.Some? {
        return Err(err.value);
      }
      changed := false;
      r := Ok(());
    }
  }

  /**
   * The fields once `Certificate.new(der)` has parsed `p` and set serial, validity, subject and
   * issuer: `changed` is set, since setting a validity time always sets it.
   */
  function LoadedState(s: CertState, p: ParsedCert): (t: CertState)
    ensures t.changed && t.extensions == [] && t.cert == Some(p.cert)
    ensures t.notBefore == Some(Time(p.notBefore, 0, true)) && t.notAfter == Some(Time(p.notAfter, 0, true))
    ensures t.publicKey == s.publicKey && t.sigAlg == s.sigAlg && t.version == s.version
  {
    s.(extensions := [], cert := Some(p.cert), serial := Some(p.serial),
       notBefore := Some(Time(p.notBefore, 0, true)), notAfter := Some(Time(p.notAfter, 0, true)),
       subject := Some(p.subject), issuer := Some(p.issuer), changed := true,
       generator := s.generator.(serial := Some(p.serial), notBefore := Some(p.notBefore),
                                 notAfter := Some(p.notAfter), subject := Some(p.subject), issuer := Some(p.issuer)))
  }

  /** The number of Subject Alternative Name extensions in a list. */
  function SanCount(exts: seq<Extension>): nat
    decreases |exts|
  {
    if exts == [] then 0 else (if exts[|exts| - 1].oid == SanOid then 1 else 0) + SanCount(exts[..|exts| - 1])
  }

  lemma {:induction false} SanCountAppend(exts: seq<Extension>, e: Extension)
    ensures SanCount(exts + [e]) == SanCount(exts) + (if e.oid == SanOid then 1 else 0)
  {
    assert (exts + [e])[..|exts|] == exts;
  }

  lemma {:induction false} SanCountNone(exts: seq<Extension>)
    requires FirstSan(exts, 0) == |exts|
    ensures SanCount(exts) == 0
    decreases |exts|
  {
    if exts != [] {
      var front := exts[..|exts| - 1];
      assert forall j :: 0 <= j < |front| ==> front[j] == exts[j];
      FirstSanNoneFrom(front, 0);
      SanCountNone(front);
    }
  }

  lemma {:induction false} FirstSanNoneFrom(exts: seq<Extension>, from: nat)
    requires from <= |exts|
    requires forall j :: from <= j < |exts| ==> exts[j].oid != SanOid
    ensures FirstSan(exts, from) == |exts|
    decreases |exts| - from
  {
    if from < |exts| {
      FirstSanNoneFrom(exts, from + 1);
    }
  }

  /** Replacing an entry by one with the same OID keeps the count. */
  lemma {:induction false} SanCountUpdate(exts: seq<Extension>, i: nat, e: Extension)
    requires i < |exts| && e.oid == exts[i].oid
    ensures SanCount(exts[i := e]) == SanCount(exts)
    decreases |exts|
  {
    var n := |exts| - 1;
    if i < n {
      assert exts[i := e][..n] == exts[..n][i := e];
      SanCountUpdate(exts[..n], i, e);
    } else {
      assert exts[i := e][..n] == exts[..n];
    }
  }

  /**
   * `add_extension` of anything but a Subject Alternative Name, or of one when the list holds
   * none, appends it.
   */
  lemma AddExtensionAppends(der: DerCodec, exts: seq<Extension>, ext: Extension)
    requires ext.oid != SanOid || forall j :: 0 <= j < |exts| ==> exts[j].oid != SanOid
    ensures AddExtensionOf(der, exts, ext) == Ok(exts + [ext])
  {
    if ext.oid == SanOid {
      FirstSanNoneFrom(exts, 0);
    }
  }

  /**
   * A second Subject Alternative Name is merged into the first one of the list: the list keeps
   * its length and every other entry, the first one keeps its OID and criticality, and its new
   * value reads back as its old names followed by the names of `ext`.
   */
  lemma AddExtensionMergesSan(der: DerCodec, exts: seq<Extension>, ext: Extension, i: nat, n1: seq<Node>, n2: seq<Node>)
    requires Sound(der)
    requires ext.oid == SanOid && i < |exts| && exts[i].oid == SanOid
    requires forall j :: 0 <= j < i ==> exts[j].oid != SanOid
    requires NamesOf(der, exts[i].value) == Ok(n1) && NamesOf(der, ext.value) == Ok(n2)
    ensures var r := AddExtensionOf(der, exts, ext);
      r.Ok? && |r.value| == |exts| &&
      (forall j :: 0 <= j < |exts| && j != i ==> r.value[j] == exts[j]) &&
      r.value[i].oid == SanOid && r.value[i].critical == exts[i].critical &&
      NamesOf(der, r.value[i].value) == Ok(n1 + n2)
  {
    FirstSanAt(exts, 0, i);
    ReadSingle(der, Seq(n1 + n2));
  }

  lemma {:induction false} FirstSanAt(exts: seq<Extension>, from: nat, i: nat)
    requires from <= i < |exts| && exts[i].oid == SanOid
    requires forall j :: from <= j < i ==> exts[j].oid != SanOid
    ensures FirstSan(exts, from) == i
    decreases i - from
  {
    if from < i {
      FirstSanAt(exts, from + 1, i);
    }
  }

  /**
   * However many Subject Alternative Names are added, a list built by `add_extension` never
   * holds more than one: a successful call adds one to a list without any and keeps the count
   * otherwise.
   */
  lemma AddExtensionSanCount(der: DerCodec, exts: seq<Extension>, ext: Extension)
    requires AddExtensionOf(der, exts, ext).Ok?
    ensures var n := SanCount(AddExtensionOf(der, exts, ext).value);
      n == if ext.oid == SanOid && SanCount(exts) == 0 then 1 else SanCount(exts)
  {
    var i := FirstSan(exts, 0);
    if ext.oid != SanOid || i == |exts| {
      SanCountAppend(exts, ext);
      if ext.oid == SanOid {
        SanCountNone(exts);
      }
    } else {
      SanCountUpdate(exts, i, AddExtensionOf(der, exts, ext).value[i]);
      assert exts[i := AddExtensionOf(der, exts, ext).value[i]] == AddExtensionOf(der, exts, ext).value;
      SanCountPositive(exts, i);
    }
  }

  lemma {:induction false} SanCountPositive(exts: seq<Extension>, i: nat)
    requires i < |exts| && exts[i].oid == SanOid
    ensures SanCount(exts) > 0
    decreases |exts|
  {
    if i < |exts| - 1 {
      SanCountPositive(exts[..|exts| - 1], i);
    }
  }

  /** The constructor's loop keeps a list with at most one Subject Alternative Name so. */
  lemma {:induction false} AddRawKeepsOneSan(lib: CertLibrary, exts: seq<Extension>, raws: seq<RawExtension>, critical: bool)
    requires SanCount(exts) <= 1
    ensures SanCount(AddRawOf(lib, exts, raws, critical).0) <= 1
    decreases |raws|
  {
    if raws != [] {
      var text := ExtensionText(lib, raws[0], critical);
      if text.Ok? && lib.createExt(raws[0].oid, text.value, critical).Some? {
        var ext := lib.createExt(raws[0].oid, text.value, critical).value;
        var next := AddExtensionOf(lib.names, exts, ext);
        if next.Ok? {
          AddExtensionSanCount(lib.names, exts, ext);
          AddRawKeepsOneSan(lib, next.value, raws[1..], critical);
        }
      }
    }
  }

  /**
   * The constructor's loop finishes without an error only when every extension got as far as
   * `add_extension`. An extension whose value does not decode stops the loop with that error,
   * whether or not it is critical and whether or not its decoded value would be used.
   */
  lemma {:induction false} AddRawOfCompletes(lib: CertLibrary, exts: seq<Extension>, raws: seq<RawExtension>, critical: bool)
    ensures AddRawOf(lib, exts, raws, critical).1.None? ==>
      forall i :: 0 <= i < |raws| ==> ReachesAdd(lib, raws[i], critical)
    ensures |raws| > 0 && lib.octetContent(raws[0].value).None? ==>
      AddRawOf(lib, exts, raws, critical) == (exts, Some(ExtensionUndecodable))
    decreases |raws|
  {
    if raws != [] && AddRawOf(lib, exts, raws, critical).1.None? {
      var text := ExtensionText(lib, raws[0], critical);
      var ext := lib.createExt(raws[0].oid, text.value, critical).value;
      var next := AddExtensionOf(lib.names, exts, ext).value;
      AddRawOfCompletes(lib, next, raws[1..], critical);
      forall i | 0 <= i < |raws|
        ensures ReachesAdd(lib, raws[i], critical)
      {
        if i > 0 { assert raws[i] == raws[1..][i - 1]; }
      }
    }
  }

  /** A certificate read from DER holds at most one Subject Alternative Name extension. */
  lemma InitialExtensionsOneSan(lib: CertLibrary, p: ParsedCert)
    ensures SanCount(InitialExtensionsOf(lib, p).0) <= 1
  {
    AddRawKeepsOneSan(lib, [], p.critical, true);
    AddRawKeepsOneSan(lib, AddRawOf(lib, [], p.critical, true).0, p.nonCritical, false);
  }

  /** `sign` refuses only RSA and DSA keys, whatever the case of the key's algorithm name. */
  lemma SignRefusedKeyCase(key: PKey, other: PKey, digest: Digest)
    requires EqualsIgnoreCase(key.algorithm, other.algorithm)
    ensures SignRefusedFor(key, digest) == SignRefusedFor(other, digest)
    ensures SignRefusedFor(key, digest) ==> EqualsIgnoreCase("RSA", key.algorithm) || EqualsIgnoreCase("DSA", key.algorithm)
  {
    EqualsIgnoreCaseEquivalence("DSA", key.algorithm, other.algorithm);
    EqualsIgnoreCaseEquivalence("RSA", key.algorithm, other.algorithm);
    EqualsIgnoreCaseEquivalence("DSA", other.algorithm, key.algorithm);
    EqualsIgnoreCaseEquivalence("RSA", other.algorithm, key.algorithm);
  }
}
