/**
 * Private keys in PEM: `readKeyPair` with its header scan, the DEK-Info header of RFC 1421
 * (sections 4.6.1.1 and 4.6.1.3), `getKey`, and the RSA and DSA private-key writers. The key
 * derivation (OpenSSL's EVP_BytesToKey) and the DES / DESede CBC ciphers are not part of this
 * model: they are the functions of a `Crypto` value, and the round trips that need the cipher to
 * invert itself say so in their preconditions.
 */
module PemKeys {
  import opened Wrappers
  import opened Asn1
  import opened Text
  import opened PemLines
  import Base64
  import Hex

  /** `RSAPrivateCrtKey`, with the fields of RFC 8017 appendix A.1.2 in their order. */
  datatype RsaPrivateCrtKey = RsaPrivateCrtKey(
    modulus: int, publicExponent: int, privateExponent: int,
    prime1: int, prime2: int, exponent1: int, exponent2: int, coefficient: int)

  /** `DSAPrivateKey`: the domain parameters and the private value. */
  datatype DsaPrivateKey = DsaPrivateKey(p: int, q: int, g: int, x: nat)

  /** The key pair `readKeyPair` builds from the private and public key specifications. */
  datatype KeyPair =
    | RsaPair(rsa: RsaPrivateCrtKey)
    | DsaPair(p: int, q: int, g: int, y: int, x: int)

  /**
   * The cryptographic library: key derivation from a password, a salt and a key length in
   * bytes; encryption and decryption under a transformation name, a key and an IV (`None` is
   * the exception the cipher throws); and whether the key factory accepts a key pair.
   */
  datatype Crypto = Crypto(
    kdf: (seq<char>, seq<byte>, nat) -> seq<byte>,
    encrypt: (string, seq<byte>, seq<byte>, seq<byte>) -> Option<seq<byte>>,
    decrypt: (string, seq<byte>, seq<byte>, seq<byte>) -> Option<seq<byte>>,
    acceptsKeyPair: KeyPair -> bool)

  /** Decryption inverts every encryption that succeeds. */
  ghost predicate CipherSound(c: Crypto) {
    forall t, k, iv, d :: c.encrypt(t, k, iv, d).Some? ==> c.decrypt(t, k, iv, c.encrypt(t, k, iv, d).value) == Some(d)
  }

  const ProcTypeLine: string := "Proc-Type: 4,ENCRYPTED"
  const DekInfoPrefix: string := "DEK-Info:"
  const DesEde3Cbc: string := "DES-EDE3-CBC"
  const DesCbc: string := "DES-CBC"
  const DesEdeTransformation: string := "DESede/CBC/PKCS5Padding"
  const DesTransformation: string := "DES/CBC/PKCS5Padding"

  /** `BigInteger.modPow` for a non-negative exponent and a positive modulus: `b` multiplied by itself `e` times, reduced. */
  function ModPow(b: int, e: nat, m: int): (r: int)
    requires m > 0
    ensures 0 <= r < m
  {
    if e == 0 then 1 % m else (b * ModPow(b, e - 1, m)) % m
  }

  /** What the header scan has found: the two header fields, and the body gathered so far. */
  datatype Header = Header(encrypted: bool, dekInfo: Option<string>, body: string)

  const NoHeader := Header(false, None, "")

  /**
   * The loop of `readKeyPair` from line `k` on: a `Proc-Type: 4,ENCRYPTED` line sets
   * `encrypted`, a `DEK-Info:` line keeps its text from index 10 (throwing when shorter), a line
   * holding the end marker stops the loop, and every other line is trimmed into the body. Running
   * out of lines also stops the loop, without an error.
   */
  function ScanFrom(lines: seq<string>, k: nat, endMarker: string, h: Header): Result<Header, PemError>
    requires k <= |lines|
    decreases |lines| - k
  {
    if k == |lines| then Ok(h)
    else
      var line := lines[k];
      if StartsWith(line, ProcTypeLine) then ScanFrom(lines, k + 1, endMarker, h.(encrypted := true))
      else if StartsWith(line, DekInfoPrefix) then
        if |line| < 10 then Err(ShortDekInfo)
        else ScanFrom(lines, k + 1, endMarker, h.(dekInfo := Some(line[10..])))
      else if Contains(line, endMarker) then Ok(h)
      else ScanFrom(lines, k + 1, endMarker, h.(body := h.body + Trim(line)))
  }

  /** The header loop of `readKeyPair`. */
  method ScanHeader(lines: seq<string>, from: nat, endMarker: string) returns (r: Result<Header, PemError>)
    requires from <= |lines|
    ensures r == ScanFrom(lines, from, endMarker, NoHeader)
  {
    var encrypted := false;
    var dekInfo: Option<string> := None;
    var buf := "";
    var k := from;
    while k < |lines|
      invariant from <= k <= |lines|
      invariant ScanFrom(lines, from, endMarker, NoHeader) == ScanFrom(lines, k, endMarker, Header(encrypted, dekInfo, buf))
    {
      var line := lines[k];
      if StartsWith(line, ProcTypeLine) {
        encrypted := true;
      } else if StartsWith(line, DekInfoPrefix) {
        if |line| < 10 {
          return Err(ShortDekInfo);
        }
        dekInfo := Some(line[10..]);
      } else {
        IndexOfContains(line, endMarker);
        if IndexFrom(line, endMarker, 0) != -1 {
          break;
        }
        buf := buf + Trim(line);
      }
      k := k + 1;
    }
    r := Ok(Header(encrypted, dekInfo, buf));
  }

  /** The length of the run of non-delimiter characters at the start of `s`. */
  function RunLength(s: string, delim: char): (n: nat)
    ensures n <= |s| && (n < |s| ==> s[n] == delim)
    ensures forall i :: 0 <= i < n ==> s[i] != delim
  {
    if s == [] || s[0] == delim then 0 else 1 + RunLength(s[1..], delim)
  }

  /** `StringTokenizer(s, delim)`: the maximal non-empty runs without the delimiter, in order. */
  function Tokens(s: string, delim: char): (r: seq<string>)
    ensures forall i :: 0 <= i < |r| ==> |r[i]| > 0 && delim !in r[i]
    decreases |s|
  {
    if s == [] then []
    else if s[0] == delim then Tokens(s[1..], delim)
    else
      var n := RunLength(s, delim);
      [s[..n]] + Tokens(s[n..], delim)
  }

  /** Two delimiter-free, non-empty tokens joined by the delimiter are tokenized back. */
  lemma TokensOfPair(a: string, b: string, delim: char)
    requires |a| > 0 && |b| > 0 && delim !in a && delim !in b
    ensures Tokens(a + [delim] + b, delim) == [a, b]
  {
    TokensRun(a, delim, [delim] + b);
    assert a + [delim] + b == a + ([delim] + b);
    assert ([delim] + b)[1..] == b;
    TokensRun(b, delim, []);
    assert b + [] == b;
  }

  /** A delimiter-free run followed by a delimiter or nothing is the first token. */
  lemma TokensRun(a: string, delim: char, rest: string)
    requires |a| > 0 && delim !in a && (rest == [] || rest[0] == delim)
    ensures Tokens(a + rest, delim) == [a] + Tokens(rest, delim)
  {
    RunAll(a, delim, rest);
    var s := a + rest;
    assert s[..|a|] == a && s[|a|..] == rest;
  }

  /** A delimiter-free run followed by a delimiter or nothing is one token. */
  lemma {:induction false} RunAll(a: string, delim: char, rest: string)
    requires delim !in a && (rest == [] || rest[0] == delim)
    ensures RunLength(a + rest, delim) == |a|
  {
    if a != [] {
      assert (a + rest)[1..] == a[1..] + rest;
      RunAll(a[1..], delim, rest);
    }
  }

  /** `getKey`: the derived key, or the failure for a missing password. */
  function GetKey(crypto: Crypto, password: Option<seq<char>>, keyLength: nat, salt: seq<byte>): (r: Result<seq<byte>, PemError>)
    ensures r.Err? <==> password.None?
    ensures r.Err? ==> r.error == NullPassword
    ensures r.Ok? ==> r.value == crypto.kdf(password.value, salt, keyLength)
  {
    if password.None? then Err(NullPassword) else Ok(crypto.kdf(password.value, salt, keyLength))
  }

  /**
   * The key bytes `readKeyPair` obtains from the scanned header: the decoded body when it is not
   * encrypted; otherwise the DEK-Info cipher token selects DESede with a 24-byte key or DES with an
   * 8-byte key, the hex token is both the key-derivation salt and the IV, and any other cipher
   * token is rejected.
   */
  function KeyBytes(crypto: Crypto, h: Header, password: Option<seq<char>>): Result<seq<byte>, PemError> {
    if !h.encrypted then
      match Base64.Decode(h.body)
      case None => Err(BadBase64)
      case Some(b) => Ok(b)
    else if h.dekInfo.None? then Err(MissingToken)
    else
      var tokens := Tokens(h.dekInfo.value, ',');
      if |tokens| == 0 then Err(MissingToken)
      else if tokens[0] != DesEde3Cbc && tokens[0] != DesCbc then Err(UnknownEncryption)
      else
        var (transformation, keyLength) :=
          if tokens[0] == DesEde3Cbc then (DesEdeTransformation, 24) else (DesTransformation, 8);
        if |tokens| < 2 then Err(MissingToken)
        else
          match Hex.Decode(tokens[1])
          case None => Err(BadHex)
          case Some(iv) =>
            match GetKey(crypto, password, keyLength, iv)
            case Err(e) => Err(e)
            case Ok(key) =>
              match Base64.Decode(h.body)
              case None => Err(BadBase64)
              case Some(data) =>
                match crypto.decrypt(transformation, key, iv, data)
                case None => Err(DecryptFailed)
                case Some(plain) => Ok(plain)
  }

  /** The integer at a position of a sequence (a `DERInteger` cast), if there is one. */
  predicate IntsAt(items: seq<Node>, lo: nat, hi: nat) {
    lo <= hi <= |items| && forall i :: lo <= i < hi ==> items[i].Int?
  }

  /**
   * The key pair read from the key bytes: an RSA key from positions 1 to 8 of the sequence, a DSA
   * key (p, q, g, y, x) from positions 1 to 5; position 0 (the version) is not looked at.
   */
  function KeyPairOf(crypto: Crypto, der: DerCodec, keyType: string, keyBytes: seq<byte>): Result<KeyPair, PemError> {
    match der.readObject(keyBytes)
    case Malformed => Err(BadDer)
    case AtEnd => Err(MissingObject)
    case Parsed(n, _) =>
      if !n.Seq? then Err(BadDer)
      else
        var items := n.items;
        var pair :=
          if keyType == "RSA" then
            if IntsAt(items, 1, 9) then
              Some(RsaPair(RsaPrivateCrtKey(items[1].value, items[2].value, items[3].value, items[4].value,
                                            items[5].value, items[6].value, items[7].value, items[8].value)))
            else None
          else if IntsAt(items, 1, 6) then
            Some(DsaPair(items[1].value, items[2].value, items[3].value, items[4].value, items[5].value))
          else None;
        if pair.None? then Err(BadDer)
        else if !crypto.acceptsKeyPair(pair.value) then Err(KeyFactoryFailed)
        else Ok(pair.value)
  }

  /** `readKeyPair` as a whole, reading from line `from`. */
  function ReadKeyPairOf(crypto: Crypto, der: DerCodec, lines: seq<string>, from: nat, password: Option<seq<char>>,
                         keyType: string, endMarker: string): Result<KeyPair, PemError>
    requires from <= |lines|
  {
    match ScanFrom(lines, from, endMarker, NoHeader)
    case Err(e) => Err(e)
    case Ok(h) =>
      match KeyBytes(crypto, h, password)
      case Err(e) => Err(e)
      case Ok(b) => KeyPairOf(crypto, der, keyType, b)
  }

  /** `readKeyPair`: the header loop, then the decoding of what it gathered. */
  method ReadKeyPair(crypto: Crypto, der: DerCodec, lines: seq<string>, from: nat, password: Option<seq<char>>,
                     keyType: string, endMarker: string) returns (r: Result<KeyPair, PemError>)
    requires from <= |lines|
    ensures r == ReadKeyPairOf(crypto, der, lines, from, password, keyType, endMarker)
  {
    var h := ScanHeader(lines, from, endMarker);
    if h.Err? {
      return Err(h.error);
    }
    var b := KeyBytes(crypto, h.value, password);
    if b.Err? {
      return Err(b.error);
    }
    r := KeyPairOf(crypto, der, keyType, b.value);
  }

  /** The `RSAPrivateKeyStructure` sequence: version 0, then the eight integers. */
  function RsaLayout(k: RsaPrivateCrtKey): Node {
    Seq([Int(0), Int(k.modulus), Int(k.publicExponent), Int(k.privateExponent), Int(k.prime1),
         Int(k.prime2), Int(k.exponent1), Int(k.exponent2), Int(k.coefficient)])
  }

  /** The DSA private-key sequence: 0, p, q, g, the public value g^x mod p, and x. */
  function DsaLayout(k: DsaPrivateKey): Node
    requires k.p > 0
  {
    Seq([Int(0), Int(k.p), Int(k.q), Int(k.g), Int(ModPow(k.g, k.x, k.p)), Int(k.x)])
  }

  /** The header lines of an encrypted private key, as the writers emit them. */
  function EncryptedHeader(name: string, salt: seq<byte>): seq<string> {
    [BeginLine(name), ProcTypeLine, "DEK-Info: " + DesEde3Cbc + "," + Hex.Encode(salt), ""]
  }

  /**
   * The common tail of `writeRSAPrivateKey` and `writeDSAPrivateKey`: encrypted only when both
   * the algorithm and the password are given, the algorithm must then be DESEDE in any case,
   * and the encrypted form has no newline after its END line.
   */
  function WritePrivateKey(crypto: Crypto, name: string, encoding: seq<byte>, algo: Option<string>,
                           password: Option<seq<char>>, salt: seq<byte>): Result<Written, PemError> {
    if algo.Some? && password.Some? then
      if !EqualsIgnoreCase(algo.value, "DESEDE") then Err(UnknownWriteAlgorithm)
      else
        var key := crypto.kdf(password.value, salt, 24);
        match crypto.encrypt(DesEdeTransformation, key, salt, encoding)
        case None => Err(CipherException)
        case Some(data) =>
          Ok(Written(EncryptedHeader(name, salt) + Wrap64(Base64.Encode(data)) + [EndLine(name)], false))
    else Ok(Armored(name, encoding))
  }

  /** `writeRSAPrivateKey`. */
  function WriteRsaPrivateKey(crypto: Crypto, der: DerCodec, k: RsaPrivateCrtKey, algo: Option<string>,
                              password: Option<seq<char>>, salt: seq<byte>): Result<Written, PemError> {
    WritePrivateKey(crypto, RsaLabel, der.encode(RsaLayout(k)), algo, password, salt)
  }

  /** `writeDSAPrivateKey`; `modPow` throws for a modulus that is not positive. */
  function WriteDsaPrivateKey(crypto: Crypto, der: DerCodec, k: DsaPrivateKey, algo: Option<string>,
                              password: Option<seq<char>>, salt: seq<byte>): Result<Written, PemError> {
    if k.p <= 0 then Err(ModulusNotPositive)
    else WritePrivateKey(crypto, DsaLabel, der.encode(DsaLayout(k)), algo, password, salt)
  }

  /** A Base64 line is neither of the two header lines. */
  lemma NotHeaderLine(line: string)
    requires IsBase64Line(line)
    ensures !StartsWith(line, ProcTypeLine) && !StartsWith(line, DekInfoPrefix)
  {
    if |line| >= |DekInfoPrefix| {
      assert line[3] != '-' && line[4] != '-';
      assert line[..|DekInfoPrefix|][3] == line[3];
      if |line| >= |ProcTypeLine| {
        assert line[..|ProcTypeLine|][4] == line[4];
      }
    }
  }

  /** Scanning Base64 lines gathers them unchanged. */
  lemma {:induction false} ScanBase64(lines: seq<string>, k: nat, n: nat, endMarker: string, h: Header)
    requires k + n <= |lines| && |endMarker| > 0 && endMarker[0] == '-'
    requires forall j :: k <= j < k + n ==> IsBase64Line(lines[j])
    ensures ScanFrom(lines, k, endMarker, h) ==
      ScanFrom(lines, k + n, endMarker, h.(body := h.body + Concat(lines[k..k + n])))
    decreases n
  {
    if n == 0 {
      assert lines[k..k] == [];
      assert h.body + Concat([]) == h.body;
      assert h.(body := h.body) == h;
    } else {
      ScanBase64(lines, k + 1, n - 1, endMarker, h.(body := h.body + lines[k]));
      ScanBase64Prepend(lines, k, n, endMarker, h);
    }
  }

  /** Gathering one Base64 line in front of gathered Base64 lines. */
  lemma ScanBase64Prepend(lines: seq<string>, k: nat, n: nat, endMarker: string, h: Header)
    requires k < k + n <= |lines| && |endMarker| > 0 && endMarker[0] == '-' && IsBase64Line(lines[k])
    requires var h1 := h.(body := h.body + lines[k]);
      ScanFrom(lines, k + 1, endMarker, h1) ==
      ScanFrom(lines, k + n, endMarker, h1.(body := h1.body + Concat(lines[k + 1..k + n])))
    ensures ScanFrom(lines, k, endMarker, h) ==
      ScanFrom(lines, k + n, endMarker, h.(body := h.body + Concat(lines[k..k + n])))
  {
    var line := lines[k];
    var h1 := h.(body := h.body + line);
    ScanBase64Line(lines, k, endMarker, h);
    assert lines[k..k + n] == [line] + lines[k + 1..k + n];
    assert Concat(lines[k..k + n]) == line + Concat(lines[k + 1..k + n]);
    assert h1.(body := h1.body + Concat(lines[k + 1..k + n])) == h.(body := h.body + Concat(lines[k..k + n]));
  }

  /** A Base64 line is gathered as it is. */
  lemma ScanBase64Line(lines: seq<string>, k: nat, endMarker: string, h: Header)
    requires k < |lines| && |endMarker| > 0 && endMarker[0] == '-' && IsBase64Line(lines[k])
    ensures ScanFrom(lines, k, endMarker, h) == ScanFrom(lines, k + 1, endMarker, h.(body := h.body + lines[k]))
  {
    var line := lines[k];
    NotHeaderLine(line);
    assert endMarker[0] !in line;
    NotContainsWithoutFirstChar(line, endMarker);
    TrimNoSpace(line);
  }

  /** A line starting with a dash is neither of the two header lines. */
  lemma DashLineNotHeader(line: string)
    requires |line| > 0 && line[0] == '-'
    ensures !StartsWith(line, ProcTypeLine) && !StartsWith(line, DekInfoPrefix)
  {
    if |line| >= |DekInfoPrefix| {
      assert line[..|DekInfoPrefix|][0] == '-';
      if |line| >= |ProcTypeLine| {
        assert line[..|ProcTypeLine|][0] == '-';
      }
    }
  }

  /** Scanning wrapped Base64 lines and then the END line gathers the lines and stops. */
  lemma ScanTail(pre: seq<string>, w: seq<string>, name: string, h: Header)
    requires IsLabel(name)
    requires forall j :: 0 <= j < |w| ==> IsBase64Line(w[j])
    ensures ScanFrom(pre + w + [EndLine(name)], |pre|, End(name), h) == Ok(h.(body := h.body + Concat(w)))
  {
    var lines := pre + w + [EndLine(name)];
    assert lines[|pre|..|pre| + |w|] == w;
    ScanBase64(lines, |pre|, |w|, End(name), h);
    var last := lines[|pre| + |w|];
    assert last == EndLine(name);
    DashLineNotHeader(last);
    EndLineHolds(name, name);
  }

  /** The header scan of an unencrypted key finds no header fields and the Base64 text. */
  lemma PlainScan(name: string, encoding: seq<byte>)
    requires IsLabel(name)
    ensures ScanFrom(Armored(name, encoding).lines, 1, End(name), NoHeader) ==
      Ok(Header(false, None, Base64.Encode(encoding)))
  {
    var text := Base64.Encode(encoding);
    var w := Wrap64(text);
    EncodingIsBase64Line(encoding);
    Wrap64Chars(text);
    Wrap64Shape(text);
    ScanTail([BeginLine(name)], w, name, NoHeader);
    assert NoHeader.(body := NoHeader.body + Concat(w)) == Header(false, None, text);
  }

  /** One step of the scan over a `Proc-Type` line. */
  lemma ScanProcType(lines: seq<string>, k: nat, endMarker: string, h: Header)
    requires k < |lines| && lines[k] == ProcTypeLine
    ensures ScanFrom(lines, k, endMarker, h) == ScanFrom(lines, k + 1, endMarker, h.(encrypted := true))
  {
    assert StartsWith(lines[k], ProcTypeLine);
  }

  /** One step of the scan over a `DEK-Info` line written as `DEK-Info: ` and the value. */
  lemma ScanDekInfo(lines: seq<string>, k: nat, endMarker: string, h: Header, value: string)
    requires k < |lines| && lines[k] == "DEK-Info: " + value && |value| > 0 && value[0] == 'D'
    ensures ScanFrom(lines, k, endMarker, h) == ScanFrom(lines, k + 1, endMarker, h.(dekInfo := Some(value)))
  {
    var line := lines[k];
    assert line[..|DekInfoPrefix|] == DekInfoPrefix;
    assert !StartsWith(line, ProcTypeLine) by {
      if |line| >= |ProcTypeLine| { assert line[..|ProcTypeLine|][0] == 'D'; }
    }
    assert line[10..] == value;
  }

  /** One step of the scan over an empty line. */
  lemma ScanBlank(lines: seq<string>, k: nat, endMarker: string, h: Header)
    requires k < |lines| && lines[k] == "" && |endMarker| > 0
    ensures ScanFrom(lines, k, endMarker, h) == ScanFrom(lines, k + 1, endMarker, h)
  {
    assert !Contains("", endMarker);
    assert Trim("") == "";
    assert h.(body := h.body + "") == h;
  }

  /** Scanning the three header lines of an encrypted key, whatever follows them. */
  lemma EncryptedHeaderScan(name: string, salt: seq<byte>, rest: seq<string>)
    requires IsLabel(name)
    ensures var lines := EncryptedHeader(name, salt) + rest;
      ScanFrom(lines, 1, End(name), NoHeader) ==
      ScanFrom(lines, 4, End(name), Header(true, Some(DesEde3Cbc + "," + Hex.Encode(salt)), ""))
  {
    var lines := EncryptedHeader(name, salt) + rest;
    var value := DesEde3Cbc + "," + Hex.Encode(salt);
    assert lines[1] == ProcTypeLine && lines[2] == "DEK-Info: " + value && lines[3] == "";
    ScanProcType(lines, 1, End(name), NoHeader);
    ScanDekInfo(lines, 2, End(name), NoHeader.(encrypted := true), value);
    ScanBlank(lines, 3, End(name), Header(true, Some(value), ""));
  }

  /** The header scan of an encrypted key finds both header fields and the Base64 text. */
  lemma EncryptedScan(name: string, salt: seq<byte>, data: seq<byte>)
    requires IsLabel(name)
    ensures ScanFrom(EncryptedHeader(name, salt) + Wrap64(Base64.Encode(data)) + [EndLine(name)], 1, End(name), NoHeader) ==
      Ok(Header(true, Some(DesEde3Cbc + "," + Hex.Encode(salt)), Base64.Encode(data)))
  {
    var text := Base64.Encode(data);
    var w := Wrap64(text);
    var pre := EncryptedHeader(name, salt);
    var h := Header(true, Some(DesEde3Cbc + "," + Hex.Encode(salt)), "");
    assert pre + w + [EndLine(name)] == pre + (w + [EndLine(name)]);
    EncryptedHeaderScan(name, salt, w + [EndLine(name)]);
    EncodingIsBase64Line(data);
    Wrap64Chars(text);
    Wrap64Shape(text);
    ScanTail(pre, w, name, h);
    assert h.(body := h.body + Concat(w)) == h.(body := text);
  }

  /** Decrypting what the writer encrypted, with the same password, gives the key bytes back. */
  lemma EncryptedKeyBytes(crypto: Crypto, password: seq<char>, salt: seq<byte>, encoding: seq<byte>, data: seq<byte>)
    requires CipherSound(crypto) && |salt| > 0
    requires crypto.encrypt(DesEdeTransformation, crypto.kdf(password, salt, 24), salt, encoding) == Some(data)
    ensures KeyBytes(crypto, Header(true, Some(DesEde3Cbc + "," + Hex.Encode(salt)), Base64.Encode(data)), Some(password)) == Ok(encoding)
  {
    var hex := Hex.Encode(salt);
    Hex.EncodeWithout(salt, ',');
    assert ',' !in DesEde3Cbc;
    TokensOfPair(DesEde3Cbc, hex, ',');
    assert DesEde3Cbc + "," + hex == DesEde3Cbc + [','] + hex;
    Hex.DecodeEncode(salt);
    Base64.DecodeEncode(data);
  }

  /**
   * The DEK-Info value is `<token>,<hex salt>`. Any cipher token other than DES-EDE3-CBC and
   * DES-CBC means "unknown encryption with private key". For the two known ones, a missing
   * password fails in `getKey` and a body that is not base64 fails next.
   */
  lemma KeyBytesByCipher(crypto: Crypto, token: string, salt: seq<byte>, body: string, password: Option<seq<char>>)
    requires |token| > 0 && ',' !in token && |salt| > 0
    ensures var h := Header(true, Some(token + "," + Hex.Encode(salt)), body);
      (token != DesEde3Cbc && token != DesCbc ==> KeyBytes(crypto, h, password) == Err(UnknownEncryption)) &&
      ((token == DesEde3Cbc || token == DesCbc) && password.None? ==> KeyBytes(crypto, h, password) == Err(NullPassword)) &&
      ((token == DesEde3Cbc || token == DesCbc) && password.Some? && Base64.Decode(body).None? ==>
        KeyBytes(crypto, h, password) == Err(BadBase64))
  {
    var hex := Hex.Encode(salt);
    Hex.EncodeWithout(salt, ',');
    Hex.DecodeEncode(salt);
    TokensOfPair(token, hex, ',');
    assert token + "," + hex == token + [','] + hex;
  }

  /**
   * DES-CBC decrypts with DES under an 8-byte key derived from the password and the salt, and the
   * salt is also the IV.
   */
  lemma KeyBytesDesCbc(crypto: Crypto, salt: seq<byte>, body: string, password: seq<char>)
    requires |salt| > 0 && Base64.Decode(body).Some?
    ensures var d := crypto.decrypt(DesTransformation, crypto.kdf(password, salt, 8), salt, Base64.Decode(body).value);
      KeyBytes(crypto, Header(true, Some(DesCbc + "," + Hex.Encode(salt)), body), Some(password)) ==
        if d.Some? then Ok(d.value) else Err(DecryptFailed)
  {
    var hex := Hex.Encode(salt);
    Hex.EncodeWithout(salt, ',');
    Hex.DecodeEncode(salt);
    assert ',' !in DesCbc;
    TokensOfPair(DesCbc, hex, ',');
    assert DesCbc + "," + hex == DesCbc + [','] + hex;
  }

  /**
   * DES-EDE3-CBC decrypts with DESede under a 24-byte key derived from the password and the salt,
   * and the salt is also the IV.
   */
  lemma KeyBytesDesEde3Cbc(crypto: Crypto, salt: seq<byte>, body: string, password: seq<char>)
    requires |salt| > 0 && Base64.Decode(body).Some?
    ensures var d := crypto.decrypt(DesEdeTransformation, crypto.kdf(password, salt, 24), salt, Base64.Decode(body).value);
      KeyBytes(crypto, Header(true, Some(DesEde3Cbc + "," + Hex.Encode(salt)), body), Some(password)) ==
        if d.Some? then Ok(d.value) else Err(DecryptFailed)
  {
    var hex := Hex.Encode(salt);
    Hex.EncodeWithout(salt, ',');
    Hex.DecodeEncode(salt);
    assert ',' !in DesEde3Cbc;
    TokensOfPair(DesEde3Cbc, hex, ',');
    assert DesEde3Cbc + "," + hex == DesEde3Cbc + [','] + hex;
  }

  /** Decoding the body of an unencrypted key gives the key bytes back. */
  lemma PlainKeyBytes(crypto: Crypto, password: Option<seq<char>>, encoding: seq<byte>)
    ensures KeyBytes(crypto, Header(false, None, Base64.Encode(encoding)), password) == Ok(encoding)
  {
    Base64.DecodeEncode(encoding);
  }

  /**
   * Whatever `WritePrivateKey` writes successfully, `readKeyPair` with the same password finds
   * the same key bytes in, reading from the line after the BEGIN line; the salt must not be empty.
   */
  lemma PrivateKeyBytesRoundTrip(crypto: Crypto, name: string, encoding: seq<byte>, algo: Option<string>,
                                 password: Option<seq<char>>, salt: seq<byte>)
    requires IsLabel(name) && CipherSound(crypto) && |salt| > 0
    requires WritePrivateKey(crypto, name, encoding, algo, password, salt).Ok?
    ensures var lines := WritePrivateKey(crypto, name, encoding, algo, password, salt).value.lines;
      1 <= |lines| && lines[0] == BeginLine(name) &&
      match ScanFrom(lines, 1, End(name), NoHeader)
      case Err(_) => false
      case Ok(h) => KeyBytes(crypto, h, password) == Ok(encoding)
  {
    if algo.Some? && password.Some? {
      var key := crypto.kdf(password.value, salt, 24);
      var data := crypto.encrypt(DesEdeTransformation, key, salt, encoding).value;
      EncryptedScan(name, salt, data);
      EncryptedKeyBytes(crypto, password.value, salt, encoding, data);
    } else {
      PlainScan(name, encoding);
      PlainKeyBytes(crypto, password, encoding);
    }
  }

  /** The RSA layout is read back as the key it was written from. */
  lemma RsaLayoutRead(crypto: Crypto, der: DerCodec, k: RsaPrivateCrtKey)
    requires Sound(der) && crypto.acceptsKeyPair(RsaPair(k))
    ensures KeyPairOf(crypto, der, "RSA", der.encode(RsaLayout(k))) == Ok(RsaPair(k))
  {
    ReadSingle(der, RsaLayout(k));
  }

  /** The DSA layout is read back as the key pair with the public value `g^x mod p`. */
  lemma DsaLayoutRead(crypto: Crypto, der: DerCodec, k: DsaPrivateKey)
    requires Sound(der) && k.p > 0
    requires crypto.acceptsKeyPair(DsaPair(k.p, k.q, k.g, ModPow(k.g, k.x, k.p), k.x))
    ensures KeyPairOf(crypto, der, "DSA", der.encode(DsaLayout(k))) ==
      Ok(DsaPair(k.p, k.q, k.g, ModPow(k.g, k.x, k.p), k.x))
  {
    ReadSingle(der, DsaLayout(k));
  }

  /** `writeRSAPrivateKey` followed by `readKeyPair` with the same password gives the key back. */
  lemma RsaPrivateKeyRoundTrip(crypto: Crypto, der: DerCodec, k: RsaPrivateCrtKey, algo: Option<string>,
                               password: Option<seq<char>>, salt: seq<byte>)
    requires Sound(der) && CipherSound(crypto) && |salt| > 0 && crypto.acceptsKeyPair(RsaPair(k))
    requires WriteRsaPrivateKey(crypto, der, k, algo, password, salt).Ok?
    ensures var lines := WriteRsaPrivateKey(crypto, der, k, algo, password, salt).value.lines;
      1 <= |lines| && lines[0] == BeginLine(RsaLabel) &&
      ReadKeyPairOf(crypto, der, lines, 1, password, "RSA", End(RsaLabel)) == Ok(RsaPair(k))
  {
    PrivateKeyBytesRoundTrip(crypto, RsaLabel, der.encode(RsaLayout(k)), algo, password, salt);
    RsaLayoutRead(crypto, der, k);
  }

  /** `writeDSAPrivateKey` followed by `readKeyPair` with the same password gives the key pair back. */
  lemma DsaPrivateKeyRoundTrip(crypto: Crypto, der: DerCodec, k: DsaPrivateKey, algo: Option<string>,
                               password: Option<seq<char>>, salt: seq<byte>)
    requires Sound(der) && CipherSound(crypto) && |salt| > 0
    requires WriteDsaPrivateKey(crypto, der, k, algo, password, salt).Ok?
    requires crypto.acceptsKeyPair(DsaPair(k.p, k.q, k.g, ModPow(k.g, k.x, k.p), k.x))
    ensures var lines := WriteDsaPrivateKey(crypto, der, k, algo, password, salt).value.lines;
      1 <= |lines| && lines[0] == BeginLine(DsaLabel) &&
      ReadKeyPairOf(crypto, der, lines, 1, password, "DSA", End(DsaLabel)) ==
        Ok(DsaPair(k.p, k.q, k.g, ModPow(k.g, k.x, k.p), k.x))
  {
    PrivateKeyBytesRoundTrip(crypto, DsaLabel, der.encode(DsaLayout(k)), algo, password, salt);
    DsaLayoutRead(crypto, der, k);
  }
}
