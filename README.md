# jruby-openssl core, modelled in Dafny

This project models five parts of jruby-openssl, the Java implementation of Ruby's `openssl`
extension for JRuby:

- **PEM codec** (`PEMInputOutput`). It reads and writes the textual armour of RFC 7468.
  - Readers take lines. They find the first recognised `-----BEGIN <label>` line, gather the
    trimmed Base64 body up to the end marker and hand the decoded bytes to a parser.
  - Writers emit the BEGIN line, the Base64 text wrapped at 64 columns and the END line.
  - Private keys may carry the `Proc-Type`/`DEK-Info` header of RFC 1421 (sections 4.6.1.1 and
    4.6.1.3). They are laid out as integer sequences; the RSA layout is that of RFC 8017
    appendix A.1.2.
  - A trusted certificate may be followed by the "auxiliary trust" record of optional fields.
  - Diffie-Hellman parameters are found in the text by a regular expression.
- **`OpenSSL::X509::Certificate`** (`X509Cert`), as a class.
  - The setters keep a `changed` flag, and `verify` refuses to vouch for a dirty certificate.
  - `sign` refuses three key/digest pairs.
  - `add_extension` merges a second subjectAltName (OID 2.5.29.17, section 4.2.1.6 of RFC
    5280) into the first one instead of appending it.
  - `initialize` loads a DER certificate.
- **`OpenSSL::SSL::SSLContext`**'s key manager and trust manager (`SSLContext`), as a class.
  - The client-certificate callback is called at most once; its answer is memoised.
  - Explicit `key`/`cert` settings are preferred over the callback.
  - Aliases are matched ignoring case.
  - The `ciphers` setting is joined with `:`.
  - Server trust is decided from the bits `SSL_VERIFY_PEER` (1) and
    `SSL_VERIFY_FAIL_IF_NO_PEER_CERT` (2) of `verify_mode`.
- **`OpenSSL::Netscape::SPKI`** (`NetscapeSPKI`), as a class.
  - The argument of `initialize` is decoded from Base64, falling back to the raw bytes.
  - Only RSA and DSA keys are accepted.
  - `to_der` reshapes the request tree, and `to_pem` is its Base64 text.
  - `sign` looks up its OID under `lower(keyAlg)-lower(digAlg)`.
- **The PKCS #7 `data` content** (`PKCS7DataData`), as a class around an octet string that may be
  missing.

Cryptography, the DER byte codec and the X.509 machinery come from libraries. The model takes
them as parameters: records of functions (`Env`, `Crypto`, `DerCodec`, `CertLibrary`,
`StoreOracle`, `SpkiLibrary`). Where a property needs one of them to behave, the lemma requires
it. For example, `Sound(der)` says that reading back an encoded tree gives the tree, and
`CipherSound(crypto)` says that decryption undoes encryption under the same key and IV.

Base64 (RFC 4648 section 4) and lower-case hexadecimal are defined in the model itself. Their
round trips are proved.

Modules:

| module | file | models |
|---|---|---|
| `Wrappers` | wrappers.dfy | `Option` and `Result` |
| `Asn1` | asn1.dfy | the abstract ASN.1 tree and the DER codec as a parameter |
| `Text` | text.dfy | `indexOf`, `lastIndexOf`, `trim`, `equalsIgnoreCase` |
| `Base64`, `Hex` | base64.dfy, hex.dfy | the two text codecs |
| `PemLines` | pem_lines.dfy | markers, labels, body gathering, `writeEncoded` |
| `PemAux` | pem_aux.dfy | the auxiliary trust record |
| `PemKeys` | pem_keys.dfy | `readKeyPair`, `getKey`, the RSA/DSA private-key writers |
| `PemPkcs7` | pem_pkcs7.dfy | the streaming `readPKCS7` |
| `PemRead` | pem_read.dfy | the body readers, `readPEM`'s dispatch, `writeX509Aux` |
| `PemDh` | pem_dh.dfy | `readDHParameters` and `writeDHParameters` |
| `X509Cert` | x509_cert.dfy | the certificate class |
| `SslContext` | ssl_context.dfy | the context's key and trust managers |
| `NetscapeSpki` | netscape_spki.dfy | the SPKI class |
| `Pkcs7Data` | pkcs7_data.dfy | the `data` content class |

Most loops of the source are `method`s with a `while` or `for` loop, proved equal to a recursive
function over the same input. A few simple loops are sequence comprehensions inside a function,
such as `Oids` in `writeX509Aux` and the suite names in `SSLContext`. The properties are proved about those functions. Each
mutable object is a `class`. `Certificate` and `Context` have a `State()` that gathers their
fields, and their methods state the new state as an update of `old(State())`. `Spki` and
`DataContent` have few fields, and their methods state each field directly.

## Model

| member | source | states |
|---|---|---|
| `PemLines.WriteEncoded` | src/java/org/jruby/ext/openssl/x509store/PEMInputOutput.java:1097-1113 | the lines written are the Base64 text of the bytes cut into 64-character pieces |
| `PemLines.Wrap64Shape` | src/java/org/jruby/ext/openssl/x509store/PEMInputOutput.java:1097-1113 | every line but the last has exactly 64 characters and the last has 1 to 64; the lines concatenate back to the text; empty text gives no lines |
| `PemLines.Wrap64Chars` | src/java/org/jruby/ext/openssl/x509store/PEMInputOutput.java:1097-1113 | a wrapped Base64 text gives only Base64 lines |
| `PemLines.EncodingIsBase64Line` | src/java/org/jruby/ext/openssl/x509store/PEMInputOutput.java:1097-1113 | the Base64 text of any bytes has only Base64 alphabet and padding characters |
| `PemLines.Base64LineFacts` | src/java/org/jruby/ext/openssl/x509store/PEMInputOutput.java:733-749 | a Base64 line holds no BEGIN or END marker and `trim` leaves it as it is |
| `PemLines.BeginLineHolds` | src/java/org/jruby/ext/openssl/x509store/PEMInputOutput.java:110-135 | the BEGIN line of one label contains the BEGIN marker of another exactly when the other is a prefix of the first |
| `PemLines.EndLineHolds` | src/java/org/jruby/ext/openssl/x509store/PEMInputOutput.java:110-135 | an END line contains its own end marker and no BEGIN marker |
| `PemLines.FirstWith` | src/java/org/jruby/ext/openssl/x509store/PEMInputOutput.java:733-749 | the index of the first line from a position that contains the marker, or the number of lines when none does |
| `PemLines.ReadBody` | src/java/org/jruby/ext/openssl/x509store/PEMInputOutput.java:733-749 | the body loop equals `BodyOf`: the trimmed lines strictly before the first end-marker line, or the "not found" error when the input runs out |
| `PemLines.ReadArmored` | src/java/org/jruby/ext/openssl/x509store/PEMInputOutput.java:733-749 | the body read from an armoured block is exactly the Base64 text written into it |
| `PemLines.TrimmedConcatOfBase64` | src/java/org/jruby/ext/openssl/x509store/PEMInputOutput.java:733-749 | trimming leaves Base64 lines as they are |
| `Text.IndexFromMeaning` | src/java/org/jruby/ext/openssl/x509store/PEMInputOutput.java:733-749 | `indexOf` gives an occurrence with none before it, and -1 exactly when there is none |
| `Text.LastIndexInMeaning` | src/java/org/jruby/ext/openssl/x509store/PEMInputOutput.java:396-424 | `lastIndexOf` within a range gives the last occurrence, and -1 exactly when there is none |
| `Text.TrimStartFacts` | src/java/org/jruby/ext/openssl/x509store/PEMInputOutput.java:733-749 | trimming the start leaves a suffix that begins with a kept character |
| `Text.TrimEndFacts` | src/java/org/jruby/ext/openssl/x509store/PEMInputOutput.java:733-749 | trimming the end leaves a prefix that ends with a kept character |
| `Text.TrimIdempotent` | src/java/org/jruby/ext/openssl/x509store/PEMInputOutput.java:733-749 | trimming twice is trimming once |
| `Text.TrimNoSpace` | src/java/org/jruby/ext/openssl/x509store/PEMInputOutput.java:733-749 | a line with no trimmable character is unchanged |
| `Text.Lower` | src/java/org/jruby/ext/openssl/NetscapeSPKI.java:171-174 | lower-casing maps each character and keeps the length |
| `Text.EqualsIgnoreCaseIff` | src/java/org/jruby/ext/openssl/SSLContext.java:185-190 | two strings are equal ignoring case exactly when their lower-case forms are equal |
| `Text.EqualsIgnoreCaseEquivalence` | src/java/org/jruby/ext/openssl/SSLContext.java:185-190 | equality ignoring case is reflexive, symmetric and transitive |
| `Base64.Encode` | src/java/org/jruby/ext/openssl/x509store/PEMInputOutput.java:1097-1113 | the text has 4 characters for each started group of 3 bytes |
| `Base64.EncodeChars` | src/java/org/jruby/ext/openssl/x509store/PEMInputOutput.java:1097-1113 | every character of the text is from the Base64 alphabet or padding |
| `Base64.DecodeEncode` | src/java/org/jruby/ext/openssl/x509store/PEMInputOutput.java:733-749 | decoding the Base64 text of any bytes gives the bytes back |
| `Base64.DecodeAppend` | src/java/org/jruby/ext/openssl/x509store/PEMInputOutput.java:1127-1138 | decoding a text whose first part is whole groups is decoding the parts one after the other |
| `Base64.DecodeHead` | src/java/org/jruby/ext/openssl/x509store/PEMInputOutput.java:1127-1138 | a text decodes exactly when its first group and the rest decode, and the bytes join |
| `Hex.Encode` | src/java/org/jruby/ext/openssl/x509store/PEMInputOutput.java:1090-1095 | two lower-case hexadecimal digits per byte |
| `Hex.Decode` | src/java/org/jruby/ext/openssl/x509store/PEMInputOutput.java:843-868 | a decoded text has two digits per byte |
| `Hex.DecodeEncode` | src/java/org/jruby/ext/openssl/x509store/PEMInputOutput.java:843-868 | decoding the hexadecimal of any bytes gives the bytes back |
| `Hex.DecodeIgnoresCase` | src/java/org/jruby/ext/openssl/x509store/PEMInputOutput.java:843-868 | texts whose digits have the same values decode alike, so upper-case digits are read as lower-case ones |
| `Hex.EncodeWithout` | src/java/org/jruby/ext/openssl/x509store/PEMInputOutput.java:1090-1095 | the hexadecimal text holds no other character (no comma) |
| `Hex.WriteHexEncoded` | src/java/org/jruby/ext/openssl/x509store/PEMInputOutput.java:1090-1095 | the loop writes the hexadecimal of the bytes |
| `PemPkcs7.ReadStreamed` | src/java/org/jruby/ext/openssl/x509store/PEMInputOutput.java:1122-1149 | the streaming loop equals `StreamFrom`: whole 4-character groups decoded as lines arrive, the truncation error for a remainder at the end marker |
| `PemPkcs7.StreamedAligned` | src/java/org/jruby/ext/openssl/x509store/PEMInputOutput.java:1127-1138 | a successful stream held a whole number of 4-character groups before the end marker |
| `PemPkcs7.StreamTruncated` | src/java/org/jruby/ext/openssl/x509store/PEMInputOutput.java:1127-1138 | 1 to 3 characters left over when the END line comes, or when the input ends, give "base64 data appears to be truncated" |
| `PemPkcs7.StreamTruncatedExample` | src/java/org/jruby/ext/openssl/x509store/PEMInputOutput.java:1127-1138 | a three-character body before the PKCS7 END line is truncated |
| `PemPkcs7.StreamArmored` | src/java/org/jruby/ext/openssl/x509store/PEMInputOutput.java:1122-1149 | streaming the body of an armoured block gives back the bytes written into it |
| `PemPkcs7.ReadPkcs7Body` | src/java/org/jruby/ext/openssl/x509store/PEMInputOutput.java:1122-1149 | the private reader equals `Pkcs7ReadOf`: the streamed bytes parsed as signed data |
| `PemPkcs7.ReadPkcs7` | src/java/org/jruby/ext/openssl/x509store/PEMInputOutput.java:301-314 | the public reader equals `ReadPkcs7Of`: the first PKCS7 BEGIN line, else nothing |
| `PemPkcs7.Pkcs7RoundTrip` | src/java/org/jruby/ext/openssl/x509store/PEMInputOutput.java:1122-1149 | reading back a written PKCS7 block gives the signed data |
| `PemRead.ReadBytes` | src/java/org/jruby/ext/openssl/x509store/PEMInputOutput.java:733-749 | the body loop equals `BytesOf`; `ReadersOverBytes` and `BytesArmored` state what that is |
| `PemRead.FirstAccepted` | src/java/org/jruby/ext/openssl/x509store/PEMInputOutput.java:804-819 | the first algorithm, in order, whose key factory accepts the bytes; none exactly when none does |
| `PemRead.PublicKeyReadOf` | src/java/org/jruby/ext/openssl/x509store/PEMInputOutput.java:804-819 | a public-key read yields only a public key |
| `PemRead.ReadPublicKey` | src/java/org/jruby/ext/openssl/x509store/PEMInputOutput.java:790-819 | the loop equals `PublicKeyReadOf` |
| `PemRead.ReadCertificate` | src/java/org/jruby/ext/openssl/x509store/PEMInputOutput.java:925-957 | the loop equals `CertificateReadOf`, whose outcomes `ReadersOverBytes`, `ReadersArmored` and `BadBase64Split` state |
| `PemRead.CrlReadOf` | src/java/org/jruby/ext/openssl/x509store/PEMInputOutput.java:1022-1054 | a CRL read yields only a CRL |
| `PemRead.ReadCrl` | src/java/org/jruby/ext/openssl/x509store/PEMInputOutput.java:1022-1054 | the loop equals `CrlReadOf`, whose outcomes `ReadersOverBytes`, `ReadersArmored` and `BadBase64Split` state |
| `PemRead.ReadCertificateRequest` | src/java/org/jruby/ext/openssl/x509store/PEMInputOutput.java:1062-1088 | the loop equals `RequestReadOf`, whose outcomes `ReadersOverBytes`, `ReadersArmored` and `BadBase64Split` state |
| `PemRead.ReadersOverBytes` | src/java/org/jruby/ext/openssl/x509store/PEMInputOutput.java:925-957 | the certificate, CRL, request and public-key readers are the body's bytes handed to the factory: a rejection is a parse problem, and a body that is not Base64 is `BadBase64`, or a parse problem for a request |
| `PemRead.BytesArmored` | src/java/org/jruby/ext/openssl/x509store/PEMInputOutput.java:733-749 | the bytes read from the body of an armoured block are the bytes written into it |
| `PemRead.ReadersArmored` | src/java/org/jruby/ext/openssl/x509store/PEMInputOutput.java:1022-1054 | on an armoured block the certificate, CRL and request readers give the DER written (or `Rejected` when the factory refuses it), and a public key is the first algorithm that accepts it |
| `PemRead.ReadersEndNotFound` | src/java/org/jruby/ext/openssl/x509store/PEMInputOutput.java:938-941 | with no END line every body reader fails with `<end marker> not found` |
| `PemRead.BadBase64Split` | src/java/org/jruby/ext/openssl/x509store/PEMInputOutput.java:1080-1082 | a body that is not Base64 fails with `BadBase64` for a certificate and a CRL, and as a parse problem for a request |
| `PemRead.AuxCertificateReadOf` | src/java/org/jruby/ext/openssl/x509store/PEMInputOutput.java:959-1014 | an auxiliary-certificate read yields only an auxiliary certificate |
| `PemRead.ReadAuxCertificate` | src/java/org/jruby/ext/openssl/x509store/PEMInputOutput.java:959-1014 | the loop equals `AuxCertificateReadOf` |
| `PemRead.Classify` | src/java/org/jruby/ext/openssl/x509store/PEMInputOutput.java:156-211 | the branch a line selects contains its BEGIN marker, and no earlier branch's marker is in the line |
| `PemRead.FirstBegin` | src/java/org/jruby/ext/openssl/x509store/PEMInputOutput.java:156-211 | the first line from a position that selects a branch; no line before it does |
| `PemRead.Dispatch` | src/java/org/jruby/ext/openssl/x509store/PEMInputOutput.java:156-211 | only the request branch yields a certificate request |
| `PemRead.DispatchBranch` | src/java/org/jruby/ext/openssl/x509store/PEMInputOutput.java:156-211 | the branch code equals `Dispatch` |
| `PemRead.ReadPem` | src/java/org/jruby/ext/openssl/x509store/PEMInputOutput.java:156-211 | the loop equals `ReadPemOf`: dispatch on the first line that selects a branch, or nothing |
| `PemRead.ClassifyBeginLine` | src/java/org/jruby/ext/openssl/x509store/PEMInputOutput.java:156-211 | the BEGIN line of a label selects the branch that label belongs to |
| `PemRead.RequestBranchUnreachable` | src/java/org/jruby/ext/openssl/x509store/PEMInputOutput.java:184-203 | no line selects the request branch: the CERTIFICATE test catches it first |
| `PemRead.ReadPemNeverRequest` | src/java/org/jruby/ext/openssl/x509store/PEMInputOutput.java:156-211 | `readPEM` never returns a certificate request |
| `PemRead.RequestLineReadAsCertificate` | src/java/org/jruby/ext/openssl/x509store/PEMInputOutput.java:184-203 | a `BEGIN CERTIFICATE REQUEST` line is dispatched as a certificate |
| `PemRead.TrustedLineBranch` | src/java/org/jruby/ext/openssl/x509store/PEMInputOutput.java:156-211 | a `BEGIN TRUSTED CERTIFICATE` line selects the trusted branch, not the plain certificate one |
| `PemRead.DsaLineBranch` | src/java/org/jruby/ext/openssl/x509store/PEMInputOutput.java:156-211 | a `BEGIN DSA PRIVATE KEY` line selects the DSA key-pair branch |
| `PemRead.ArmoredBodyUnselected` | src/java/org/jruby/ext/openssl/x509store/PEMInputOutput.java:156-211 | no body or END line of an armoured block selects a branch |
| `PemRead.ReadPemUnrecognised` | src/java/org/jruby/ext/openssl/x509store/PEMInputOutput.java:156-211 | a block with a label `readPEM` does not know reads as nothing |
| `PemRead.UnrecognisedLabels` | src/java/org/jruby/ext/openssl/x509store/PEMInputOutput.java:156-211 | RSA PRIVATE KEY, PKCS7 and DH PARAMETERS are not `readPEM` labels |
| `PemRead.AuxCertificateBytes` | src/java/org/jruby/ext/openssl/x509store/PEMInputOutput.java:959-1014 | the certificate's bytes followed by the written record read back as that certificate and record |
| `PemRead.X509AuxRoundTrip` | src/java/org/jruby/ext/openssl/x509store/PEMInputOutput.java:481-534 | `readPEM` of what `writeX509Aux` wrote gives back the certificate and its record |
| `PemRead.DsaPrivateKeyPemRoundTrip` | src/java/org/jruby/ext/openssl/x509store/PEMInputOutput.java:569-638 | `readPEM` of a written DSA private key, with the same password, gives the key pair with y = g^x mod p |
| `PemAux.Oids` | src/java/org/jruby/ext/openssl/x509store/PEMInputOutput.java:494-521 | one OID node per identifier, in order |
| `PemAux.OidIds` | src/java/org/jruby/ext/openssl/x509store/PEMInputOutput.java:982-1008 | reading identifiers succeeds exactly when every node is an OID, and keeps the order; otherwise it is a DER error |
| `PemAux.CollectOids` | src/java/org/jruby/ext/openssl/x509store/PEMInputOutput.java:982-1008 | the loop equals `OidIds` |
| `PemAux.ReadAuxFields` | src/java/org/jruby/ext/openssl/x509store/PEMInputOutput.java:982-1008 | the index loop equals `AuxOf`: each field in turn, taken only on a type or tag match |
| `PemAux.OidIdsOids` | src/java/org/jruby/ext/openssl/x509store/PEMInputOutput.java:494-521 | identifiers written as OIDs read back as the same identifiers |
| `PemAux.LaterFieldsDiffer` | src/java/org/jruby/ext/openssl/x509store/PEMInputOutput.java:494-521 | a field written later never looks like an earlier one |
| `PemAux.AuxRoundTrip` | src/java/org/jruby/ext/openssl/x509store/PEMInputOutput.java:494-521 | reading back the written fields restores all five |
| `PemAux.EmptyAuxRoundTrip` | src/java/org/jruby/ext/openssl/x509store/PEMInputOutput.java:494-521 | an empty record writes nothing and nothing reads as an empty record |
| `PemKeys.ScanHeader` | src/java/org/jruby/ext/openssl/x509store/PEMInputOutput.java:831-841 | the header loop equals `ScanFrom`: `Proc-Type` sets encrypted, `DEK-Info:` keeps its text from index 10, and neither enters the body |
| `PemKeys.PlainScan` | src/java/org/jruby/ext/openssl/x509store/PEMInputOutput.java:831-841 | an armoured block scans as unencrypted with its Base64 text as body |
| `PemKeys.EncryptedScan` | src/java/org/jruby/ext/openssl/x509store/PEMInputOutput.java:832-849 | the encrypted header written back scans as encrypted, with `DES-EDE3-CBC,` and the salt's hex |
| `PemKeys.Tokens` | src/java/org/jruby/ext/openssl/x509store/PEMInputOutput.java:843-849 | the tokens are non-empty and hold no delimiter |
| `PemKeys.RunAll` | src/java/org/jruby/ext/openssl/x509store/PEMInputOutput.java:843-849 | a token runs up to the next delimiter |
| `PemKeys.GetKey` | src/java/org/jruby/ext/openssl/x509store/PEMInputOutput.java:754-766 | fails exactly for a missing password; otherwise the KDF of password, salt and key length |
| `PemKeys.ReadKeyPair` | src/java/org/jruby/ext/openssl/x509store/PEMInputOutput.java:824-917 | the loop equals `ReadKeyPairOf`: header, decryption by cipher token (24 or 8 key bytes, else the unknown-encryption error), key layout |
| `PemKeys.KeyBytesByCipher` | src/java/org/jruby/ext/openssl/x509store/PEMInputOutput.java:843-864 | a cipher token other than DES-EDE3-CBC and DES-CBC is "unknown encryption with private key"; for the two known ones a missing password and then a non-Base64 body fail |
| `PemKeys.KeyBytesDesCbc` | src/java/org/jruby/ext/openssl/x509store/PEMInputOutput.java:854-862 | DES-CBC decrypts with `DES/CBC/PKCS5Padding` under an 8-byte key from the password and salt, with the salt as IV; a decryption failure is `DecryptFailed` |
| `PemKeys.KeyBytesDesEde3Cbc` | src/java/org/jruby/ext/openssl/x509store/PEMInputOutput.java:847-853 | DES-EDE3-CBC decrypts with `DESede/CBC/PKCS5Padding` under a 24-byte key from the password and salt, with the salt as IV; a decryption failure is `DecryptFailed` |
| `PemKeys.PrivateKeyBytesRoundTrip` | src/java/org/jruby/ext/openssl/x509store/PEMInputOutput.java:594-629 | what a private-key writer wrote starts with its BEGIN line and reads back to the same key bytes, encrypted or not |
| `PemKeys.RsaLayoutRead` | src/java/org/jruby/ext/openssl/x509store/PEMInputOutput.java:875-894 | an RSA layout reads back as the same eight integers |
| `PemKeys.DsaLayoutRead` | src/java/org/jruby/ext/openssl/x509store/PEMInputOutput.java:578-591 | the DSA layout [0, p, q, g, g^x mod p, x] reads back as p, q, g, y, x |
| `PemKeys.RsaPrivateKeyRoundTrip` | src/java/org/jruby/ext/openssl/x509store/PEMInputOutput.java:640-705 | `readKeyPair` of what `writeRSAPrivateKey` wrote gives the key back |
| `PemKeys.DsaPrivateKeyRoundTrip` | src/java/org/jruby/ext/openssl/x509store/PEMInputOutput.java:569-638 | `readKeyPair` of what `writeDSAPrivateKey` wrote gives the key pair back |
| `PemKeys.ModPow` | src/java/org/jruby/ext/openssl/x509store/PEMInputOutput.java:578-591 | g^x mod p lies in [0, p) |
| `PemDh.LineEndMeaning` | src/java/org/jruby/ext/openssl/x509store/PEMInputOutput.java:137-140 | the end of a line is the first line terminator, with none before it |
| `PemDh.EndInLine` | src/java/org/jruby/ext/openssl/x509store/PEMInputOutput.java:137-140 | the pattern matches between two positions exactly when the end marker sits there on the BEGIN marker's line |
| `PemDh.FindFromMeaning` | src/java/org/jruby/ext/openssl/x509store/PEMInputOutput.java:396-424 | `find` gives the leftmost start with the longest match, or none when no match exists |
| `PemDh.GatherDh` | src/java/org/jruby/ext/openssl/x509store/PEMInputOutput.java:396-424 | the reading loop equals `DhBufferOf`: the trimmed lines from the BEGIN line to the END line, concatenated with no separator |
| `PemDh.ReadDhParameters` | src/java/org/jruby/ext/openssl/x509store/PEMInputOutput.java:396-424 | the reader equals `ReadDhParametersOf`: the matched group decoded into p and g, or the invalid-parameters error |
| `PemDh.NoBeginInvalid` | src/java/org/jruby/ext/openssl/x509store/PEMInputOutput.java:396-424 | text with no BEGIN DH PARAMETERS marker fails |
| `PemDh.ArmoredBuffer` | src/java/org/jruby/ext/openssl/x509store/PEMInputOutput.java:396-424 | the buffer of an armoured block is its BEGIN line, its Base64 text and its END line, concatenated |
| `PemDh.FindArmored` | src/java/org/jruby/ext/openssl/x509store/PEMInputOutput.java:137-140 | on such a buffer the pattern matches the whole of it |
| `PemDh.DhRoundTrip` | src/java/org/jruby/ext/openssl/x509store/PEMInputOutput.java:707-731 | parameters written by `writeDHParameters` read back as the same p and g; missing ones fail |
| `X509Cert.UtcWithoutMicros` | src/java/org/jruby/ext/openssl/X509Cert.java:327-347 | the stored time keeps the instant, in UTC, with microseconds 0 |
| `X509Cert.FirstSan` | src/java/org/jruby/ext/openssl/X509Cert.java:451-462 | the index of the first subjectAltName from a position, with none before it |
| `X509Cert.Certificate.constructor` | src/java/org/jruby/ext/openssl/X509Cert.java:101-125 | every field unset, no extensions, `changed` set |
| `X509Cert.Certificate.SetVersion` | src/java/org/jruby/ext/openssl/X509Cert.java:263-269 | stores the version; sets `changed` only when the value differs |
| `X509Cert.Certificate.SetSerial` | src/java/org/jruby/ext/openssl/X509Cert.java:282-289 | stores the serial in the object and the generator; sets `changed` only when the value differs |
| `X509Cert.Certificate.SetSubject` | src/java/org/jruby/ext/openssl/X509Cert.java:297-304 | the same for the subject |
| `X509Cert.Certificate.SetIssuer` | src/java/org/jruby/ext/openssl/X509Cert.java:312-319 | the same for the issuer |
| `X509Cert.Certificate.SetPublicKey` | src/java/org/jruby/ext/openssl/X509Cert.java:355-362 | the same for the public key |
| `X509Cert.Certificate.SetNotBefore` | src/java/org/jruby/ext/openssl/X509Cert.java:327-333 | stores the UTC time without microseconds and always sets `changed` |
| `X509Cert.Certificate.SetNotAfter` | src/java/org/jruby/ext/openssl/X509Cert.java:341-347 | the same for not-after |
| `X509Cert.Certificate.SetExtensions` | src/java/org/jruby/ext/openssl/X509Cert.java:442-445 | replaces the list and leaves `changed` alone |
| `X509Cert.Certificate.AddExtension` | src/java/org/jruby/ext/openssl/X509Cert.java:448-484 | always sets `changed`; the new list is `AddExtensionOf`, and its errors are this method's errors |
| `X509Cert.AddExtensionAppends` | src/java/org/jruby/ext/openssl/X509Cert.java:478-482 | a non-SAN extension, or a SAN when none is present, is appended, duplicates included |
| `X509Cert.AddExtensionMergesSan` | src/java/org/jruby/ext/openssl/X509Cert.java:451-479 | with a SAN present, the first one's names become its names followed by the new ones; length and every other entry are unchanged |
| `X509Cert.AddExtensionSanCount` | src/java/org/jruby/ext/openssl/X509Cert.java:448-484 | adding an extension never makes a second SAN |
| `X509Cert.Certificate.Sign` | src/java/org/jruby/ext/openssl/X509Cert.java:365-402 | a refused pair fails with nothing changed; otherwise the extensions in order go to the generator, the algorithm is digest+"WITH"+key, and `changed` is cleared even when generation fails |
| `X509Cert.Certificate.HandExtensions` | src/java/org/jruby/ext/openssl/X509Cert.java:378-385 | every extension is added to the generator in list order |
| `X509Cert.SignRefusedKeyCase` | src/java/org/jruby/ext/openssl/X509Cert.java:369-376 | the denylist compares key algorithms ignoring case and only ever refuses RSA or DSA keys |
| `X509Cert.Certificate.Verify` | src/java/org/jruby/ext/openssl/X509Cert.java:405-423 | false while `changed`; true exactly for a verified signature; an error exactly for a failure other than an invalid key |
| `X509Cert.Certificate.CheckPrivateKey` | src/java/org/jruby/ext/openssl/X509Cert.java:426-433 | true exactly when the key's public half is the certificate's public key |
| `X509Cert.Certificate.AddRaw` | src/java/org/jruby/ext/openssl/X509Cert.java:174-203 | the extension loop equals `AddRawOf`: every value decoded first, a SAN value as decoded, other values cut by 2 (critical, decoded) or 4 (non-critical, raw), stopping at the first failure to decode, to `create_ext` or to add; `changed` is set once `add_extension` is reached |
| `X509Cert.AddRawOfCompletes` | src/java/org/jruby/ext/openssl/X509Cert.java:174-203 | the loop ends without error only if every extension reached `add_extension`; an undecodable value raises, whatever its kind |
| `X509Cert.Certificate.Load` | src/java/org/jruby/ext/openssl/X509Cert.java:133-161 | the fields read from a parsed certificate (`LoadedState`) |
| `X509Cert.LoadedState` | src/java/org/jruby/ext/openssl/X509Cert.java:133-161 | the certificate and UTC times are stored; the key, signature algorithm and version are kept |
| `X509Cert.Certificate.Initialize` | src/java/org/jruby/ext/openssl/X509Cert.java:133-207 | a parse failure, a key that is neither RSA nor DSA ignoring case, and an extension failure (a value that does not decode, a raising `create_ext`, a short value, unreadable names) each raise; success ends with `changed` cleared |
| `X509Cert.InitialExtensionsOneSan` | src/java/org/jruby/ext/openssl/X509Cert.java:174-203 | loading a certificate's extensions gives at most one SAN |
| `X509Cert.AddRawKeepsOneSan` | src/java/org/jruby/ext/openssl/X509Cert.java:174-203 | adding raw extensions to a list with at most one SAN keeps at most one |
| `SslContext.Context.constructor` | src/java/org/jruby/ext/openssl/SSLContext.java:84-88 | no settings, no memo, no peer, no callback calls |
| `SslContext.Context.SetCiphers` | src/java/org/jruby/ext/openssl/SSLContext.java:133-136 | stores the setting and nothing else |
| `SslContext.Context.InitFromCallback` | src/java/org/jruby/ext/openssl/SSLContext.java:98-102 | one call sets `t_cert` from element 0 and `t_key` from element 1 |
| `SslContext.Context.GetCallbackKey` | src/java/org/jruby/ext/openssl/SSLContext.java:104-110 | returns the memo after `Memo`, which calls back only when the memo is empty and a callback is set |
| `SslContext.Context.GetCallbackCert` | src/java/org/jruby/ext/openssl/SSLContext.java:112-118 | the same for the certificate |
| `SslContext.MemoCallsOnce` | src/java/org/jruby/ext/openssl/SSLContext.java:98-118 | after one callback no later lookup calls back, and a second lookup changes nothing |
| `SslContext.Context.LookUpKey` | src/java/org/jruby/ext/openssl/SSLContext.java:175-184 | the explicit key, else the callback's |
| `SslContext.ExplicitKeyWins` | src/java/org/jruby/ext/openssl/SSLContext.java:175-184 | with an explicit key the callback is neither used nor called |
| `SslContext.Context.ChooseEngineClientAlias` | src/java/org/jruby/ext/openssl/SSLContext.java:175-191 | none without a key; otherwise `FirstAlias` of the key types |
| `SslContext.FirstAliasNone` | src/java/org/jruby/ext/openssl/SSLContext.java:185-190 | no alias exactly when no key type equals the algorithm ignoring case |
| `SslContext.FirstAliasSome` | src/java/org/jruby/ext/openssl/SSLContext.java:185-190 | an alias is the first key type equal to the algorithm ignoring case |
| `SslContext.Context.ChooseEngineServerAlias` | src/java/org/jruby/ext/openssl/SSLContext.java:193-207 | the given key type exactly when a key exists and matches it ignoring case |
| `SslContext.Context.GetCertificateChain` | src/java/org/jruby/ext/openssl/SSLContext.java:214-225 | the explicit certificate, else the callback's, as a one-element chain; none without a certificate |
| `SslContext.Context.GetPrivateKey` | src/java/org/jruby/ext/openssl/SSLContext.java:229-240 | the private key of the key in use, or none |
| `SslContext.Context.JoinCiphers` | src/java/org/jruby/ext/openssl/SSLContext.java:140-152 | the builder loop equals `Join`, the parts in order separated by `:` |
| `SslContext.JoinSplit` | src/java/org/jruby/ext/openssl/SSLContext.java:140-152 | splitting the joined text at `:` gives the parts back |
| `SslContext.LastColon` | src/java/org/jruby/ext/openssl/SSLContext.java:140-152 | the last `:` before a position, or -1 |
| `SslContext.Context.GetCipherSuites` | src/java/org/jruby/ext/openssl/SSLContext.java:138-158 | the suite names of the ciphers matching the setting, the default when unset |
| `SslContext.SuiteNames` | src/java/org/jruby/ext/openssl/SSLContext.java:152-157 | one suite name per matched cipher, in order |
| `SslContext.Context.CheckClientTrusted` | src/java/org/jruby/ext/openssl/SSLContext.java:252-256 | records `chain[0]` as the peer only for a non-empty chain, and changes nothing else |
| `SslContext.Context.CheckServerTrusted` | src/java/org/jruby/ext/openssl/SSLContext.java:258-307 | the outcome is `ServerTrust`; the peer is recorded for a non-empty chain before any validation and is otherwise left as it was |
| `SslContext.ServerTrustRejects` | src/java/org/jruby/ext/openssl/SSLContext.java:258-307 | rejection exactly when verify-peer is set and store init or verification fails for a chain, or fail-if-no-peer is set for no chain; a warning only for a failed CA load |
| `SslContext.VerifyNoneAccepts` | src/java/org/jruby/ext/openssl/SSLContext.java:266-306 | a mode with neither bit accepts every chain without warning |
| `SslContext.VerifyBits` | src/java/org/jruby/ext/openssl/SSLContext.java:266-302 | the model's bit tests agree with `& 1` and `& 2` on the 32-bit value |
| `NetscapeSpki.Spki.constructor` | src/java/org/jruby/ext/openssl/NetscapeSPKI.java:72-75 | no key, challenge or request |
| `NetscapeSpki.Spki.Initialize` | src/java/org/jruby/ext/openssl/NetscapeSPKI.java:78-114 | a parse failure raises and changes nothing; an RSA or DSA key, ignoring case, is kept; any other key raises with the algorithm named |
| `NetscapeSpki.PemInputRoundTrip` | src/java/org/jruby/ext/openssl/NetscapeSPKI.java:80-85 | Base64 input is decoded back to the DER bytes |
| `NetscapeSpki.RawInputKept` | src/java/org/jruby/ext/openssl/NetscapeSPKI.java:80-85 | input that is not Base64 is used as it is |
| `NetscapeSpki.AsciiBytes` | src/java/org/jruby/ext/openssl/NetscapeSPKI.java:80-85 | one byte per character |
| `NetscapeSpki.Spki.ToDer` | src/java/org/jruby/ext/openssl/NetscapeSPKI.java:117-145 | succeeds exactly when the parts are present and the request has the expected shape; the result is the encoding of the reshaped tree |
| `NetscapeSpki.ToDerTreePaths` | src/java/org/jruby/ext/openssl/NetscapeSPKI.java:118-144 | the new tree takes the key algorithm from path 0/0/0/0, signature algorithm from 1/0 and signature from 2, and adds the key bits, challenge and NULLs |
| `NetscapeSpki.ToDerTreeIdempotent` | src/java/org/jruby/ext/openssl/NetscapeSPKI.java:118-144 | reshaping a reshaped tree changes nothing |
| `NetscapeSpki.Spki.ToPem` | src/java/org/jruby/ext/openssl/NetscapeSPKI.java:148-150 | Base64 text that decodes to `to_der` |
| `NetscapeSpki.Spki.SetPublicKey` | src/java/org/jruby/ext/openssl/NetscapeSPKI.java:164-167 | stores the key and nothing else |
| `NetscapeSpki.Spki.SetChallenge` | src/java/org/jruby/ext/openssl/NetscapeSPKI.java:208-211 | stores the challenge and nothing else |
| `NetscapeSpki.Spki.Sign` | src/java/org/jruby/ext/openssl/NetscapeSPKI.java:170-184 | needs challenge and key; the request is built with the looked-up OID and replaced by its signed form when signing succeeds |
| `NetscapeSpki.SignOidKeyCase` | src/java/org/jruby/ext/openssl/NetscapeSPKI.java:171-174 | the lookup key is lower(keyAlg) + "-" + lower(digAlg), so it ignores the case of both names |
| `NetscapeSpki.Spki.Verify` | src/java/org/jruby/ext/openssl/NetscapeSPKI.java:187-200 | sets the key into the request first, then checks the signature against the challenge |
| `Pkcs7Data.DataContent.Empty` | src/java/org/jruby/ext/openssl/impl/PKCS7DataData.java:43-45 | an empty octet string |
| `Pkcs7Data.DataContent.constructor` | src/java/org/jruby/ext/openssl/impl/PKCS7DataData.java:47-49 | holds the given octet string, possibly none |
| `Pkcs7Data.DataContent.GetType` | src/java/org/jruby/ext/openssl/impl/PKCS7DataData.java:51-53 | always `NID_pkcs7_data` |
| `Pkcs7Data.DataContent.IsData` | src/java/org/jruby/ext/openssl/impl/PKCS7DataData.java:63-65 | always true |
| `Pkcs7Data.DataContent.SetData` | src/java/org/jruby/ext/openssl/impl/PKCS7DataData.java:55-61 | the field (`getData`) is the given value afterwards |
| `Pkcs7Data.ContentNode` | src/java/org/jruby/ext/openssl/impl/PKCS7DataData.java:82-87 | an octet string: the data, or empty when the data is missing |
| `Pkcs7Data.DataContent.AsAsn1` | src/java/org/jruby/ext/openssl/impl/PKCS7DataData.java:82-87 | `ContentNode` of the field |
| `Pkcs7Data.DataContent.FromAsn1` | src/java/org/jruby/ext/openssl/impl/PKCS7DataData.java:75-80 | no content gives empty data, an octet string is kept as it is, anything else is the cast error |
| `Pkcs7Data.ContentRoundTrip` | src/java/org/jruby/ext/openssl/impl/PKCS7DataData.java:75-87 | what `asASN1` gives, read back, is the data, a missing one coming back empty |
| `Asn1.Latin1` | src/java/org/jruby/ext/openssl/impl/PKCS7DataData.java:68-70 | one character per octet, in order, as `new String(byte[])` and `Base64Coder` read bytes |
| `Pkcs7Data.Describe` | src/java/org/jruby/ext/openssl/impl/PKCS7DataData.java:68-70 | `#<Data `, the octets as text and `>`; none for missing data |
| `Pkcs7Data.DataContent.ToString` | src/java/org/jruby/ext/openssl/impl/PKCS7DataData.java:68-70 | `Describe` of the field |
| `Pkcs7Data.DescribeInjective` | src/java/org/jruby/ext/openssl/impl/PKCS7DataData.java:68-70 | different data is described differently |

## Left out

- Cryptography is a parameter, not a definition. This covers the KDF of `getKey`, the DES and
  DESede CBC ciphers, key factories, the certificate and CRL factories, the certificate
  generator and signature checks, the X.509 store's init, CA loading and verification, and SPKI
  signing and verification. Properties that need them to behave require it (`CipherSound`,
  `Sound`).
- The DER byte codec is a parameter too, as is BouncyCastle's mapping from bytes to ASN.1
  objects. The model works on the abstract tree.
- Salt generation by `SecureRandom` is left out. The salt is a parameter of the private-key
  writers.
- Readers and writers take and return sequences of lines. Buffering, flushing, the trailing
  newline of the last line, and I/O exceptions in the middle of a stream are left out.
- Base64 is a definition of RFC 4648's strict decoder. BouncyCastle's decoder skips whitespace and
  is more lenient about padding. The model holds only for the text the writers emit.
  `Base64Coder`, the decoder in `NetscapeSPKI`, is modelled by the same decoder.
- Hex decoding of an odd number of digits, or of a non-hex digit, is an error in the model. The
  library's exact behaviour there is not modelled.
- `PemDh`: the regular expression is modelled only for its use here. A BEGIN marker, then the
  longest (greedy) text up to an END marker on the same line, with Java's line terminators. General
  regex semantics are left out.
- String charsets are left out: `toString`, `getBytes` and `new String(byte[])` are one
  character per byte. This reaches `rValue.toString().substring(2)` in `X509Cert`. The model
  takes the octet content from the library and drops its first two elements; the non-critical
  case drops the first four bytes of the raw value. It also reaches `to_pem`'s text and the
  Latin-1 text in `PKCS7DataData.toString`.
- `Text.Lower` and `Text.EqualsIgnoreCase`: case folding is ASCII only: `A`–`Z` to `a`–`z`.
  Java's `equalsIgnoreCase` also folds non-ASCII letters, such as U+017F (long s) against `s` and
  the Kelvin sign against `k`. `toLowerCase()` also depends on the default locale, as in the
  Turkish dotless i. Neither is modelled. This reaches the RSA/DSA tests of `KeyObjectOf`,
  `SignRefusedFor`, `Spki.Initialize` and `SignOidKey`, and the alias choices `FirstAlias` and
  `ChooseEngineServerAlias`.
- `Text.EqualsIgnoreCaseIff`: states the equivalence for the ASCII folding above, not Java's Unicode
  folding.
- The extension objects `X509Cert.initialize` takes from the certificate come as two sequences,
  critical and non-critical. Java's iteration order of the OID sets is therefore a parameter.
  Building an extension object (`createExt`) and the ASN.1 decoding of a value
  (`octetContent`) are in `CertLibrary`. Either may raise, which is `None` there. The model
  keeps which of the two raised, not which Ruby exception it was.
- The generator's own checks, such as refusing a duplicate extension, are inside generation.
- `X509Cert.Certificate.Sign`: the swallowed exception of generation is modelled as no new
  certificate. Which exception it was is not modelled.
- The GeneralNames element check done by the library is left out. `AddExtensionOf` merges
  whatever names the DER codec reads.
- `SslContext.Context.InitFromCallback`: a `client_cert_cb` returning something other than a
  two-element array, or raising, is not modelled. The callback is a fixed answer.
- `fix2int` range errors are left out; `verify_mode` is an integer. `VerifyBits` relates that
  integer to the 32-bit masks.
- A `ciphers` setting that is neither nil nor an array is matched through its `toString`. The
  model keeps it as text.
- `CipherStrings.getMatchingCiphers` is a parameter.
- The trivial key-manager methods are left out since they always return null or nothing:
  `chooseClientAlias`, `chooseServerAlias`, `getClientAliases`, `getServerAliases`, and
  `getAcceptedIssuers`.
- `SSLContext#initialize` only resets `ciphers` to nil, which the constructor's empty context
  already holds.
- `X509Cert.Certificate.HandExtensions`: the I/O error of reading an extension's value bytes in
  `sign` is not modelled. Extension values are byte sequences that are always readable.
- `SslContext.Context.CheckServerTrusted`: the warning is a flag in the outcome, not a write to
  stderr.
- `to_text` (unimplemented in the source), `inspect` and the printing in `ciphers()` are left out.
- `NetscapeSpki.Spki.SetChallenge`: a nil challenge is not modelled. The challenge and public-key
  getters are the fields.
- `NID_pkcs7_data` is 21, OpenSSL's value. `ASN1Registry` is not part of this model.
- `X509Cert.Certificate.Initialize`: the library parses the certificate into its parts in one
  step (`ParsedCert`). Malformed DER is a parse failure.
- The aliasing between a Ruby object and the Java object it wraps, and the runtime's
  allocation, dispatch and exception classes, are left out. Errors are datatype values.
- Concurrency is not modelled: the memo fields and `peer_cert` of `SSLContext` are shared
  across handshakes without synchronisation. The model is sequential and makes no
  thread-safety claim.
- Where the code and its documented behaviour differ, the model follows the code:
  - `readPEM` has no branch for RSA PRIVATE KEY, PKCS7 or DH PARAMETERS
    (`PemRead.UnrecognisedLabels`). Those are read by their own readers.
  - `set_extensions=` does not set `changed`.
  - The CERTIFICATE REQUEST branch of `readPEM` cannot be reached
    (`PemRead.RequestBranchUnreachable`).
  - `readKeyPair` has no error for a missing end marker; its loop just ends.
  - The encrypted private-key writers write no newline after the END line.
