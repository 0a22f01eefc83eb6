/**
 * `OpenSSL::SSL::SSLContext`: the memo of what the client certificate callback returned, the
 * key manager that hands the context's key and certificate to the TLS engine, the trust manager
 * that records the peer and decides by the verify-mode bits whether to accept its chain, and the
 * cipher list handed to the cipher-string matcher.
 * The cipher-string matcher, the X.509 store context and the callback itself are not part of
 * this model: they are parameters.
 */
module SslContext {
  import opened Wrappers
  import opened Text
  import Asn1

  /** An `OpenSSL::PKey`: its algorithm name and, when it has one, its private key. */
  datatype Key = Key(algorithm: string, privateKey: Option<seq<byte>>)

  type byte = Asn1.byte

  /** An `OpenSSL::X509::Certificate`, as the TLS engine sees it. */
  datatype Cert = Cert(encoded: seq<byte>)

  /** An `OpenSSL::X509::Store`, by identity. */
  datatype Store = Store(id: nat)

  /** The `ciphers` attribute: nil, an array of cipher strings, or any other object by its `to_s`. */
  datatype Ciphers = NoCiphers | CipherArray(parts: seq<string>) | CipherText(text: string)

  /** A cipher definition the matcher yields; the engine needs its suite name. */
  datatype CipherDef = CipherDef(name: string, cipherSuite: string)

  /** What `client_cert_cb`, a Ruby block, does when called: nil, or the pair it returns. */
  datatype Callback = NoCallback | Returns(cert: Cert, key: Key)

  /**
   * The X.509 store context `checkServerTrusted` drives: `init` (false for 0), the hint loading
   * of `load_verify_locations` (false for 0), and `verifyCertificate` (false for 0 or an
   * exception), which sees the locations when they were loaded.
   */
  datatype StoreOracle = StoreOracle(
    init: (Option<Store>, seq<Cert>) -> bool,
    loadLocations: (Option<string>, Option<string>) -> bool,
    verify: (Option<Store>, seq<Cert>, bool) -> bool)

  /** The `CertificateException`s the trust manager raises. */
  datatype TrustError = CouldNotInitializeStore | VerifyFailed | NoPeerCertificate

  /** What `checkServerTrusted` does: the result, and whether it warned "can't set verify locations". */
  datatype TrustOutcome = TrustOutcome(result: Result<(), TrustError>, warned: bool)

  /** All fields of a context, for stating what a method leaves unchanged. */
  datatype ContextState = ContextState(
    key: Option<Key>,
    cert: Option<Cert>,
    clientCertCb: Callback,
    ciphers: Ciphers,
    verifyMode: Option<int>,
    caFile: Option<string>,
    caPath: Option<string>,
    certStore: Option<Store>,
    tKey: Option<Key>,
    tCert: Option<Cert>,
    peer: Option<Cert>)

  /** Whether asking for the memo of the key (`wantKey`) or of the certificate calls the callback. */
  predicate CallsBack(s: ContextState, wantKey: bool) {
    (if wantKey then s.tKey.None? else s.tCert.None?) && s.clientCertCb.Returns?
  }

  /** The fields after `getCallbackKey` (`wantKey`) or `getCallbackCert`: one call fills both memos. */
  function Memo(s: ContextState, wantKey: bool): ContextState {
    if CallsBack(s, wantKey) then s.(tCert := Some(s.clientCertCb.cert), tKey := Some(s.clientCertCb.key)) else s
  }

  /** The key the key manager uses: the `key` attribute, else the callback's key. */
  function KeyInUse(s: ContextState): Option<Key> {
    if s.key.Some? then s.key else Memo(s, true).tKey
  }

  /** The fields after the key manager looked up its key. */
  function AfterKeyLookup(s: ContextState): ContextState {
    if s.key.Some? then s else Memo(s, true)
  }

  /** The first key type equal to `algorithm` ignoring case, from index `i` on. */
  function FirstAlias(keyTypes: seq<string>, algorithm: string, i: nat): (r: Option<string>)
    requires i <= |keyTypes|
    decreases |keyTypes| - i
  {
    if i == |keyTypes| then None
    else if EqualsIgnoreCase(keyTypes[i], algorithm) then Some(keyTypes[i])
    else FirstAlias(keyTypes, algorithm, i + 1)
  }

  /** The cipher strings of a `ciphers` array joined with ":", as the `StringBuilder` loop builds them. */
  function Join(parts: seq<string>): string
    decreases |parts|
  {
    if parts == [] then ""
    else if |parts| == 1 then parts[0]
    else Join(parts[..|parts| - 1]) + ":" + parts[|parts| - 1]
  }

  /** The cipher string handed to the matcher; `default` is the library's default cipher list. */
  function CipherString(c: Ciphers, default: string): string {
    match c
    case NoCiphers => default
    case CipherArray(parts) => Join(parts)
    case CipherText(t) => t
  }

  /** The suite names of the matched definitions, in order. */
  function SuiteNames(defs: seq<CipherDef>): (r: seq<string>)
    ensures |r| == |defs| && forall i :: 0 <= i < |defs| ==> r[i] == defs[i].cipherSuite
  {
    seq(|defs|, i requires 0 <= i < |defs| => defs[i].cipherSuite)
  }

  /** Bit `0x1` of a verify mode, SSL_VERIFY_PEER, read from the two's-complement form. */
  predicate VerifyPeer(mode: int) {
    mode % 2 == 1
  }

  /** Bit `0x2` of a verify mode, SSL_VERIFY_FAIL_IF_NO_PEER_CERT. */
  predicate FailIfNoPeer(mode: int) {
    (mode / 2) % 2 == 1
  }

  /** Whether a chain the TLS engine hands over holds a certificate. */
  predicate HasPeer(chain: Option<seq<Cert>>) {
    chain.Some? && |chain.value| > 0
  }

  /** The decision of `checkServerTrusted` for the context's fields `s`. */
  function ServerTrust(s: ContextState, chain: Option<seq<Cert>>, store: StoreOracle): TrustOutcome {
    if s.verifyMode.None? then TrustOutcome(Ok(()), false)
    else if HasPeer(chain) then
      if !VerifyPeer(s.verifyMode.value) then TrustOutcome(Ok(()), false)
      else if !store.init(s.certStore, chain.value) then TrustOutcome(Err(CouldNotInitializeStore), false)
      else
        var hints := s.caFile.Some? || s.caPath.Some?;
        var loaded := hints && store.loadLocations(s.caFile, s.caPath);
        var warned := hints && !loaded;
        if store.verify(s.certStore, chain.value, loaded) then TrustOutcome(Ok(()), warned)
        else TrustOutcome(Err(VerifyFailed), warned)
    else if FailIfNoPeer(s.verifyMode.value) then TrustOutcome(Err(NoPeerCertificate), false)
    else TrustOutcome(Ok(()), false)
  }

  class Context {
    var key: Option<Key>
    var cert: Option<Cert>
    var clientCertCb: Callback
    var ciphers: Ciphers
    var verifyMode: Option<int>
    var caFile: Option<string>
    var caPath: Option<string>
    var certStore: Option<Store>
    var tKey: Option<Key>
    var tCert: Option<Cert>
    var peer: Option<Cert>
    /** How often the client certificate callback has been called. */
    ghost var callbackCalls: nat

    function State(): ContextState
      reads this
    {
      ContextState(key, cert, clientCertCb, ciphers, verifyMode, caFile, caPath, certStore, tKey, tCert, peer)
    }

    /** `SSLContext.new`: every attribute nil, no memo, no peer. */
    constructor ()
      ensures State() == ContextState(None, None, NoCallback, NoCiphers, None, None, None, None, None, None, None)
      ensures callbackCalls == 0
    {
      key, cert, clientCertCb, ciphers := None, None, NoCallback, NoCiphers;
      verifyMode, caFile, caPath, certStore := None, None, None, None;
      tKey, tCert, peer := None, None, None;
      callbackCalls := 0;
    }

    /** `ciphers=`. */
    method SetCiphers(c: Ciphers)
      modifies this
      ensures State() == old(State()).(ciphers := c) && callbackCalls == old(callbackCalls)
    {
      ciphers := c;
    }

    /** `initFromCallback`: calls the callback and keeps its certificate and key. */
    method InitFromCallback()
      requires clientCertCb.Returns?
      modifies this
      ensures State() == old(State()).(tCert := Some(old(clientCertCb).cert), tKey := Some(old(clientCertCb).key))
      ensures callbackCalls == old(callbackCalls) + 1
    {
      callbackCalls := callbackCalls + 1;
      tCert := Some(clientCertCb.cert);
      tKey := Some(clientCertCb.key);
    }

    /** `getCallbackKey`: calls the callback only while the key memo is empty. */
    method GetCallbackKey() returns (k: Option<Key>)
      modifies this
      ensures State() == Memo(old(State()), true) && k == tKey
      ensures callbackCalls == old(callbackCalls) + (if CallsBack(old(State()), true) then 1 else 0)
    {
      if tKey.None? && clientCertCb.Returns? {
        InitFromCallback();
      }
      k := tKey;
    }

    /** `getCallbackCert`: calls the callback only while the certificate memo is empty. */
    method GetCallbackCert() returns (c: Option<Cert>)
      modifies this
      ensures State() == Memo(old(State()), false) && c == tCert
      ensures callbackCalls == old(callbackCalls) + (if CallsBack(old(State()), false) then 1 else 0)
    {
      if tCert.None? && clientCertCb.Returns? {
        InitFromCallback();
      }
      c := tCert;
    }

    /** The key lookup every key manager method but the chain starts with. */
    method LookUpKey() returns (k: Option<Key>)
      modifies this
      ensures k == KeyInUse(old(State())) && State() == AfterKeyLookup(old(State()))
    {
      if key.Some? {
        k := key;
      } else {
        k := GetCallbackKey();
      }
    }

    /** `chooseEngineClientAlias`: the first key type that names the key's algorithm ignoring case. */
    method ChooseEngineClientAlias(keyTypes: seq<string>) returns (alias: Option<string>)
      modifies this
      ensures State() == AfterKeyLookup(old(State()))
      ensures alias == if KeyInUse(old(State())).None? then None else FirstAlias(keyTypes, KeyInUse(old(State())).value.algorithm, 0)
    {
      var k := LookUpKey();
      if k.None? {
        return None;
      }
      var i := 0;
      while i < |keyTypes|
        invariant i <= |keyTypes|
        invariant FirstAlias(keyTypes, k.value.algorithm, 0) == FirstAlias(keyTypes, k.value.algorithm, i)
      {
        if EqualsIgnoreCase(keyTypes[i], k.value.algorithm) {
          return Some(keyTypes[i]);
        }
        i := i + 1;
      }
      alias := None;
    }

    /** `chooseEngineServerAlias`: the key type itself when it names the key's algorithm ignoring case. */
    method ChooseEngineServerAlias(keyType: string) returns (alias: Option<string>)
      modifies this
      ensures State() == AfterKeyLookup(old(State()))
      ensures alias.Some? <==> KeyInUse(old(State())).Some? && EqualsIgnoreCase(keyType, KeyInUse(old(State())).value.algorithm)
      ensures alias.Some? ==> alias.value == keyType
    {
      var k := LookUpKey();
      if k.Some? && EqualsIgnoreCase(keyType, k.value.algorithm) {
        alias := Some(keyType);
      } else {
        alias := None;
      }
    }

    /** `getCertificateChain`: the `cert` attribute, else the callback's certificate, as a one-element chain. */
    method GetCertificateChain() returns (chain: Option<seq<Cert>>)
      modifies this
      ensures State() == if old(cert).Some? then old(State()) else Memo(old(State()), false)
      ensures old(cert).Some? ==> chain == Some([old(cert).value])
      ensures old(cert).None? ==> chain == if tCert.Some? then Some([tCert.value]) else None
    {
      var c := cert;
      if c.None? {
        c := GetCallbackCert();
      }
      if c.None? {
        return None;
      }
      chain := Some([c.value]);
    }

    /** `getPrivateKey`: the private key of the key in use, or nothing without a key. */
    method GetPrivateKey() returns (pk: Option<seq<byte>>)
      modifies this
      ensures State() == AfterKeyLookup(old(State()))
      ensures pk == if KeyInUse(old(State())).Some? then KeyInUse(old(State())).value.privateKey else None
    {
      var k := LookUpKey();
      if k.None? {
        return None;
      }
      pk := k.value.privateKey;
    }

    /** The `StringBuilder` loop of `getCipherSuites`. */
    static method JoinCiphers(parts: seq<string>) returns (s: string)
      ensures s == Join(parts)
    {
      s := "";
      var sep := "";
      var i := 0;
      while i < |parts|
        invariant i <= |parts|
        invariant s == Join(parts[..i]) && sep == (if i == 0 then "" else ":")
      {
        assert parts[..i + 1][..i] == parts[..i];
        s := s + sep + parts[i];
        sep := ":";
        i := i + 1;
      }
      assert parts[..i] == parts;
    }

    /**
     * `getCipherSuites`: the suite names of what `matching` finds for the cipher string among the
     * engine's `supported` suites.
     */
    method GetCipherSuites(matching: (string, seq<string>) -> seq<CipherDef>, default: string, supported: seq<string>)
      returns (result: seq<string>)
      ensures result == SuiteNames(matching(CipherString(ciphers, default), supported))
    {
      var text: string;
      if ciphers.NoCiphers? {
        text := default;
      } else if ciphers.CipherArray? {
        text := JoinCiphers(ciphers.parts);
      } else {
        text := ciphers.text;
      }
      var ciphs := matching(text, supported);
      result := [];
      var i := 0;
      while i < |ciphs|
        invariant i <= |ciphs| && result == SuiteNames(ciphs[..i])
      {
        assert ciphs[..i + 1] == ciphs[..i] + [ciphs[i]];
        result := result + [ciphs[i].cipherSuite];
        i := i + 1;
      }
      assert ciphs[..i] == ciphs;
    }

    /** `checkClientTrusted`: records the first certificate of a non-empty chain and accepts. */
    method CheckClientTrusted(chain: Option<seq<Cert>>)
      modifies this
      ensures State() == old(State()).(peer := if HasPeer(chain) then Some(chain.value[0]) else old(peer))
    {
      if chain.Some? && |chain.value| > 0 {
        peer := Some(chain.value[0]);
      }
    }

    /**
     * `checkServerTrusted`: records the first certificate of a non-empty chain as the peer before
     * any check, and decides as `ServerTrust`.
     */
    method CheckServerTrusted(chain: Option<seq<Cert>>, store: StoreOracle) returns (outcome: TrustOutcome)
      modifies this
      ensures outcome == ServerTrust(old(State()), chain, store)
      ensures State() == old(State()).(peer := if HasPeer(chain) then Some(chain.value[0]) else old(peer))
    {
      outcome := TrustOutcome(Ok(()), false);
      if verifyMode.None? {
        if chain.Some? && |chain.value| > 0 {
          peer := Some(chain.value[0]);
        }
        return;
      }
      var mode := verifyMode.value;
      if chain.Some? && |chain.value| > 0 {
        peer := Some(chain.value[0]);
        if mode % 2 == 1 {
          if !store.init(certStore, chain.value) {
            return TrustOutcome(Err(CouldNotInitializeStore), false);
          }
          var warned := false;
          var loaded := false;
          if caFile.Some? || caPath.Some? {
            loaded := store.loadLocations(caFile, caPath);
            warned := !loaded;
          }
          if !store.verify(certStore, chain.value, loaded) {
            return TrustOutcome(Err(VerifyFailed), warned);
          }
          outcome := TrustOutcome(Ok(()), warned);
        }
      } else if (mode / 2) % 2 == 1 {
        outcome := TrustOutcome(Err(NoPeerCertificate), false);
      }
    }
  }

  /** Once the callback has been called, neither memo lookup calls it again. */
  lemma MemoCallsOnce(s: ContextState, wantKey: bool, again: bool)
    ensures CallsBack(s, wantKey) ==> !CallsBack(Memo(s, wantKey), again)
    ensures Memo(Memo(s, wantKey), wantKey) == Memo(s, wantKey)
    ensures CallsBack(s, wantKey) ==> Memo(Memo(s, wantKey), again) == Memo(s, wantKey)
  {
  }

  /** The lookup of the key never consults the callback while the `key` attribute is set. */
  lemma ExplicitKeyWins(s: ContextState)
    requires s.key.Some?
    ensures KeyInUse(s) == s.key && AfterKeyLookup(s) == s
  {
  }

  /** `FirstAlias` finds nothing exactly when no key type from `i` on equals the algorithm ignoring case. */
  lemma {:induction false} FirstAliasNone(keyTypes: seq<string>, algorithm: string, i: nat)
    requires i <= |keyTypes|
    ensures FirstAlias(keyTypes, algorithm, i).None? <==> forall j :: i <= j < |keyTypes| ==> !EqualsIgnoreCase(keyTypes[j], algorithm)
    decreases |keyTypes| - i
  {
    if i < |keyTypes| && !EqualsIgnoreCase(keyTypes[i], algorithm) {
      FirstAliasNone(keyTypes, algorithm, i + 1);
    }
  }

  /** What `FirstAlias` finds is a key type at some index `j` that matches, with none matching before it. */
  lemma {:induction false} FirstAliasSome(keyTypes: seq<string>, algorithm: string, i: nat)
    requires i <= |keyTypes| && FirstAlias(keyTypes, algorithm, i).Some?
    ensures exists j :: i <= j < |keyTypes| && FirstAlias(keyTypes, algorithm, i) == Some(keyTypes[j]) &&
                        EqualsIgnoreCase(keyTypes[j], algorithm) &&
                        forall k :: i <= k < j ==> !EqualsIgnoreCase(keyTypes[k], algorithm)
    decreases |keyTypes| - i
  {
    if EqualsIgnoreCase(keyTypes[i], algorithm) {
      assert FirstAlias(keyTypes, algorithm, i) == Some(keyTypes[i]);
    } else {
      FirstAliasSome(keyTypes, algorithm, i + 1);
    }
  }

  /** The index of the last ':' below `hi`, or -1. */
  function LastColon(s: string, hi: nat): (r: int)
    requires hi <= |s|
    ensures -1 <= r < hi && (r >= 0 ==> s[r] == ':')
    ensures forall j :: r < j < hi ==> s[j] != ':'
  {
    if hi == 0 then -1 else if s[hi - 1] == ':' then hi - 1 else LastColon(s, hi - 1)
  }

  /** A cipher string cut at every ':'. */
  function Split(s: string): seq<string>
    decreases |s|
  {
    var i := LastColon(s, |s|);
    if i < 0 then [s] else Split(s[..i]) + [s[i + 1..]]
  }

  /** Cipher strings without ':' are joined so that cutting at ':' gives them back, in order. */
  lemma {:induction false} JoinSplit(parts: seq<string>)
    requires |parts| > 0
    requires forall i :: 0 <= i < |parts| ==> ':' !in parts[i]
    ensures Split(Join(parts)) == parts
    decreases |parts|
  {
    var last := parts[|parts| - 1];
    if |parts| == 1 {
      assert LastColon(last, |last|) == -1;
    } else {
      var front := parts[..|parts| - 1];
      var j := Join(front);
      var s := j + ":" + last;
      assert Join(parts) == s;
      assert s[|j|] == ':';
      assert LastColon(s, |s|) == |j| by {
      }
      assert s[..|j|] == j && s[|j| + 1..] == last;
      JoinSplit(front);
    }
  }

  /** With neither bit set (VERIFY_NONE), every chain is accepted without consulting the store. */
  lemma VerifyNoneAccepts(s: ContextState, chain: Option<seq<Cert>>, store: StoreOracle)
    requires s.verifyMode.Some? && !VerifyPeer(s.verifyMode.value) && !FailIfNoPeer(s.verifyMode.value)
    ensures ServerTrust(s, chain, store) == TrustOutcome(Ok(()), false)
  {
  }

  /**
   * The trust manager rejects a chain only under a verify mode: a non-empty chain only with
   * VERIFY_PEER, when the store cannot be set up or the chain does not verify; a missing chain
   * only with FAIL_IF_NO_PEER_CERT. It warns only when hints were given and could not be loaded.
   */
  lemma ServerTrustRejects(s: ContextState, chain: Option<seq<Cert>>, store: StoreOracle)
    ensures var o := ServerTrust(s, chain, store);
      (o.result.Err? <==>
        s.verifyMode.Some? &&
        ((HasPeer(chain) && VerifyPeer(s.verifyMode.value) &&
          (!store.init(s.certStore, chain.value) ||
           !store.verify(s.certStore, chain.value, (s.caFile.Some? || s.caPath.Some?) && store.loadLocations(s.caFile, s.caPath)))) ||
         (!HasPeer(chain) && FailIfNoPeer(s.verifyMode.value)))) &&
      (o.result == Err(NoPeerCertificate) <==> s.verifyMode.Some? && !HasPeer(chain) && FailIfNoPeer(s.verifyMode.value)) &&
      (o.warned ==> (s.caFile.Some? || s.caPath.Some?) && !store.loadLocations(s.caFile, s.caPath))
  {
  }

  /** Bitwise `&` of two non-negative integers, bit by bit from the lowest. */
  function BitAnd(a: nat, b: nat): nat
    decreases a
  {
    if a == 0 || b == 0 then 0 else 2 * BitAnd(a / 2, b / 2) + (a % 2) * (b % 2)
  }

  /**
   * The verify-mode bits are those Java's `verify_mode & 0x1` and `verify_mode & 0x2` test on
   * the 32-bit two's-complement form of the mode.
   */
  lemma VerifyBits(mode: int)
    requires -0x8000_0000 <= mode < 0x8000_0000
    ensures var u := mode % 0x1_0000_0000;
      (VerifyPeer(mode) <==> BitAnd(u, 1) != 0) && (FailIfNoPeer(mode) <==> BitAnd(u, 2) != 0)
  {
    var n := mode % 0x1_0000_0000;
    assert n % 2 == mode % 2;
    assert (n / 2) % 2 == (mode / 2) % 2;
    if n > 0 {
      assert BitAnd(n, 1) == n % 2 by {
        assert BitAnd(n / 2, 0) == 0;
      }
      assert BitAnd(n, 2) == 2 * BitAnd(n / 2, 1);
      if n / 2 > 0 {
        assert BitAnd(n / 2, 1) == (n / 2) % 2 by {
          assert BitAnd(n / 4, 0) == 0;
        }
      }
    }
  }
}
