/**
 * Authentication from a test vector: the vector itself (`TestVector`, read
 * from JSON, with its lazily parsed cipher-suite list and per-role getters)
 * and the authenticator that installs its keys and credentials
 * (`TestVectorAuthenticator`).
 *
 * Key construction by the crypto library is taken to succeed and to keep the
 * raw key bytes; CRED is the CBOR byte string of the vector's `cred_x`
 * bytes and ID_CRED the CBOR item its `id_cred_x` bytes decode to.
 */
module TestVectors {
  import opened Types
  import opened Strings
  import opened Hex
  import opened Cbor
  import opened Credentials
  import JavaArrays

  // ---------------------------------------------------------------------
  // The test vector
  // ---------------------------------------------------------------------

  /** `Integer.valueOf` on every piece. */
  function ParseAll(pieces: seq<string>): (r: Result<seq<int>, Exception>)
    ensures r.Ok? <==> forall i :: 0 <= i < |pieces| ==> ParseInt(pieces[i]).Ok?
    ensures r.Ok? ==> |r.value| == |pieces| && forall i :: 0 <= i < |pieces| ==> ParseInt(pieces[i]) == Ok(r.value[i])
    ensures r.Err? ==> r.error == NumberFormat
  {
    if |pieces| == 0 then Ok([])
    else
      match ParseInt(pieces[0])
      case Err(e) => Err(e)
      case Ok(v) =>
        match ParseAll(pieces[1..])
        case Err(e) => Err(e)
        case Ok(vs) =>
          assert forall i :: 1 <= i < |pieces| ==> pieces[i] == pieces[1..][i - 1];
          Ok([v] + vs)
  }

  /** The cipher suites of `SUITES_I`: the comma-separated integers; a missing field throws. */
  function ParseCipherSuites(text: Option<string>): (r: Result<seq<int>, Exception>)
    ensures text.None? ==> r == Err(NullPointer)
    ensures text.Some? ==> r == ParseAll(JavaSplit(text.value, ','))
  {
    if text.None? then Err(NullPointer) else ParseAll(JavaSplit(text.value, ','))
  }

  /** The text a list of suites is written as: decimal numbers separated by commas. */
  function SuitesText(suites: seq<nat>): string
  {
    JoinWith(seq(|suites|, i requires 0 <= i < |suites| => Decimal(suites[i])), ',')
  }

  /** Reading back a written list of suites gives the list. */
  lemma CipherSuitesRoundTrip(suites: seq<nat>)
    requires |suites| > 0
    requires forall i :: 0 <= i < |suites| ==> suites[i] <= INT32_MAX
    ensures ParseCipherSuites(Some(SuitesText(suites))) == Ok(suites)
  {
    var pieces := seq(|suites|, i requires 0 <= i < |suites| => Decimal(suites[i]));
    forall i | 0 <= i < |pieces|
      ensures ',' !in pieces[i] && ParseInt(pieces[i]) == Ok(suites[i])
    {
      ParseDecimal(suites[i]);
    }
    JavaSplitJoin(pieces, ',');
    var r := ParseAll(pieces);
    assert r.Ok?;
    assert r.value == suites by {
      forall i | 0 <= i < |suites| ensures r.value[i] == suites[i] {
        assert ParseInt(pieces[i]) == Ok(r.value[i]);
      }
    }
  }

  class TestVector {
    const authenticationMethod: Option<int>
    const cipherSuitesString: Option<string>
    /** The parsed suites, filled on the first request. */
    var cipherSuites: Option<seq<int>>
    const publicKeyI: string
    const privateKeyI: string
    const credICbor: string
    const idCredICbor: string
    const publicKeyR: string
    const privateKeyR: string
    const credRCbor: string
    const idCredRCbor: string

    /** The vector as read from JSON; the suites are not parsed yet. */
    constructor (authenticationMethod: Option<int>, cipherSuitesString: Option<string>,
                 publicKeyI: string, privateKeyI: string, credICbor: string, idCredICbor: string,
                 publicKeyR: string, privateKeyR: string, credRCbor: string, idCredRCbor: string)
      ensures this.authenticationMethod == authenticationMethod && this.cipherSuitesString == cipherSuitesString
      ensures this.publicKeyI == publicKeyI && this.privateKeyI == privateKeyI
      ensures this.credICbor == credICbor && this.idCredICbor == idCredICbor
      ensures this.publicKeyR == publicKeyR && this.privateKeyR == privateKeyR
      ensures this.credRCbor == credRCbor && this.idCredRCbor == idCredRCbor
      ensures cipherSuites.None?
    {
      this.authenticationMethod, this.cipherSuitesString := authenticationMethod, cipherSuitesString;
      this.publicKeyI, this.privateKeyI, this.credICbor, this.idCredICbor := publicKeyI, privateKeyI, credICbor, idCredICbor;
      this.publicKeyR, this.privateKeyR, this.credRCbor, this.idCredRCbor := publicKeyR, privateKeyR, credRCbor, idCredRCbor;
      cipherSuites := None;
    }

    /**
     * `getCipherSuites`: parsed from `SUITES_I` on the first call and kept;
     * every later call returns the kept list. A failed parse keeps nothing.
     */
    method GetCipherSuites() returns (r: Result<seq<int>, Exception>)
      modifies this
      ensures old(cipherSuites).Some? ==> r == Ok(old(cipherSuites).value) && cipherSuites == old(cipherSuites)
      ensures old(cipherSuites).None? ==> r == ParseCipherSuites(cipherSuitesString)
      ensures old(cipherSuites).None? ==> cipherSuites == (if r.Ok? then Some(r.value) else None)
    {
      if cipherSuites.None? {
        var parsed := ParseCipherSuites(cipherSuitesString);
        if parsed.Err? {
          return parsed;
        }
        cipherSuites := Some(parsed.value);
      }
      r := Ok(cipherSuites.value);
    }

    /** The own values of the given role: the initiator's `_i` fields, the responder's `_r` fields. */
    function PublicKey(isInitiator: bool): (r: string)
      ensures isInitiator ==> r == publicKeyI
      ensures !isInitiator ==> r == publicKeyR
    {
      if isInitiator then publicKeyI else publicKeyR
    }

    function PrivateKey(isInitiator: bool): (r: string)
      ensures isInitiator ==> r == privateKeyI
      ensures !isInitiator ==> r == privateKeyR
    {
      if isInitiator then privateKeyI else privateKeyR
    }

    function CredCbor(isInitiator: bool): (r: string)
      ensures isInitiator ==> r == credICbor
      ensures !isInitiator ==> r == credRCbor
    {
      if isInitiator then credICbor else credRCbor
    }

    function IdCredCbor(isInitiator: bool): (r: string)
      ensures isInitiator ==> r == idCredICbor
      ensures !isInitiator ==> r == idCredRCbor
    {
      if isInitiator then idCredICbor else idCredRCbor
    }
  }

  /** The first call parses and the second returns the same list without parsing again. */
  method CipherSuitesCached(tv: TestVector) returns (first: Result<seq<int>, Exception>, second: Result<seq<int>, Exception>)
    requires tv.cipherSuites.None?
    modifies tv
    ensures first == ParseCipherSuites(tv.cipherSuitesString)
    ensures first.Ok? ==> second == first
  {
    first := tv.GetCipherSuites();
    second := tv.GetCipherSuites();
  }

  // ---------------------------------------------------------------------
  // Key material
  // ---------------------------------------------------------------------

  const P256_RAW_PUBLIC_KEY_LENGTH: nat := 65
  const P256_COORDINATE_LENGTH: nat := 32

  /** The X and Y coordinates of an uncompressed P-256 key: one flag byte, 32 bytes X, 32 bytes Y. */
  function SplitP256(publicKey: seq<byte>): (r: Result<(seq<byte>, seq<byte>), Exception>)
    ensures r.Ok? <==> |publicKey| == P256_RAW_PUBLIC_KEY_LENGTH
    ensures r.Ok? ==> |r.value.0| == P256_COORDINATE_LENGTH && |r.value.1| == P256_COORDINATE_LENGTH
    ensures r.Ok? ==> publicKey == publicKey[..1] + r.value.0 + r.value.1
    ensures r.Err? ==> r.error.Runtime?
  {
    if |publicKey| != P256_RAW_PUBLIC_KEY_LENGTH then
      Err(Runtime("Raw P256 public key should be in uncompressed format; [1B flag, 32B X, 32B Y]"))
    else
      assert publicKey == publicKey[..1] + publicKey[1..33] + publicKey[33..65];
      Ok((publicKey[1..33], publicKey[33..65]))
  }

  /** Splitting a key assembled from a flag and two coordinates gives the coordinates back. */
  lemma SplitP256RoundTrip(flag: byte, x: seq<byte>, y: seq<byte>)
    requires |x| == P256_COORDINATE_LENGTH && |y| == P256_COORDINATE_LENGTH
    ensures SplitP256([flag] + x + y) == Ok((x, y))
  {
    var k := [flag] + x + y;
    assert k[1..33] == x && k[33..65] == y;
  }

  /**
   * `splitP256PublicKey`: a key of any length other than 65 bytes is
   * refused with nothing copied; otherwise X is copied from byte 1 and Y from
   * byte 33, each into the whole of its buffer, and a buffer too long for
   * what remains of the key makes the copy fail.
   */
  method SplitP256PublicKey(publicKey: seq<byte>, publicX: array<byte>, publicY: array<byte>) returns (r: Result<(), Exception>)
    requires publicX != publicY
    modifies publicX, publicY
    ensures |publicKey| != P256_RAW_PUBLIC_KEY_LENGTH ==>
              r == Err(SplitP256(publicKey).error) && publicX[..] == old(publicX[..]) && publicY[..] == old(publicY[..])
    ensures |publicKey| == P256_RAW_PUBLIC_KEY_LENGTH && 1 + publicX.Length > |publicKey| ==>
              r == Err(IndexOutOfBounds) && publicX[..] == old(publicX[..]) && publicY[..] == old(publicY[..])
    ensures |publicKey| == P256_RAW_PUBLIC_KEY_LENGTH && 1 + publicX.Length <= |publicKey| ==>
              publicX[..] == publicKey[1..1 + publicX.Length] &&
              (33 + publicY.Length > |publicKey| ==> r == Err(IndexOutOfBounds) && publicY[..] == old(publicY[..])) &&
              (33 + publicY.Length <= |publicKey| ==> r == Ok(()) && publicY[..] == publicKey[33..33 + publicY.Length])
  {
    if |publicKey| != P256_RAW_PUBLIC_KEY_LENGTH {
      return Err(Runtime("Raw P256 public key should be in uncompressed format; [1B flag, 32B X, 32B Y]"));
    }
    if 1 + publicX.Length > |publicKey| {
      return Err(IndexOutOfBounds);
    }
    JavaArrays.ArrayCopy(publicKey[1..1 + publicX.Length], publicX, 0);
    // 1 + publicKey.length / 2 is 33 for a 65-byte key
    if 1 + |publicKey| / 2 + publicY.Length > |publicKey| {
      return Err(IndexOutOfBounds);
    }
    JavaArrays.ArrayCopy(publicKey[33..33 + publicY.Length], publicY, 0);
    r := Ok(());
  }

  /** For 32-byte buffers the copy succeeds exactly for 65-byte keys and agrees with `SplitP256`. */
  method SplitIntoCoordinates(publicKey: seq<byte>) returns (r: Result<(seq<byte>, seq<byte>), Exception>)
    ensures r == SplitP256(publicKey)
  {
    var publicX := new byte[P256_COORDINATE_LENGTH];
    var publicY := new byte[P256_COORDINATE_LENGTH];
    var copied := SplitP256PublicKey(publicKey, publicX, publicY);
    if copied.Err? {
      return Err(copied.error);
    }
    r := Ok((publicX[..], publicY[..]));
  }

  /** CRED and ID_CRED of a role: the byte string of `cred_x`, and the item `id_cred_x` decodes to. */
  function CredentialValues(credCbor: string, idCredCbor: string): (r: Result<(Cbor, Cbor), Exception>)
    ensures r.Ok? <==> HexToBytes(credCbor).Ok? && HexToBytes(idCredCbor).Ok? && Decode(HexToBytes(idCredCbor).value).Some?
    ensures r.Ok? ==> r.value.0 == Bytes(HexToBytes(credCbor).value) && Some(r.value.1) == Decode(HexToBytes(idCredCbor).value)
    ensures HexToBytes(credCbor).Err? ==> r == Err(HexToBytes(credCbor).error)
  {
    match HexToBytes(credCbor)
    case Err(e) => Err(e)
    case Ok(cred) =>
      match HexToBytes(idCredCbor)
      case Err(e) => Err(e)
      case Ok(id) =>
        match Decode(id)
        case None => Err(CborError)
        case Some(idCred) => Ok((Bytes(cred), idCred))
  }

  /** An ID_CRED written as CBOR is read back as the same item. */
  lemma CredentialValuesRoundTrip(cred: seq<byte>, idCred: Cbor)
    requires Valid(idCred)
    ensures CredentialValues(BytesToHex(cred), BytesToHex(Encode(idCred))) == Ok((Bytes(cred), idCred))
  {
    HexRoundTrip(cred);
    HexRoundTrip(Encode(idCred));
    DecodeEncode(idCred);
  }

  /** The curve of the Curve25519 family used for a key usage: Ed25519 to sign, X25519 for static DH. */
  function Curve25519For(usage: KeyUsage): Curve
  {
    if usage == SignatureKey then Ed25519 else X25519
  }

  /** The key usage a mapper-side authentication method calls for, if it is a valid method. */
  function OwnUsage(authMethod: int): (r: Option<KeyUsage>)
    ensures r == Some(SignatureKey) <==> OwnSignatureMethod(authMethod)
    ensures r == Some(EcdhKey) <==> OwnStaticMethod(authMethod)
  {
    if OwnSignatureMethod(authMethod) then Some(SignatureKey)
    else if OwnStaticMethod(authMethod) then Some(EcdhKey)
    else None
  }

  /**
   * The own keys installed for `usage`: with suites 0 or 1 the Curve25519
   * family key, with suites 2 or 3 the P-256 key built from the coordinates,
   * each only when the method calls for that usage.
   */
  function ExpectedOwnKeys(usage: KeyUsage, authMethod: int, suites: seq<int>,
                           privateKey: seq<byte>, publicKey: seq<byte>): map<Curve, Key>
  {
    var wanted := OwnUsage(authMethod) == Some(usage);
    var curve25519 := if wanted && UsesCurve25519(suites)
                      then map[Curve25519For(usage) := Key(Curve25519For(usage), Some(privateKey), publicKey)]
                      else map[];
    if wanted && UsesP256(suites) && |publicKey| == P256_RAW_PUBLIC_KEY_LENGTH
    then curve25519[P256 := Key(P256, Some(privateKey), publicKey[1..])]
    else curve25519
  }

  /** The other usage's keys stay empty: a method installs keys of one usage only. */
  lemma OneUsageOnly(authMethod: int, suites: seq<int>, privateKey: seq<byte>, publicKey: seq<byte>)
    ensures OwnSignatureMethod(authMethod) ==> ExpectedOwnKeys(EcdhKey, authMethod, suites, privateKey, publicKey) == map[]
    ensures OwnStaticMethod(authMethod) ==> ExpectedOwnKeys(SignatureKey, authMethod, suites, privateKey, publicKey) == map[]
    ensures UsesCurve25519(suites) && OwnSignatureMethod(authMethod) ==>
              Ed25519 in ExpectedOwnKeys(SignatureKey, authMethod, suites, privateKey, publicKey)
  {
  }

  /**
   * The peer key for a method and the configured peer curve: a signature
   * curve (P-256 or Ed25519) for methods 0 and 2, a Diffie-Hellman curve
   * (P-256 or X25519) for methods 1 and 3.
   */
  function PeerCurve(authMethod: int, peerKeyCurve: Option<string>): (r: Option<Curve>)
    ensures r.Some? ==> PeerSignatureMethod(authMethod) || PeerStaticMethod(authMethod)
    ensures r == Some(Ed25519) ==> PeerSignatureMethod(authMethod)
    ensures r == Some(X25519) ==> PeerStaticMethod(authMethod)
    ensures r == Some(P256) <==> (PeerSignatureMethod(authMethod) || PeerStaticMethod(authMethod)) && peerKeyCurve == Some("P256")
  {
    if peerKeyCurve == Some("P256") && (PeerSignatureMethod(authMethod) || PeerStaticMethod(authMethod)) then Some(P256)
    else if PeerSignatureMethod(authMethod) && peerKeyCurve == Some("Ed25519") then Some(Ed25519)
    else if PeerStaticMethod(authMethod) && peerKeyCurve == Some("X25519") then Some(X25519)
    else None
  }

  /** The text Java shows for a possibly null string. */
  function ShowNullable(s: Option<string>): string
  {
    if s.None? then "null" else s.value
  }

  /**
   * The key pairs of `u` after one installation step: the key added under its
   * curve when the step applies and the method calls for `u`, unchanged otherwise.
   */
  predicate Installed(before: map<KeyUsage, map<Curve, Key>>, after: map<KeyUsage, map<Curve, Key>>,
                      u: KeyUsage, usage: Option<KeyUsage>, applies: bool, key: Key)
  {
    u in before && u in after &&
    after[u] == (if usage == Some(u) && applies then before[u][key.curve := key] else before[u])
  }

  // ---------------------------------------------------------------------
  // The authenticator
  // ---------------------------------------------------------------------

  class TestVectorAuthenticator {
    /**
     * The authentication method used to choose keys. The constructor never
     * assigns it, so it keeps Java's default 0 whatever the vector says.
     */
    const authenticationMethod: int
    const testVector: TestVector
    const store: CredentialStore<Cbor, Cbor>
    const supportedCipherSuites: seq<int>
    const isInitiator: bool
    /** `getTestVectorPeerKeyCurve`. */
    const peerKeyCurve: Option<string>

    /** The constructor as written: the method field is left at 0. */
    constructor (testVector: TestVector, store: CredentialStore<Cbor, Cbor>, supportedCipherSuites: seq<int>,
                 isInitiator: bool, peerKeyCurve: Option<string>)
      ensures authenticationMethod == 0
      ensures this.testVector == testVector && this.store == store
      ensures this.supportedCipherSuites == supportedCipherSuites && this.isInitiator == isInitiator
      ensures this.peerKeyCurve == peerKeyCurve
    {
      this.testVector, this.store := testVector, store;
      this.supportedCipherSuites, this.isInitiator, this.peerKeyCurve := supportedCipherSuites, isInitiator, peerKeyCurve;
      authenticationMethod := 0;
    }

    /** The corrected constructor: the method is the one the test vector gives. */
    constructor WithVectorMethod(testVector: TestVector, store: CredentialStore<Cbor, Cbor>, supportedCipherSuites: seq<int>,
                                 isInitiator: bool, peerKeyCurve: Option<string>)
      requires testVector.authenticationMethod.Some?
      ensures authenticationMethod == testVector.authenticationMethod.value
      ensures this.testVector == testVector && this.store == store
      ensures this.supportedCipherSuites == supportedCipherSuites && this.isInitiator == isInitiator
      ensures this.peerKeyCurve == peerKeyCurve
    {
      this.testVector, this.store := testVector, store;
      this.supportedCipherSuites, this.isInitiator, this.peerKeyCurve := supportedCipherSuites, isInitiator, peerKeyCurve;
      authenticationMethod := testVector.authenticationMethod.value;
    }

    /** The own CRED and ID_CRED values of this side. */
    function OwnCredentialValues(): (r: Result<(Cbor, Cbor), Exception>)
      reads testVector
      ensures r == CredentialValues(testVector.CredCbor(isInitiator), testVector.IdCredCbor(isInitiator))
    {
      CredentialValues(testVector.CredCbor(isInitiator), testVector.IdCredCbor(isInitiator))
    }

    /** The peer's CRED and ID_CRED values: those of the other role. */
    function PeerCredentialValues(): (r: Result<(Cbor, Cbor), Exception>)
      reads testVector
      ensures r == CredentialValues(testVector.CredCbor(!isInitiator), testVector.IdCredCbor(!isInitiator))
    {
      CredentialValues(testVector.CredCbor(!isInitiator), testVector.IdCredCbor(!isInitiator))
    }

    /**
     * `addOwnCredentials`: a null key is refused; otherwise the key, CRED
     * and ID_CRED go into the collections under (`usage`, `curve`) and the
     * ID_CRED joins the own ones.
     */
    method AddOwnCredentials(usage: KeyUsage, curve: Curve, keyPair: Option<Key>) returns (r: Result<(), Exception>)
      requires store.HasUsage(usage)
      modifies store
      ensures keyPair.None? ==> r == Err(Runtime("Null provided keyPair"))
      ensures keyPair.Some? && OwnCredentialValues().Err? ==> r == Err(OwnCredentialValues().error)
      ensures r.Err? ==> unchanged(store)
      ensures r.Ok? <==> keyPair.Some? && OwnCredentialValues().Ok?
      ensures r.Ok? ==>
                var (cred, idCred) := OwnCredentialValues().value;
                store.keyPairs == old(store.keyPairs)[usage := old(store.keyPairs)[usage][curve := keyPair.value]] &&
                store.creds == old(store.creds)[usage := old(store.creds)[usage][curve := cred]] &&
                store.idCreds == old(store.idCreds)[usage := old(store.idCreds)[usage][curve := idCred]] &&
                store.ownIdCreds == old(store.ownIdCreds) + {idCred}
      ensures store.peerPublicKeys == old(store.peerPublicKeys) && store.peerCredentials == old(store.peerCredentials)
    {
      if keyPair.None? {
        return Err(Runtime("Null provided keyPair"));
      }
      var values := OwnCredentialValues();
      if values.Err? {
        return Err(values.error);
      }
      store.PutOwn(usage, curve, keyPair.value, values.value.0, values.value.1);
      r := Ok(());
    }

    /** `addPeerCredentials`: a null key is refused; otherwise the key and CRED are stored under the peer's ID_CRED. */
    method AddPeerCredentials(keyPair: Option<Key>) returns (r: Result<(), Exception>)
      modifies store
      ensures keyPair.None? ==> r == Err(Runtime("Null provided keyPair"))
      ensures r.Ok? <==> keyPair.Some? && PeerCredentialValues().Ok?
      ensures r.Err? ==> unchanged(store)
      ensures r.Ok? ==>
                var (cred, idCred) := PeerCredentialValues().value;
                store.peerPublicKeys == old(store.peerPublicKeys)[idCred := keyPair.value] &&
                store.peerCredentials == old(store.peerCredentials)[idCred := cred]
      ensures store.keyPairs == old(store.keyPairs) && store.creds == old(store.creds)
      ensures store.idCreds == old(store.idCreds) && store.ownIdCreds == old(store.ownIdCreds)
    {
      if keyPair.None? {
        return Err(Runtime("Null provided keyPair"));
      }
      var values := PeerCredentialValues();
      if values.Err? {
        return Err(values.error);
      }
      store.PutPeer(values.value.1, keyPair.value, values.value.0);
      r := Ok(());
    }

    /** Whether own-credential setup succeeds: the keys parse, and every installed family has a valid method, CRED and ID_CRED. */
    predicate OwnSetupSucceeds(privateKey: Result<seq<byte>, Exception>, publicKey: Result<seq<byte>, Exception>)
      reads this, testVector
    {
      && privateKey.Ok? && publicKey.Ok?
      && (UsesCurve25519(supportedCipherSuites) || UsesP256(supportedCipherSuites) ==>
            OwnUsage(authenticationMethod).Some? && OwnCredentialValues().Ok?)
      && (UsesP256(supportedCipherSuites) ==> |publicKey.value| == P256_RAW_PUBLIC_KEY_LENGTH)
    }

    /**
     * `setupOwnAuthenticationCredentials`: the own collections are reset,
     * then the Curve25519-family key (suites 0, 1) and the P-256 key (suites
     * 2, 3) are installed under the usage the method calls for. An invalid
     * method is refused for each family that is used.
     */
    method SetupOwnAuthenticationCredentials() returns (r: Result<(), Exception>)
      modifies store
      ensures r.Ok? ==> store.HasUsage(SignatureKey) && store.HasUsage(EcdhKey)
      ensures var privateKey := HexToBytes(testVector.PrivateKey(isInitiator));
              var publicKey := HexToBytes(testVector.PublicKey(isInitiator));
              && (r.Ok? <==> OwnSetupSucceeds(privateKey, publicKey))
              && (r.Ok? ==>
                    && store.keyPairs[SignatureKey] ==
                         ExpectedOwnKeys(SignatureKey, authenticationMethod, supportedCipherSuites, privateKey.value, publicKey.value)
                    && store.keyPairs[EcdhKey] ==
                         ExpectedOwnKeys(EcdhKey, authenticationMethod, supportedCipherSuites, privateKey.value, publicKey.value))
      ensures store.peerPublicKeys == old(store.peerPublicKeys) && store.peerCredentials == old(store.peerCredentials)
    {
      store.ResetOwn();
      var privateKey := HexToBytes(testVector.PrivateKey(isInitiator));
      if privateKey.Err? {
        return Err(privateKey.error);
      }
      var publicKey := HexToBytes(testVector.PublicKey(isInitiator));
      if publicKey.Err? {
        return Err(publicKey.error);
      }
      r := InstallOwnKeys(privateKey.value, publicKey.value);
    }

    /** The installing part of own setup, on freshly emptied collections. */
    method InstallOwnKeys(priv: seq<byte>, pub: seq<byte>) returns (r: Result<(), Exception>)
      requires store.HasUsage(SignatureKey) && store.HasUsage(EcdhKey)
      requires store.keyPairs[SignatureKey] == map[] && store.keyPairs[EcdhKey] == map[]
      modifies store
      ensures r.Ok? <==> OwnSetupSucceeds(Ok(priv), Ok(pub))
      ensures r.Ok? ==> store.HasUsage(SignatureKey) && store.HasUsage(EcdhKey)
      ensures r.Ok? ==>
                && store.keyPairs[SignatureKey] == ExpectedOwnKeys(SignatureKey, authenticationMethod, supportedCipherSuites, priv, pub)
                && store.keyPairs[EcdhKey] == ExpectedOwnKeys(EcdhKey, authenticationMethod, supportedCipherSuites, priv, pub)
      ensures store.peerPublicKeys == old(store.peerPublicKeys) && store.peerCredentials == old(store.peerCredentials)
    {
      var usage := OwnUsage(authenticationMethod);
      r := InstallCurve25519Key(usage, priv, pub);
      if r.Err? {
        return;
      }
      r := InstallP256Key(usage, priv, pub);
    }

    /** The Curve25519-family key, installed when suite 0 or 1 is supported. */
    method InstallCurve25519Key(usage: Option<KeyUsage>, priv: seq<byte>, pub: seq<byte>) returns (r: Result<(), Exception>)
      requires store.HasUsage(SignatureKey) && store.HasUsage(EcdhKey)
      requires usage == OwnUsage(authenticationMethod)
      modifies store
      ensures r.Ok? <==> !UsesCurve25519(supportedCipherSuites) || (usage.Some? && OwnCredentialValues().Ok?)
      ensures r.Ok? ==> store.HasUsage(SignatureKey) && store.HasUsage(EcdhKey)
      ensures r.Ok? ==> Installed(old(store.keyPairs), store.keyPairs, SignatureKey, usage, UsesCurve25519(supportedCipherSuites),
                                  Key(Ed25519, Some(priv), pub))
      ensures r.Ok? ==> Installed(old(store.keyPairs), store.keyPairs, EcdhKey, usage, UsesCurve25519(supportedCipherSuites),
                                  Key(X25519, Some(priv), pub))
      ensures store.peerPublicKeys == old(store.peerPublicKeys) && store.peerCredentials == old(store.peerCredentials)
    {
      if !UsesCurve25519(supportedCipherSuites) {
        return Ok(());
      }
      if usage.None? {
        return Err(Runtime("Invalid authentication method: " + IntToString(authenticationMethod)));
      }
      var curve := Curve25519For(usage.value);
      r := AddOwnCredentials(usage.value, curve, Some(Key(curve, Some(priv), pub)));
    }

    /**
     * The P-256 key, installed when suite 2 or 3 is supported; the key is
     * split into its coordinates before the method is looked at.
     */
    method InstallP256Key(usage: Option<KeyUsage>, priv: seq<byte>, pub: seq<byte>) returns (r: Result<(), Exception>)
      requires store.HasUsage(SignatureKey) && store.HasUsage(EcdhKey)
      requires usage == OwnUsage(authenticationMethod)
      modifies store
      ensures r.Ok? <==> !UsesP256(supportedCipherSuites) ||
                         (|pub| == P256_RAW_PUBLIC_KEY_LENGTH && usage.Some? && OwnCredentialValues().Ok?)
      ensures r.Ok? ==> store.HasUsage(SignatureKey) && store.HasUsage(EcdhKey)
      ensures r.Ok? ==> |pub| == P256_RAW_PUBLIC_KEY_LENGTH || !UsesP256(supportedCipherSuites)
      ensures r.Ok? ==> Installed(old(store.keyPairs), store.keyPairs, SignatureKey, usage, UsesP256(supportedCipherSuites),
                                  Key(P256, Some(priv), if |pub| == 0 then [] else pub[1..]))
      ensures r.Ok? ==> Installed(old(store.keyPairs), store.keyPairs, EcdhKey, usage, UsesP256(supportedCipherSuites),
                                  Key(P256, Some(priv), if |pub| == 0 then [] else pub[1..]))
      ensures store.peerPublicKeys == old(store.peerPublicKeys) && store.peerCredentials == old(store.peerCredentials)
    {
      if !UsesP256(supportedCipherSuites) {
        return Ok(());
      }
      var coordinates := SplitIntoCoordinates(pub);
      if coordinates.Err? {
        return Err(coordinates.error);
      }
      var keyPair := Key(P256, Some(priv), coordinates.value.0 + coordinates.value.1);
      assert keyPair.publicKey == pub[1..];
      if usage.None? {
        return Err(Runtime("Invalid authentication method: " + IntToString(authenticationMethod)));
      }
      r := AddOwnCredentials(usage.value, P256, Some(keyPair));
    }

    /** Whether peer setup succeeds: the peer key parses and, for a valid method, the configured curve fits it. */
    predicate PeerSetupSucceeds(publicKey: Result<seq<byte>, Exception>)
      reads this, testVector
    {
      && publicKey.Ok?
      && (PeerSignatureMethod(authenticationMethod) || PeerStaticMethod(authenticationMethod) ==>
            && PeerCurve(authenticationMethod, peerKeyCurve).Some?
            && (PeerCurve(authenticationMethod, peerKeyCurve) == Some(P256) ==> |publicKey.value| == P256_RAW_PUBLIC_KEY_LENGTH)
            && PeerCredentialValues().Ok?)
    }

    /**
     * `setupPeerAuthenticationCredentials`: the peer's public key (the other
     * role's) is installed on the configured curve when it suits the method;
     * an unsuitable curve is refused, and a method outside 0..3 installs nothing.
     */
    method SetupPeerAuthenticationCredentials() returns (r: Result<(), Exception>)
      modifies store
      ensures var publicKey := HexToBytes(testVector.PublicKey(!isInitiator));
              && (r.Ok? <==> PeerSetupSucceeds(publicKey))
              && (r.Ok? && PeerCurve(authenticationMethod, peerKeyCurve).Some? ==>
                    var curve := PeerCurve(authenticationMethod, peerKeyCurve).value;
                    var key := Key(curve, None, if curve == P256 then publicKey.value[1..] else publicKey.value);
                    store.PeerRegistered(PeerCredentialValues().value.1, key, PeerCredentialValues().value.0))
      ensures !PeerSignatureMethod(authenticationMethod) && !PeerStaticMethod(authenticationMethod) ==>
                store.peerPublicKeys == old(store.peerPublicKeys)
      ensures store.keyPairs == old(store.keyPairs) && store.creds == old(store.creds)
      ensures store.idCreds == old(store.idCreds) && store.ownIdCreds == old(store.ownIdCreds)
    {
      var publicKey := HexToBytes(testVector.PublicKey(!isInitiator));
      if publicKey.Err? {
        return Err(publicKey.error);
      }
      var pub := publicKey.value;
      if PeerSignatureMethod(authenticationMethod) || PeerStaticMethod(authenticationMethod) {
        var curve := PeerCurve(authenticationMethod, peerKeyCurve);
        if curve.None? {
          return Err(Runtime("Invalid authentication method (" + IntToString(authenticationMethod) +
                             ") and peerKeyCurve (" + ShowNullable(peerKeyCurve) + ") pair"));
        }
        var keyPair: Key;
        if curve.value == P256 {
          var coordinates := SplitIntoCoordinates(pub);
          if coordinates.Err? {
            return Err(coordinates.error);
          }
          keyPair := Key(P256, None, coordinates.value.0 + coordinates.value.1);
          assert keyPair.publicKey == pub[1..];
        } else {
          keyPair := Key(curve.value, None, pub);
        }
        r := AddPeerCredentials(Some(keyPair));
      } else {
        r := Ok(());
      }
    }
  }

  /**
   * As written, a vector for method 3 (static DH keys) still gets a signature
   * key installed: with suite 0 the mapper's own key is an Ed25519 signature
   * key and no Diffie-Hellman key is installed.
   */
  method AsWrittenIgnoresVectorMethod(tv: TestVector, store: CredentialStore<Cbor, Cbor>) returns (r: Result<(), Exception>)
    requires tv.authenticationMethod == Some(3)
    modifies store
    ensures r.Ok? ==> store.HasUsage(SignatureKey) && store.HasUsage(EcdhKey)
    ensures r.Ok? && store.HasUsage(SignatureKey) && store.HasUsage(EcdhKey) ==>
              store.keyPairs[EcdhKey] == map[] && Ed25519 in store.keyPairs[SignatureKey]
  {
    var auth := new TestVectorAuthenticator(tv, store, [0], true, None);
    r := auth.SetupOwnAuthenticationCredentials();
    if r.Ok? {
      OneUsageOnly(0, [0], HexToBytes(tv.PrivateKey(true)).value, HexToBytes(tv.PublicKey(true)).value);
    }
  }

  /** Taking the method from the vector, method 3 with suite 0 installs an X25519 key and no signature key. */
  method VectorMethodInstallsStaticKey(tv: TestVector, store: CredentialStore<Cbor, Cbor>) returns (r: Result<(), Exception>)
    requires tv.authenticationMethod == Some(3)
    modifies store
    ensures r.Ok? ==> store.HasUsage(SignatureKey) && store.HasUsage(EcdhKey)
    ensures r.Ok? && store.HasUsage(SignatureKey) && store.HasUsage(EcdhKey) ==>
              store.keyPairs[SignatureKey] == map[] && X25519 in store.keyPairs[EcdhKey]
  {
    var auth := new TestVectorAuthenticator.WithVectorMethod(tv, store, [0], true, None);
    r := auth.SetupOwnAuthenticationCredentials();
  }
}
