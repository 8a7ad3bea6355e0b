/**
 * Authentication from key and certificate files (`ManyFilesAuthenticator`):
 * the shared cache of DER files, building CRED and ID_CRED values of the
 * configured types, and registering own and peer credentials. When a peer
 * type is not configured, every identifier the available inputs allow is
 * registered.
 *
 * CRED and ID_CRED values are kept as the inputs they are built from; the
 * CBOR encodings and the certificate hash are the COSE library's business.
 */
module ManyFiles {
  import opened Types
  import opened Strings
  import opened Credentials

  // `-mapCredType` / `-sulCredType`: 0 CWT, 1 CCS, 2 X.509 certificate
  const CRED_TYPE_CWT: int := 0
  const CRED_TYPE_CCS: int := 1
  const CRED_TYPE_X509: int := 2

  // `-mapIdCredType` / `-sulIdCredType`
  const ID_CRED_TYPE_KID: int := 0
  const ID_CRED_TYPE_CWT: int := 1
  const ID_CRED_TYPE_CCS: int := 2
  const ID_CRED_TYPE_X5T: int := 3
  const ID_CRED_TYPE_X5U: int := 4
  const ID_CRED_TYPE_X5CHAIN: int := 5

  /** A CRED: a CWT claims set over a raw public key, or an X.509 certificate. */
  datatype Cred =
    | CcsCred(key: Key, subjectName: string, kid: seq<byte>)
    | X509Cred(cert: seq<byte>)

  /** An ID_CRED: by key identifier, by value of a CCS, by certificate hash, link or chain. */
  datatype IdCred =
    | IdKid(kid: seq<byte>)
    | IdKccs(cred: Cred)
    | IdX5t(cert: seq<byte>)
    | IdX5u(link: string)
    | IdX5chain(cert: seq<byte>)

  /** The type number a credential was built as. */
  function CredTypeOf(c: Cred): int
  {
    match c
    case CcsCred(_, _, _) => CRED_TYPE_CCS
    case X509Cred(_) => CRED_TYPE_X509
  }

  /** The type number an identifier was built as. */
  function IdCredTypeOf(id: IdCred): int
  {
    match id
    case IdKid(_) => ID_CRED_TYPE_KID
    case IdKccs(_) => ID_CRED_TYPE_CCS
    case IdX5t(_) => ID_CRED_TYPE_X5T
    case IdX5u(_) => ID_CRED_TYPE_X5U
    case IdX5chain(_) => ID_CRED_TYPE_X5CHAIN
  }

  /** The file names and identifiers configured for one key, on the mapper's side and on the SUL's. */
  datatype KeyConfig = KeyConfig(
    mapKid: Option<seq<byte>>,
    mapX509Filename: Option<string>,
    mapX5uLink: Option<string>,
    sulKid: Option<seq<byte>>,
    sulX509Filename: Option<string>,
    sulX5uLink: Option<string>,
    sulPublicFilename: Option<string>)

  // ---------------------------------------------------------------------
  // The DER file cache
  // ---------------------------------------------------------------------

  /** Whether `derFileToBytes` of `filename` reads the file system: a named file not yet cached but on disk. */
  predicate ReadsDisk(files: map<string, seq<byte>>, disk: map<string, seq<byte>>, filename: Option<string>)
  {
    filename.Some? && filename.value !in files && filename.value in disk
  }

  /** The cache after `derFileToBytes` of `filename`: a file read from disk is added, and nothing else changes. */
  function CacheAfter(files: map<string, seq<byte>>, disk: map<string, seq<byte>>, filename: Option<string>): map<string, seq<byte>>
  {
    if ReadsDisk(files, disk, filename) then files[filename.value := disk[filename.value]] else files
  }

  /** The files `derFileToBytes` of `filename` reads from disk: that file alone, or none. */
  function ReadsOf(files: map<string, seq<byte>>, disk: map<string, seq<byte>>, filename: Option<string>): seq<string>
  {
    if ReadsDisk(files, disk, filename) then [filename.value] else []
  }

  /** What `derFileToBytes` gives: a cached file, else the file read from `disk`. */
  function CachedRead(files: map<string, seq<byte>>, disk: map<string, seq<byte>>, filename: Option<string>): (r: Result<seq<byte>, Exception>)
    ensures filename.None? ==> r == Err(Runtime("Null DER filename provided"))
    ensures filename.Some? && filename.value in files ==> r == Ok(files[filename.value])
    ensures r.Ok? <==> filename.Some? && (filename.value in files || filename.value in disk)
    ensures r.Ok? && filename.value !in files ==> r.value == disk[filename.value]
  {
    if filename.None? then Err(Runtime("Null DER filename provided"))
    else if filename.value in files then Ok(files[filename.value])
    else if filename.value in disk then Ok(disk[filename.value])
    else Err(Runtime("java.nio.file.NoSuchFileException: " + filename.value))
  }

  /**
   * The DER files read so far, shared by every authenticator. The ghost
   * `readLog` records each read of the file system.
   */
  class DerFileCache {
    var files: map<string, seq<byte>>
    ghost var readLog: seq<string>

    /** Every cached file was read exactly once, and every read was cached. */
    ghost predicate Valid()
      reads this
    {
      && (forall f :: f in files <==> f in readLog)
      && (forall i, j :: 0 <= i < j < |readLog| ==> readLog[i] != readLog[j])
    }

    constructor ()
      ensures Valid() && files == map[] && readLog == []
    {
      files := map[];
      readLog := [];
    }

    /**
     * `derFileToBytes`: a null name is refused; a file not yet cached is read
     * and cached; a cached file is returned without reading. A failed read
     * caches nothing.
     */
    method DerFileToBytes(filename: Option<string>, disk: map<string, seq<byte>>) returns (r: Result<seq<byte>, Exception>)
      requires Valid()
      modifies this
      ensures Valid()
      ensures r == CachedRead(old(files), disk, filename)
      ensures files == CacheAfter(old(files), disk, filename)
      ensures readLog == old(readLog) + ReadsOf(old(files), disk, filename)
    {
      if filename.None? {
        return Err(Runtime("Null DER filename provided"));
      }
      var name := filename.value;
      if name !in files {
        if name !in disk {
          return Err(Runtime("java.nio.file.NoSuchFileException: " + name));
        }
        files := files[name := disk[name]];
        readLog := readLog + [name];
      }
      r := Ok(files[name]);
    }
  }

  /**
   * A file is read at most once: asking again returns the first contents
   * without touching the file system, even after the file changed on disk.
   */
  method ReadOnlyOnce(cache: DerFileCache, name: string, disk: map<string, seq<byte>>, laterDisk: map<string, seq<byte>>)
    returns (first: Result<seq<byte>, Exception>, second: Result<seq<byte>, Exception>)
    requires cache.Valid()
    modifies cache
    ensures first.Ok? ==> second == first && |cache.readLog| == |old(cache.readLog)| + (if name in old(cache.files) then 0 else 1)
    ensures name in old(cache.files) ==> first == Ok(old(cache.files)[name])
  {
    first := cache.DerFileToBytes(Some(name), disk);
    second := cache.DerFileToBytes(Some(name), laterDisk);
  }

  // ---------------------------------------------------------------------
  // CRED and ID_CRED
  // ---------------------------------------------------------------------

  /** The names of the missing CCS inputs, each with a leading space. */
  function MissingCcsInputs(kid: Option<seq<byte>>, keyPair: Option<Key>, subjectName: Option<string>): (r: string)
    ensures r == "" <==> kid.Some? && keyPair.Some? && subjectName.Some?
  {
    (if kid.None? then " kid" else "") +
    (if keyPair.None? then " keyPair" else "") +
    (if subjectName.None? then " subject name" else "")
  }

  /**
   * `buildCred`: a CCS needs the key identifier, the key and the subject
   * name, and the error names every one missing; an X.509 CRED needs the
   * certificate; CWT is not supported and other numbers are refused.
   */
  function BuildCred(credType: int, kid: Option<seq<byte>>, keyPair: Option<Key>, subjectName: Option<string>,
                     serializedCert: Option<seq<byte>>): (r: Result<Cred, Exception>)
    ensures r.Ok? <==> (credType == CRED_TYPE_CCS && kid.Some? && keyPair.Some? && subjectName.Some?) ||
                       (credType == CRED_TYPE_X509 && serializedCert.Some?)
    ensures r.Ok? ==> CredTypeOf(r.value) == credType
    ensures r.Ok? && credType == CRED_TYPE_CCS ==> r.value == CcsCred(keyPair.value, subjectName.value, kid.value)
    ensures r.Ok? && credType == CRED_TYPE_X509 ==> r.value == X509Cred(serializedCert.value)
    ensures credType == CRED_TYPE_CWT ==> r == Err(Unsupported("Cred type: CWT"))
    ensures credType == CRED_TYPE_CCS && r.Err? ==> r.error == Runtime("Null provided:" + MissingCcsInputs(kid, keyPair, subjectName))
    ensures credType !in {CRED_TYPE_CWT, CRED_TYPE_CCS, CRED_TYPE_X509} ==> r.Err? && r.error.IllegalState?
  {
    if credType == CRED_TYPE_CWT then Err(Unsupported("Cred type: CWT"))
    else if credType == CRED_TYPE_CCS then
      var error := MissingCcsInputs(kid, keyPair, subjectName);
      if error != "" then Err(Runtime("Null provided:" + error))
      else Ok(CcsCred(keyPair.value, subjectName.value, kid.value))
    else if credType == CRED_TYPE_X509 then
      if serializedCert.None? then Err(Runtime("Null provided serialized certificate"))
      else Ok(X509Cred(serializedCert.value))
    else Err(IllegalState("Unexpected credType value: " + IntToString(credType)))
  }

  /**
   * `buildIdCred`: each type needs its own input (the key identifier, the
   * CRED, the certificate or the link) and is refused without it; CWT is not
   * supported and other numbers are refused.
   */
  function BuildIdCred(idCredType: int, kid: Option<seq<byte>>, cred: Option<Cred>, serializedCert: Option<seq<byte>>,
                       x5uLink: Option<string>): (r: Result<IdCred, Exception>)
    ensures r.Ok? <==> || (idCredType == ID_CRED_TYPE_KID && kid.Some?)
                       || (idCredType == ID_CRED_TYPE_CCS && cred.Some?)
                       || (idCredType in {ID_CRED_TYPE_X5T, ID_CRED_TYPE_X5CHAIN} && serializedCert.Some?)
                       || (idCredType == ID_CRED_TYPE_X5U && x5uLink.Some?)
    ensures r.Ok? ==> IdCredTypeOf(r.value) == idCredType
    ensures r.Ok? ==> match r.value
                      case IdKid(k) => kid == Some(k)
                      case IdKccs(c) => cred == Some(c)
                      case IdX5t(c) => serializedCert == Some(c)
                      case IdX5chain(c) => serializedCert == Some(c)
                      case IdX5u(l) => x5uLink == Some(l)
    ensures idCredType == ID_CRED_TYPE_CWT ==> r == Err(Unsupported("Id Cred type: CWT "))
    ensures !(0 <= idCredType <= ID_CRED_TYPE_X5CHAIN) ==> r.Err? && r.error.IllegalState?
  {
    if idCredType == ID_CRED_TYPE_KID then
      if kid.None? then Err(Runtime("Null provided kid")) else Ok(IdKid(kid.value))
    else if idCredType == ID_CRED_TYPE_CWT then Err(Unsupported("Id Cred type: CWT "))
    else if idCredType == ID_CRED_TYPE_CCS then
      if cred.None? then Err(Runtime("Null provided cred")) else Ok(IdKccs(cred.value))
    else if idCredType == ID_CRED_TYPE_X5T then
      if serializedCert.None? then Err(Runtime("Null provided serialized certificate")) else Ok(IdX5t(serializedCert.value))
    else if idCredType == ID_CRED_TYPE_X5U then
      if x5uLink.None? then Err(Runtime("Null provided x5uLink")) else Ok(IdX5u(x5uLink.value))
    else if idCredType == ID_CRED_TYPE_X5CHAIN then
      if serializedCert.None? then Err(Runtime("Null provided serialized certificate")) else Ok(IdX5chain(serializedCert.value))
    else Err(IllegalState("Unexpected idCredType value: " + IntToString(idCredType)))
  }

  // ---------------------------------------------------------------------
  // Peer registrations
  // ---------------------------------------------------------------------

  /** The identifiers of a CCS CRED: by value (`kccs`), then by key identifier. */
  function CcsEntries(cred: Cred, kid: seq<byte>): seq<(IdCred, Cred)>
  {
    [(IdKccs(cred), cred), (IdKid(kid), cred)]
  }

  /** The identifiers of an X.509 CRED: by hash, by chain, and by link when there is one. */
  function X509Entries(cred: Cred, cert: seq<byte>, x5uLink: Option<string>): seq<(IdCred, Cred)>
  {
    [(IdX5t(cert), cred), (IdX5chain(cert), cred)] + (if x5uLink.Some? then [(IdX5u(x5uLink.value), cred)] else [])
  }

  /**
   * What `addPeerCredentials` registers, in order, once the certificate is
   * read: with a CRED type, one identifier of the configured type or every
   * identifier of that CRED's kind; without one, both a CCS and an X.509 CRED
   * are built and the identifier type picks between them, or both sets are
   * registered.
   */
  function PeerEntries(credType: Option<int>, idCredType: Option<int>, key: Key, kid: Option<seq<byte>>,
                       serializedCert: Option<seq<byte>>, x5uLink: Option<string>, subjectName: Option<string>)
    : Result<seq<(IdCred, Cred)>, Exception>
  {
    if credType.Some? then
      match BuildCred(credType.value, kid, Some(key), subjectName, serializedCert)
      case Err(e) => Err(e)
      case Ok(cred) =>
        if idCredType.Some? then
          match BuildIdCred(idCredType.value, kid, Some(cred), serializedCert, x5uLink)
          case Err(e) => Err(e)
          case Ok(idCred) => Ok([(idCred, cred)])
        else if credType.value == CRED_TYPE_CCS then Ok(CcsEntries(cred, kid.value))
        else Ok(X509Entries(cred, serializedCert.value, x5uLink))
    else
      match BuildCred(CRED_TYPE_CCS, kid, Some(key), subjectName, None)
      case Err(e) => Err(e)
      case Ok(ccs) =>
        match BuildCred(CRED_TYPE_X509, None, None, None, serializedCert)
        case Err(e) => Err(e)
        case Ok(x509) =>
          if idCredType.Some? then
            var t := idCredType.value;
            if t == ID_CRED_TYPE_KID || t == ID_CRED_TYPE_CCS then
              match BuildIdCred(t, kid, Some(ccs), None, None)
              case Err(e) => Err(e)
              case Ok(idCred) => Ok([(idCred, ccs)])
            else if t == ID_CRED_TYPE_X5T || t == ID_CRED_TYPE_X5U || t == ID_CRED_TYPE_X5CHAIN then
              match BuildIdCred(t, None, Some(x509), serializedCert, x5uLink)
              case Err(e) => Err(e)
              case Ok(idCred) => Ok([(idCred, x509)])
            else Err(Unsupported("Id cred type: " + IntToString(t)))
          else Ok(CcsEntries(ccs, kid.value) + X509Entries(x509, serializedCert.value, x5uLink))
  }

  /** The identifiers of a list of registrations. */
  function Ids(entries: seq<(IdCred, Cred)>): seq<IdCred>
  {
    seq(|entries|, i requires 0 <= i < |entries| => entries[i].0)
  }

  /** With only a CRED type, a CCS is registered under `kccs` and `kid`. */
  lemma CcsTypeOnlyEntries(key: Key, kid: seq<byte>, cert: Option<seq<byte>>, x5uLink: Option<string>, subjectName: string)
    ensures var cred := CcsCred(key, subjectName, kid);
            PeerEntries(Some(CRED_TYPE_CCS), None, key, Some(kid), cert, x5uLink, Some(subjectName)) ==
              Ok([(IdKccs(cred), cred), (IdKid(kid), cred)])
  {
  }

  /**
   * With only a CRED type, an X.509 certificate is registered under `x5t` and
   * `x5chain`, and under `x5u` exactly when a link is configured.
   */
  lemma X509TypeOnlyEntries(key: Key, kid: Option<seq<byte>>, cert: seq<byte>, x5uLink: Option<string>, subjectName: Option<string>)
    ensures var r := PeerEntries(Some(CRED_TYPE_X509), None, key, kid, Some(cert), x5uLink, subjectName);
            && r.Ok?
            && Ids(r.value)[..2] == [IdX5t(cert), IdX5chain(cert)]
            && (x5uLink.Some? <==> |r.value| == 3)
            && (x5uLink.Some? ==> r.value[2].0 == IdX5u(x5uLink.value))
            && forall i :: 0 <= i < |r.value| ==> r.value[i].1 == X509Cred(cert)
  {
  }

  /** With both types configured, exactly one identifier, of the configured type, is registered. */
  lemma BothTypesOneEntry(credType: int, idCredType: int, key: Key, kid: Option<seq<byte>>, cert: Option<seq<byte>>,
                          x5uLink: Option<string>, subjectName: Option<string>)
    requires PeerEntries(Some(credType), Some(idCredType), key, kid, cert, x5uLink, subjectName).Ok?
    ensures var entries := PeerEntries(Some(credType), Some(idCredType), key, kid, cert, x5uLink, subjectName).value;
            |entries| == 1 && IdCredTypeOf(entries[0].0) == idCredType && CredTypeOf(entries[0].1) == credType
  {
  }

  /**
   * With neither type configured, registration needs a key identifier, a
   * subject name and a certificate, and then registers both sets.
   */
  lemma NoTypesBothSets(key: Key, kid: Option<seq<byte>>, cert: Option<seq<byte>>, x5uLink: Option<string>, subjectName: Option<string>)
    ensures var r := PeerEntries(None, None, key, kid, cert, x5uLink, subjectName);
            && (r.Ok? <==> kid.Some? && subjectName.Some? && cert.Some?)
            && (r.Ok? ==> r.value == CcsEntries(CcsCred(key, subjectName.value, kid.value), kid.value) +
                                     X509Entries(X509Cred(cert.value), cert.value, x5uLink))
  {
  }

  /**
   * Without a CRED type both CREDs are built before the identifier type is
   * looked at, so even a `kid` identifier needs the SUL certificate.
   */
  lemma UntypedKidNeedsCertificate(key: Key, kid: seq<byte>, x5uLink: Option<string>, subjectName: string)
    ensures PeerEntries(None, Some(ID_CRED_TYPE_KID), key, Some(kid), None, x5uLink, Some(subjectName)) ==
              Err(Runtime("Null provided serialized certificate"))
    ensures PeerEntries(Some(CRED_TYPE_CCS), Some(ID_CRED_TYPE_KID), key, Some(kid), None, x5uLink, Some(subjectName)) ==
              Ok([(IdKid(kid), CcsCred(key, subjectName, kid))])
  {
  }

  /** A link identifier is registered only when a link is configured, and only that link. */
  lemma X5uOnlyWithLink(credType: Option<int>, idCredType: Option<int>, key: Key, kid: Option<seq<byte>>,
                        cert: Option<seq<byte>>, x5uLink: Option<string>, subjectName: Option<string>, link: string)
    requires PeerEntries(credType, idCredType, key, kid, cert, x5uLink, subjectName).Ok?
    requires IdX5u(link) in Ids(PeerEntries(credType, idCredType, key, kid, cert, x5uLink, subjectName).value)
    ensures x5uLink == Some(link)
  {
    var entries := PeerEntries(credType, idCredType, key, kid, cert, x5uLink, subjectName).value;
    var i :| 0 <= i < |entries| && entries[i].0 == IdX5u(link);
  }

  /** The peer keys after registering `entries`, in order, with `key`. */
  function WithKeys(m: map<IdCred, Key>, entries: seq<(IdCred, Cred)>, key: Key): map<IdCred, Key>
    decreases |entries|
  {
    if |entries| == 0 then m else WithKeys(m[entries[0].0 := key], entries[1..], key)
  }

  /** The peer credentials after registering `entries` in order; a later entry for the same identifier wins. */
  function WithCreds(m: map<IdCred, Cred>, entries: seq<(IdCred, Cred)>): map<IdCred, Cred>
    decreases |entries|
  {
    if |entries| == 0 then m else WithCreds(m[entries[0].0 := entries[0].1], entries[1..])
  }

  /**
   * After registering, every registered identifier maps to the key, the
   * identifiers are the old ones and the registered ones, and an identifier
   * not registered keeps its key.
   */
  lemma {:induction false} WithKeysRegisters(m: map<IdCred, Key>, entries: seq<(IdCred, Cred)>, key: Key, id: IdCred)
    ensures id in WithKeys(m, entries, key) <==> id in m || id in Ids(entries)
    ensures id in Ids(entries) ==> WithKeys(m, entries, key)[id] == key
    ensures id in m && id !in Ids(entries) ==> WithKeys(m, entries, key)[id] == m[id]
    decreases |entries|
  {
    if |entries| > 0 {
      WithKeysRegisters(m[entries[0].0 := key], entries[1..], key, id);
      assert Ids(entries) == [entries[0].0] + Ids(entries[1..]);
    }
  }

  /** After registering, an identifier holds the CRED of its last registration, and others keep theirs. */
  lemma {:induction false} WithCredsRegisters(m: map<IdCred, Cred>, entries: seq<(IdCred, Cred)>, id: IdCred)
    ensures id in WithCreds(m, entries) <==> id in m || id in Ids(entries)
    ensures id in m && id !in Ids(entries) ==> WithCreds(m, entries)[id] == m[id]
    ensures |entries| > 0 && entries[|entries| - 1].0 == id ==>
              id in WithCreds(m, entries) && WithCreds(m, entries)[id] == entries[|entries| - 1].1
    decreases |entries|
  {
    if |entries| > 0 {
      WithCredsRegisters(m[entries[0].0 := entries[0].1], entries[1..], id);
      assert Ids(entries) == [entries[0].0] + Ids(entries[1..]);
    }
  }

  /** Registering one more entry after others is the same as registering them all. */
  lemma {:induction false} WithKeysAppend(m: map<IdCred, Key>, entries: seq<(IdCred, Cred)>, e: (IdCred, Cred), key: Key)
    ensures WithKeys(m, entries + [e], key) == WithKeys(m, entries, key)[e.0 := key]
    decreases |entries|
  {
    if |entries| > 0 {
      assert (entries + [e])[1..] == entries[1..] + [e];
      WithKeysAppend(m[entries[0].0 := key], entries[1..], e, key);
    }
  }

  lemma {:induction false} WithCredsAppend(m: map<IdCred, Cred>, entries: seq<(IdCred, Cred)>, e: (IdCred, Cred))
    ensures WithCreds(m, entries + [e]) == WithCreds(m, entries)[e.0 := e.1]
    decreases |entries|
  {
    if |entries| > 0 {
      assert (entries + [e])[1..] == entries[1..] + [e];
      WithCredsAppend(m[entries[0].0 := entries[0].1], entries[1..], e);
    }
  }

  // ---------------------------------------------------------------------
  // Key slots chosen by the setup
  // ---------------------------------------------------------------------

  /** The four key configurations: Ed25519 and P-256 to sign, X25519 and P-256 for static DH. */
  datatype KeySlot = Ed25519Sig | X25519Stat | P256Sig | P256Stat

  /** The usage and curve a key configuration is installed under. */
  function SlotUsage(slot: KeySlot): KeyUsage
  {
    if slot == Ed25519Sig || slot == P256Sig then SignatureKey else EcdhKey
  }

  function SlotCurve(slot: KeySlot): Curve
  {
    match slot
    case Ed25519Sig => Ed25519
    case X25519Stat => X25519
    case P256Sig => P256
    case P256Stat => P256
  }

  /**
   * The own keys `setupOwnAuthenticationCredentials` installs, in order: the
   * Curve25519-family key for suites 0 and 1, the P-256 key for suites 2 and
   * 3, each of the usage the method calls for; an invalid method is refused
   * when either family is used.
   */
  function OwnKeySlots(authMethod: int, suites: seq<int>): (r: Result<seq<KeySlot>, Exception>)
    ensures r.Err? <==> (UsesCurve25519(suites) || UsesP256(suites)) && !OwnSignatureMethod(authMethod) && !OwnStaticMethod(authMethod)
    ensures r.Ok? ==> forall s :: s in r.value ==> (SlotUsage(s) == SignatureKey <==> OwnSignatureMethod(authMethod))
    ensures r.Ok? ==> (UsesCurve25519(suites) <==> Ed25519Sig in r.value || X25519Stat in r.value)
    ensures r.Ok? ==> (UsesP256(suites) <==> P256Sig in r.value || P256Stat in r.value)
    ensures r.Ok? ==> |r.value| <= 2
  {
    var invalid := Err(Runtime("Invalid authentication method: " + IntToString(authMethod)));
    var sig := OwnSignatureMethod(authMethod);
    if !sig && !OwnStaticMethod(authMethod) && (UsesCurve25519(suites) || UsesP256(suites)) then invalid
    else
      var curve25519 := if UsesCurve25519(suites) then [if sig then Ed25519Sig else X25519Stat] else [];
      var p256 := if UsesP256(suites) then [if sig then P256Sig else P256Stat] else [];
      Ok(curve25519 + p256)
  }

  /**
   * The key configurations `setupPeerAuthenticationCredentials` looks at:
   * the signature keys for methods 0 and 2, the static DH keys for methods 1
   * and 3, none otherwise; each is used only when its SUL public key file is
   * configured.
   */
  function PeerKeySlots(authMethod: int): (r: seq<KeySlot>)
    ensures forall s :: s in r ==> (SlotUsage(s) == SignatureKey <==> PeerSignatureMethod(authMethod))
    ensures |r| == 2 <==> PeerSignatureMethod(authMethod) || PeerStaticMethod(authMethod)
    ensures r == [] <==> !PeerSignatureMethod(authMethod) && !PeerStaticMethod(authMethod)
  {
    if PeerSignatureMethod(authMethod) then [Ed25519Sig, P256Sig]
    else if PeerStaticMethod(authMethod) then [X25519Stat, P256Stat]
    else []
  }

  /** Method 1 (signature by the initiator, static DH by the responder) gives each side a different kind of key. */
  lemma MixedMethodKeys(suites: seq<int>)
    requires UsesCurve25519(suites) && !UsesP256(suites)
    ensures OwnKeySlots(1, suites) == Ok([Ed25519Sig]) && PeerKeySlots(1) == [X25519Stat, P256Stat]
  {
    assert [Ed25519Sig] + [] == [Ed25519Sig];
  }

  // ---------------------------------------------------------------------
  // The authenticator
  // ---------------------------------------------------------------------

  /**
   * `getSulCredType` / `getSulIdCredType`: the configured SUL type as an
   * `int`. The option is null when it was not given, and `toInteger()` on it
   * raises, so no authenticator is built without both SUL types.
   */
  function SulType(configured: Option<int>): (r: Result<int, Exception>)
    ensures r.Ok? <==> configured.Some?
    ensures r.Ok? ==> r.value == configured.value
    ensures r.Err? ==> r.error == NullPointer
  {
    if configured.None? then Err(NullPointer) else Ok(configured.value)
  }

  class ManyFilesAuthenticator {
    const authenticationMethod: int
    const ownCredType: int
    const ownIdCredType: int
    const peerCredType: int
    const peerIdCredType: int
    const store: CredentialStore<IdCred, Cred>
    const cache: DerFileCache
    const supportedCipherSuites: seq<int>

    constructor (authenticationMethod: int, ownCredType: int, ownIdCredType: int,
                 peerCredType: int, peerIdCredType: int,
                 store: CredentialStore<IdCred, Cred>, cache: DerFileCache, supportedCipherSuites: seq<int>)
      ensures this.authenticationMethod == authenticationMethod
      ensures this.ownCredType == ownCredType && this.ownIdCredType == ownIdCredType
      ensures this.peerCredType == peerCredType && this.peerIdCredType == peerIdCredType
      ensures this.store == store && this.cache == cache && this.supportedCipherSuites == supportedCipherSuites
    {
      this.authenticationMethod := authenticationMethod;
      this.ownCredType, this.ownIdCredType := ownCredType, ownIdCredType;
      this.peerCredType, this.peerIdCredType := peerCredType, peerIdCredType;
      this.store, this.cache, this.supportedCipherSuites := store, cache, supportedCipherSuites;
    }

    /**
     * `addOwnCredentials`: a null key is refused; the certificate file, when
     * configured, is read through the cache; then CRED and ID_CRED are built
     * and stored under (`usage`, `curve`) with the key, and the ID_CRED joins
     * the own ones. Nothing is stored when any step fails.
     */
    method AddOwnCredentials(credType: int, idCredType: int, keyPair: Option<Key>, keyConfig: KeyConfig,
                             usage: KeyUsage, curve: Curve, subjectName: Option<string>, disk: map<string, seq<byte>>)
      returns (r: Result<(), Exception>)
      requires store.HasUsage(usage) && cache.Valid()
      modifies store, cache
      ensures cache.Valid()
      ensures keyPair.None? ==> r == Err(Runtime("Null provided keyPair")) && unchanged(cache)
      ensures keyPair.Some? ==> && cache.files == CacheAfter(old(cache.files), disk, keyConfig.mapX509Filename)
                                && cache.readLog == old(cache.readLog) + ReadsOf(old(cache.files), disk, keyConfig.mapX509Filename)
      ensures r.Err? ==> unchanged(store)
      ensures r.Ok? <==> && keyPair.Some?
                         && (keyConfig.mapX509Filename.Some? ==> CachedRead(old(cache.files), disk, keyConfig.mapX509Filename).Ok?)
                         && OwnCredentials(credType, idCredType, keyPair.value, keyConfig, subjectName, old(cache.files), disk).Ok?
      ensures r.Ok? ==>
                var (cred, idCred) := OwnCredentials(credType, idCredType, keyPair.value, keyConfig, subjectName, old(cache.files), disk).value;
                && CredTypeOf(cred) == credType && IdCredTypeOf(idCred) == idCredType
                && store.OwnRegistered(usage, curve, keyPair.value, cred, idCred)
                && store.keyPairs == old(store.keyPairs)[usage := old(store.keyPairs)[usage][curve := keyPair.value]]
                && store.creds == old(store.creds)[usage := old(store.creds)[usage][curve := cred]]
                && store.idCreds == old(store.idCreds)[usage := old(store.idCreds)[usage][curve := idCred]]
                && store.ownIdCreds == old(store.ownIdCreds) + {idCred}
                && store.peerPublicKeys == old(store.peerPublicKeys) && store.peerCredentials == old(store.peerCredentials)
    {
      if keyPair.None? {
        return Err(Runtime("Null provided keyPair"));
      }
      var serializedCert: Option<seq<byte>> := None;
      if keyConfig.mapX509Filename.Some? {
        var read := cache.DerFileToBytes(keyConfig.mapX509Filename, disk);
        if read.Err? {
          return Err(read.error);
        }
        serializedCert := Some(read.value);
      }
      var cred := BuildCred(credType, keyConfig.mapKid, keyPair, subjectName, serializedCert);
      if cred.Err? {
        return Err(cred.error);
      }
      var idCred := BuildIdCred(idCredType, keyConfig.mapKid, Some(cred.value), serializedCert, keyConfig.mapX5uLink);
      if idCred.Err? {
        return Err(idCred.error);
      }
      store.PutOwn(usage, curve, keyPair.value, cred.value, idCred.value);
      r := Ok(());
    }

    /**
     * `addAllPeerIdCredForCCSCred`: the CRED is registered under its `kccs`
     * identifier and then under its `kid`; without a key identifier the
     * second step fails after the first is done.
     */
    method AddAllPeerIdCredForCcsCred(cred: Cred, peerPublicKey: Option<Key>, kid: Option<seq<byte>>) returns (r: Result<(), Exception>)
      modifies store
      ensures peerPublicKey.None? ==> r == Err(Runtime("Null provided peerPublicKey")) && unchanged(store)
      ensures r.Ok? <==> peerPublicKey.Some? && kid.Some?
      ensures r.Ok? ==> store.peerPublicKeys == WithKeys(old(store.peerPublicKeys), CcsEntries(cred, kid.value), peerPublicKey.value)
      ensures r.Ok? ==> store.peerCredentials == WithCreds(old(store.peerCredentials), CcsEntries(cred, kid.value))
      ensures peerPublicKey.Some? && kid.None? ==>
                && r == Err(Runtime("Null provided kid")) && store.PeerRegistered(IdKccs(cred), peerPublicKey.value, cred)
                && store.peerPublicKeys == old(store.peerPublicKeys)[IdKccs(cred) := peerPublicKey.value]
                && store.peerCredentials == old(store.peerCredentials)[IdKccs(cred) := cred]
      ensures store.keyPairs == old(store.keyPairs) && store.creds == old(store.creds)
      ensures store.idCreds == old(store.idCreds) && store.ownIdCreds == old(store.ownIdCreds)
    {
      if peerPublicKey.None? {
        return Err(Runtime("Null provided peerPublicKey"));
      }
      var key := peerPublicKey.value;
      var kccs := BuildIdCred(ID_CRED_TYPE_CCS, None, Some(cred), None, None);
      store.PutPeer(kccs.value, key, cred);
      var byKid := BuildIdCred(ID_CRED_TYPE_KID, kid, None, None, None);
      if byKid.Err? {
        return Err(byKid.error);
      }
      store.PutPeer(byKid.value, key, cred);
      WithKeysAppend(old(store.peerPublicKeys), [(IdKccs(cred), cred)], (IdKid(kid.value), cred), key);
      WithCredsAppend(old(store.peerCredentials), [(IdKccs(cred), cred)], (IdKid(kid.value), cred));
      assert [(IdKccs(cred), cred)] + [(IdKid(kid.value), cred)] == CcsEntries(cred, kid.value);
      r := Ok(());
    }

    /**
     * `addAllPeerIdCredForX509Cred`: the CRED is registered under `x5t` and
     * `x5chain` of the certificate, and under `x5u` when a link is given.
     */
    method AddAllPeerIdCredForX509Cred(cred: Cred, peerPublicKey: Option<Key>, serializedCert: Option<seq<byte>>,
                                       x5uLink: Option<string>) returns (r: Result<(), Exception>)
      modifies store
      ensures peerPublicKey.None? ==> r == Err(Runtime("Null provided peerPublicKey"))
      ensures serializedCert.None? ==> r.Err? && unchanged(store)
      ensures r.Ok? <==> peerPublicKey.Some? && serializedCert.Some?
      ensures r.Ok? ==> store.peerPublicKeys ==
                          WithKeys(old(store.peerPublicKeys), X509Entries(cred, serializedCert.value, x5uLink), peerPublicKey.value)
      ensures r.Ok? ==> store.peerCredentials == WithCreds(old(store.peerCredentials), X509Entries(cred, serializedCert.value, x5uLink))
      ensures store.keyPairs == old(store.keyPairs) && store.creds == old(store.creds)
      ensures store.idCreds == old(store.idCreds) && store.ownIdCreds == old(store.ownIdCreds)
    {
      if peerPublicKey.None? {
        return Err(Runtime("Null provided peerPublicKey"));
      }
      var key := peerPublicKey.value;
      var x5t := BuildIdCred(ID_CRED_TYPE_X5T, None, None, serializedCert, None);
      if x5t.Err? {
        return Err(x5t.error);
      }
      var cert := serializedCert.value;
      store.PutPeer(x5t.value, key, cred);
      var x5chain := BuildIdCred(ID_CRED_TYPE_X5CHAIN, None, None, serializedCert, None);
      store.PutPeer(x5chain.value, key, cred);
      WithKeysAppend(old(store.peerPublicKeys), [(IdX5t(cert), cred)], (IdX5chain(cert), cred), key);
      WithCredsAppend(old(store.peerCredentials), [(IdX5t(cert), cred)], (IdX5chain(cert), cred));
      ghost var both := [(IdX5t(cert), cred)] + [(IdX5chain(cert), cred)];
      if x5uLink.Some? {
        var x5u := BuildIdCred(ID_CRED_TYPE_X5U, None, None, None, x5uLink);
        store.PutPeer(x5u.value, key, cred);
        WithKeysAppend(old(store.peerPublicKeys), both, (IdX5u(x5uLink.value), cred), key);
        WithCredsAppend(old(store.peerCredentials), both, (IdX5u(x5uLink.value), cred));
        assert both + [(IdX5u(x5uLink.value), cred)] == X509Entries(cred, cert, x5uLink);
      } else {
        assert both == X509Entries(cred, cert, x5uLink);
      }
      r := Ok(());
    }

    /**
     * `addPeerCredentials`: a null key is refused; the SUL certificate file,
     * when configured, is read through the cache; then the registrations
     * `PeerEntries` describes are made in order. Nothing is registered when
     * a step fails.
     */
    method AddPeerCredentials(credType: Option<int>, idCredType: Option<int>, peerPublicKey: Option<Key>,
                              keyConfig: KeyConfig, subjectName: Option<string>, disk: map<string, seq<byte>>)
      returns (r: Result<(), Exception>)
      requires cache.Valid()
      modifies store, cache
      ensures cache.Valid()
      ensures peerPublicKey.None? ==> r == Err(Runtime("Null provided peerPublicKey")) && unchanged(cache)
      ensures peerPublicKey.Some? ==> && cache.files == CacheAfter(old(cache.files), disk, keyConfig.sulX509Filename)
                                      && cache.readLog == old(cache.readLog) + ReadsOf(old(cache.files), disk, keyConfig.sulX509Filename)
      ensures r.Err? ==> unchanged(store)
      ensures peerPublicKey.Some? && keyConfig.sulX509Filename.Some? &&
              CachedRead(old(cache.files), disk, keyConfig.sulX509Filename).Err? ==>
                r == Err(CachedRead(old(cache.files), disk, keyConfig.sulX509Filename).error)
      ensures var cert := PeerCert(keyConfig, old(cache.files), disk);
              peerPublicKey.Some? && cert.Ok? ==>
                var entries := PeerEntries(credType, idCredType, peerPublicKey.value, keyConfig.sulKid, cert.value,
                                           keyConfig.sulX5uLink, subjectName);
                && (r.Ok? <==> entries.Ok?)
                && (r.Err? ==> r.error == entries.error)
                && (r.Ok? ==> store.peerPublicKeys == WithKeys(old(store.peerPublicKeys), entries.value, peerPublicKey.value))
                && (r.Ok? ==> store.peerCredentials == WithCreds(old(store.peerCredentials), entries.value))
      ensures store.keyPairs == old(store.keyPairs) && store.creds == old(store.creds)
      ensures store.idCreds == old(store.idCreds) && store.ownIdCreds == old(store.ownIdCreds)
    {
      if peerPublicKey.None? {
        return Err(Runtime("Null provided peerPublicKey"));
      }
      var serializedCert: Option<seq<byte>> := None;
      if keyConfig.sulX509Filename.Some? {
        var read := cache.DerFileToBytes(keyConfig.sulX509Filename, disk);
        if read.Err? {
          return Err(read.error);
        }
        serializedCert := Some(read.value);
      }
      if credType.Some? {
        r := AddTypedPeerCredentials(credType.value, idCredType, peerPublicKey.value, keyConfig, serializedCert, subjectName);
      } else {
        r := AddUntypedPeerCredentials(idCredType, peerPublicKey.value, keyConfig, serializedCert, subjectName);
      }
    }

    /** The branch of `addPeerCredentials` for a configured CRED type. */
    method AddTypedPeerCredentials(credType: int, idCredType: Option<int>, key: Key, keyConfig: KeyConfig,
                                   serializedCert: Option<seq<byte>>, subjectName: Option<string>)
      returns (r: Result<(), Exception>)
      modifies store
      ensures var entries := PeerEntries(Some(credType), idCredType, key, keyConfig.sulKid, serializedCert,
                                         keyConfig.sulX5uLink, subjectName);
              && (r.Ok? <==> entries.Ok?)
              && (r.Err? ==> r.error == entries.error && unchanged(store))
              && (r.Ok? ==> store.peerPublicKeys == WithKeys(old(store.peerPublicKeys), entries.value, key))
              && (r.Ok? ==> store.peerCredentials == WithCreds(old(store.peerCredentials), entries.value))
      ensures store.keyPairs == old(store.keyPairs) && store.creds == old(store.creds)
      ensures store.idCreds == old(store.idCreds) && store.ownIdCreds == old(store.ownIdCreds)
    {
      var kid := keyConfig.sulKid;
      var cred := BuildCred(credType, kid, Some(key), subjectName, serializedCert);
      if cred.Err? {
        return Err(cred.error);
      }
      if idCredType.Some? {
        var idCred := BuildIdCred(idCredType.value, kid, Some(cred.value), serializedCert, keyConfig.sulX5uLink);
        if idCred.Err? {
          return Err(idCred.error);
        }
        store.PutPeer(idCred.value, key, cred.value);
        WithKeysAppend(old(store.peerPublicKeys), [], (idCred.value, cred.value), key);
        WithCredsAppend(old(store.peerCredentials), [], (idCred.value, cred.value));
        assert [] + [(idCred.value, cred.value)] == [(idCred.value, cred.value)];
        r := Ok(());
      } else if credType == CRED_TYPE_CCS {
        r := AddAllPeerIdCredForCcsCred(cred.value, Some(key), kid);
      } else {
        r := AddAllPeerIdCredForX509Cred(cred.value, Some(key), serializedCert, keyConfig.sulX5uLink);
      }
    }

    /** The branch of `addPeerCredentials` without a CRED type: both CREDs are built first. */
    method AddUntypedPeerCredentials(idCredType: Option<int>, key: Key, keyConfig: KeyConfig,
                                     serializedCert: Option<seq<byte>>, subjectName: Option<string>)
      returns (r: Result<(), Exception>)
      modifies store
      ensures var entries := PeerEntries(None, idCredType, key, keyConfig.sulKid, serializedCert,
                                         keyConfig.sulX5uLink, subjectName);
              && (r.Ok? <==> entries.Ok?)
              && (r.Err? ==> r.error == entries.error && unchanged(store))
              && (r.Ok? ==> store.peerPublicKeys == WithKeys(old(store.peerPublicKeys), entries.value, key))
              && (r.Ok? ==> store.peerCredentials == WithCreds(old(store.peerCredentials), entries.value))
      ensures store.keyPairs == old(store.keyPairs) && store.creds == old(store.creds)
      ensures store.idCreds == old(store.idCreds) && store.ownIdCreds == old(store.ownIdCreds)
    {
      var kid := keyConfig.sulKid;
      var ccs := BuildCred(CRED_TYPE_CCS, kid, Some(key), subjectName, None);
      if ccs.Err? {
        return Err(ccs.error);
      }
      var x509 := BuildCred(CRED_TYPE_X509, None, None, None, serializedCert);
      if x509.Err? {
        return Err(x509.error);
      }
      if idCredType.Some? {
        var t := idCredType.value;
        var idCred: Result<IdCred, Exception>;
        var cred: Cred;
        if t == ID_CRED_TYPE_KID || t == ID_CRED_TYPE_CCS {
          cred := ccs.value;
          idCred := BuildIdCred(t, kid, Some(ccs.value), None, None);
        } else if t == ID_CRED_TYPE_X5T || t == ID_CRED_TYPE_X5U || t == ID_CRED_TYPE_X5CHAIN {
          cred := x509.value;
          idCred := BuildIdCred(t, None, Some(x509.value), serializedCert, keyConfig.sulX5uLink);
        } else {
          return Err(Unsupported("Id cred type: " + IntToString(t)));
        }
        if idCred.Err? {
          return Err(idCred.error);
        }
        store.PutPeer(idCred.value, key, cred);
        WithKeysAppend(old(store.peerPublicKeys), [], (idCred.value, cred), key);
        WithCredsAppend(old(store.peerCredentials), [], (idCred.value, cred));
        assert [] + [(idCred.value, cred)] == [(idCred.value, cred)];
        r := Ok(());
      } else {
        r := AddAllPeerIdCredForCcsCred(ccs.value, Some(key), kid);
        ghost var mid := CcsEntries(ccs.value, kid.value);
        r := AddAllPeerIdCredForX509Cred(x509.value, Some(key), serializedCert, keyConfig.sulX5uLink);
        WithKeysConcat(old(store.peerPublicKeys), mid, X509Entries(x509.value, serializedCert.value, keyConfig.sulX5uLink), key);
        WithCredsConcat(old(store.peerCredentials), mid, X509Entries(x509.value, serializedCert.value, keyConfig.sulX5uLink));
      }
    }
  }

  /** The SUL certificate `addPeerCredentials` works with: none, or the file read through the cache. */
  function PeerCert(keyConfig: KeyConfig, files: map<string, seq<byte>>, disk: map<string, seq<byte>>): (r: Result<Option<seq<byte>>, Exception>)
    ensures keyConfig.sulX509Filename.None? ==> r == Ok(None)
    ensures keyConfig.sulX509Filename.Some? ==> (r.Ok? <==> CachedRead(files, disk, keyConfig.sulX509Filename).Ok?)
    ensures r.Ok? && r.value.Some? ==> Ok(r.value.value) == CachedRead(files, disk, keyConfig.sulX509Filename)
  {
    if keyConfig.sulX509Filename.None? then Ok(None)
    else match CachedRead(files, disk, keyConfig.sulX509Filename)
      case Err(e) => Err(e)
      case Ok(c) => Ok(Some(c))
  }

  /** The own CRED and ID_CRED `addOwnCredentials` builds once the key is known. */
  function OwnCredentials(credType: int, idCredType: int, key: Key, keyConfig: KeyConfig, subjectName: Option<string>,
                          files: map<string, seq<byte>>, disk: map<string, seq<byte>>): (r: Result<(Cred, IdCred), Exception>)
    ensures r.Ok? ==> CredTypeOf(r.value.0) == credType && IdCredTypeOf(r.value.1) == idCredType
  {
    var cert := if keyConfig.mapX509Filename.None? then Ok(None)
                else match CachedRead(files, disk, keyConfig.mapX509Filename)
                  case Err(e) => Err(e)
                  case Ok(c) => Ok(Some(c));
    if cert.Err? then Err(cert.error)
    else
      match BuildCred(credType, keyConfig.mapKid, Some(key), subjectName, cert.value)
      case Err(e) => Err(e)
      case Ok(cred) =>
        match BuildIdCred(idCredType, keyConfig.mapKid, Some(cred), cert.value, keyConfig.mapX5uLink)
        case Err(e) => Err(e)
        case Ok(idCred) => Ok((cred, idCred))
  }

  lemma {:induction false} WithKeysConcat(m: map<IdCred, Key>, a: seq<(IdCred, Cred)>, b: seq<(IdCred, Cred)>, key: Key)
    ensures WithKeys(m, a + b, key) == WithKeys(WithKeys(m, a, key), b, key)
    decreases |a|
  {
    if |a| > 0 {
      assert (a + b)[1..] == a[1..] + b;
      WithKeysConcat(m[a[0].0 := key], a[1..], b, key);
    } else {
      assert a + b == b;
    }
  }

  lemma {:induction false} WithCredsConcat(m: map<IdCred, Cred>, a: seq<(IdCred, Cred)>, b: seq<(IdCred, Cred)>)
    ensures WithCreds(m, a + b) == WithCreds(WithCreds(m, a), b)
    decreases |a|
  {
    if |a| > 0 {
      assert (a + b)[1..] == a[1..] + b;
      WithCredsConcat(m[a[0].0 := a[0].1], a[1..], b);
    } else {
      assert a + b == b;
    }
  }
}
