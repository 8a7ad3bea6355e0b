/**
 * The credential collections of an EDHOC endpoint, which the authenticators
 * fill: the own key pairs, CRED and ID_CRED values indexed by key usage and
 * curve, the set of own ID_CRED values, and the peer keys and credentials
 * indexed by ID_CRED. The two authenticators represent CRED and ID_CRED
 * differently, so the store is generic in both.
 */
module Credentials {
  import opened Types

  /** `Constants.SIGNATURE_KEY` and `Constants.ECDH_KEY`. */
  datatype KeyUsage = SignatureKey | EcdhKey

  /** `Constants.CURVE_Ed25519`, `CURVE_X25519` and `CURVE_P256`. */
  datatype Curve = Ed25519 | X25519 | P256

  /** A COSE key (`OneKey`): its curve, the private part when there is one, and the public part. */
  datatype Key = Key(curve: Curve, privateKey: Option<seq<byte>>, publicKey: seq<byte>)

  /** Methods 0 and 1 give the mapper a signature key; 2 and 3 a static Diffie-Hellman key (section 3.2 of RFC 9528). */
  predicate OwnSignatureMethod(authMethod: int) { authMethod == 0 || authMethod == 1 }
  predicate OwnStaticMethod(authMethod: int) { authMethod == 2 || authMethod == 3 }

  /** Methods 0 and 2 give the peer a signature key; 1 and 3 a static Diffie-Hellman key. */
  predicate PeerSignatureMethod(authMethod: int) { authMethod == 0 || authMethod == 2 }
  predicate PeerStaticMethod(authMethod: int) { authMethod == 1 || authMethod == 3 }

  /** Whether the cipher suites call for the Curve25519 family (suites 0, 1) or for P-256 (suites 2, 3). */
  predicate UsesCurve25519(suites: seq<int>) { 0 in suites || 1 in suites }
  predicate UsesP256(suites: seq<int>) { 2 in suites || 3 in suites }

  class CredentialStore<Id(==), C(==)> {
    var keyPairs: map<KeyUsage, map<Curve, Key>>
    var creds: map<KeyUsage, map<Curve, C>>
    var idCreds: map<KeyUsage, map<Curve, Id>>
    var ownIdCreds: set<Id>
    var peerPublicKeys: map<Id, Key>
    var peerCredentials: map<Id, C>

    constructor ()
      ensures keyPairs == map[] && creds == map[] && idCreds == map[]
      ensures ownIdCreds == {} && peerPublicKeys == map[] && peerCredentials == map[]
    {
      keyPairs, creds, idCreds := map[], map[], map[];
      ownIdCreds, peerPublicKeys, peerCredentials := {}, map[], map[];
    }

    /** The inner maps for `usage` exist in all three collections. */
    predicate HasUsage(usage: KeyUsage)
      reads this
    {
      usage in keyPairs && usage in creds && usage in idCreds
    }

    /** Whether the own key, CRED and ID_CRED for (`usage`, `curve`) are these, and the ID_CRED is among the own ones. */
    predicate OwnRegistered(usage: KeyUsage, curve: Curve, key: Key, cred: C, idCred: Id)
      reads this
    {
      && HasUsage(usage)
      && curve in keyPairs[usage] && keyPairs[usage][curve] == key
      && curve in creds[usage] && creds[usage][curve] == cred
      && curve in idCreds[usage] && idCreds[usage][curve] == idCred
      && idCred in ownIdCreds
    }

    /** Whether the peer key and credential stored under `idCred` are these. */
    predicate PeerRegistered(idCred: Id, key: Key, cred: C)
      reads this
    {
      idCred in peerPublicKeys && peerPublicKeys[idCred] == key &&
      idCred in peerCredentials && peerCredentials[idCred] == cred
    }

    /**
     * The start of `setupOwnAuthenticationCredentials`: new, empty inner maps
     * for both key usages in the three collections.
     */
    method ResetOwn()
      modifies this
      ensures keyPairs == old(keyPairs)[SignatureKey := map[]][EcdhKey := map[]]
      ensures creds == old(creds)[SignatureKey := map[]][EcdhKey := map[]]
      ensures idCreds == old(idCreds)[SignatureKey := map[]][EcdhKey := map[]]
      ensures HasUsage(SignatureKey) && HasUsage(EcdhKey)
      ensures ownIdCreds == old(ownIdCreds)
      ensures peerPublicKeys == old(peerPublicKeys) && peerCredentials == old(peerCredentials)
    {
      keyPairs := keyPairs[SignatureKey := map[]][EcdhKey := map[]];
      creds := creds[SignatureKey := map[]][EcdhKey := map[]];
      idCreds := idCreds[SignatureKey := map[]][EcdhKey := map[]];
    }

    /**
     * Own credentials go into the three collections under (`usage`, `curve`),
     * and the ID_CRED joins the own ones; entries for other pairs stay.
     */
    method PutOwn(usage: KeyUsage, curve: Curve, key: Key, cred: C, idCred: Id)
      requires HasUsage(usage)
      modifies this
      ensures OwnRegistered(usage, curve, key, cred, idCred)
      ensures keyPairs == old(keyPairs)[usage := old(keyPairs)[usage][curve := key]]
      ensures creds == old(creds)[usage := old(creds)[usage][curve := cred]]
      ensures idCreds == old(idCreds)[usage := old(idCreds)[usage][curve := idCred]]
      ensures ownIdCreds == old(ownIdCreds) + {idCred}
      ensures peerPublicKeys == old(peerPublicKeys) && peerCredentials == old(peerCredentials)
    {
      keyPairs := keyPairs[usage := keyPairs[usage][curve := key]];
      creds := creds[usage := creds[usage][curve := cred]];
      idCreds := idCreds[usage := idCreds[usage][curve := idCred]];
      ownIdCreds := ownIdCreds + {idCred};
    }

    /** A peer key and credential are stored under their ID_CRED, replacing what was there. */
    method PutPeer(idCred: Id, key: Key, cred: C)
      modifies this
      ensures PeerRegistered(idCred, key, cred)
      ensures peerPublicKeys == old(peerPublicKeys)[idCred := key]
      ensures peerCredentials == old(peerCredentials)[idCred := cred]
      ensures keyPairs == old(keyPairs) && creds == old(creds) && idCreds == old(idCreds)
      ensures ownIdCreds == old(ownIdCreds)
    {
      peerPublicKeys := peerPublicKeys[idCred := key];
      peerCredentials := peerCredentials[idCred := cred];
    }
  }
}
