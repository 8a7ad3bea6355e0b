/**
 * The mapper's EDHOC state as it is set up before the first message
 * (`EdhocMapperState`): the reserved connection identifiers, the application
 * profile of the EDHOC resource, the session registered under the mapper's own
 * identifier (and under a forced OSCORE recipient identifier), and which side
 * prepends connection identifiers to its messages.
 */
module MapperState {
  import opened Types
  import opened Cbor
  import AppProfiles

  /** The highest EDHOC authentication method number (method 3: static DH keys on both sides). */
  const EDHOC_AUTH_METHOD_3: int := 3

  /** The parts of the configuration the state is built from; identifiers are already parsed from hexadecimal. */
  datatype StateConfig = StateConfig(
    isInitiator: bool,
    useCXCorrelation: bool,
    useSessionReset: bool,
    ownConnectionId: Option<seq<byte>>,
    forceOscoreSenderId: Option<seq<byte>>,
    forceOscoreRecipientId: Option<seq<byte>>)

  /** What a new `EdhocSessionPersistent` is given. */
  datatype Session = Session(
    uri: string,
    isInitiator: bool,
    isClientInitiated: bool,
    authenticationMethod: int,
    connectionId: Option<seq<byte>>,
    sessionReset: bool,
    forceOscoreSenderId: Option<seq<byte>>,
    forceOscoreRecipientId: Option<seq<byte>>)

  /** `CBORObject.FromObject` on a byte array: a byte string, or CBOR null for a Java null. */
  function IdentifierKey(id: Option<seq<byte>>): (r: Cbor)
    ensures id.None? <==> r == Null
    ensures id.Some? ==> r == Bytes(id.value)
  {
    if id.None? then Null else Bytes(id.value)
  }

  lemma IdentifierKeyInjective(a: Option<seq<byte>>, b: Option<seq<byte>>)
    requires IdentifierKey(a) == IdentifierKey(b)
    ensures a == b
  {
  }

  class EdhocMapperState {
    const isCoapClient: bool
    const config: StateConfig
    var authenticationMethod: int
    var supportedCipherSuites: seq<int>
    var appProfiles: map<string, AppProfiles.AppProfile>
    var usedConnectionIds: set<Cbor>
    var sessions: map<Cbor, Session>
    var session: Session

    /**
     * The constructor. The authentication method and cipher suites come from
     * the active authentication configuration; setting up the credentials
     * is done by the authenticators, modelled on their own.
     */
    constructor (isCoapClient: bool, config: StateConfig, edhocSessionUri: string, authenticationMethod: int,
                 supportedCipherSuites: seq<int>)
      ensures this.isCoapClient == isCoapClient && this.config == config
      ensures this.authenticationMethod == authenticationMethod
      ensures this.supportedCipherSuites == supportedCipherSuites
      ensures appProfiles == map[edhocSessionUri := AppProfiles.BuildDefault({0, 1, 2, 3})]
      ensures usedConnectionIds == {Bytes([]), IdentifierKey(config.ownConnectionId)}
      ensures session.uri == edhocSessionUri && session.isInitiator == config.isInitiator
      ensures session.isClientInitiated <==> config.isInitiator == isCoapClient
      ensures session.authenticationMethod == authenticationMethod && session.connectionId == config.ownConnectionId
      ensures session.sessionReset == config.useSessionReset
      ensures session.forceOscoreSenderId == config.forceOscoreSenderId
      ensures session.forceOscoreRecipientId == config.forceOscoreRecipientId
      ensures IdentifierKey(config.ownConnectionId) in sessions
      ensures config.forceOscoreRecipientId.Some? ==> IdentifierKey(config.forceOscoreRecipientId) in sessions
      ensures forall k :: k in sessions ==> sessions[k] == session
      ensures config.forceOscoreRecipientId.None? ==> sessions == map[IdentifierKey(config.ownConnectionId) := session]
      ensures config.forceOscoreRecipientId.Some? ==>
                sessions == map[IdentifierKey(config.ownConnectionId) := session,
                                IdentifierKey(config.forceOscoreRecipientId) := session]
    {
      this.isCoapClient := isCoapClient;
      this.config := config;
      this.authenticationMethod := authenticationMethod;
      this.supportedCipherSuites := supportedCipherSuites;

      var authMethods: set<int> := {};
      for i := 0 to EDHOC_AUTH_METHOD_3 + 1
        invariant forall m :: m in authMethods <==> 0 <= m < i
      {
        authMethods := authMethods + {i};
      }
      assert authMethods == {0, 1, 2, 3} by {
        assert forall m :: m in authMethods <==> 0 <= m < 4;
      }
      appProfiles := map[edhocSessionUri := AppProfiles.BuildDefault(authMethods)];

      var reserved := {Bytes([])};
      usedConnectionIds := reserved + {IdentifierKey(config.ownConnectionId)};

      var isClientInitiated := config.isInitiator == isCoapClient;
      var s := Session(edhocSessionUri, config.isInitiator, isClientInitiated, authenticationMethod,
                       config.ownConnectionId, config.useSessionReset, config.forceOscoreSenderId,
                       config.forceOscoreRecipientId);
      session := s;
      var registered := map[IdentifierKey(config.ownConnectionId) := s];
      if config.forceOscoreRecipientId.Some? {
        registered := registered[IdentifierKey(config.forceOscoreRecipientId) := s];
      }
      sessions := registered;
    }

    /** `sendWithPrependedCX`: only a CoAP client prepends, and only with correlation enabled. */
    predicate SendWithPrependedCX()
    {
      isCoapClient && config.useCXCorrelation
    }

    /** `receiveWithPrependedCX`: only a CoAP server expects a prepended identifier, and only with correlation enabled. */
    predicate ReceiveWithPrependedCX()
    {
      !isCoapClient && config.useCXCorrelation
    }

    /**
     * The two sides never both prepend, each needs correlation, and with
     * correlation enabled exactly one of them does.
     */
    lemma PrependedCXExclusive()
      ensures !(SendWithPrependedCX() && ReceiveWithPrependedCX())
      ensures SendWithPrependedCX() || ReceiveWithPrependedCX() <==> config.useCXCorrelation
    {
    }
  }
}
