/**
 * The mapper's configuration (`EdhocMapperConfig`): the `ip:port` host that is
 * fixed by the first successful `initializeHost`, the hexadecimal connection
 * identifier options, the EDHOC role and the upper-cased CoAP message codes.
 */
module MapperConfig {
  import opened Types
  import opened Strings
  import opened Hex

  datatype EdhocRole = Initiator | Responder

  /** `host` is `ip:port` with exactly one colon and a port Java's `Integer.parseInt` accepts. */
  predicate HostPortAt(host: string, k: int)
  {
    0 <= k < |host| && host[k] == ':' && ':' !in host[..k] && ':' !in host[k + 1..] && ParseInt(host[k + 1..]).Ok?
  }

  /** `checkAndReturnHost`: `host.split(":", -1)` must have two parts and the second must parse as an integer. */
  function CheckAndReturnHost(host: string): (r: Result<string, Exception>)
    ensures r.Ok? ==> r.value == host && ':' in host
    ensures r.Err? ==> r.error.Runtime?
  {
    var parts := SplitAt(host, ':');
    if |parts| != 2 then Err(Runtime("Argument provided to -connect has not the correct format: ip:port"))
    else if ParseInt(parts[1]).Err? then Err(Runtime("Port number '" + parts[1] + "' in -connect is not an integer"))
    else
      JoinSplitAt(host, ':');
      assert host == parts[0] + [':'] + parts[1];
      assert host[|parts[0]|] == ':';
      Ok(host)
  }

  /** The host check accepts exactly the strings with one colon followed by an integer port. */
  lemma HostAccepted(host: string)
    ensures CheckAndReturnHost(host).Ok? <==> exists k :: HostPortAt(host, k)
  {
    var parts := SplitAt(host, ':');
    if CheckAndReturnHost(host).Ok? {
      JoinSplitAt(host, ':');
      SplitAtPieces(host, ':');
      var k := |parts[0]|;
      assert host == parts[0] + [':'] + parts[1];
      assert host[..k] == parts[0] && host[k + 1..] == parts[1];
      assert ':' !in parts[0] by {
        forall j | 0 <= j < |parts[0]| ensures parts[0][j] != ':' { }
      }
      assert ':' !in parts[1] by {
        forall j | 0 <= j < |parts[1]| ensures parts[1][j] != ':' { }
      }
      assert HostPortAt(host, k);
    }
    if exists k :: HostPortAt(host, k) {
      var k :| HostPortAt(host, k);
      assert host == host[..k] + [':'] + host[k + 1..];
      SplitAfterFirst(host[..k], ':', host[k + 1..]);
      SplitAtWithout(host[k + 1..], ':');
      assert parts == [host[..k], host[k + 1..]];
    }
  }

  /**
   * `parseHexString`: an absent option stays absent, `[]` is the empty
   * identifier, and anything else is read as hexadecimal digits.
   */
  function ParseHexString(hex: Option<string>): (r: Result<Option<seq<byte>>, Exception>)
    ensures hex.None? <==> r == Ok(None)
    ensures hex == Some("[]") ==> r == Ok(Some([]))
    ensures r.Ok? && r.value.Some? && hex != Some("[]") ==> |hex.value| == 2 * |r.value.value|
    ensures r.Err? ==> r.error == IllegalArgument
  {
    if hex.None? then Ok(None)
    else if hex.value == "[]" then Ok(Some([]))
    else
      match HexToBytes(hex.value)
      case Ok(b) => Ok(Some(b))
      case Err(e) =>
        assert e == IllegalArgument by { HexToBytesErrors(hex.value); }
        Err(e)
  }

  lemma {:induction false} HexToBytesErrors(s: string)
    requires HexToBytes(s).Err?
    ensures HexToBytes(s).error == IllegalArgument
    decreases |s|
  {
    if |s| % 2 == 0 && |s| > 0 && DigitValue(s[0]).Some? && DigitValue(s[1]).Some? {
      HexToBytesErrors(s[2..]);
    }
  }

  /** Every identifier, written in hexadecimal, is read back; the empty one also as `[]`. */
  lemma ParseHexRoundTrip(id: seq<byte>)
    ensures ParseHexString(Some(BytesToHex(id))) == Ok(Some(id))
    ensures id == [] ==> ParseHexString(Some("[]")) == Ok(Some(id))
  {
    HexRoundTrip(id);
    assert HexToBytes("[]").Err? by { assert DigitValue('[') == None; }
  }

  /** `Ascii.toUpperCase` is idempotent: an upper-cased message code stays as it is. */
  lemma UpperIdempotent(s: string)
    ensures ToUpper(ToUpper(s)) == ToUpper(s)
  {
    var u := ToUpper(s);
    assert forall i :: 0 <= i < |u| ==> !('a' <= u[i] <= 'z');
  }

  /** The configuration; the host is the one field that changes after parsing. */
  class EdhocMapperConfig {
    var host: string
    const edhocRole: Option<EdhocRole>
    const appMessageCodeToCoapServer: string
    const appMessageCodeToCoapClient: string
    const ownConnectionId: Option<string>
    const forceOscoreSenderId: Option<string>
    const forceOscoreRecipientId: Option<string>
    const edhocCoapResource: string
    const appCoapResource: string

    constructor (edhocRole: Option<EdhocRole>, codeToServer: string, codeToClient: string, ownConnectionId: Option<string>,
                 forceOscoreSenderId: Option<string>, forceOscoreRecipientId: Option<string>,
                 edhocCoapResource: string, appCoapResource: string)
      ensures host == ""
      ensures this.edhocCoapResource == edhocCoapResource && this.appCoapResource == appCoapResource
      ensures this.edhocRole == edhocRole
      ensures appMessageCodeToCoapServer == codeToServer && appMessageCodeToCoapClient == codeToClient
      ensures this.ownConnectionId == ownConnectionId
      ensures this.forceOscoreSenderId == forceOscoreSenderId && this.forceOscoreRecipientId == forceOscoreRecipientId
    {
      host := "";
      this.edhocRole := edhocRole;
      appMessageCodeToCoapServer := codeToServer;
      appMessageCodeToCoapClient := codeToClient;
      this.ownConnectionId := ownConnectionId;
      this.forceOscoreSenderId := forceOscoreSenderId;
      this.forceOscoreRecipientId := forceOscoreRecipientId;
      this.edhocCoapResource := edhocCoapResource;
      this.appCoapResource := appCoapResource;
    }

    /**
     * `initializeHost`: only while no host is set is the argument checked and
     * stored; once a host is stored every later call leaves it alone.
     */
    method InitializeHost(h: string) returns (r: Result<(), Exception>)
      modifies this
      ensures old(host) != "" ==> r.Ok? && host == old(host)
      ensures old(host) == "" ==> (r.Ok? <==> exists k :: HostPortAt(h, k))
      ensures old(host) == "" && r.Ok? ==> host == h
      ensures r.Err? ==> host == old(host) && r.error.Runtime?
      ensures r.Ok? ==> host != ""
    {
      if host == "" {
        HostAccepted(h);
        var checked := CheckAndReturnHost(h);
        if checked.Err? {
          return Err(checked.error);
        }
        host := checked.value;
      }
      return Ok(());
    }

    predicate IsInitiator() { edhocRole == Some(Initiator) }

    predicate IsResponder() { edhocRole == Some(Responder) }

    /** The two role predicates never hold together, and one of them holds once the role is set. */
    lemma RolesExclusive()
      ensures !(IsInitiator() && IsResponder())
      ensures edhocRole.Some? <==> IsInitiator() || IsResponder()
    {
      if edhocRole.Some? {
        assert edhocRole.value == Initiator || edhocRole.value == Responder;
      }
    }

    /** `getAppMessageCodeToCoapServer`: the configured code with its ASCII letters upper-cased. */
    function AppMessageCodeToCoapServer(): (r: string)
      ensures |r| == |appMessageCodeToCoapServer|
      ensures forall i :: 0 <= i < |r| ==> !('a' <= r[i] <= 'z')
      ensures forall i :: 0 <= i < |r| && !('a' <= appMessageCodeToCoapServer[i] <= 'z') ==> r[i] == appMessageCodeToCoapServer[i]
    {
      ToUpper(appMessageCodeToCoapServer)
    }

    /** `getAppMessageCodeToCoapClient`: the configured code with its ASCII letters upper-cased. */
    function AppMessageCodeToCoapClient(): (r: string)
      ensures |r| == |appMessageCodeToCoapClient|
      ensures forall i :: 0 <= i < |r| ==> !('a' <= r[i] <= 'z')
      ensures forall i :: 0 <= i < |r| && !('a' <= appMessageCodeToCoapClient[i] <= 'z') ==> r[i] == appMessageCodeToCoapClient[i]
    {
      ToUpper(appMessageCodeToCoapClient)
    }

    /** `getOwnConnectionId`: unset stays unset, `[]` is the empty identifier, and bad hexadecimal text raises. */
    function OwnConnectionId(): (r: Result<Option<seq<byte>>, Exception>)
      ensures ownConnectionId.None? <==> r == Ok(None)
      ensures ownConnectionId == Some("[]") ==> r == Ok(Some([]))
      ensures r.Err? ==> r.error == IllegalArgument
    {
      ParseHexString(ownConnectionId)
    }

    /** `getForceOscoreSenderId`: unset stays unset, `[]` is the empty identifier, and bad hexadecimal text raises. */
    function ForceOscoreSenderId(): (r: Result<Option<seq<byte>>, Exception>)
      ensures forceOscoreSenderId.None? <==> r == Ok(None)
      ensures forceOscoreSenderId == Some("[]") ==> r == Ok(Some([]))
      ensures r.Err? ==> r.error == IllegalArgument
    {
      ParseHexString(forceOscoreSenderId)
    }

    /** `getForceOscoreRecipientId`: unset stays unset, `[]` is the empty identifier, and bad hexadecimal text raises. */
    function ForceOscoreRecipientId(): (r: Result<Option<seq<byte>>, Exception>)
      ensures forceOscoreRecipientId.None? <==> r == Ok(None)
      ensures forceOscoreRecipientId == Some("[]") ==> r == Ok(Some([]))
      ensures r.Err? ==> r.error == IllegalArgument
    {
      ParseHexString(forceOscoreRecipientId)
    }

    /** `getHostCoapUri`. */
    function HostCoapUri(): (r: string)
      reads this
      ensures StartsWith(r, "coap://") && r[7..] == host
    {
      "coap://" + host
    }

    /** `getEdhocCoapUri`: the host URI followed by the EDHOC resource, when the URI parser accepts it. */
    function EdhocCoapUri(uriSyntax: string -> bool): (r: Result<string, Exception>)
      reads this
      ensures r.Ok? ==> r.value == HostCoapUri() + "/" + edhocCoapResource
      ensures r.Err? ==> r.error.Runtime?
    {
      CoapUri(host, edhocCoapResource, uriSyntax)
    }

    /** `getAppCoapUri`: the host URI followed by the application resource, when the URI parser accepts it. */
    function AppCoapUri(uriSyntax: string -> bool): (r: Result<string, Exception>)
      reads this
      ensures r.Ok? ==> r.value == HostCoapUri() + "/" + appCoapResource
      ensures r.Err? ==> r.error.Runtime?
    {
      CoapUri(host, appCoapResource, uriSyntax)
    }
  }

  /**
   * `getCoapUri`: "coap://host/resource" is handed to `java.net.URI`, whose
   * syntax check is the parameter `uriSyntax`; an accepted URI prints as the
   * text it was built from, and a rejected one is rethrown as a RuntimeException.
   */
  function CoapUri(host: string, resource: string, uriSyntax: string -> bool): (r: Result<string, Exception>)
    ensures r.Ok? <==> uriSyntax("coap://" + host + "/" + resource)
    ensures r.Err? ==> r.error.Runtime?
  {
    var text := "coap://" + host + "/" + resource;
    if uriSyntax(text) then Ok(text) else Err(Runtime("URISyntaxException: " + text))
  }

  /**
   * A host without '/' is read back from an accepted URI as the text between
   * the scheme and the first '/', and the resource as everything after it.
   */
  lemma CoapUriParts(host: string, resource: string, uriSyntax: string -> bool)
    requires '/' !in host
    requires CoapUri(host, resource, uriSyntax).Ok?
    ensures var u := CoapUri(host, resource, uriSyntax).value;
            && |u| == 8 + |host| + |resource| && u[..7] == "coap://"
            && (forall k :: 7 <= k < 7 + |host| ==> u[k] != '/') && u[7 + |host|] == '/'
            && u[7..7 + |host|] == host && u[8 + |host|..] == resource
  {
    var u := CoapUri(host, resource, uriSyntax).value;
    assert u == "coap://" + host + "/" + resource;
    forall k | 7 <= k < 7 + |host|
      ensures u[k] != '/'
    {
      assert u[k] == host[k - 7];
    }
  }
}
