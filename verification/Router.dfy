/** The modern per-request envelope, the ladder that checks it, and the router
    that tells the two eras apart. */
module Router {
  import opened Wire
  import LegacyEra
  import LegacySession

  const PROTOCOL_REVISION := "2026-07-28"

  /** Header names, compared without regard to case. */
  datatype HeaderName = VersionHeader | MethodHeader | NameHeader | SessionIdHeader | LastEventIdHeader | OtherHeader(text: string)

  type Headers = map<HeaderName, string>

  predicate ModernVersion(version: string) {
    version == PROTOCOL_REVISION
  }

  predicate HandshakeMethod(name: string) {
    name == LegacySession.INITIALIZE || name == LegacySession.INITIALIZED
  }

  predicate LegacyOnly(name: string) {
    HandshakeMethod(name) || name == LegacyEra.SUBSCRIBE_METHOD
  }

  /** The parameter the name header mirrors, for the methods that have one. */
  function NameParam(name: string): Option<Name> {
    if name == "tools/call" || name == "prompts/get" then Some(Named)
    else if name == LegacyEra.READ_METHOD then Some(Uri)
    else None
  }

  // ---- Outbound ----

  datatype RequestEnvelope = RequestEnvelope(
    name: string, params: map<Name, Json>, version: string, clientInfo: map<Name, Json>, capabilities: map<Name, Json>)

  function MetaBlock(e: RequestEnvelope): map<Name, Json> {
    map[
      MetaProtocolVersion := Str(e.version),
      MetaClientInfo := Obj(e.clientInfo),
      MetaClientCapabilities := Obj(e.capabilities)]
  }

  /** The standard headers; `None` when the mirrored parameter is missing.
      `render` is `str`. */
  function HeadersOf(render: Json -> string, e: RequestEnvelope): Option<Headers> {
    var base := map[VersionHeader := e.version, MethodHeader := e.name];
    match NameParam(e.name)
    case None => Some(base)
    case Some(param) =>
      if Get(e.params, param).Null? then None else Some(base[NameHeader := render(Get(e.params, param))])
  }

  /** A `_meta` the builder can extend: a mapping, or nothing. */
  predicate Extensible(params: map<Name, Json>) {
    Get(params, Meta).Obj? || !LegacyEra.Truthy(Get(params, Meta))
  }

  function BodyOf(e: RequestEnvelope, id: Json): map<Name, Json> {
    map[
      JsonRpc := Str("2.0"),
      RequestId := id,
      Method := Str(e.name),
      Params := Obj(e.params[Meta := Obj(LegacyEra.MembersOf(Get(e.params, Meta)) + MetaBlock(e))])]
  }

  datatype Built = Built(body: map<Name, Json>, headers: Headers) | RaisedMalformed

  function BuildRequest(render: Json -> string, e: RequestEnvelope, id: Json): Built
    requires Extensible(e.params)
  {
    match HeadersOf(render, e)
    case None => RaisedMalformed
    case Some(headers) => Built(BodyOf(e, id), headers)
  }

  // ---- Inbound ----

  datatype ModernRoute = ModernRoute(
    version: string, name: string, clientInfo: map<Name, Json>, capabilities: map<Name, Json>, ignored: seq<HeaderName>)

  datatype Refusal = MalformedEnvelope | HeaderMismatch | UnsupportedProtocolVersion | CrossEraConfusion

  datatype Classified = Classified(route: ModernRoute) | Rejected(refusal: Refusal)

  function Ignored(headers: Headers): seq<HeaderName> {
    (if SessionIdHeader in headers then [SessionIdHeader] else []) +
    (if LastEventIdHeader in headers then [LastEventIdHeader] else [])
  }

  predicate Disagrees(headers: Headers, header: HeaderName, value: string) {
    header in headers && headers[header] != value
  }

  /** `classify_request`: envelope, then headers, then version. */
  function ClassifyRequest(render: Json -> string, body: map<Name, Json>, headers: Headers): Classified {
    var name := Get(body, Method);
    if !name.Str? || name.s == "" then Rejected(MalformedEnvelope)
    else
      var params := LegacyEra.MembersOf(Get(body, Params));
      if !Get(params, Meta).Obj? then Rejected(MalformedEnvelope)
      else
        var meta := Get(params, Meta).members;
        var version, capabilities := Get(meta, MetaProtocolVersion), Get(meta, MetaClientCapabilities);
        if !version.Str? || version.s == "" then Rejected(MalformedEnvelope)
        else if !capabilities.Obj? then Rejected(MalformedEnvelope)
        else if Disagrees(headers, VersionHeader, version.s) then Rejected(HeaderMismatch)
        else if Disagrees(headers, MethodHeader, name.s) then Rejected(HeaderMismatch)
        else if NameMismatch(render, name.s, params, headers) then Rejected(HeaderMismatch)
        else if !ModernVersion(version.s) then Rejected(UnsupportedProtocolVersion)
        else
          Classified(ModernRoute(
            version.s, name.s, LegacyEra.MembersOf(Get(meta, MetaClientInfo)), capabilities.members, Ignored(headers)))
  }

  predicate NameMismatch(render: Json -> string, name: string, params: map<Name, Json>, headers: Headers) {
    match NameParam(name)
    case None => false
    case Some(param) => !Get(params, param).Null? && Disagrees(headers, NameHeader, render(Get(params, param)))
  }

  datatype Routed = Current(route: ModernRoute) | HandshakeEra(name: string, proposed: Option<string>) | Refused(refusal: Refusal)

  predicate HasModernEnvelope(body: map<Name, Json>) {
    MetaProtocolVersion in LegacyEra.MembersOf(Get(LegacyEra.MembersOf(Get(body, Params)), Meta))
  }

  function Proposed(body: map<Name, Json>): Option<string> {
    var version := Get(LegacyEra.MembersOf(Get(body, Params)), ProtocolVersion);
    if version.Str? then Some(version.s) else None
  }

  /** `route`. */
  function Route(render: Json -> string, body: map<Name, Json>, headers: Headers): Routed {
    var name := Get(body, Method);
    if !name.Str? || name.s == "" then Refused(CrossEraConfusion)
    else if HasModernEnvelope(body) then
      if LegacyOnly(name.s) then Refused(CrossEraConfusion)
      else
        match ClassifyRequest(render, body, headers)
        case Classified(route) => Current(route)
        case Rejected(refusal) => Refused(refusal)
    else if HandshakeMethod(name.s) then
      if Proposed(body).Some? && ModernVersion(Proposed(body).value) then Refused(CrossEraConfusion)
      else HandshakeEra(name.s, Proposed(body))
    else Refused(CrossEraConfusion)
  }

  // ---- What the two halves mean to each other ----

  /** The headers say nothing that the built ones deny. */
  predicate Mirrors(built: Headers, headers: Headers) {
    forall header | header in built :: !Disagrees(headers, header, built[header])
  }

  lemma MirrorsExactly(render: Json -> string, e: RequestEnvelope, headers: Headers)
    requires HeadersOf(render, e).Some?
    ensures Mirrors(HeadersOf(render, e).value, headers) <==>
      && !Disagrees(headers, VersionHeader, e.version) && !Disagrees(headers, MethodHeader, e.name)
      && !NameMismatch(render, e.name, e.params, headers)
  {
    var built := HeadersOf(render, e).value;
    assert VersionHeader in built && built[VersionHeader] == e.version;
    assert MethodHeader in built && built[MethodHeader] == e.name;
    if NameParam(e.name).Some? { assert NameHeader in built; }
    assert forall header | header in built ::
      header == VersionHeader || header == MethodHeader || (header == NameHeader && NameParam(e.name).Some?);
  }

  lemma BodyReads(e: RequestEnvelope, id: Json)
    ensures var body := BodyOf(e, id);
      var params := LegacyEra.MembersOf(Get(body, Params));
      && Get(body, Method) == Str(e.name) && Get(params, Meta).Obj? && HasModernEnvelope(body)
      && Get(params, Named) == Get(e.params, Named) && Get(params, Uri) == Get(e.params, Uri)
      && var meta := Get(params, Meta).members;
         && Get(meta, MetaProtocolVersion) == Str(e.version)
         && Get(meta, MetaClientInfo) == Obj(e.clientInfo)
         && Get(meta, MetaClientCapabilities) == Obj(e.capabilities)
  {
  }

  /** A built message carries the caller's own things untouched: the request id and
      every parameter but `_meta`. */
  lemma BodyCarries(e: RequestEnvelope, id: Json)
    ensures var body := BodyOf(e, id);
      && body.Keys == {JsonRpc, RequestId, Method, Params}
      && body[RequestId] == id && body[JsonRpc] == Str("2.0") && body[Method] == Str(e.name) && body[Params].Obj?
      && var params := body[Params].members;
         params.Keys == e.params.Keys + {Meta} && forall key | key in e.params && key != Meta :: params[key] == e.params[key]
  {
  }

  /** And inside `_meta` every member but the three the builder writes. */
  lemma MetaCarries(e: RequestEnvelope, id: Json, key: Name)
    ensures var mine := LegacyEra.MembersOf(Get(BodyOf(e, id)[Params].members, Meta));
      var theirs := LegacyEra.MembersOf(Get(e.params, Meta));
      if key.MetaProtocolVersion? || key.MetaClientInfo? || key.MetaClientCapabilities? then key in mine
      else (key in mine <==> key in theirs) && (key in theirs ==> mine[key] == theirs[key])
  {
  }

  /** The headers of a built message are its version, its method, and the parameter
      it mirrors, for the methods that have one. */
  lemma HeadersMean(render: Json -> string, e: RequestEnvelope)
    requires HeadersOf(render, e).Some?
    ensures var headers := HeadersOf(render, e).value;
      && VersionHeader in headers && headers[VersionHeader] == e.version
      && MethodHeader in headers && headers[MethodHeader] == e.name
      && headers.Keys <= {VersionHeader, MethodHeader, NameHeader}
      && (NameHeader in headers <==> e.name in ["tools/call", "prompts/get", "resources/read"])
      && (NameHeader in headers ==>
            headers[NameHeader] == render(Get(e.params, if e.name == "resources/read" then Uri else Named)))
  {
    assert "tools/call"[0] == 't' && "prompts/get"[0] == 'p' && "resources/read"[0] == 'r';
  }

  /** What a message has to be for the current era. */
  predicate ModernMessage(body: map<Name, Json>) {
    var params := LegacyEra.MembersOf(Get(body, Params));
    && Get(body, Method).Str? && Get(body, Method).s != "" && !LegacyOnly(Get(body, Method).s)
    && Get(params, Meta).Obj?
    && Get(Get(params, Meta).members, MetaProtocolVersion) == Str(PROTOCOL_REVISION)
    && Get(Get(params, Meta).members, MetaClientCapabilities).Obj?
  }

  /** Which messages route to the current era, headers included; and whatever the
      headers say, no message routes to one era under some of them and to the
      other era under others. */
  lemma CurrentExactly(render: Json -> string, body: map<Name, Json>, headers: Headers, others: Headers)
    ensures Route(render, body, headers).Current? <==>
      && ModernMessage(body)
      && !Disagrees(headers, VersionHeader, PROTOCOL_REVISION)
      && !Disagrees(headers, MethodHeader, Get(body, Method).s)
      && !NameMismatch(render, Get(body, Method).s, LegacyEra.MembersOf(Get(body, Params)), headers)
    ensures Route(render, body, headers).Current? ==> !Route(render, body, others).HandshakeEra?
    ensures Route(render, body, headers).HandshakeEra? ==> Route(render, body, others) == Route(render, body, headers)
  {
    assert PROTOCOL_REVISION != "";
  }

  /** A message of the handshake era, by itself. */
  predicate HandshakeMessage(body: map<Name, Json>) {
    && Get(body, Method).Str? && HandshakeMethod(Get(body, Method).s) && !HasModernEnvelope(body)
    && Get(LegacyEra.MembersOf(Get(body, Params)), ProtocolVersion) != Str(PROTOCOL_REVISION)
  }

  /** The rest of the ladder: a handshake is what it should be and does not propose
      the modern revision; everything that is neither a handshake nor carries the
      modern envelope, or is legacy-only inside one, is cross-era confusion; and the
      envelope's own refusals come in order. */
  lemma RefusedExactly(render: Json -> string, body: map<Name, Json>, headers: Headers)
    ensures var out, name := Route(render, body, headers), Get(body, Method);
      var named := name.Str? && name.s != "";
      var current := named && HasModernEnvelope(body) && !LegacyOnly(name.s);
      var params := LegacyEra.MembersOf(Get(body, Params));
      && (out.HandshakeEra? <==> HandshakeMessage(body))
      && (out.HandshakeEra? ==> out.name == name.s && out.proposed == Proposed(body))
      && (out == Refused(CrossEraConfusion) <==> !current && !HandshakeMessage(body))
      && (current ==>
            var meta := Get(params, Meta).members;
            var version, capabilities := Get(meta, MetaProtocolVersion), Get(meta, MetaClientCapabilities);
            var whole := version.Str? && version.s != "" && capabilities.Obj?;
            var agrees := whole && !Disagrees(headers, VersionHeader, version.s) && !Disagrees(headers, MethodHeader, name.s)
              && !NameMismatch(render, name.s, params, headers);
            && (out == Refused(MalformedEnvelope) <==> !whole)
            && (out == Refused(HeaderMismatch) <==> whole && !agrees)
            && (out == Refused(UnsupportedProtocolVersion) <==> agrees && version.s != PROTOCOL_REVISION)
            && (out.Current? <==> agrees && version.s == PROTOCOL_REVISION)
            && (out.Current? ==>
                  && out.route.version == version.s && out.route.name == name.s && out.route.capabilities == capabilities.members
                  && out.route.clientInfo == LegacyEra.MembersOf(Get(meta, MetaClientInfo))
                  && (SessionIdHeader in out.route.ignored <==> SessionIdHeader in headers)
                  && (LastEventIdHeader in out.route.ignored <==> LastEventIdHeader in headers)))
  {
    assert LegacySession.INITIALIZE != "" && LegacySession.INITIALIZED != "";
  }

  /** The builder is onto: whatever routes to the current era, rebuilding it from
      what was recovered and its own parameters routes the same way, unless the
      parameter to mirror is missing, which the router lets pass and the builder
      does not. */
  lemma CurrentIsRebuilt(render: Json -> string, body: map<Name, Json>, id: Json, headers: Headers)
    requires Route(render, body, headers).Current?
    ensures var route := Route(render, body, headers).route;
      var params := LegacyEra.MembersOf(Get(body, Params));
      var e := RequestEnvelope(route.name, params, route.version, route.clientInfo, route.capabilities);
      && Extensible(params)
      && (BuildRequest(render, e, id).Built? ==>
            Route(render, BuildRequest(render, e, id).body, headers) == Current(route))
      && (BuildRequest(render, e, id).RaisedMalformed? <==>
            NameParam(e.name).Some? && Get(params, NameParam(e.name).value).Null?)
  {
    CurrentExactly(render, body, headers, headers);
    var route := Route(render, body, headers).route;
    var params := LegacyEra.MembersOf(Get(body, Params));
    var e := RequestEnvelope(route.name, params, route.version, route.clientInfo, route.capabilities);
    if BuildRequest(render, e, id).Built? {
      BuiltRoutes(render, e, id, headers);
      MirrorsExactly(render, e, headers);
    }
  }

  /** A built request, met by any headers: it routes to the current era, giving
      back everything that was put in, exactly when its version is the modern one
      and no mirrored header disagrees; a header that is left out does no harm,
      one that is altered is refused as a mismatch. */
  lemma BuiltRoutes(render: Json -> string, e: RequestEnvelope, id: Json, headers: Headers)
    requires Extensible(e.params) && BuildRequest(render, e, id).Built?
    requires e.name != "" && e.version != "" && !LegacyOnly(e.name)
    ensures var built := BuildRequest(render, e, id);
      Route(render, built.body, headers) ==
        if !Mirrors(built.headers, headers) then Refused(HeaderMismatch)
        else if !ModernVersion(e.version) then Refused(UnsupportedProtocolVersion)
        else Current(ModernRoute(e.version, e.name, e.clientInfo, e.capabilities, Ignored(headers)))
  {
    BodyReads(e, id);
    MirrorsExactly(render, e, headers);
  }

  /** The round trip: with its own headers. */
  lemma BuilderRoundTrip(render: Json -> string, e: RequestEnvelope, id: Json)
    requires Extensible(e.params) && e.name != "" && !LegacyOnly(e.name) && e.version == PROTOCOL_REVISION
    ensures var built := BuildRequest(render, e, id);
      && (built.RaisedMalformed? <==> NameParam(e.name).Some? && Get(e.params, NameParam(e.name).value).Null?)
      && (built.Built? ==>
            Route(render, built.body, built.headers)
              == Current(ModernRoute(e.version, e.name, e.clientInfo, e.capabilities, [])))
  {
    if BuildRequest(render, e, id).Built? {
      BuiltRoutes(render, e, id, BuildRequest(render, e, id).headers);
    }
  }

  /** Altering any header the builder wrote is refused. */
  lemma AlteredHeaderRefused(render: Json -> string, e: RequestEnvelope, id: Json, header: HeaderName, value: string)
    requires Extensible(e.params) && e.name != "" && e.version != "" && !LegacyOnly(e.name)
    requires BuildRequest(render, e, id).Built? && header in BuildRequest(render, e, id).headers
    requires value != BuildRequest(render, e, id).headers[header]
    ensures var built := BuildRequest(render, e, id);
      Route(render, built.body, built.headers[header := value]) == Refused(HeaderMismatch)
  {
    var built := BuildRequest(render, e, id);
    BuiltRoutes(render, e, id, built.headers[header := value]);
  }

  /** Both messages of the legacy client's handshake route to the handshake era,
      whatever headers a gateway adds. */
  lemma LegacyClientRoutesHandshake(render: Json -> string, offer: LegacySession.Offer, id: Json, headers: Headers)
    requires LegacyEra.SupportedProtocol(offer.version)
    ensures Route(render, map[JsonRpc := Str("2.0"), RequestId := id, Method := Str(LegacySession.INITIALIZE),
                              Params := Obj(LegacySession.InitializeParams(offer))], headers)
      == HandshakeEra(LegacySession.INITIALIZE, Some(offer.version))
    ensures Route(render, map[JsonRpc := Str("2.0"), Method := Str(LegacySession.INITIALIZED), Params := Obj(map[])], headers)
      == HandshakeEra(LegacySession.INITIALIZED, None)
  {
    LegacyEra.ErasDiffer();
    assert Meta !in LegacySession.InitializeParams(offer);
    assert LegacySession.INITIALIZE != "" && LegacySession.INITIALIZED != "";
  }
}
