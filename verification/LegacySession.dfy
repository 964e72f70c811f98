/** Both halves of one legacy connection, and the consumer that reads over it. */
module LegacySession {
  import opened Wire
  import opened Validation
  import opened LegacyEra

  const INITIALIZE := "initialize"
  const INITIALIZED := "notifications/initialized"

  datatype SessionState = Created | Initializing | Ready | Failed

  datatype Disagreement = Disagreement(requested: Json, code: NegotiationCode)

  datatype Fault =
    | SessionNotInitialized | MethodNotImplemented | LifecycleOutOfOrder | NegotiationFailed | SilentDowngradeRefused

  /** What one handled call comes back as. */
  datatype Response =
    | Answered(result: map<Name, Json>)
    | Acknowledged
    | Handled(name: string)
    | Refused(fault: Fault)

  datatype EraReport = EraReport(era: Option<string>, extensionVersion: Option<string>, heartbeatSupported: bool)

  const UNNEGOTIATED := EraReport(None, None, false)

  function Report(era: Option<string>, heartbeat: Option<HeartbeatNegotiation>): EraReport {
    if era.None? then UNNEGOTIATED
    else
      match heartbeat
      case None => EraReport(era, None, false)
      case Some(h) => EraReport(era, h.extensionVersion, h.Supported())
  }

  function NotOffered(): HeartbeatNegotiation {
    HeartbeatNegotiation(Unsupported, CapabilityAbsent, None)
  }

  // ---- The server ----

  /** Method names this server knows, and those it has a handler for. */
  datatype Registry = Registry(serverName: string, implemented: set<string>, routed: set<string>)

  datatype Server = Server(
    state: SessionState,
    disagreements: seq<Disagreement>,
    protocol: Option<ProtocolNegotiation>,
    heartbeat: Option<HeartbeatNegotiation>)

  const NEW_SERVER := Server(Created, [], None, None)

  function ServerEra(s: Server): EraReport {
    if s.protocol.None? || !s.protocol.value.outcome.Accepted? then UNNEGOTIATED
    else Report(s.protocol.value.negotiated, s.heartbeat)
  }

  predicate ServerReady(s: Server) {
    s.state.Ready? && ServerEra(s).heartbeatSupported
  }

  /** The extension is in effect only if the peer offered it and this side can
      serve the authoritative read. */
  function Bilateral(registry: Registry, offered: Json): HeartbeatNegotiation {
    var heartbeat := NegotiateHeartbeat(offered);
    if heartbeat.Supported() && READ_METHOD !in registry.implemented then NotOffered() else heartbeat
  }

  function InitializeResult(registry: Registry, era: string, heartbeat: HeartbeatNegotiation): map<Name, Json> {
    var base := map[
      ProtocolVersion := Str(era),
      Capabilities := Advertise(registry.implemented),
      ServerInfo := Obj(map[Named := Str(registry.serverName), Other("version") := Str("0.1.0")])];
    if heartbeat.Supported() then base else base[Instructions := Str("heartbeat extension not negotiated")]
  }

  datatype ServerMove = ServerMove(next: Server, response: Response)

  function OnInitialize(registry: Registry, s: Server, params: map<Name, Json>): ServerMove {
    if !s.state.Created? then ServerMove(s, Refused(LifecycleOutOfOrder))
    else
      var protocol := NegotiateProtocol(Get(params, ProtocolVersion));
      if !protocol.outcome.Accepted? then
        ServerMove(
          Server(Failed, s.disagreements + [Disagreement(protocol.requested, protocol.code)], Some(protocol), s.heartbeat),
          Refused(NegotiationFailed))
      else
        var heartbeat := Bilateral(registry, Get(params, Capabilities));
        ServerMove(
          Server(Initializing, s.disagreements, Some(protocol), Some(heartbeat)),
          Answered(InitializeResult(registry, protocol.negotiated.value, heartbeat)))
  }

  function Handle(registry: Registry, s: Server, name: string, params: map<Name, Json>): ServerMove {
    if name == INITIALIZE then OnInitialize(registry, s, params)
    else if name == INITIALIZED then
      if s.state.Initializing? then ServerMove(s.(state := Ready), Acknowledged)
      else ServerMove(s, Refused(LifecycleOutOfOrder))
    else if !s.state.Ready? then ServerMove(s, Refused(SessionNotInitialized))
    else if name in registry.implemented && name in registry.routed then ServerMove(s, Handled(name))
    else ServerMove(s, Refused(MethodNotImplemented))
  }

  class LegacyServerSession {
    const registry: Registry
    var state: SessionState
    var disagreements: seq<Disagreement>
    var protocol: Option<ProtocolNegotiation>
    var heartbeat: Option<HeartbeatNegotiation>

    /** The source raises for an era it does not own. */
    constructor (registry: Registry, era: string)
      requires SupportedProtocol(era)
      ensures this.registry == registry && View() == NEW_SERVER
    {
      this.registry := registry;
      state := Created;
      disagreements := [];
      protocol, heartbeat := None, None;
    }

    function View(): Server
      reads this
    {
      Server(state, disagreements, protocol, heartbeat)
    }

    method HandleCall(name: string, params: map<Name, Json>) returns (response: Response)
      modifies this
      ensures ServerMove(View(), response) == Handle(registry, old(View()), name, params)
    {
      if name == INITIALIZE {
        response := HandleInitialize(params);
        return;
      }
      if name == INITIALIZED {
        if !state.Initializing? { return Refused(LifecycleOutOfOrder); }
        state := Ready;
        return Acknowledged;
      }
      if !state.Ready? { return Refused(SessionNotInitialized); }
      if name !in registry.implemented { return Refused(MethodNotImplemented); }
      if name !in registry.routed { return Refused(MethodNotImplemented); }
      response := Handled(name);
    }

    method HandleInitialize(params: map<Name, Json>) returns (response: Response)
      modifies this
      ensures ServerMove(View(), response) == OnInitialize(registry, old(View()), params)
    {
      if !state.Created? { return Refused(LifecycleOutOfOrder); }
      var negotiated := NegotiateProtocol(Get(params, ProtocolVersion));
      if !negotiated.outcome.Accepted? {
        disagreements := disagreements + [Disagreement(negotiated.requested, negotiated.code)];
        state := Failed;
        protocol := Some(negotiated);
        return Refused(NegotiationFailed);
      }
      var offered := NegotiateHeartbeat(Get(params, Capabilities));
      if offered.Supported() && READ_METHOD !in registry.implemented {
        offered := NotOffered();
      }
      protocol := Some(negotiated);
      heartbeat := Some(offered);
      state := Initializing;
      response := Answered(InitializeResult(registry, negotiated.negotiated.value, offered));
    }
  }

  // ---- Arbitrary calls on a server ----

  datatype Call = Call(name: string, params: map<Name, Json>)

  function ServerAfter(registry: Registry, calls: seq<Call>): Server {
    if calls == [] then NEW_SERVER
    else
      var c := calls[|calls| - 1];
      Handle(registry, ServerAfter(registry, calls[..|calls| - 1]), c.name, c.params).next
  }

  function ResponseTo(registry: Registry, calls: seq<Call>, i: nat): Response
    requires i < |calls|
  {
    Handle(registry, ServerAfter(registry, calls[..i]), calls[i].name, calls[i].params).response
  }

  /** The lifecycle, as counted from outside: how many initializes were answered
      and how many initialized notifications were acknowledged. */
  function Answers(registry: Registry, calls: seq<Call>): nat {
    if calls == [] then 0
    else
      var n := |calls| - 1;
      Answers(registry, calls[..n]) + if ResponseTo(registry, calls, n).Answered? then 1 else 0
  }

  function Acknowledgements(registry: Registry, calls: seq<Call>): nat {
    if calls == [] then 0
    else
      var n := |calls| - 1;
      Acknowledgements(registry, calls[..n]) + if ResponseTo(registry, calls, n).Acknowledged? then 1 else 0
  }

  /** Where the session is says exactly what it has done so far. */
  predicate LifecycleKept(registry: Registry, calls: seq<Call>) {
    var s := ServerAfter(registry, calls);
    && Answers(registry, calls) == (if s.state.Initializing? || s.state.Ready? then 1 else 0)
    && Acknowledgements(registry, calls) == (if s.state.Ready? then 1 else 0)
    && (s.state.Failed? <==> |s.disagreements| == 1) && |s.disagreements| <= 1
    && (s.protocol.None? <==> s.state.Created?)
    && (s.state.Initializing? || s.state.Ready? ==>
          && s.protocol.value.outcome.Accepted? && s.protocol.value.negotiated.Some?
          && SupportedProtocol(s.protocol.value.negotiated.value) && s.heartbeat.Some?)
    && (s.state.Failed? ==> !s.protocol.value.outcome.Accepted? && s.protocol.value.negotiated.None?)
  }

  lemma {:induction false} Lifecycle(registry: Registry, calls: seq<Call>)
    ensures LifecycleKept(registry, calls)
  {
    if calls != [] {
      var n := |calls| - 1;
      Lifecycle(registry, calls[..n]);
      NeverEchoes(Get(calls[n].params, ProtocolVersion));
    }
  }

  /** A handler runs only after exactly one answered initialize and exactly one
      acknowledged notification. */
  lemma HandlersRunAfterHandshake(registry: Registry, calls: seq<Call>, i: nat)
    requires i < |calls| && ResponseTo(registry, calls, i).Handled?
    ensures Answers(registry, calls[..i]) == 1 && Acknowledgements(registry, calls[..i]) == 1
    ensures calls[i].name in registry.implemented && calls[i].name in registry.routed
  {
    Lifecycle(registry, calls[..i]);
  }

  predicate LifecycleName(name: string) {
    name == INITIALIZE || name == INITIALIZED
  }

  /** Which calls run a handler, and what every other one is refused with, over any
      calls whatever. */
  lemma HandledExactly(registry: Registry, calls: seq<Call>, i: nat)
    requires i < |calls| && !LifecycleName(calls[i].name)
    ensures var name, ready := calls[i].name, Acknowledgements(registry, calls[..i]) == 1;
      var response := ResponseTo(registry, calls, i);
      && (response == Handled(name) <==> ready && name in registry.implemented && name in registry.routed)
      && (response == Refused(SessionNotInitialized) <==> !ready)
      && (response == Refused(MethodNotImplemented) <==>
            ready && !(name in registry.implemented && name in registry.routed))
  {
    Lifecycle(registry, calls[..i]);
  }

  /** And which lifecycle calls are taken: the first initialize, if its revision can
      be negotiated, and the first notification after it. */
  lemma LifecycleCallsExactly(registry: Registry, calls: seq<Call>, i: nat)
    requires i < |calls| && LifecycleName(calls[i].name)
    ensures var response := ResponseTo(registry, calls, i);
      var first := forall j | 0 <= j < i :: calls[j].name != INITIALIZE;
      var version := Get(calls[i].params, ProtocolVersion);
      if calls[i].name == INITIALIZE then
        && (response.Answered? <==> first && version.Str? && SupportedProtocol(version.s))
        && (response == Refused(NegotiationFailed) <==> first && !(version.Str? && SupportedProtocol(version.s)))
        && (response == Refused(LifecycleOutOfOrder) <==> !first)
      else
        && (response.Acknowledged? <==>
              Answers(registry, calls[..i]) == 1 && Acknowledgements(registry, calls[..i]) == 0)
        && (response.Acknowledged? || response == Refused(LifecycleOutOfOrder))
  {
    Lifecycle(registry, calls[..i]);
    CreatedUntilInitialize(registry, calls[..i]);
    NamesAreApart();
    NeverEchoes(Get(calls[i].params, ProtocolVersion));
  }

  lemma {:induction false} CreatedUntilInitialize(registry: Registry, calls: seq<Call>)
    ensures ServerAfter(registry, calls).state.Created? <==> forall j | 0 <= j < |calls| :: calls[j].name != INITIALIZE
  {
    if calls != [] {
      var n := |calls| - 1;
      CreatedUntilInitialize(registry, calls[..n]);
      assert forall j | 0 <= j < n :: calls[..n][j] == calls[j];
    }
  }

  /** What an answered initialize puts on the wire, and leaves in effect: the
      revision asked for, the advertisement derived from the registry, a word of
      instruction exactly when the extension is not in effect, which it is exactly
      when the peer offered it and this side can serve the read. */
  lemma AnswerMeans(registry: Registry, calls: seq<Call>, i: nat)
    requires i < |calls| && ResponseTo(registry, calls, i).Answered?
    ensures var result, params := ResponseTo(registry, calls, i).result, calls[i].params;
      var era := ServerEra(ServerAfter(registry, calls[..i + 1]));
      var inEffect := NegotiateHeartbeat(Get(params, Capabilities)).Supported() && READ_METHOD in registry.implemented;
      && era.era.Some? && Str(era.era.value) == Get(params, ProtocolVersion)
      && era.heartbeatSupported == inEffect && (inEffect ==> era.extensionVersion == Some(EXTENSION_VERSION))
      && Get(result, ProtocolVersion) == Get(params, ProtocolVersion)
      && Get(result, Capabilities) == Advertise(registry.implemented)
      && Get(MembersOf(Get(result, ServerInfo)), Named) == Str(registry.serverName)
      && (Instructions in result <==> !inEffect)
  {
    NeverEchoes(Get(calls[i].params, ProtocolVersion));
    assert calls[..i + 1][..i] == calls[..i];
  }

  lemma OnlyFirstNegotiates(registry: Registry, s: Server, name: string, params: map<Name, Json>)
    requires !s.state.Created?
    ensures var next := Handle(registry, s, name, params).next;
      next.protocol == s.protocol && next.heartbeat == s.heartbeat && !next.state.Created?
  {
  }

  /** Once an initialize is answered, what it negotiated stays. */
  lemma {:induction false} NegotiationStays(registry: Registry, calls: seq<Call>, i: nat)
    requires i < |calls| && ResponseTo(registry, calls, i).Answered?
    ensures !ServerAfter(registry, calls).state.Created?
    ensures ServerAfter(registry, calls).protocol == ServerAfter(registry, calls[..i + 1]).protocol
    ensures ServerAfter(registry, calls).heartbeat == ServerAfter(registry, calls[..i + 1]).heartbeat
  {
    var n := |calls| - 1;
    if i == n {
      assert calls[..i + 1] == calls;
    } else {
      assert calls[..n][..i] == calls[..i] && calls[..n][..i + 1] == calls[..i + 1];
      NegotiationStays(registry, calls[..n], i);
      OnlyFirstNegotiates(registry, ServerAfter(registry, calls[..n]), calls[n].name, calls[n].params);
    }
  }

  /** When a server says it is ready for heartbeats, over any calls: when the handshake
      is complete, the answered offer was version 0.1 of the extension, and it can
      serve the read. Before any initialize was answered it never does. */
  lemma ServerReadyExactly(registry: Registry, calls: seq<Call>, i: nat)
    requires i < |calls| && ResponseTo(registry, calls, i).Answered?
    ensures ServerReady(ServerAfter(registry, calls)) <==>
      && Acknowledgements(registry, calls) == 1
      && NegotiateHeartbeat(Get(calls[i].params, Capabilities)).Supported() && READ_METHOD in registry.implemented
  {
    NegotiationStays(registry, calls, i);
    AnswerMeans(registry, calls, i);
    Lifecycle(registry, calls);
  }

  lemma NotReadyUnanswered(registry: Registry, calls: seq<Call>)
    requires Answers(registry, calls) == 0
    ensures !ServerReady(ServerAfter(registry, calls)) && ServerEra(ServerAfter(registry, calls)) == UNNEGOTIATED
  {
    Lifecycle(registry, calls);
  }

  /** What a failed session recorded: the revision its first initialize asked for,
      and why it would not do. */
  lemma {:induction false} FailureIsRecorded(registry: Registry, calls: seq<Call>) returns (i: nat)
    requires ServerAfter(registry, calls).state.Failed?
    ensures i < |calls| && calls[i].name == INITIALIZE && (forall j | 0 <= j < i :: calls[j].name != INITIALIZE)
    ensures var requested := Get(calls[i].params, ProtocolVersion);
      ServerAfter(registry, calls).disagreements == [Disagreement(requested, NegotiateProtocol(requested).code)]
      && !(requested.Str? && SupportedProtocol(requested.s))
  {
    var n := |calls| - 1;
    if ServerAfter(registry, calls[..n]).state.Failed? {
      i := FailureIsRecorded(registry, calls[..n]);
    } else {
      i := n;
      Lifecycle(registry, calls[..n]);
      CreatedUntilInitialize(registry, calls[..n]);
      NeverEchoes(Get(calls[n].params, ProtocolVersion));
    }
  }

  /** The one acknowledgement comes after the one answer. */
  lemma AcknowledgedAfterAnswered(registry: Registry, calls: seq<Call>, i: nat)
    requires i < |calls| && ResponseTo(registry, calls, i).Acknowledged?
    ensures Answers(registry, calls[..i]) == 1 && Acknowledgements(registry, calls[..i]) == 0
  {
    Lifecycle(registry, calls[..i]);
  }

  /** FAILED is absorbing: nothing is ever served again. */
  lemma {:induction false} FailedIsForever(registry: Registry, calls: seq<Call>, i: nat, j: nat)
    requires i <= j < |calls| && ServerAfter(registry, calls[..i]).state.Failed?
    ensures ServerAfter(registry, calls[..j]) == ServerAfter(registry, calls[..i])
    ensures ResponseTo(registry, calls, j).Refused?
    decreases j
  {
    if i < j {
      FailedIsForever(registry, calls, i, j - 1);
      assert calls[..j][..j - 1] == calls[..j - 1];
    }
  }

  /** No revision is echoed that was not asked for and is not supported. */
  lemma AnswersOnlySupported(registry: Registry, calls: seq<Call>, i: nat)
    requires i < |calls| && ResponseTo(registry, calls, i).Answered?
    ensures calls[i].name == INITIALIZE
    ensures var version := Get(calls[i].params, ProtocolVersion);
      && version.Str? && SupportedProtocol(version.s)
      && Get(ResponseTo(registry, calls, i).result, ProtocolVersion) == version
  {
    NeverEchoes(Get(calls[i].params, ProtocolVersion));
  }

  // ---- The client ----

  datatype Offer = Offer(clientName: string, version: string, wantsHeartbeat: bool)

  datatype Client = Client(state: SessionState, heartbeat: Option<HeartbeatNegotiation>, era: Option<string>)

  const NEW_CLIENT := Client(Created, None, None)

  predicate ClientReady(c: Client) {
    c.state.Ready? && Report(c.era, c.heartbeat).heartbeatSupported
  }

  function ClientCapabilities(offer: Offer): Json {
    Obj(if offer.wantsHeartbeat then map[Experimental := HeartbeatOffer()] else map[])
  }

  function InitializeParams(offer: Offer): map<Name, Json> {
    map[
      ProtocolVersion := Str(offer.version),
      Capabilities := ClientCapabilities(offer),
      ClientInfo := Obj(map[Named := Str(offer.clientName), Other("version") := Str("0.1.0")])]
  }

  datatype ClientCall = Open | Consume(result: map<Name, Json>) | Notify

  function ClientStep(offer: Offer, c: Client, call: ClientCall): Client {
    match call
    case Open => c
    case Consume(result) =>
      if Get(result, ProtocolVersion) != Str(offer.version) then c.(state := Failed)
      else
        Client(
          Initializing,
          Some(if offer.wantsHeartbeat then NegotiateHeartbeat(Get(result, Capabilities)) else NotOffered()),
          Some(offer.version))
    case Notify => if c.state.Initializing? then c.(state := Ready) else c
  }

  /** `None` when the call succeeds. */
  function ClientFault(offer: Offer, c: Client, call: ClientCall): Option<Fault> {
    match call
    case Open => if c.state.Created? then None else Some(LifecycleOutOfOrder)
    case Consume(result) =>
      if Get(result, ProtocolVersion) != Str(offer.version) then Some(SilentDowngradeRefused) else None
    case Notify => if c.state.Initializing? then None else Some(LifecycleOutOfOrder)
  }

  class LegacyClientSession {
    const offer: Offer
    var state: SessionState
    var heartbeat: Option<HeartbeatNegotiation>
    var negotiatedEra: Option<string>

    constructor (offer: Offer)
      requires SupportedProtocol(offer.version)
      ensures this.offer == offer && View() == NEW_CLIENT
    {
      this.offer := offer;
      state := Created;
      heartbeat, negotiatedEra := None, None;
    }

    function View(): Client
      reads this
    {
      Client(state, heartbeat, negotiatedEra)
    }

    /** `initialize_request`. */
    method InitializeRequest() returns (fault: Option<Fault>, request: Call)
      ensures fault == ClientFault(offer, View(), Open)
      ensures fault.None? ==> request == Call(INITIALIZE, InitializeParams(offer))
    {
      request := Call(INITIALIZE, InitializeParams(offer));
      fault := if state.Created? then None else Some(LifecycleOutOfOrder);
    }

    /** `consume_initialize_result`: has no guard on the state it is called in. */
    method ConsumeInitializeResult(result: map<Name, Json>) returns (fault: Option<Fault>)
      modifies this
      ensures View() == ClientStep(offer, old(View()), Consume(result))
      ensures fault == ClientFault(offer, old(View()), Consume(result))
    {
      if Get(result, ProtocolVersion) != Str(offer.version) {
        state := Failed;
        return Some(SilentDowngradeRefused);
      }
      negotiatedEra := Some(offer.version);
      heartbeat := Some(if offer.wantsHeartbeat then NegotiateHeartbeat(Get(result, Capabilities)) else NotOffered());
      state := Initializing;
      fault := None;
    }

    /** `initialized_notification`. */
    method InitializedNotification() returns (fault: Option<Fault>, notification: Call)
      modifies this
      ensures View() == ClientStep(offer, old(View()), Notify)
      ensures fault == ClientFault(offer, old(View()), Notify)
      ensures notification == Call(INITIALIZED, map[])
    {
      notification := Call(INITIALIZED, map[]);
      if !state.Initializing? { return Some(LifecycleOutOfOrder), notification; }
      state := Ready;
      fault := None;
    }
  }

  function ClientAfter(offer: Offer, calls: seq<ClientCall>): Client {
    if calls == [] then NEW_CLIENT
    else ClientStep(offer, ClientAfter(offer, calls[..|calls| - 1]), calls[|calls| - 1])
  }

  predicate IsAnswer(offer: Offer, call: ClientCall) {
    call.Consume? && Get(call.result, ProtocolVersion) == Str(offer.version)
  }

  function LastConsumed(calls: seq<ClientCall>): (i: int)
    ensures -1 <= i < |calls| && (i >= 0 ==> calls[i].Consume?)
    ensures forall j | i < j < |calls| :: !calls[j].Consume?
  {
    if calls == [] then -1
    else if calls[|calls| - 1].Consume? then |calls| - 1
    else LastConsumed(calls[..|calls| - 1])
  }

  predicate NotifiedSince(calls: seq<ClientCall>, i: int) {
    exists k :: i < k < |calls| && k >= 0 && calls[k].Notify?
  }

  /** Where a client is depends only on the last result it consumed and on whether
      it notified since; so its FAILED state is not absorbing. */
  lemma {:induction false} ClientFollowsLastResult(offer: Offer, calls: seq<ClientCall>)
    ensures var i := LastConsumed(calls);
      ClientAfter(offer, calls).state ==
        if i == -1 then Created
        else if !IsAnswer(offer, calls[i]) then Failed
        else if NotifiedSince(calls, i) then Ready
        else Initializing
  {
    if calls != [] {
      var init := calls[..|calls| - 1];
      ClientFollowsLastResult(offer, init);
      var i := LastConsumed(calls);
      if i == LastConsumed(init) {
        assert NotifiedSince(calls, i) <==> NotifiedSince(init, i) || calls[|calls| - 1].Notify? by {
          if NotifiedSince(init, i) { var k :| i < k < |init| && k >= 0 && init[k].Notify?; assert calls[k].Notify?; }
          if NotifiedSince(calls, i) && !calls[|calls| - 1].Notify? {
            var k :| i < k < |calls| && k >= 0 && calls[k].Notify?;
            assert init[k].Notify?;
          }
        }
      }
    }
  }

  /** What the last consumed answer negotiated stays, whatever is called since. */
  lemma {:induction false} ClientKeepsLastAnswer(offer: Offer, calls: seq<ClientCall>)
    requires var i := LastConsumed(calls); i >= 0 && IsAnswer(offer, calls[i])
    ensures var c, result := ClientAfter(offer, calls), calls[LastConsumed(calls)].result;
      && c.era == Some(offer.version) && c.heartbeat.Some?
      && (c.heartbeat.value.Supported() <==>
            offer.wantsHeartbeat && NegotiateHeartbeat(Get(result, Capabilities)).Supported())
  {
    var n := |calls| - 1;
    if !calls[n].Consume? {
      ClientKeepsLastAnswer(offer, calls[..n]);
    }
  }

  /** When a client says it is ready for heartbeats, over any calls. */
  lemma ClientReadyExactly(offer: Offer, calls: seq<ClientCall>)
    ensures var i := LastConsumed(calls);
      ClientReady(ClientAfter(offer, calls)) <==>
        && i >= 0 && IsAnswer(offer, calls[i]) && NotifiedSince(calls, i)
        && offer.wantsHeartbeat && NegotiateHeartbeat(Get(calls[i].result, Capabilities)).Supported()
  {
    ClientFollowsLastResult(offer, calls);
    var i := LastConsumed(calls);
    if i >= 0 && IsAnswer(offer, calls[i]) { ClientKeepsLastAnswer(offer, calls); }
  }

  /** Leaving FAILED, in one call. */
  lemma ClientLeavesFailed(offer: Offer, c: Client, call: ClientCall)
    requires c.state.Failed?
    ensures !ClientStep(offer, c, call).state.Failed? <==> IsAnswer(offer, call)
  {
  }

  /** When a call on a client is refused, over any calls: a second opening once a
      result was consumed, a result with another revision than the one offered,
      which ends the session, and a notification that follows no fresh answer. */
  lemma ClientFaultsExactly(offer: Offer, calls: seq<ClientCall>, call: ClientCall)
    ensures var c, i := ClientAfter(offer, calls), LastConsumed(calls);
      match ClientFault(offer, c, call)
      case None =>
        (match call
         case Open => i == -1
         case Consume(result) => Get(result, ProtocolVersion) == Str(offer.version)
         case Notify => i >= 0 && IsAnswer(offer, calls[i]) && !NotifiedSince(calls, i))
      case Some(fault) =>
        (match call
         case Open => fault == LifecycleOutOfOrder && i >= 0
         case Consume(result) =>
           && fault == SilentDowngradeRefused && Get(result, ProtocolVersion) != Str(offer.version)
           && ClientStep(offer, c, call).state.Failed?
         case Notify =>
           fault == LifecycleOutOfOrder && !(i >= 0 && IsAnswer(offer, calls[i]) && !NotifiedSince(calls, i)))
  {
    ClientFollowsLastResult(offer, calls);
  }

  /** What the opening request says of its sender. */
  lemma RequestMeans(offer: Offer)
    ensures var params := InitializeParams(offer);
      && Get(params, ProtocolVersion) == Str(offer.version)
      && Get(MembersOf(Get(params, ClientInfo)), Named) == Str(offer.clientName)
      && (NegotiateHeartbeat(Get(params, Capabilities)).Supported() <==> offer.wantsHeartbeat)
  {
    OfferIsReadable(offer);
  }

  // ---- The product ----

  /** An honest exchange between a new client and a new server brings both to
      READY with the same era and the same opinion of the heartbeat extension: in
      effect exactly when the client asked and the server can serve the
      authoritative read. */
  lemma HonestHandshake(registry: Registry, offer: Offer)
    requires SupportedProtocol(offer.version)
    ensures var begun := Handle(registry, NEW_SERVER, INITIALIZE, InitializeParams(offer));
      && begun.response.Answered?
      && var consumed := ClientStep(offer, NEW_CLIENT, Consume(begun.response.result));
         var client := ClientStep(offer, consumed, Notify);
         var server := Handle(registry, begun.next, INITIALIZED, map[]).next;
         && client.state.Ready? && server.state.Ready?
         && Report(client.era, client.heartbeat) == ServerEra(server)
         && ServerEra(server).era == Some(offer.version)
         && (ClientReady(client) <==> offer.wantsHeartbeat && READ_METHOD in registry.implemented)
         && (ServerReady(server) <==> offer.wantsHeartbeat && READ_METHOD in registry.implemented)
         && server.disagreements == []
  {
    NeverEchoes(Str(offer.version));
    AdvertisedTruthfully(registry.implemented);
    NamesAreApart();
    OfferIsReadable(offer);
    assert Get(InitializeParams(offer), ProtocolVersion) == Str(offer.version);
    assert Get(InitializeParams(offer), Capabilities) == ClientCapabilities(offer);
    var h := Bilateral(registry, ClientCapabilities(offer));
    var result := InitializeResult(registry, offer.version, h);
    assert Get(result, ProtocolVersion) == Str(offer.version);
    assert Get(result, Capabilities) == Advertise(registry.implemented);
  }

  lemma NamesAreApart()
    ensures INITIALIZE != INITIALIZED
  {
    assert INITIALIZE[0] != INITIALIZED[0];
  }

  lemma OfferIsReadable(offer: Offer)
    ensures NegotiateHeartbeat(ClientCapabilities(offer)) ==
      if offer.wantsHeartbeat then HeartbeatNegotiation(Accepted, CapabilityAccepted, Some(EXTENSION_VERSION))
      else HeartbeatNegotiation(Unsupported, CapabilityAbsent, None)
  {
    assert MembersOf(HeartbeatOffer()) == map[PresenceLease := Obj(map[ExtensionVersion := Str(EXTENSION_VERSION)])];
  }

  /** The same exchange on the objects. */
  method Handshake(server: LegacyServerSession, client: LegacyClientSession)
    requires server.View() == NEW_SERVER && client.View() == NEW_CLIENT && SupportedProtocol(client.offer.version)
    modifies server, client
    ensures client.state.Ready? && server.state.Ready?
    ensures Report(client.negotiatedEra, client.heartbeat) == ServerEra(server.View())
    ensures ClientReady(client.View()) <==> client.offer.wantsHeartbeat && READ_METHOD in server.registry.implemented
    ensures ServerReady(server.View()) <==> ClientReady(client.View())
  {
    HonestHandshake(server.registry, client.offer);
    var fault, request := client.InitializeRequest();
    var response := server.HandleCall(request.name, request.params);
    var downgrade := client.ConsumeInitializeResult(response.result);
    var late, notification := client.InitializedNotification();
    var acknowledged := server.HandleCall(notification.name, notification.params);
  }
}
