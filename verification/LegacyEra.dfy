/** Negotiation on a legacy connection: the protocol revision, the heartbeat
    extension, and the capabilities a server may claim. */
module LegacyEra {
  import opened Wire
  import opened Validation

  const LEGACY_ERA := "2025-06-18"
  const OLDER_ERA := "2025-03-26"
  const MODERN_ERA := "2026-07-28"

  predicate SupportedProtocol(version: string) {
    version == LEGACY_ERA || version == OLDER_ERA
  }

  datatype NegotiationOutcome = Accepted | Unsupported | Ambiguous

  datatype NegotiationCode =
    | SupportedVersion | UnsupportedVersion | ModernEraRefused | VersionMissing | VersionMalformed
    | CapabilityAccepted | CapabilityAbsent | CapabilityMalformed | CapabilityAmbiguous | UnsupportedExtension

  datatype ProtocolNegotiation = ProtocolNegotiation(
    outcome: NegotiationOutcome, code: NegotiationCode, requested: Json, negotiated: Option<string>)

  datatype HeartbeatNegotiation = HeartbeatNegotiation(
    outcome: NegotiationOutcome, code: NegotiationCode, extensionVersion: Option<string>)
  {
    predicate Supported() {
      outcome.Accepted?
    }
  }

  function NegotiateProtocol(requested: Json): ProtocolNegotiation {
    if requested.Null? then ProtocolNegotiation(Ambiguous, VersionMissing, Null, None)
    else if !requested.Str? || requested.s == "" then ProtocolNegotiation(Ambiguous, VersionMalformed, requested, None)
    else if requested.s == MODERN_ERA then ProtocolNegotiation(Unsupported, ModernEraRefused, requested, None)
    else if !SupportedProtocol(requested.s) then ProtocolNegotiation(Unsupported, UnsupportedVersion, requested, None)
    else ProtocolNegotiation(Accepted, SupportedVersion, requested, Some(requested.s))
  }

  lemma ErasDiffer()
    ensures !SupportedProtocol(MODERN_ERA) && !SupportedProtocol("") && LEGACY_ERA != OLDER_ERA
  {
    assert MODERN_ERA[3] != LEGACY_ERA[3] && MODERN_ERA[3] != OLDER_ERA[3];
    assert LEGACY_ERA[6] != OLDER_ERA[6];
  }

  /** A revision is negotiated exactly when it was asked for and is supported;
      nothing else is ever echoed. */
  lemma NeverEchoes(requested: Json)
    ensures var p := NegotiateProtocol(requested);
      && (p.outcome.Accepted? <==> requested.Str? && SupportedProtocol(requested.s))
      && p.negotiated == (if p.outcome.Accepted? then Some(requested.s) else None)
  {
    ErasDiffer();
  }

  /** The code that is recorded says why, and is one of the five. */
  lemma CodesMean(requested: Json)
    ensures var code := NegotiateProtocol(requested).code;
      && (code.SupportedVersion? <==> requested == Str(LEGACY_ERA) || requested == Str(OLDER_ERA))
      && (code.ModernEraRefused? <==> requested == Str(MODERN_ERA))
      && (code.VersionMissing? <==> requested == Null)
      && (code.VersionMalformed? <==> requested != Null && (!requested.Str? || requested == Str("")))
      && (code.UnsupportedVersion? <==>
            && requested.Str? && requested != Str("") && requested != Str(MODERN_ERA)
            && requested != Str(LEGACY_ERA) && requested != Str(OLDER_ERA))
      && NegotiateProtocol(requested).requested == requested
      && (NegotiateProtocol(requested).outcome.Ambiguous? <==> code.VersionMissing? || code.VersionMalformed?)
  {
    ErasDiffer();
  }

  /** `or {}` and the mapping test after it, in one. */
  function MembersOf(value: Json): map<Name, Json> {
    if value.Obj? then value.members else map[]
  }

  function NegotiateHeartbeat(capabilities: Json): HeartbeatNegotiation {
    if !capabilities.Null? && !capabilities.Obj? then HeartbeatNegotiation(Ambiguous, CapabilityMalformed, None)
    else
      var offered := MembersOf(capabilities);
      var legacy := Get(MembersOf(Get(offered, Experimental)), PresenceLease);
      var modern := Get(MembersOf(Get(offered, Extensions)), ModernHeartbeat);
      if !legacy.Null? && !modern.Null? then HeartbeatNegotiation(Ambiguous, CapabilityAmbiguous, None)
      else if legacy.Null? then
        HeartbeatNegotiation(Unsupported, if modern.Null? then CapabilityAbsent else ModernEraRefused, None)
      else if !legacy.Obj? then HeartbeatNegotiation(Ambiguous, CapabilityMalformed, None)
      else
        var declared := Get(legacy.members, ExtensionVersion);
        if declared.Null? then HeartbeatNegotiation(Ambiguous, CapabilityMalformed, None)
        else if declared != Str(EXTENSION_VERSION) then HeartbeatNegotiation(Unsupported, UnsupportedExtension, None)
        else HeartbeatNegotiation(Accepted, CapabilityAccepted, Some(EXTENSION_VERSION))
  }

  /** The archived capability, and the modern one, as a peer offered them. */
  function LegacyOffer(capabilities: Json): Json {
    Get(MembersOf(Get(MembersOf(capabilities), Experimental)), PresenceLease)
  }

  function ModernOffer(capabilities: Json): Json {
    Get(MembersOf(Get(MembersOf(capabilities), Extensions)), ModernHeartbeat)
  }

  /** The extension is supported exactly when version 0.1 of it is offered in the
      legacy place and nothing in the modern one; an offer is ambiguous exactly
      when it is malformed or made in both places. */
  lemma OffersAreJudgedExactly(capabilities: Json)
    ensures var n := NegotiateHeartbeat(capabilities);
      var legacy, modern := LegacyOffer(capabilities), ModernOffer(capabilities);
      && (n.Supported() <==>
            modern == Null && legacy.Obj? && Get(legacy.members, ExtensionVersion) == Str(EXTENSION_VERSION))
      && (n.outcome.Ambiguous? <==>
            || !(capabilities.Null? || capabilities.Obj?)
            || (legacy != Null && modern != Null)
            || (legacy != Null && (legacy.Obj? ==> Get(legacy.members, ExtensionVersion) == Null)))
      && (n.code.CapabilityAccepted? <==> n.Supported())
      && (n.code.ModernEraRefused? <==> legacy == Null && modern != Null)
      && (n.code.CapabilityAmbiguous? <==> legacy != Null && modern != Null)
      && (n.code.CapabilityAbsent? <==> (capabilities.Null? || capabilities.Obj?) && legacy == Null && modern == Null)
      && (n.code.UnsupportedExtension? <==>
            modern == Null && legacy.Obj? && Get(legacy.members, ExtensionVersion) != Null
            && Get(legacy.members, ExtensionVersion) != Str(EXTENSION_VERSION))
      && (n.code.CapabilityMalformed? <==> n.outcome.Ambiguous? && !n.code.CapabilityAmbiguous?)
      && n.extensionVersion == (if n.Supported() then Some(EXTENSION_VERSION) else None)
  {
  }

  // ---- Capabilities ----

  const READ_METHOD := "resources/read"
  const SUBSCRIBE_METHOD := "resources/subscribe"
  const LIST_CHANGED_METHOD := "notifications/resources/list_changed"

  function HeartbeatOffer(): Json {
    Obj(map[PresenceLease := Obj(map[ExtensionVersion := Str(EXTENSION_VERSION)])])
  }

  /** `advertise`: every flag is a question asked of the registry. */
  function Advertise(served: set<string>): Json {
    var flags := map[Resources := Obj(map[
      Subscribe := Bool(SUBSCRIBE_METHOD in served),
      ListChanged := Bool(LIST_CHANGED_METHOD in served)])];
    Obj(if READ_METHOD in served then flags[Experimental := HeartbeatOffer()] else flags)
  }

  /** Python truth of a JSON value. */
  predicate Truthy(value: Json) {
    match value
    case Null => false
    case Bool(b) => b
    case Int(n) => n != 0
    case Float(text) => text != "0.0" && text != "-0.0"
    case Str(s) => s != ""
    case Arr(items) => items != []
    case Obj(members) => members != map[]
  }

  datatype Mismatch =
    | ResourcesNotAnObject
    | UnservedFlag(flag: Name)
    | UnadvertisedMethod(flag: Name)
    | HeartbeatWithoutRead
    | ModernIdentifier

  function MethodBehind(flag: Name): string {
    if flag == Subscribe then SUBSCRIBE_METHOD else LIST_CHANGED_METHOD
  }

  /** An advertisement and a registry that say the same thing. */
  predicate InAgreement(advertised: map<Name, Json>, served: set<string>) {
    var resources := Get(advertised, Resources);
    && (Truthy(resources) ==> resources.Obj?)
    && (Truthy(Get(MembersOf(resources), Subscribe)) <==> SUBSCRIBE_METHOD in served)
    && (Truthy(Get(MembersOf(resources), ListChanged)) <==> LIST_CHANGED_METHOD in served)
    && (PresenceLease in MembersOf(Get(advertised, Experimental)) ==> READ_METHOD in served)
    && ModernHeartbeat !in MembersOf(Get(advertised, Extensions))
  }

  /** One discrepancy applies: a clause for each, independent of any order. */
  predicate Disputed(advertised: map<Name, Json>, served: set<string>, v: Mismatch) {
    var resources := Get(advertised, Resources);
    if v.ResourcesNotAnObject? then Truthy(resources) && !resources.Obj?
    else
      && (Truthy(resources) ==> resources.Obj?)
      && match v
         case UnservedFlag(flag) =>
           Flag(flag) && Truthy(Get(MembersOf(resources), flag)) && MethodBehind(flag) !in served
         case UnadvertisedMethod(flag) =>
           Flag(flag) && !Truthy(Get(MembersOf(resources), flag)) && MethodBehind(flag) in served
         case HeartbeatWithoutRead =>
           PresenceLease in MembersOf(Get(advertised, Experimental)) && READ_METHOD !in served
         case _ => ModernHeartbeat in MembersOf(Get(advertised, Extensions))
  }

  predicate Flag(name: Name) {
    name == Subscribe || name == ListChanged
  }

  /** `agreement_violations`: every discrepancy and no other. */
  method AgreementViolations(advertised: map<Name, Json>, served: set<string>) returns (out: seq<Mismatch>)
    ensures forall v: Mismatch :: v in out <==> Disputed(advertised, served, v)
    ensures out == [] <==> InAgreement(advertised, served)
  {
    var resources := Get(advertised, Resources);
    if Truthy(resources) && !resources.Obj? {
      out := [ResourcesNotAnObject];
      NoDispute(advertised, served, out);
      return;
    }
    out := FlagMismatches(MembersOf(resources), served);
    if PresenceLease in MembersOf(Get(advertised, Experimental)) && READ_METHOD !in served {
      out := out + [HeartbeatWithoutRead];
    }
    if ModernHeartbeat in MembersOf(Get(advertised, Extensions)) {
      out := out + [ModernIdentifier];
    }
    NoDispute(advertised, served, out);
  }

  method FlagMismatches(flags: map<Name, Json>, served: set<string>) returns (out: seq<Mismatch>)
    ensures forall v: Mismatch :: v in out <==>
      || (v.UnservedFlag? && Flag(v.flag) && Truthy(Get(flags, v.flag)) && MethodBehind(v.flag) !in served)
      || (v.UnadvertisedMethod? && Flag(v.flag) && !Truthy(Get(flags, v.flag)) && MethodBehind(v.flag) in served)
  {
    out := [];
    var names := [Subscribe, ListChanged];
    for i := 0 to |names|
      invariant forall v: Mismatch :: v in out <==>
        || (v.UnservedFlag? && v.flag in names[..i] && Truthy(Get(flags, v.flag)) && MethodBehind(v.flag) !in served)
        || (v.UnadvertisedMethod? && v.flag in names[..i] && !Truthy(Get(flags, v.flag)) && MethodBehind(v.flag) in served)
    {
      var claimed, present := Truthy(Get(flags, names[i])), MethodBehind(names[i]) in served;
      if claimed && !present { out := out + [UnservedFlag(names[i])]; }
      else if present && !claimed { out := out + [UnadvertisedMethod(names[i])]; }
    }
    assert names[..|names|] == names;
  }

  /** Agreement is the absence of discrepancies. */
  lemma NoDispute(advertised: map<Name, Json>, served: set<string>, out: seq<Mismatch>)
    requires forall v: Mismatch :: v in out <==> Disputed(advertised, served, v)
    ensures out == [] <==> InAgreement(advertised, served)
  {
    if out == [] {
      assert !Disputed(advertised, served, ResourcesNotAnObject);
      assert !Disputed(advertised, served, UnservedFlag(Subscribe)) && !Disputed(advertised, served, UnadvertisedMethod(Subscribe));
      assert !Disputed(advertised, served, UnservedFlag(ListChanged)) && !Disputed(advertised, served, UnadvertisedMethod(ListChanged));
      assert !Disputed(advertised, served, HeartbeatWithoutRead) && !Disputed(advertised, served, ModernIdentifier);
    } else {
      assert Disputed(advertised, served, out[0]);
    }
  }

  /** What is derived from a registry agrees with it, and offers the heartbeat
      exactly when the registry can serve the authoritative read. */
  lemma AdvertisedTruthfully(served: set<string>)
    ensures InAgreement(Advertise(served).members, served)
    ensures NegotiateHeartbeat(Advertise(served)).Supported() <==> READ_METHOD in served
  {
    assert MembersOf(HeartbeatOffer()) == map[PresenceLease := Obj(map[ExtensionVersion := Str(EXTENSION_VERSION)])];
  }
}
