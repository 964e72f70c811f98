/** Structural validation of a heartbeat document, and the one reason a
    structurally bad document is refused for. */
module Validation {
  import opened Wire

  const EXTENSION_VERSION := "0.1"
  const REQUIRED_FIELDS: seq<Name> := [ExtensionVersion, NodeId, BootId, Sequence, IssuedAt, ExpiresAt]

  /** Longest validity window accepted. */
  const MAX_LEASE := 3600 * SECOND

  datatype ViolationCode =
    | SchemaInvalid
    | UnsupportedExtensionVersion
    | InvalidExpiryWindow
    | ExpiryWindowTooLong
    | NodeIdMismatch
    | SequenceRollback
    | SequenceConflict
    | BootIdReuse
    | ClockSkewExceeded
    | ExpiredOnArrival

  /** One structural complaint; the source renders each as a message. */
  datatype Violation =
    | NotAnObject
    | Missing(name: Name)
    | WrongVersion
    | BadNodeId
    | BadBootId
    | SequenceNotAnInteger
    | SequenceNegative
    | BadTimestamp(name: Name)
    | WindowNotPositive
    | WindowTooLong
    | ExtensionsNotAnObject
    | ExtensionKeyNotNamespaced(key: Name)
    | UnknownMember(key: Name)

  predicate Alphanumeric(c: char) {
    'A' <= c <= 'Z' || 'a' <= c <= 'z' || '0' <= c <= '9'
  }

  predicate NodeIdPattern(s: string) {
    && 1 <= |s| <= 255 && Alphanumeric(s[0])
    && forall i | 1 <= i < |s| :: Alphanumeric(s[i]) || s[i] in "._:/+-"
  }

  predicate BootIdPattern(s: string) {
    && 1 <= |s| <= 128 && Alphanumeric(s[0])
    && forall i | 1 <= i < |s| :: Alphanumeric(s[i]) || s[i] in "._-"
  }

  predicate Required(name: Name) {
    name.ExtensionVersion? || name.NodeId? || name.BootId? || name.Sequence? || name.IssuedAt? || name.ExpiresAt?
  }

  lemma RequiredFieldsListed(name: Name)
    ensures Required(name) <==> name in REQUIRED_FIELDS
  {
    assert REQUIRED_FIELDS[0] == ExtensionVersion && REQUIRED_FIELDS[1] == NodeId && REQUIRED_FIELDS[2] == BootId;
    assert REQUIRED_FIELDS[3] == Sequence && REQUIRED_FIELDS[4] == IssuedAt && REQUIRED_FIELDS[5] == ExpiresAt;
  }

  predicate HasRequired(m: map<Name, Json>) {
    ExtensionVersion in m && NodeId in m && BootId in m && Sequence in m && IssuedAt in m && ExpiresAt in m
  }

  predicate Recognised(name: Name) {
    Required(name) || name.Extensions?
  }

  /** Both instants of a document, when both can be read. */
  function Window(cal: Calendar, members: map<Name, Json>): Option<int> {
    match (ParseRfc3339(cal, Get(members, IssuedAt)), ParseRfc3339(cal, Get(members, ExpiresAt)))
    case (Instant(issued), Instant(expires)) => Some(expires - issued)
    case _ => None
  }

  /** One of the two instants has no date in UTC. */
  predicate Overflows(cal: Calendar, raw: Json) {
    raw.Obj? &&
    (|| ParseRfc3339(cal, Get(raw.members, IssuedAt)).Beyond?
     || ParseRfc3339(cal, Get(raw.members, ExpiresAt)).Beyond?)
  }

  /** Complaint `v` applies to `raw`: the reference reading of the contract,
      one clause a complaint, independent of any order of checking. */
  predicate Violated(cal: Calendar, raw: Json, v: Violation) {
    if !raw.Obj? then v.NotAnObject?
    else
      var m := raw.members;
      match v
      case NotAnObject => false
      case Missing(name) => Required(name) && name !in m
      case WrongVersion => Get(m, ExtensionVersion) != Null && Get(m, ExtensionVersion) != Str(EXTENSION_VERSION)
      case BadNodeId =>
        var id := Get(m, NodeId); id != Null && !(id.Str? && NodeIdPattern(id.s))
      case BadBootId =>
        var id := Get(m, BootId); id != Null && !(id.Str? && BootIdPattern(id.s))
      case SequenceNotAnInteger => Get(m, Sequence) != Null && !Get(m, Sequence).Int?
      case SequenceNegative => Get(m, Sequence).Int? && Get(m, Sequence).n < 0
      case BadTimestamp(name) =>
        (name == IssuedAt || name == ExpiresAt) && Get(m, name) != Null && ParseRfc3339(cal, Get(m, name)).Unreadable?
      case WindowNotPositive => Window(cal, m).Some? && Window(cal, m).value <= 0
      case WindowTooLong => Window(cal, m).Some? && Window(cal, m).value > MAX_LEASE
      case ExtensionsNotAnObject => Get(m, Extensions) != Null && !Get(m, Extensions).Obj?
      case ExtensionKeyNotNamespaced(key) =>
        Get(m, Extensions).Obj? && key in Get(m, Extensions).members && !Dotted(key)
      case UnknownMember(key) => key in m && !Recognised(key) && !Dotted(key)
  }

  /** No complaint applies. */
  ghost predicate Spotless(cal: Calendar, raw: Json) {
    forall v: Violation :: !Violated(cal, raw, v)
  }

  predicate NodeIdOk(value: Json) {
    value == Null || (value.Str? && NodeIdPattern(value.s))
  }

  predicate BootIdOk(value: Json) {
    value == Null || (value.Str? && BootIdPattern(value.s))
  }

  predicate SequenceOk(value: Json) {
    value == Null || (value.Int? && value.n >= 0)
  }

  predicate StampOk(cal: Calendar, value: Json) {
    value == Null || ParseRfc3339(cal, value).Instant?
  }

  predicate ExtensionsOk(value: Json) {
    value == Null || (value.Obj? && forall key | key in value.members :: Dotted(key))
  }

  /** The shape of a valid document, in positive terms. */
  predicate Valid(cal: Calendar, raw: Json) {
    raw.Obj? &&
    var m := raw.members;
    && HasRequired(m)
    && (Get(m, ExtensionVersion) == Null || Get(m, ExtensionVersion) == Str(EXTENSION_VERSION))
    && NodeIdOk(Get(m, NodeId)) && BootIdOk(Get(m, BootId)) && SequenceOk(Get(m, Sequence))
    && StampOk(cal, Get(m, IssuedAt)) && StampOk(cal, Get(m, ExpiresAt))
    && (Window(cal, m).Some? ==> 0 < Window(cal, m).value <= MAX_LEASE)
    && ExtensionsOk(Get(m, Extensions))
    && forall key | key in m :: Recognised(key) || Dotted(key)
  }

  /** The positive shape is the absence of complaints, unless there is no telling. */
  lemma ValidIsSpotless(cal: Calendar, raw: Json)
    ensures Valid(cal, raw) <==> Spotless(cal, raw) && !Overflows(cal, raw)
  {
    if Valid(cal, raw) {
      forall v: Violation ensures !Violated(cal, raw, v) { ValidHasNoComplaint(cal, raw, v); }
    } else if !Overflows(cal, raw) {
      var v := SomeComplaint(cal, raw);
      assert Violated(cal, raw, v);
    }
  }

  lemma ValidHasNoComplaint(cal: Calendar, raw: Json, v: Violation)
    requires Valid(cal, raw)
    ensures !Violated(cal, raw, v)
  {
  }

  /** A complaint about an invalid document, found clause by clause. */
  lemma SomeComplaint(cal: Calendar, raw: Json) returns (v: Violation)
    requires !Valid(cal, raw) && !Overflows(cal, raw)
    ensures Violated(cal, raw, v)
  {
    if !raw.Obj? { return NotAnObject; }
    var m := raw.members;
    if key :| key in m && !Recognised(key) && !Dotted(key) { return UnknownMember(key); }
    if !ExtensionsOk(Get(m, Extensions)) {
      if !Get(m, Extensions).Obj? { return ExtensionsNotAnObject; }
      var key :| key in Get(m, Extensions).members && !Dotted(key);
      return ExtensionKeyNotNamespaced(key);
    }
    if name: Name :| Required(name) && name !in m { return Missing(name); }
    assert HasRequired(m);
    v := SomeFieldComplaint(cal, m);
  }

  lemma SomeFieldComplaint(cal: Calendar, m: map<Name, Json>) returns (v: Violation)
    requires !(
      && (Get(m, ExtensionVersion) == Null || Get(m, ExtensionVersion) == Str(EXTENSION_VERSION))
      && NodeIdOk(Get(m, NodeId)) && BootIdOk(Get(m, BootId)) && SequenceOk(Get(m, Sequence))
      && StampOk(cal, Get(m, IssuedAt)) && StampOk(cal, Get(m, ExpiresAt))
      && (Window(cal, m).Some? ==> 0 < Window(cal, m).value <= MAX_LEASE))
    requires !Overflows(cal, Obj(m))
    ensures Violated(cal, Obj(m), v)
  {
    if !NodeIdOk(Get(m, NodeId)) { return BadNodeId; }
    if !BootIdOk(Get(m, BootId)) { return BadBootId; }
    if !SequenceOk(Get(m, Sequence)) {
      return if Get(m, Sequence).Int? then SequenceNegative else SequenceNotAnInteger;
    }
    if !StampOk(cal, Get(m, IssuedAt)) { return BadTimestamp(IssuedAt); }
    if !StampOk(cal, Get(m, ExpiresAt)) { return BadTimestamp(ExpiresAt); }
    if Window(cal, m).Some? && Window(cal, m).value <= 0 { return WindowNotPositive; }
    if Window(cal, m).Some? && Window(cal, m).value > MAX_LEASE { return WindowTooLong; }
    return WrongVersion;
  }

  /** How a validation ends: with its complaints, or with the `OverflowError` of an
      instant that nobody catches. */
  datatype Validated = Complaints(list: seq<Violation>) | Overflowed

  /** `validate_document`: the complete list of complaints. The order of the
      key loops is the order the members happen to be stored in. */
  method ValidateDocument(cal: Calendar, raw: Json) returns (result: Validated)
    ensures result.Overflowed? <==> Overflows(cal, raw)
    ensures result.Complaints? ==> forall v: Violation :: v in result.list <==> Violated(cal, raw, v)
    ensures result == Complaints([]) <==> Valid(cal, raw)
  {
    if !raw.Obj? {
      var out := [NotAnObject];
      EmptyListIsValid(cal, raw, out);
      return Complaints(out);
    }
    var m := raw.members;
    var missing := MissingFields(m);
    var scalars := ScalarViolations(cal, m);
    var stamps := TimestampViolations(cal, m);
    if stamps.Overflowed? { return Overflowed; }
    var windows := WindowViolations(Window(cal, m));
    var extensions := ExtensionViolations(Get(m, Extensions));
    var unknown := UnknownMembers(m);
    var out := missing + scalars + stamps.list + windows + extensions + unknown;
    EmptyListIsValid(cal, raw, out);
    result := Complaints(out);
  }

  lemma EmptyListIsValid(cal: Calendar, raw: Json, out: seq<Violation>)
    requires !Overflows(cal, raw) && forall v: Violation :: v in out <==> Violated(cal, raw, v)
    ensures out == [] <==> Valid(cal, raw)
  {
    ValidIsSpotless(cal, raw);
    assert out != [] ==> out[0] in out;
  }

  method MissingFields(m: map<Name, Json>) returns (out: seq<Violation>)
    ensures forall v: Violation :: v in out <==> v.Missing? && Required(v.name) && v.name !in m
  {
    out := [];
    for i := 0 to |REQUIRED_FIELDS|
      invariant forall v: Violation :: v in out <==> v.Missing? && v.name in REQUIRED_FIELDS[..i] && v.name !in m
    {
      if REQUIRED_FIELDS[i] !in m {
        out := out + [Missing(REQUIRED_FIELDS[i])];
      }
    }
    assert REQUIRED_FIELDS[..|REQUIRED_FIELDS|] == REQUIRED_FIELDS;
    forall name: Name ensures Required(name) <==> name in REQUIRED_FIELDS { RequiredFieldsListed(name); }
  }

  function WindowViolations(window: Option<int>): (out: seq<Violation>)
    ensures forall v: Violation :: v in out <==>
      || (v.WindowNotPositive? && window.Some? && window.value <= 0)
      || (v.WindowTooLong? && window.Some? && window.value > MAX_LEASE)
  {
    match window
    case None => []
    case Some(w) => if w <= 0 then [WindowNotPositive] else if w > MAX_LEASE then [WindowTooLong] else []
  }

  method ScalarViolations(cal: Calendar, m: map<Name, Json>) returns (out: seq<Violation>)
    ensures forall v: Violation :: v in out <==>
      (v.WrongVersion? || v.BadNodeId? || v.BadBootId? || v.SequenceNotAnInteger? || v.SequenceNegative?)
      && Violated(cal, Obj(m), v)
  {
    out := [];
    var version := Get(m, ExtensionVersion);
    if version != Null && version != Str(EXTENSION_VERSION) { out := out + [WrongVersion]; }
    var nodeId := Get(m, NodeId);
    if nodeId != Null && !(nodeId.Str? && NodeIdPattern(nodeId.s)) { out := out + [BadNodeId]; }
    var bootId := Get(m, BootId);
    if bootId != Null && !(bootId.Str? && BootIdPattern(bootId.s)) { out := out + [BadBootId]; }
    var sequence := Get(m, Sequence);
    if sequence != Null {
      if !sequence.Int? { out := out + [SequenceNotAnInteger]; }
      else if sequence.n < 0 { out := out + [SequenceNegative]; }
    }
  }

  method TimestampViolations(cal: Calendar, m: map<Name, Json>) returns (result: Validated)
    ensures result.Overflowed? <==> Overflows(cal, Obj(m))
    ensures result.Complaints? ==>
      forall v: Violation :: v in result.list <==> v.BadTimestamp? && Violated(cal, Obj(m), v)
  {
    var out := [];
    var names := [IssuedAt, ExpiresAt];
    for i := 0 to |names|
      invariant forall j | 0 <= j < i :: !ParseRfc3339(cal, Get(m, names[j])).Beyond?
      invariant forall v: Violation :: v in out <==>
        v.BadTimestamp? && v.name in names[..i] && Get(m, v.name) != Null && ParseRfc3339(cal, Get(m, v.name)).Unreadable?
    {
      if Get(m, names[i]) != Null {
        var stamp := ParseRfc3339(cal, Get(m, names[i]));
        if stamp.Beyond? { return Overflowed; }
        if stamp.Unreadable? { out := out + [BadTimestamp(names[i])]; }
      }
    }
    assert names[..|names|] == names;
    assert !ParseRfc3339(cal, Get(m, names[0])).Beyond? && !ParseRfc3339(cal, Get(m, names[1])).Beyond?;
    result := Complaints(out);
  }

  method ExtensionViolations(extensions: Json) returns (out: seq<Violation>)
    ensures forall v: Violation :: v in out <==>
      || (v.ExtensionsNotAnObject? && extensions != Null && !extensions.Obj?)
      || (v.ExtensionKeyNotNamespaced? && extensions.Obj? && v.key in extensions.members && !Dotted(v.key))
  {
    out := [];
    if extensions != Null {
      if !extensions.Obj? {
        out := [ExtensionsNotAnObject];
      } else {
        var rest := extensions.members.Keys;
        while rest != {}
          invariant rest <= extensions.members.Keys
          invariant forall v: Violation :: v in out <==>
            v.ExtensionKeyNotNamespaced? && v.key in extensions.members && v.key !in rest && !Dotted(v.key)
          decreases rest
        {
          var key :| key in rest;
          rest := rest - {key};
          if !Dotted(key) { out := out + [ExtensionKeyNotNamespaced(key)]; }
        }
      }
    }
  }

  method UnknownMembers(m: map<Name, Json>) returns (out: seq<Violation>)
    ensures forall v: Violation :: v in out <==>
      v.UnknownMember? && v.key in m && !Recognised(v.key) && !Dotted(v.key)
  {
    out := [];
    var rest := m.Keys;
    while rest != {}
      invariant rest <= m.Keys
      invariant forall v: Violation :: v in out <==>
        v.UnknownMember? && v.key in m && v.key !in rest && !Recognised(v.key) && !Dotted(v.key)
      decreases rest
    {
      var key :| key in rest;
      rest := rest - {key};
      if !Recognised(key) && !Dotted(key) { out := out + [UnknownMember(key)]; }
    }
  }

  /** What the structural stage says: nothing, one code, or an escaping
      `OverflowError`. */
  datatype Structure = Whole | Faulty(code: ViolationCode) | Overflow

  /** `expiry_window_violation`: the window code, if both instants can be read. The
      expiry is not looked at when the issue time cannot be read. */
  function ExpiryWindowViolation(cal: Calendar, members: map<Name, Json>): Structure {
    match ParseRfc3339(cal, Get(members, IssuedAt))
    case Unreadable => Whole
    case Beyond(_) => Overflow
    case Instant(issued) =>
      match ParseRfc3339(cal, Get(members, ExpiresAt))
      case Unreadable => Whole
      case Beyond(_) => Overflow
      case Instant(expires) =>
        if expires - issued <= 0 then Faulty(InvalidExpiryWindow)
        else if expires - issued > MAX_LEASE then Faulty(ExpiryWindowTooLong)
        else Whole
  }

  /** `document_reason`: the single most specific reason to refuse `raw`. */
  function DocumentReason(cal: Calendar, raw: Json): Structure {
    if !raw.Obj? then Faulty(SchemaInvalid)
    else if Get(raw.members, ExtensionVersion) != Str(EXTENSION_VERSION) then Faulty(UnsupportedExtensionVersion)
    else
      match ExpiryWindowViolation(cal, raw.members)
      case Faulty(code) => Faulty(code)
      case Overflow => Overflow
      case Whole =>
        if Overflows(cal, raw) then Overflow
        else if Valid(cal, raw) then Whole
        else Faulty(SchemaInvalid)
  }

  /** A readable document of the one version whose fault is not its window. */
  predicate InvalidInGeneral(cal: Calendar, raw: Json) {
    !raw.Obj? ||
    (&& Get(raw.members, ExtensionVersion) == Str(EXTENSION_VERSION)
     && !Overflows(cal, raw) && !Valid(cal, raw)
     && !Violated(cal, raw, WindowNotPositive) && !Violated(cal, raw, WindowTooLong))
  }

  /** A whole document is a valid one of the one version; each specific reason comes
      exactly when its own complaint applies (a readable version first, then the
      window), and the general one for every other fault; and the check raises
      exactly when the version is readable and either instant has no date in UTC,
      whichever of the two is looked at first. */
  lemma DocumentReasonMeans(cal: Calendar, raw: Json)
    ensures DocumentReason(cal, raw).Whole? <==>
      Valid(cal, raw) && Get(raw.members, ExtensionVersion) == Str(EXTENSION_VERSION)
    ensures DocumentReason(cal, raw).Overflow? <==>
      Overflows(cal, raw) && Get(raw.members, ExtensionVersion) == Str(EXTENSION_VERSION)
    ensures DocumentReason(cal, raw) == Faulty(UnsupportedExtensionVersion) <==>
      raw.Obj? && (Violated(cal, raw, WrongVersion) || Get(raw.members, ExtensionVersion) == Null)
    ensures DocumentReason(cal, raw) == Faulty(InvalidExpiryWindow) <==>
      Violated(cal, raw, WindowNotPositive) && Get(raw.members, ExtensionVersion) == Str(EXTENSION_VERSION)
    ensures DocumentReason(cal, raw) == Faulty(ExpiryWindowTooLong) <==>
      Violated(cal, raw, WindowTooLong) && Get(raw.members, ExtensionVersion) == Str(EXTENSION_VERSION)
    ensures DocumentReason(cal, raw) == Faulty(SchemaInvalid) <==> InvalidInGeneral(cal, raw)
  {
  }

  /** Identifiers and counters at the edges of what they may be. */
  lemma FieldEdges(n: nat, k: int)
    ensures SequenceOk(Int(k)) <==> k >= 0
    ensures !SequenceOk(Bool(true)) && !SequenceOk(Str("0")) && !SequenceOk(Float("1.0"))
    ensures NodeIdPattern(seq(n, _ => 'a')) <==> 1 <= n <= 255
    ensures BootIdPattern(seq(n, _ => 'a')) <==> 1 <= n <= 128
    ensures NodeIdPattern("a:/+-._9") && !NodeIdPattern("/a") && !NodeIdPattern("a a")
    ensures BootIdPattern("a-._9") && !BootIdPattern(".a") && !BootIdPattern("a/a")
  {
    assert "/a"[0] == '/' && "a a"[1] == ' ' && ".a"[0] == '.' && "a/a"[1] == '/';
  }
}
