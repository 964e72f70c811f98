/** The heartbeat value, its wire form, its content fingerprint, and the change
    hint that carries the fingerprint. */
module Model {
  import opened Wire
  import opened Validation

  /** The identifiers and the counter keep the JSON value they were read as: a
      null one passes validation and ends up in the heartbeat. */
  datatype Heartbeat = Heartbeat(
    nodeId: Json,
    bootId: Json,
    sequence: Json,
    issuedAt: int,
    expiresAt: int,
    extensions: map<Name, Json>)

  /** SHA-256 over the canonical rendering of a document, taken as injective:
      equal digests mean equal documents. */
  datatype Digest = Sha256(canonical: Json)

  /** `<boot_id>:<sequence>`, kept as the pair it spells. */
  datatype Revision = Revision(bootId: Json, sequence: Json)

  /** `to_dict`: six members, and extensions if there are any. */
  function ToDict(cal: Calendar, h: Heartbeat): Json {
    var core := map[
      ExtensionVersion := Str(EXTENSION_VERSION),
      NodeId := h.nodeId,
      BootId := h.bootId,
      Sequence := h.sequence,
      IssuedAt := FormatRfc3339(cal, h.issuedAt),
      ExpiresAt := FormatRfc3339(cal, h.expiresAt)];
    Obj(if h.extensions == map[] then core else core[Extensions := Obj(h.extensions)])
  }

  /** What `from_dict` produces, or which exception it raises. */
  datatype Parse =
    | Parsed(heartbeat: Heartbeat)
    | RaisedUnsupportedVersion
    | RaisedInvalid
    | RaisedValueError
    | RaisedOverflowError

  function ExtensionsOf(m: map<Name, Json>): map<Name, Json> {
    if Get(m, Extensions).Obj? then Get(m, Extensions).members else map[]
  }

  function FromDict(cal: Calendar, raw: Json): Parse {
    if !raw.Obj? then RaisedInvalid
    else
      var m := raw.members;
      if Get(m, ExtensionVersion) != Str(EXTENSION_VERSION) then RaisedUnsupportedVersion
      else if Overflows(cal, raw) then RaisedOverflowError
      else if !Valid(cal, raw) then RaisedInvalid
      else
        match (ParseRfc3339(cal, Get(m, IssuedAt)), ParseRfc3339(cal, Get(m, ExpiresAt)))
        case (Instant(issued), Instant(expires)) =>
          Parsed(Heartbeat(Get(m, NodeId), Get(m, BootId), Get(m, Sequence), issued, expires, ExtensionsOf(m)))
        case _ => RaisedValueError
  }

  function DigestOf(cal: Calendar, h: Heartbeat): Digest {
    Sha256(ToDict(cal, h))
  }

  function RevisionOf(h: Heartbeat): Revision {
    Revision(h.bootId, h.sequence)
  }

  /** True while `now` is strictly inside the claimed window. */
  predicate IsFresh(h: Heartbeat, now: int) {
    h.expiresAt - now > 0
  }

  datatype ChangeHint = ChangeHint(address: string, revision: Revision, digest: Digest)

  function HintFor(cal: Calendar, h: Heartbeat, address: string): ChangeHint {
    ChangeHint(address, RevisionOf(h), DigestOf(cal, h))
  }

  predicate Matches(cal: Calendar, hint: ChangeHint, h: Heartbeat) {
    hint.revision == RevisionOf(h) && hint.digest == DigestOf(cal, h)
  }

  /** What a heartbeat looks like after a trip over the wire. */
  function Truncate(h: Heartbeat): Heartbeat {
    h.(issuedAt := FloorMs(h.issuedAt), expiresAt := FloorMs(h.expiresAt))
  }

  /** Every identifier is null or fits its pattern, the counter is null or not
      negative, and every extension key carries a dot. */
  predicate Presentable(h: Heartbeat) {
    && NodeIdOk(h.nodeId) && BootIdOk(h.bootId) && SequenceOk(h.sequence)
    && forall key | key in h.extensions :: Dotted(key)
  }

  /** A heartbeat with real identifiers and a real counter. */
  predicate Typed(h: Heartbeat) {
    h.nodeId.Str? && h.bootId.Str? && h.sequence.Int?
  }

  function WireWindow(h: Heartbeat): int {
    FloorMs(h.expiresAt) - FloorMs(h.issuedAt)
  }

  /** Reading the members of a rendered heartbeat back. */
  lemma Rendered(cal: Calendar, h: Heartbeat)
    ensures var m := ToDict(cal, h).members;
      && Get(m, ExtensionVersion) == Str(EXTENSION_VERSION) && Get(m, NodeId) == h.nodeId
      && Get(m, BootId) == h.bootId && Get(m, Sequence) == h.sequence
      && Get(m, IssuedAt) == FormatRfc3339(cal, h.issuedAt)
      && Get(m, ExpiresAt) == FormatRfc3339(cal, h.expiresAt)
      && Get(m, Extensions) == (if h.extensions == map[] then Null else Obj(h.extensions))
      && HasRequired(m)
      && (forall key | key in m :: Recognised(key))
  {
  }

  /** A rendered heartbeat validates exactly when its identifiers are
      presentable and the window left on the wire is positive and at most an
      hour. */
  lemma RenderedValid(cal: Calendar, h: Heartbeat)
    requires Lawful(cal)
    ensures Valid(cal, ToDict(cal, h)) <==> Presentable(h) && 0 < WireWindow(h) <= MAX_LEASE
    ensures Window(cal, ToDict(cal, h).members) == Some(WireWindow(h)) && !Overflows(cal, ToDict(cal, h))
  {
    Rendered(cal, h);
    TextKeepsMilliseconds(cal, h.issuedAt, h.issuedAt);
    TextKeepsMilliseconds(cal, h.expiresAt, h.expiresAt);
    var m := ToDict(cal, h).members;
    var extensions := Get(m, Extensions);
    assert ExtensionsOk(extensions) <==> forall key | key in h.extensions :: Dotted(key) by {
      if ExtensionsOk(extensions) {
        forall key | key in h.extensions ensures Dotted(key) { assert key in extensions.members; }
      }
    }
  }

  /** A trip over the wire floors both instants and changes nothing else, and it
      succeeds exactly when the identifiers are presentable and the window that
      is left on the wire is positive and at most an hour. */
  lemma WireRoundTrip(cal: Calendar, h: Heartbeat)
    requires Lawful(cal)
    ensures FromDict(cal, ToDict(cal, h)) ==
      if Presentable(h) && 0 < WireWindow(h) <= MAX_LEASE then Parsed(Truncate(h)) else RaisedInvalid
    ensures ToDict(cal, Truncate(h)) == ToDict(cal, h) && Truncate(Truncate(h)) == Truncate(h)
  {
    Rendered(cal, h);
    RenderedValid(cal, h);
    TextKeepsMilliseconds(cal, h.issuedAt, FloorMs(h.issuedAt));
    TextKeepsMilliseconds(cal, h.expiresAt, FloorMs(h.expiresAt));
  }

  /** Two heartbeats have the same fingerprint exactly when they are the same up
      to sub-millisecond time: nothing but the six fields and the extensions
      takes part, and all of those do. */
  lemma DigestIdentifies(cal: Calendar, a: Heartbeat, b: Heartbeat)
    requires Lawful(cal)
    ensures DigestOf(cal, a) == DigestOf(cal, b) <==> Truncate(a) == Truncate(b)
  {
    Rendered(cal, a);
    Rendered(cal, b);
    TextKeepsMilliseconds(cal, a.issuedAt, b.issuedAt);
    TextKeepsMilliseconds(cal, a.expiresAt, b.expiresAt);
  }

  /** A hint matches exactly the heartbeats that agree with its own up to
      sub-millisecond time; in particular a hint built from the heartbeat in
      memory matches the one read back from the wire. */
  lemma HintMatchesWire(cal: Calendar, a: Heartbeat, b: Heartbeat, address: string)
    requires Lawful(cal)
    ensures Matches(cal, HintFor(cal, a, address), b) <==> Truncate(a) == Truncate(b)
    ensures Matches(cal, HintFor(cal, a, address), Truncate(a))
  {
    DigestIdentifies(cal, a, b);
    DigestIdentifies(cal, a, Truncate(a));
  }

  /** What parsing guarantees about the heartbeat it returns. */
  lemma ParsedShape(cal: Calendar, raw: Json)
    requires FromDict(cal, raw).Parsed?
    ensures DocumentReason(cal, raw).Whole?
    ensures Presentable(FromDict(cal, raw).heartbeat)
    ensures var h := FromDict(cal, raw).heartbeat; 0 < h.expiresAt - h.issuedAt <= MAX_LEASE
  {
  }

  /** A document with no structural reason never makes `from_dict` raise one of
      its own errors; it makes it raise a bare `ValueError` exactly when one of
      the two instants is null. */
  lemma ParseAfterValidation(cal: Calendar, raw: Json)
    requires DocumentReason(cal, raw).Whole?
    ensures FromDict(cal, raw).Parsed? || FromDict(cal, raw).RaisedValueError?
    ensures FromDict(cal, raw).RaisedValueError? <==>
      Get(raw.members, IssuedAt) == Null || Get(raw.members, ExpiresAt) == Null
  {
  }
}
