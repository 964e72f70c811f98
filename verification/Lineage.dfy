/** Admission: does this candidate supersede what a consumer already holds? */
module Lineage {
  import opened Wire
  import opened Validation
  import opened Model

  datatype LineageState = LineageState(participantId: string, held: Option<Heartbeat>, retired: set<Json>)

  function Empty(participantId: string): LineageState {
    LineageState(participantId, None, {})
  }

  datatype Admission = Admission(state: LineageState, reason: Option<ViolationCode>, duplicate: bool) {
    predicate Accepted() {
      reason.None? && !duplicate
    }
  }

  /** What a call of `admit` ends in: a value, or one of the exceptions that a null
      member, or an instant without a date in UTC, can provoke. */
  datatype Outcome =
    | Returned(admission: Admission)
    | ValueError
    | TypeError
    | OverflowError
  {
    predicate Accepted() {
      Returned? && admission.Accepted()
    }
  }

  datatype LineageCheck = Clear | Breaks(code: ViolationCode) | NotComparable

  predicate SameEpoch(state: LineageState, candidate: Heartbeat) {
    state.held.Some? && candidate.bootId == state.held.value.bootId
  }

  /** A revision that comes next, by epoch and counter: of an epoch never held, or
      later than the held one. */
  predicate Supersedes(state: LineageState, bootId: Json, sequence: Json) {
    if state.held.Some? && bootId == state.held.value.bootId then
      sequence.Int? && state.held.value.sequence.Int? && state.held.value.sequence.n < sequence.n
    else bootId !in state.retired
  }

  predicate IsDuplicate(cal: Calendar, state: LineageState, candidate: Heartbeat) {
    && SameEpoch(state, candidate)
    && candidate.sequence == state.held.value.sequence
    && DigestOf(cal, candidate) == DigestOf(cal, state.held.value)
  }

  /** `check_lineage`. Comparing a counter with a null one is a type error. */
  function CheckLineage(cal: Calendar, state: LineageState, candidate: Heartbeat): LineageCheck {
    if !SameEpoch(state, candidate) then
      if candidate.bootId in state.retired then Breaks(BootIdReuse) else Clear
    else
      var held := state.held.value;
      if !candidate.sequence.Int? || !held.sequence.Int? then NotComparable
      else if candidate.sequence.n < held.sequence.n then Breaks(SequenceRollback)
      else if candidate.sequence.n == held.sequence.n then
        if DigestOf(cal, candidate) == DigestOf(cal, held) then Clear else Breaks(SequenceConflict)
      else Clear
  }

  function Distance(a: int, b: int): int {
    if a <= b then b - a else a - b
  }

  /** `check_freshness`: skew first, then expiry. */
  function CheckFreshness(candidate: Heartbeat, now: int, maxSkew: int): Option<ViolationCode> {
    if Distance(candidate.issuedAt, now) > maxSkew then Some(ClockSkewExceeded)
    else if !IsFresh(candidate, now) then Some(ExpiredOnArrival)
    else None
  }

  function Refuse(state: LineageState, code: ViolationCode): Outcome {
    Returned(Admission(state, Some(code), false))
  }

  function Accept(state: LineageState, candidate: Heartbeat): LineageState {
    state.(held := Some(candidate), retired := state.retired + {candidate.bootId})
  }

  /** `admit` from the point where the document has been parsed. */
  function Judge(cal: Calendar, state: LineageState, candidate: Heartbeat, now: int, maxSkew: int): Outcome {
    if candidate.nodeId != Str(state.participantId) then Refuse(state, NodeIdMismatch)
    else if IsDuplicate(cal, state, candidate) then Returned(Admission(state, None, true))
    else
      match CheckLineage(cal, state, candidate)
      case NotComparable => TypeError
      case Breaks(code) => Refuse(state, code)
      case Clear =>
        match CheckFreshness(candidate, now, maxSkew)
        case Some(code) => Refuse(state, code)
        case None => Returned(Admission(Accept(state, candidate), None, false))
  }

  /** `admit`: the normative checks in order. */
  function Admit(cal: Calendar, state: LineageState, document: Json, now: int, maxSkew: int): Outcome {
    match DocumentReason(cal, document)
    case Overflow => OverflowError
    case Faulty(code) => Refuse(state, code)
    case Whole =>
      match FromDict(cal, document)
      case Parsed(candidate) => Judge(cal, state, candidate, now, maxSkew)
      case _ => ValueError
  }

  /** The state a consumer is left with; an exception leaves it as it was. */
  function StateAfter(state: LineageState, outcome: Outcome): LineageState {
    if outcome.Returned? then outcome.admission.state else state
  }

  // ---- The same judgement without text ----

  /** What the structural stage makes of a document. */
  datatype Reading =
    | Malformed(code: ViolationCode)
    | NullInstant
    | NoDate
    | Candidate(heartbeat: Heartbeat)

  function Read(cal: Calendar, document: Json): Reading {
    match DocumentReason(cal, document)
    case Overflow => NoDate
    case Faulty(code) => Malformed(code)
    case Whole =>
      match FromDict(cal, document)
      case Parsed(h) => Candidate(h)
      case _ => NullInstant
  }

  /** A lease as validation leaves it: a positive window of at most an hour. */
  predicate Leased(h: Heartbeat) {
    0 < h.expiresAt - h.issuedAt <= MAX_LEASE
  }

  predicate Redelivery(state: LineageState, h: Heartbeat) {
    state.held.Some? && Truncate(h) == Truncate(state.held.value)
  }

  /** The verdict on a reading, in the words of the contract: first the address,
      then the epoch, then the counter inside the epoch, then skew, then expiry;
      no digest is computed. */
  function Decide(state: LineageState, reading: Reading, now: int, maxSkew: int): Outcome {
    match reading
    case Malformed(code) => Refuse(state, code)
    case NullInstant => ValueError
    case NoDate => OverflowError
    case Candidate(h) =>
      if h.nodeId != Str(state.participantId) then Refuse(state, NodeIdMismatch)
      else if Redelivery(state, h) then Returned(Admission(state, None, true))
      else if SameEpoch(state, h) && !(h.sequence.Int? && state.held.value.sequence.Int?) then TypeError
      else if SameEpoch(state, h) && h.sequence.n < state.held.value.sequence.n then Refuse(state, SequenceRollback)
      else if SameEpoch(state, h) && h.sequence.n == state.held.value.sequence.n then Refuse(state, SequenceConflict)
      else if !SameEpoch(state, h) && h.bootId in state.retired then Refuse(state, BootIdReuse)
      else if Distance(h.issuedAt, now) > maxSkew then Refuse(state, ClockSkewExceeded)
      else if h.expiresAt <= now then Refuse(state, ExpiredOnArrival)
      else Returned(Admission(Accept(state, h), None, false))
  }

  /** `admit` is that verdict on what it reads: its digests compare nothing but
      the six fields, down to the millisecond, and the extensions. */
  lemma AdmitDecides(cal: Calendar, state: LineageState, document: Json, now: int, maxSkew: int)
    requires Lawful(cal)
    ensures Admit(cal, state, document, now, maxSkew) == Decide(state, Read(cal, document), now, maxSkew)
  {
    if DocumentReason(cal, document).Whole? && FromDict(cal, document).Parsed? {
      JudgeDecides(cal, state, FromDict(cal, document).heartbeat, now, maxSkew);
    }
  }

  /** A call of `admit`, known by its judgement. */
  method AdmitDocument(cal: Calendar, state: LineageState, document: Json, now: int, maxSkew: int) returns (outcome: Outcome)
    requires Lawful(cal)
    ensures outcome == Decide(state, Read(cal, document), now, maxSkew)
  {
    outcome := Admit(cal, state, document, now, maxSkew);
    AdmitDecides(cal, state, document, now, maxSkew);
  }

  lemma JudgeDecides(cal: Calendar, state: LineageState, h: Heartbeat, now: int, maxSkew: int)
    requires Lawful(cal)
    ensures Judge(cal, state, h, now, maxSkew) == Decide(state, Candidate(h), now, maxSkew)
  {
    if state.held.Some? { DigestIdentifies(cal, h, state.held.value); }
  }

  /** Everything a reading that is a candidate is known to satisfy. */
  lemma ReadShape(cal: Calendar, document: Json)
    requires Read(cal, document).Candidate?
    ensures FromDict(cal, document) == Parsed(Read(cal, document).heartbeat)
    ensures Presentable(Read(cal, document).heartbeat) && Leased(Read(cal, document).heartbeat)
  {
    ParsedShape(cal, document);
  }

  /** A rendered heartbeat is read back truncated. */
  lemma ReadWire(cal: Calendar, h: Heartbeat)
    requires Lawful(cal) && Presentable(h) && 0 < WireWindow(h) <= MAX_LEASE
    ensures Read(cal, ToDict(cal, h)) == Candidate(Truncate(h))
  {
    WireRoundTrip(cal, h);
    ParsedShape(cal, ToDict(cal, h));
  }

  /** Everything that is not an acceptance leaves the state alone, and an
      acceptance always changes it: the candidate is held and its epoch retired. */
  lemma OnlyAcceptanceMoves(state: LineageState, reading: Reading, now: int, maxSkew: int)
    ensures var out := Decide(state, reading, now, maxSkew);
      && (out.Accepted() <==> StateAfter(state, out) != state)
      && (out.Accepted() ==>
            reading.Candidate? && StateAfter(state, out) == Accept(state, reading.heartbeat))
  {
    var out := Decide(state, reading, now, maxSkew);
    if out.Accepted() && SameEpoch(state, reading.heartbeat) {
      assert reading.heartbeat != state.held.value;
    }
  }

  /** Every refusal that is not about structure, and what it takes: the address
      first, then lineage, then skew, then expiry, each exactly. */
  lemma RefusalsMean(state: LineageState, h: Heartbeat, now: int, maxSkew: int)
    ensures var out := Decide(state, Candidate(h), now, maxSkew);
      var mine, news := h.nodeId == Str(state.participantId), Supersedes(state, h.bootId, h.sequence);
      var near := h.issuedAt - now <= maxSkew && now - h.issuedAt <= maxSkew;
      && (out == Refuse(state, NodeIdMismatch) <==> !mine)
      && (out == Refuse(state, ClockSkewExceeded) <==> mine && news && !near)
      && (out == Refuse(state, ExpiredOnArrival) <==> mine && news && near && now >= h.expiresAt)
      && (out.Accepted() <==> mine && news && near && now < h.expiresAt)
      && (out == Refuse(state, BootIdReuse) <==> mine && !SameEpoch(state, h) && h.bootId in state.retired)
      && (out.Returned? && out.admission.reason.Some? ==> out.admission.state == state && !out.admission.duplicate)
  {
  }

  /** And for a document that is not a candidate: the reason of its structure. */
  lemma MalformedMeans(cal: Calendar, state: LineageState, document: Json, now: int, maxSkew: int)
    requires Lawful(cal) && !Overflows(cal, document) && !Valid(cal, document)
    ensures var out := Admit(cal, state, document, now, maxSkew);
      && out.Returned? && out.admission.state == state && !out.admission.duplicate
      && (out.admission.reason == Some(SchemaInvalid) <==> InvalidInGeneral(cal, document))
      && (out.admission.reason == Some(UnsupportedExtensionVersion) <==>
            document.Obj? && Get(document.members, ExtensionVersion) != Str(EXTENSION_VERSION))
      && (out.admission.reason == Some(InvalidExpiryWindow) <==>
            Violated(cal, document, WindowNotPositive) && Get(document.members, ExtensionVersion) == Str(EXTENSION_VERSION))
      && (out.admission.reason == Some(ExpiryWindowTooLong) <==>
            Violated(cal, document, WindowTooLong) && Get(document.members, ExtensionVersion) == Str(EXTENSION_VERSION))
  {
    DocumentReasonMeans(cal, document);
  }

  /** A document of the one version that leaves the structural stage by an uncaught
      exception: an instant has no date in UTC, or all is valid but an instant is
      null. */
  predicate Undated(cal: Calendar, document: Json) {
    && document.Obj? && Get(document.members, ExtensionVersion) == Str(EXTENSION_VERSION)
    && (|| Overflows(cal, document)
        || (&& Valid(cal, document)
            && (Get(document.members, IssuedAt) == Null || Get(document.members, ExpiresAt) == Null)))
  }

  /** A null counter on either side, met inside the held epoch by anything but the
      held revision itself. */
  predicate ComparesNull(state: LineageState, reading: Reading) {
    && reading.Candidate? && state.held.Some?
    && reading.heartbeat.nodeId == Str(state.participantId)
    && reading.heartbeat.bootId == state.held.value.bootId
    && (reading.heartbeat.sequence == Null || state.held.value.sequence == Null)
    && Truncate(reading.heartbeat) != Truncate(state.held.value)
  }

  predicate Raises(cal: Calendar, state: LineageState, document: Json) {
    Undated(cal, document) || ComparesNull(state, Read(cal, document))
  }

  /** What a consumer can come to hold: a counter that is null or a number
      (`History.RunsStaySound`). */
  predicate Sound(state: LineageState) {
    state.held.Some? ==> SequenceOk(state.held.value.sequence)
  }

  /** The documentation says a refetch never raises. It does, exactly on these
      documents. */
  lemma AdmitRaisesExactly(cal: Calendar, state: LineageState, document: Json, now: int, maxSkew: int)
    requires Lawful(cal) && Sound(state)
    ensures !Admit(cal, state, document, now, maxSkew).Returned? <==> Raises(cal, state, document)
  {
    AdmitDecides(cal, state, document, now, maxSkew);
    if DocumentReason(cal, document).Whole? {
      ParseAfterValidation(cal, document);
      if FromDict(cal, document).Parsed? {
        ParsedShape(cal, document);
      }
    }
  }

  /** The six members of a document, with the two instants given. */
  function WithStamps(issued: Json, expires: Json): Json {
    Obj(map[
      ExtensionVersion := Str(EXTENSION_VERSION), NodeId := Str("svc"), BootId := Str("a"), Sequence := Int(0),
      IssuedAt := issued, ExpiresAt := expires])
  }

  /** A valid document that makes it raise: all six members present, the expiry
      null. */
  lemma AdmitCanRaise(cal: Calendar, now: int, maxSkew: int) returns (document: Json)
    requires Lawful(cal)
    ensures Valid(cal, document)
    ensures Admit(cal, Empty("svc"), document, now, maxSkew) == ValueError
  {
    document := WithStamps(FormatRfc3339(cal, 0), Null);
    TextKeepsMilliseconds(cal, 0, 0);
    assert Get(document.members, ExpiresAt) == Null;
  }

  /** And one without a null in it: an instant that UTC has no date for, such as the
      first hour of the first year, one hour east of Greenwich. */
  lemma AdmitCanOverflow(cal: Calendar, issued: string, expires: string, now: int, maxSkew: int)
    requires Lawful(cal) && cal.read(issued).Beyond? && cal.read(expires).Beyond?
    ensures Admit(cal, Empty("svc"), WithStamps(Str(issued), Str(expires)), now, maxSkew) == OverflowError
  {
    assert Get(WithStamps(Str(issued), Str(expires)).members, IssuedAt) == Str(issued);
  }
}
