/** The independent participant, and how far it and the reference agree. */
module CleanRoom {
  import opened Wire
  import opened Validation
  import opened Model
  import opened Lineage
  import opened History

  /** Its own timestamp reader: anything that is not a string is no instant, and
      the empty string is left to the calendar to refuse. It does not move the
      instant to UTC, so nothing overflows. */
  function ParseTimestamp(cal: Calendar, value: Json): Option<int> {
    if !value.Str? then None
    else
      match cal.read(value.s)
      case Unreadable => None
      case Instant(at) => Some(at)
      case Beyond(at) => Some(at)
  }

  function OwnWindow(cal: Calendar, m: map<Name, Json>): Option<int> {
    match (ParseTimestamp(cal, Get(m, IssuedAt)), ParseTimestamp(cal, Get(m, ExpiresAt)))
    case (Some(issued), Some(expires)) => Some(expires - issued)
    case _ => None
  }

  /** Its complaints: those of the reference, but a timestamp that is present and
      null is one too. */
  predicate Complains(cal: Calendar, raw: Json, v: Violation) {
    match v
    case BadTimestamp(name) =>
      raw.Obj? && (name == IssuedAt || name == ExpiresAt) && name in raw.members
      && ParseTimestamp(cal, raw.members[name]).None?
    case WindowNotPositive => raw.Obj? && OwnWindow(cal, raw.members).Some? && OwnWindow(cal, raw.members).value <= 0
    case WindowTooLong => raw.Obj? && OwnWindow(cal, raw.members).Some? && OwnWindow(cal, raw.members).value > MAX_LEASE
    case _ => Violated(cal, raw, v)
  }

  predicate OwnValid(cal: Calendar, raw: Json) {
    raw.Obj? &&
    var m := raw.members;
    && HasRequired(m)
    && (Get(m, ExtensionVersion) == Null || Get(m, ExtensionVersion) == Str(EXTENSION_VERSION))
    && NodeIdOk(Get(m, NodeId)) && BootIdOk(Get(m, BootId)) && SequenceOk(Get(m, Sequence))
    && ParseTimestamp(cal, Get(m, IssuedAt)).Some? && ParseTimestamp(cal, Get(m, ExpiresAt)).Some?
    && 0 < OwnWindow(cal, m).value <= MAX_LEASE
    && ExtensionsOk(Get(m, Extensions))
    && forall name | name in m :: Recognised(name) || Dotted(name)
  }

  /** The calendar as it would be without a first and a last year. */
  function Endless(cal: Calendar): Calendar {
    Calendar((s: string) => match cal.read(s) case Beyond(at) => Instant(at) case stamp => stamp, cal.write)
  }

  /** The two validators differ in exactly two ways, on any value whatever: the
      reference lets a null instant through, and it raises on an instant that has no
      date in UTC. */
  lemma ValidatorsAgree(cal: Calendar, raw: Json)
    requires Lawful(cal)
    ensures OwnValid(cal, raw) <==>
      Valid(Endless(cal), raw) && Get(raw.members, IssuedAt) != Null && Get(raw.members, ExpiresAt) != Null
    ensures Valid(cal, raw) <==> Valid(Endless(cal), raw) && !Overflows(cal, raw)
    ensures Lawful(Endless(cal)) && !Overflows(Endless(cal), raw)
  {
  }

  /** `validate`: the complete list of its complaints. */
  method Validate(cal: Calendar, raw: Json) returns (out: seq<Violation>)
    requires Lawful(cal)
    ensures forall v: Violation :: v in out <==> Complains(cal, raw, v)
    ensures out == [] <==> OwnValid(cal, raw)
  {
    if !raw.Obj? {
      out := [NotAnObject];
      assert NotAnObject in out;
      return;
    }
    var m := raw.members;
    var missing := MissingFields(m);
    var scalars := ScalarViolations(cal, m);
    var stamps := [];
    if IssuedAt in m && ParseTimestamp(cal, m[IssuedAt]).None? { stamps := stamps + [BadTimestamp(IssuedAt)]; }
    if ExpiresAt in m && ParseTimestamp(cal, m[ExpiresAt]).None? { stamps := stamps + [BadTimestamp(ExpiresAt)]; }
    var windows := WindowViolations(OwnWindow(cal, m));
    var extensions := ExtensionViolations(Get(m, Extensions));
    var unknown := UnknownMembers(m);
    out := missing + scalars + stamps + windows + extensions + unknown;
    NothingToComplainOf(cal, m, out);
  }

  lemma NothingToComplainOf(cal: Calendar, m: map<Name, Json>, out: seq<Violation>)
    requires Lawful(cal) && forall v: Violation :: v in out <==> Complains(cal, Obj(m), v)
    ensures out == [] <==> OwnValid(cal, Obj(m))
  {
    var raw, endless := Obj(m), Endless(cal);
    ValidatorsAgree(cal, raw);
    ValidIsSpotless(endless, raw);
    forall v: Violation ensures Complains(cal, raw, v) <==>
      Violated(endless, raw, v) || (v.BadTimestamp? && (v.name == IssuedAt || v.name == ExpiresAt) && v.name in m && m[v.name] == Null)
    {
    }
    if out == [] {
      assert !Complains(cal, raw, BadTimestamp(IssuedAt)) && !Complains(cal, raw, BadTimestamp(ExpiresAt));
      assert !Complains(cal, raw, Missing(IssuedAt)) && !Complains(cal, raw, Missing(ExpiresAt));
      forall v: Violation ensures !Violated(endless, raw, v) {
        assert !Complains(cal, raw, v);
      }
    } else {
      assert Complains(cal, raw, out[0]);
    }
  }

  /** The answers of either implementation, in the words they share. */
  datatype Word = Ok | Duplicate | Code(code: ViolationCode) | Raises

  /** What this participant remembers: the raw document. */
  datatype Room = Room(nodeId: string, held: Option<Json>, seen: set<Json>)

  predicate RoomFresh(cal: Calendar, document: Json, now: int)
    requires document.Obj?
  {
    var expires := ParseTimestamp(cal, Get(document.members, ExpiresAt));
    expires.Some? && now < expires.value
  }

  function Field(document: Json, name: Name): Json {
    if document.Obj? then Get(document.members, name) else Null
  }

  /** `admit`: expiry before lineage, no skew bound, raw documents compared. */
  function RoomWord(cal: Calendar, room: Room, document: Json, now: int): Word {
    if !OwnValid(cal, document) then Code(SchemaInvalid)
    else if Field(document, NodeId) != Str(room.nodeId) then Code(NodeIdMismatch)
    else if !RoomFresh(cal, document, now) then Code(ExpiredOnArrival)
    else if room.held.None? || Field(document, BootId) != Field(room.held.value, BootId) then
      if Field(document, BootId) in room.seen then Code(BootIdReuse) else Ok
    else
      var mine, theirs := Field(document, Sequence), Field(room.held.value, Sequence);
      if !mine.Int? || !theirs.Int? then Raises
      else if mine.n < theirs.n then Code(SequenceRollback)
      else if mine.n == theirs.n then if document == room.held.value then Duplicate else Code(SequenceConflict)
      else Ok
  }

  function RoomStep(cal: Calendar, room: Room, document: Json, now: int): Room {
    if RoomWord(cal, room, document, now) == Ok
    then room.(held := Some(document), seen := room.seen + {Field(document, BootId)})
    else room
  }

  class CleanRoomConsumer {
    const cal: Calendar
    const nodeId: string
    var held: Option<Json>
    var seenEpochs: set<Json>

    constructor (cal: Calendar, nodeId: string)
      ensures this.cal == cal && View() == Room(nodeId, None, {})
    {
      this.cal := cal;
      this.nodeId := nodeId;
      held := None;
      seenEpochs := {};
    }

    function View(): Room
      reads this
    {
      Room(nodeId, held, seenEpochs)
    }

    method Admit(document: Json, now: int) returns (word: Word)
      requires Lawful(cal)
      modifies this
      ensures word == RoomWord(cal, old(View()), document, now)
      ensures View() == RoomStep(cal, old(View()), document, now)
    {
      var violations := Validate(cal, document);
      if violations != [] { return Code(SchemaInvalid); }
      if document.members[NodeId] != Str(nodeId) { return Code(NodeIdMismatch); }
      if !RoomFresh(cal, document, now) { return Code(ExpiredOnArrival); }
      var bootId := document.members[BootId];
      if held.None? || bootId != Field(held.value, BootId) {
        if bootId in seenEpochs { return Code(BootIdReuse); }
        Hold(document);
        return Ok;
      }
      var mine, theirs := document.members[Sequence], Field(held.value, Sequence);
      if !mine.Int? || !theirs.Int? { return Raises; }
      if mine.n < theirs.n { return Code(SequenceRollback); }
      if mine.n == theirs.n {
        return if document == held.value then Duplicate else Code(SequenceConflict);
      }
      Hold(document);
      return Ok;
    }

    method Hold(document: Json)
      modifies this
      ensures held == Some(document) && seenEpochs == old(seenEpochs) + {Field(document, BootId)}
    {
      held := Some(document);
      seenEpochs := seenEpochs + {Field(document, BootId)};
    }
  }

  class CleanRoomIssuer {
    const cal: Calendar
    const nodeId: string
    const lease: int
    var bootId: string
    var sequence: int

    constructor (cal: Calendar, nodeId: string, bootId: string, lease: int)
      ensures this.cal == cal && this.nodeId == nodeId && this.lease == lease
      ensures this.bootId == bootId && sequence == -1
    {
      this.cal, this.nodeId, this.lease := cal, nodeId, lease;
      this.bootId, sequence := bootId, -1;
    }

    /** `issue`: the document is the one the reference would render. */
    method Issue(now: int) returns (document: Json)
      modifies this`sequence
      ensures sequence == old(sequence) + 1
      ensures document == ToDict(cal, Heartbeat(Str(nodeId), Str(bootId), Int(sequence), now, now + lease, map[]))
    {
      sequence := sequence + 1;
      document := Obj(map[
        ExtensionVersion := Str(EXTENSION_VERSION),
        NodeId := Str(nodeId),
        BootId := Str(bootId),
        Sequence := Int(sequence),
        IssuedAt := FormatRfc3339(cal, now),
        ExpiresAt := FormatRfc3339(cal, now + lease)]);
    }

    method Restart(bootId: string)
      modifies this`bootId, this`sequence
      ensures this.bootId == bootId && sequence == -1
    {
      this.bootId := bootId;
      sequence := -1;
    }
  }

  // ---- The simulation ----

  function WordOf(outcome: Outcome): Word {
    match outcome
    case Returned(a) => if a.duplicate then Duplicate else if a.reason.Some? then Code(a.reason.value) else Ok
    case _ => Raises
  }

  /** The reference holds what this participant's document says. */
  predicate Linked(cal: Calendar, state: LineageState, room: Room) {
    && room.nodeId == state.participantId && room.seen == state.retired
    && (room.held.None? <==> state.held.None?)
    && (room.held.Some? ==> Read(cal, room.held.value) == Candidate(state.held.value))
  }

  /** A mapping whose version member is null or absent. */
  predicate Versionless(document: Json) {
    document.Obj? && Get(document.members, ExtensionVersion) == Null
  }

  /** What the reference makes of a document this participant finds valid. */
  lemma ReadOfOwnValid(cal: Calendar, document: Json)
    requires Lawful(cal)
    ensures Read(cal, document).Candidate? <==>
      OwnValid(cal, document) && !Versionless(document) && !Overflows(cal, document)
    ensures Read(cal, document).Candidate? ==>
      var h := Read(cal, document).heartbeat;
      && h.nodeId == Field(document, NodeId) && h.bootId == Field(document, BootId)
      && h.sequence == Field(document, Sequence) && ParseTimestamp(cal, Field(document, IssuedAt)) == Some(h.issuedAt)
      && forall now: int :: RoomFresh(cal, document, now) <==> IsFresh(h, now)
    ensures OwnValid(cal, document) && Versionless(document) ==>
      Read(cal, document) == Malformed(UnsupportedExtensionVersion)
    ensures OwnValid(cal, document) && !Versionless(document) && Overflows(cal, document) ==>
      Read(cal, document) == NoDate
  {
    ValidatorsAgree(cal, document);
    if DocumentReason(cal, document).Whole? { ParseAfterValidation(cal, document); }
  }

  /** The clean room's answer, in terms of what the reference reads. */
  lemma RoomReads(cal: Calendar, state: LineageState, room: Room, document: Json, now: int)
    requires Lawful(cal) && Linked(cal, state, room) && Read(cal, document).Candidate?
    ensures var h := Read(cal, document).heartbeat;
      var word := RoomWord(cal, room, document, now);
      if h.nodeId != Str(state.participantId) then word == Code(NodeIdMismatch)
      else if !IsFresh(h, now) then word == Code(ExpiredOnArrival)
      else if !SameEpoch(state, h) then word == if h.bootId in state.retired then Code(BootIdReuse) else Ok
      else if !h.sequence.Int? || !state.held.value.sequence.Int? then word == Raises
      else if h.sequence.n < state.held.value.sequence.n then word == Code(SequenceRollback)
      else if h.sequence.n == state.held.value.sequence.n then
        word == if document == room.held.value then Duplicate else Code(SequenceConflict)
      else word == Ok
  {
    ReadOfOwnValid(cal, document);
    if room.held.Some? { ReadOfOwnValid(cal, room.held.value); }
  }

  /** The guards the clean room puts before holding a document. */
  predicate RoomTakes(cal: Calendar, state: LineageState, document: Json, now: int) {
    && OwnValid(cal, document)
    && Field(document, NodeId) == Str(state.participantId)
    && RoomFresh(cal, document, now)
    && Supersedes(state, Field(document, BootId), Field(document, Sequence))
  }

  predicate InBound(cal: Calendar, document: Json, now: int, maxSkew: int) {
    var issued := ParseTimestamp(cal, Field(document, IssuedAt));
    issued.Some? && Distance(issued.value, now) <= maxSkew
  }

  /** The three things only the reference asks for. */
  predicate OnlyReferenceMinds(cal: Calendar, document: Json, now: int, maxSkew: int) {
    Versionless(document) || Overflows(cal, document) || !InBound(cal, document, now, maxSkew)
  }

  lemma RoomTakesExactly(cal: Calendar, state: LineageState, room: Room, document: Json, now: int)
    requires Lawful(cal) && Linked(cal, state, room)
    ensures RoomWord(cal, room, document, now) == Ok <==> RoomTakes(cal, state, document, now)
  {
    if room.held.Some? { ReadOfOwnValid(cal, room.held.value); }
  }

  /** The reference takes just what the clean room takes and it does not mind. */
  lemma ReferenceTakesExactly(cal: Calendar, state: LineageState, document: Json, now: int, maxSkew: int)
    requires Lawful(cal)
    ensures Decide(state, Read(cal, document), now, maxSkew).Accepted() <==>
      RoomTakes(cal, state, document, now) && !OnlyReferenceMinds(cal, document, now, maxSkew)
  {
    ReadOfOwnValid(cal, document);
  }

  /** One step. The two stay in lock step exactly when the clean room does not take
      a document that carries no version, overflows, or is outside the skew bound. */
  lemma LockStep(cal: Calendar, state: LineageState, room: Room, document: Json, now: int, maxSkew: int)
    requires Lawful(cal) && Linked(cal, state, room)
    ensures Linked(cal, StateAfter(state, Decide(state, Read(cal, document), now, maxSkew)), RoomStep(cal, room, document, now))
      <==> !(RoomTakes(cal, state, document, now) && OnlyReferenceMinds(cal, document, now, maxSkew))
  {
    ReadOfOwnValid(cal, document);
    RoomTakesExactly(cal, state, room, document, now);
    ReferenceTakesExactly(cal, state, document, now, maxSkew);
    OnlyAcceptanceMoves(state, Read(cal, document), now, maxSkew);
  }

  /** One step, the answers. For a document the reference reads, the two words are
      the same exactly when it is for somebody else; or it is fresh, not a rewording
      of the held document, and not news from outside the skew bound; or it has
      expired, is news, and is inside the bound: the clean room looks at expiry
      first and compares documents, and null counters, as written. */
  lemma SameWordExactly(cal: Calendar, state: LineageState, room: Room, document: Json, now: int, maxSkew: int)
    requires Lawful(cal) && Linked(cal, state, room) && Read(cal, document).Candidate?
    ensures var h := Read(cal, document).heartbeat;
      var news, near := Supersedes(state, h.bootId, h.sequence), Distance(h.issuedAt, now) <= maxSkew;
      WordOf(Decide(state, Read(cal, document), now, maxSkew)) == RoomWord(cal, room, document, now) <==>
        || h.nodeId != Str(state.participantId)
        || (if IsFresh(h, now)
            then (Redelivery(state, h) ==> document == room.held.value && h.sequence != Null) && (news ==> near)
            else news && near)
  {
    RoomReads(cal, state, room, document, now);
    ReadShape(cal, document);
    if room.held.Some? { ReadShape(cal, room.held.value); }
  }

  /** The same for documents the reference does not read: the words agree exactly on
      those it finds malformed in general, because the clean room has one word for
      every fault. */
  lemma UnreadWordExactly(cal: Calendar, state: LineageState, room: Room, document: Json, now: int, maxSkew: int)
    requires Lawful(cal) && !Read(cal, document).Candidate? && !Overflows(cal, document)
    ensures WordOf(Decide(state, Read(cal, document), now, maxSkew)) == RoomWord(cal, room, document, now) <==>
      InvalidInGeneral(cal, document)
  {
    DocumentReasonMeans(cal, document);
    ReadOfOwnValid(cal, document);
    ValidatorsAgree(cal, document);
  }

  /** A rendered heartbeat: the only documents an issuer sends. */
  ghost predicate Canonical(cal: Calendar, document: Json) {
    exists h: Heartbeat :: document == ToDict(cal, h)
  }

  /** A canonical document is the rendering of what is read from it. */
  lemma CanonicalReads(cal: Calendar, document: Json)
    requires Lawful(cal) && Canonical(cal, document) && Read(cal, document).Candidate?
    ensures ToDict(cal, Truncate(Read(cal, document).heartbeat)) == document
  {
    var h: Heartbeat :| document == ToDict(cal, h);
    WireRoundTrip(cal, h);
    ReadShape(cal, document);
    WireRoundTrip(cal, Truncate(h));
  }

  function RunRoom(cal: Calendar, nodeId: string, arrivals: seq<Arrival>): Room {
    if arrivals == [] then Room(nodeId, None, {})
    else
      var a := arrivals[|arrivals| - 1];
      RoomStep(cal, RunRoom(cal, nodeId, arrivals[..|arrivals| - 1]), a.document, a.at)
  }

  function StateAt(cal: Calendar, r: Rules, arrivals: seq<Arrival>, i: nat): LineageState
    requires i <= |arrivals|
  {
    RunDocuments(cal, r, arrivals[..i])
  }

  function RoomAt(cal: Calendar, r: Rules, arrivals: seq<Arrival>, i: nat): Room
    requires i <= |arrivals|
  {
    RunRoom(cal, r.participantId, arrivals[..i])
  }

  ghost predicate LinkedAt(cal: Calendar, r: Rules, arrivals: seq<Arrival>, i: nat)
    requires i <= |arrivals|
  {
    Linked(cal, StateAt(cal, r, arrivals, i), RoomAt(cal, r, arrivals, i))
  }

  /** The clean room takes arrival number `i` and only the reference minds. */
  predicate PartsAt(cal: Calendar, r: Rules, arrivals: seq<Arrival>, i: nat)
    requires i < |arrivals|
  {
    && RoomTakes(cal, StateAt(cal, r, arrivals, i), arrivals[i].document, arrivals[i].at)
    && OnlyReferenceMinds(cal, arrivals[i].document, arrivals[i].at, r.maxSkew)
  }

  lemma LinkedOneMore(cal: Calendar, r: Rules, arrivals: seq<Arrival>, i: nat)
    requires Lawful(cal) && i < |arrivals| && LinkedAt(cal, r, arrivals, i)
    ensures LinkedAt(cal, r, arrivals, i + 1) <==> !PartsAt(cal, r, arrivals, i)
  {
    assert arrivals[..i + 1][..i] == arrivals[..i];
    var state, a := StateAt(cal, r, arrivals, i), arrivals[i];
    AdmitDecides(cal, state, a.document, a.at, r.maxSkew);
    LockStep(cal, state, RoomAt(cal, r, arrivals, i), a.document, a.at, r.maxSkew);
  }

  lemma {:induction false} LinkedUntil(cal: Calendar, r: Rules, arrivals: seq<Arrival>, n: nat)
    requires Lawful(cal) && n <= |arrivals| && forall i | 0 <= i < n :: !PartsAt(cal, r, arrivals, i)
    ensures LinkedAt(cal, r, arrivals, n)
  {
    if n > 0 {
      LinkedUntil(cal, r, arrivals, n - 1);
      LinkedOneMore(cal, r, arrivals, n - 1);
    }
  }

  /** Whole runs, over any documents at all: the two independent participants hold
      the same lease and have retired the same epochs after every delivery, exactly
      when the clean room never takes what only the reference minds. */
  lemma SimulationExactly(cal: Calendar, r: Rules, arrivals: seq<Arrival>)
    requires Lawful(cal)
    ensures (forall n | 0 <= n <= |arrivals| :: LinkedAt(cal, r, arrivals, n)) <==>
            (forall i | 0 <= i < |arrivals| :: !PartsAt(cal, r, arrivals, i))
  {
    if forall n | 0 <= n <= |arrivals| :: LinkedAt(cal, r, arrivals, n) {
      forall i | 0 <= i < |arrivals| ensures !PartsAt(cal, r, arrivals, i) {
        assert LinkedAt(cal, r, arrivals, i) && LinkedAt(cal, r, arrivals, i + 1);
        LinkedOneMore(cal, r, arrivals, i);
      }
    }
    if forall i | 0 <= i < |arrivals| :: !PartsAt(cal, r, arrivals, i) {
      forall n | 0 <= n <= |arrivals| ensures LinkedAt(cal, r, arrivals, n) { LinkedUntil(cal, r, arrivals, n); }
    }
  }

  /** `admit` refuses arrival number `i` for its skew. */
  predicate TripsAt(cal: Calendar, r: Rules, arrivals: seq<Arrival>, i: nat)
    requires i < |arrivals|
  {
    var state := StateAt(cal, r, arrivals, i);
    Admit(cal, state, arrivals[i].document, arrivals[i].at, r.maxSkew) == Refuse(state, ClockSkewExceeded)
  }

  /** Documents with a version and with dates in UTC. */
  ghost predicate Plain(cal: Calendar, arrivals: seq<Arrival>) {
    forall a | a in arrivals :: !Versionless(a.document) && !Overflows(cal, a.document)
  }

  ghost predicate NeverTrips(cal: Calendar, r: Rules, arrivals: seq<Arrival>) {
    forall i | 0 <= i < |arrivals| :: !TripsAt(cal, r, arrivals, i)
  }

  /** On a run of such documents that never trips the skew bound they stay in lock
      step, however late a redelivery or a replay comes. */
  lemma Simulation(cal: Calendar, r: Rules, arrivals: seq<Arrival>, n: nat)
    requires Lawful(cal) && Plain(cal, arrivals) && NeverTrips(cal, r, arrivals) && n <= |arrivals|
    ensures LinkedAt(cal, r, arrivals, n)
  {
    forall i | 0 <= i < |arrivals| ensures !PartsAt(cal, r, arrivals, i) {
      var state, a := StateAt(cal, r, arrivals, i), arrivals[i];
      assert a in arrivals && !TripsAt(cal, r, arrivals, i);
      AdmitDecides(cal, state, a.document, a.at, r.maxSkew);
      ReadOfOwnValid(cal, a.document);
    }
    LinkedUntil(cal, r, arrivals, n);
  }

  /** What an issuer sends: rendered heartbeats with a counter. */
  ghost predicate AllCanonical(cal: Calendar, arrivals: seq<Arrival>) {
    forall a | a in arrivals :: Canonical(cal, a.document) && Field(a.document, Sequence) != Null
  }

  lemma CanonicalIsPlain(cal: Calendar, arrivals: seq<Arrival>)
    requires Lawful(cal) && AllCanonical(cal, arrivals)
    ensures Plain(cal, arrivals)
  {
    forall a | a in arrivals ensures !Versionless(a.document) && !Overflows(cal, a.document) {
      var h: Heartbeat :| a.document == ToDict(cal, h);
      Rendered(cal, h);
      RenderedValid(cal, h);
    }
  }

  lemma {:induction false} HeldWasSent(cal: Calendar, nodeId: string, arrivals: seq<Arrival>)
    requires RunRoom(cal, nodeId, arrivals).held.Some?
    ensures exists a :: a in arrivals && RunRoom(cal, nodeId, arrivals).held == Some(a.document)
  {
    var init, last := arrivals[..|arrivals| - 1], arrivals[|arrivals| - 1];
    assert last in arrivals;
    if RunRoom(cal, nodeId, arrivals).held != Some(last.document) {
      HeldWasSent(cal, nodeId, init);
      var a :| a in init && RunRoom(cal, nodeId, init).held == Some(a.document);
      assert a in arrivals;
    }
  }

  /** Two canonical documents that read alike are the same document. */
  lemma NoRewording(cal: Calendar, one: Json, two: Json)
    requires Lawful(cal) && Canonical(cal, one) && Canonical(cal, two)
    requires Read(cal, one).Candidate? && Read(cal, two).Candidate?
    requires Truncate(Read(cal, one).heartbeat) == Truncate(Read(cal, two).heartbeat)
    ensures one == two
  {
    CanonicalReads(cal, one);
    CanonicalReads(cal, two);
  }

  /** And at every step they give the same reason for every canonical document that
      is read and fresh. */
  lemma CanonicalWordsAgree(cal: Calendar, r: Rules, arrivals: seq<Arrival>, i: nat)
    requires Lawful(cal) && AllCanonical(cal, arrivals) && NeverTrips(cal, r, arrivals) && i < |arrivals|
    requires Read(cal, arrivals[i].document).Candidate? && IsFresh(Read(cal, arrivals[i].document).heartbeat, arrivals[i].at)
    ensures WordOf(Admit(cal, StateAt(cal, r, arrivals, i), arrivals[i].document, arrivals[i].at, r.maxSkew))
         == RoomWord(cal, RoomAt(cal, r, arrivals, i), arrivals[i].document, arrivals[i].at)
  {
    var state, room, a := StateAt(cal, r, arrivals, i), RoomAt(cal, r, arrivals, i), arrivals[i];
    assert a in arrivals && !TripsAt(cal, r, arrivals, i);
    CanonicalIsPlain(cal, arrivals);
    Simulation(cal, r, arrivals, i);
    AdmitDecides(cal, state, a.document, a.at, r.maxSkew);
    ReadOfOwnValid(cal, a.document);
    if room.held.Some? && Redelivery(state, Read(cal, a.document).heartbeat) {
      HeldWasSent(cal, r.participantId, arrivals[..i]);
      var b :| b in arrivals[..i] && room.held == Some(b.document);
      assert b in arrivals;
      NoRewording(cal, a.document, b.document);
    }
    SameWordExactly(cal, state, room, a.document, a.at, r.maxSkew);
  }

  /** The skew bound is one thing that separates them: a lease that is still running
      but was issued too long ago is taken by one and refused by the other. */
  lemma SkewSeparates(cal: Calendar, maxSkew: int)
    requires Lawful(cal) && 0 <= maxSkew < 1800 * SECOND
    ensures var document := ToDict(cal, Heartbeat(Str("svc"), Str("a"), Int(0), 0, MAX_LEASE, map[]));
      && RoomWord(cal, Room("svc", None, {}), document, maxSkew + 1) == Ok
      && Admit(cal, Empty("svc"), document, maxSkew + 1, maxSkew) == Refuse(Empty("svc"), ClockSkewExceeded)
  {
    var h := Heartbeat(Str("svc"), Str("a"), Int(0), 0, MAX_LEASE, map[]);
    ReadWire(cal, h);
    AdmitDecides(cal, Empty("svc"), ToDict(cal, h), maxSkew + 1, maxSkew);
    RoomReads(cal, Empty("svc"), Room("svc", None, {}), ToDict(cal, h), maxSkew + 1);
  }

  lemma StampsAreMembers(issued: Json, expires: Json)
    ensures var m := WithStamps(issued, expires).members;
      && HasRequired(m) && Get(m, ExtensionVersion) == Str(EXTENSION_VERSION)
      && Get(m, NodeId) == Str("svc") && Get(m, BootId) == Str("a") && Get(m, Sequence) == Int(0)
      && Get(m, IssuedAt) == issued && Get(m, ExpiresAt) == expires && Get(m, Extensions) == Null
      && (forall name | name in m :: Required(name))
      && NodeIdPattern("svc") && BootIdPattern("a")
  {
  }

  /** Overflow is another: the same document is taken by one and makes the other
      raise. */
  lemma OverflowSeparates(cal: Calendar, issued: string, expires: string, now: int, maxSkew: int)
    requires Lawful(cal) && cal.read(issued).Beyond? && cal.read(expires).Beyond?
    requires 0 < cal.read(expires).at - cal.read(issued).at <= MAX_LEASE && now < cal.read(expires).at
    ensures var document := WithStamps(Str(issued), Str(expires));
      && OwnValid(cal, document) && RoomWord(cal, Room("svc", None, {}), document, now) == Ok
      && Admit(cal, Empty("svc"), document, now, maxSkew) == OverflowError
  {
    StampsAreMembers(Str(issued), Str(expires));
    AdmitCanOverflow(cal, issued, expires, now, maxSkew);
  }
}
