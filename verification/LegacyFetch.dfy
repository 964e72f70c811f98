/** Reading heartbeats over a legacy session: three separate questions (was the
    extension negotiated, is the document next, may the publisher speak) that
    must all be answered well before the held lease moves. */
module LegacyFetch {
  import opened Wire
  import opened Validation
  import opened Model
  import opened Lineage
  import opened History
  import opened Identity
  import LegacyEra
  import opened LegacySession

  /** The skew bound this consumer always uses. */
  const LEGACY_SKEW := 5 * SECOND

  datatype LegacyRefusal = IdentityRefused | HeartbeatNotNegotiated

  /** A change notification: metadata only if the peer sent both parts. */
  datatype LegacyHint = LegacyHint(revision: Option<Revision>, digest: Option<Digest>)

  predicate CarriesMetadata(hint: LegacyHint) {
    hint.revision.Some? && hint.digest.Some?
  }

  datatype FetchOutcome = FetchOutcome(
    admission: Admission, identity: Evidence, era: EraReport, corroborated: Option<bool>, refused: Option<LegacyRefusal>)
  {
    predicate Accepted() {
      refused.None? && admission.Accepted()
    }
  }

  /** How a fetch ended; `Escaped` is an exception of the source or of `admit`. */
  datatype Fetched = Decided(outcome: FetchOutcome) | Escaped

  /** The binder a deployment injected: its policy and the session's principal. */
  datatype Binder = Binder(permitted: Permitted, principal: Option<string>)

  function EvidenceFor(binder: Option<Binder>, claimed: string): Evidence {
    match binder
    case None => UnverifiedEvidence(claimed)
    case Some(b) => SessionEvidence(b.permitted, b.principal, claimed)
  }

  datatype Reader = Reader(state: LineageState, uncorroborated: nat)

  /** The moving part of a fetch: the state changes only when all three questions
      are answered well. */
  predicate Moves(state: LineageState, ready: bool, reading: Reading, evidence: Evidence, now: int) {
    ready && Decide(state, reading, now, LEGACY_SKEW).Accepted() && !evidence.binding.Unbound?
  }

  class LegacyHeartbeatConsumer {
    const cal: Calendar
    /** `str` on a claimed participant that is not a string. */
    const render: Json -> string
    const participantId: string
    const session: LegacyClientSession
    const binder: Option<Binder>
    var state: LineageState
    var uncorroboratedHints: nat

    constructor (cal: Calendar, render: Json -> string, participantId: string, session: LegacyClientSession, binder: Option<Binder>)
      ensures this.cal == cal && this.render == render && this.participantId == participantId
      ensures this.session == session && this.binder == binder
      ensures state == Empty(participantId) && uncorroboratedHints == 0
    {
      this.cal, this.render, this.participantId, this.session, this.binder := cal, render, participantId, session, binder;
      state := Empty(participantId);
      uncorroboratedHints := 0;
    }

    /** The participant a document claims to speak for. */
    function Claimed(document: Json): (claimed: string)
      ensures document.Obj? && Get(document.members, NodeId).Str? && Get(document.members, NodeId) != Str("") ==>
        Str(claimed) == Get(document.members, NodeId)
      ensures !document.Obj? || Get(document.members, NodeId) in [Null, Str("")] ==> claimed == participantId
    {
      var claim := if document.Obj? then Get(document.members, NodeId) else Null;
      if claim.Str? && claim.s != "" then claim.s
      else if LegacyEra.Truthy(claim) then render(claim)
      else participantId
    }

    /** `refetch`; `reply` is the source's answer, or nothing if it raised. */
    method Refetch(now: int, reply: Option<Json>, hint: Option<LegacyHint>) returns (result: Fetched)
      requires Lawful(cal)
      modifies this
      ensures var ready := ClientReady(session.View());
        var reading := if reply.Some? then Read(cal, reply.value) else NullInstant;
        var evidence := EvidenceFor(binder, if reply.Some? then Claimed(reply.value) else participantId);
        var decided := Decide(old(state), reading, now, LEGACY_SKEW);
        && (state != old(state) <==> Moves(old(state), ready, reading, evidence, now))
        && (state != old(state) ==> state == decided.admission.state)
        && (result.Escaped? <==> ready && !decided.Returned?)
        && (!ready ==> result.Decided? && result.outcome.refused == Some(HeartbeatNotNegotiated)
                       && result.outcome.admission == Admission(old(state), Some(SchemaInvalid), false)
                       && result.outcome.identity == UnverifiedEvidence(participantId))
        && (result.Decided? ==> result.outcome.era == Report(session.negotiatedEra, session.heartbeat))
        && (ready && decided.Returned? ==>
              && result.outcome.admission == decided.admission && result.outcome.identity == evidence
              && (result.outcome.refused == (if evidence.binding.Unbound? then Some(IdentityRefused) else None)))
        && (result.Decided? ==> (result.outcome.Accepted() <==> state != old(state)))
        && uncorroboratedHints == old(uncorroboratedHints) +
             (if ready && decided.Returned? && decided.admission.reason.None? && !evidence.binding.Unbound?
                 && hint.Some? && !CarriesMetadata(hint.value) then 1 else 0)
        && (result.Decided? ==>
              (result.outcome.corroborated.Some? <==>
                 ready && decided.admission.reason.None? && !evidence.binding.Unbound?
                 && hint.Some? && CarriesMetadata(hint.value)))
        && (result.Decided? && result.outcome.corroborated.Some? ==>
              state.held.Some?
              && result.outcome.corroborated.value == (hint.value.digest.value == DigestOf(cal, state.held.value)))
    {
      var era := Report(session.negotiatedEra, session.heartbeat);
      if !(session.state.Ready? && era.heartbeatSupported) {
        return Decided(FetchOutcome(
          Admission(state, Some(SchemaInvalid), false), UnverifiedEvidence(participantId), era, None,
          Some(HeartbeatNotNegotiated)));
      }
      if reply.None? { return Escaped; }
      var outcome := AdmitDocument(cal, state, reply.value, now, LEGACY_SKEW);
      OnlyAcceptanceMoves(state, Read(cal, reply.value), now, LEGACY_SKEW);
      if !outcome.Returned? { return Escaped; }
      var evidence := EvidenceFor(binder, Claimed(reply.value));
      if evidence.binding.Unbound? {
        return Decided(FetchOutcome(outcome.admission, evidence, era, None, Some(IdentityRefused)));
      }
      var corroborated := None;
      if outcome.admission.Accepted() || outcome.admission.duplicate {
        if hint.Some? && outcome.admission.state.held.Some? {
          if CarriesMetadata(hint.value) {
            corroborated := Some(hint.value.digest.value == DigestOf(cal, outcome.admission.state.held.value));
          } else {
            uncorroboratedHints := uncorroboratedHints + 1;
          }
        }
      }
      if outcome.admission.Accepted() { state := outcome.admission.state; }
      result := Decided(FetchOutcome(outcome.admission, evidence, era, corroborated, None));
    }
  }

  // ---- Runs ----

  /** One fetch, as far as the state is concerned. */
  datatype Attempt = Attempt(ready: bool, reading: Reading, evidence: Evidence, at: int)

  function ReaderAfter(participantId: string, attempts: seq<Attempt>): LineageState {
    if attempts == [] then Empty(participantId)
    else
      var before := ReaderAfter(participantId, attempts[..|attempts| - 1]);
      var a := attempts[|attempts| - 1];
      if Moves(before, a.ready, a.reading, a.evidence, a.at)
      then Decide(before, a.reading, a.at, LEGACY_SKEW).admission.state
      else before
  }

  /** The attempts that nothing outside admission stood in the way of. */
  function Open(attempts: seq<Attempt>): seq<Delivery> {
    if attempts == [] then []
    else
      var a := attempts[|attempts| - 1];
      if a.ready && !a.evidence.binding.Unbound?
      then Open(attempts[..|attempts| - 1]) + [Delivery(a.reading, a.at)]
      else Open(attempts[..|attempts| - 1])
  }

  /** What an injected binder, or none, has to do with a fetch: without one the state
      moves exactly when the session is ready and the document is admitted; with one,
      the session's principal must be permitted for the participant the document
      claims, if there is a principal at all. */
  lemma BinderDecides(state: LineageState, reading: Reading, binder: Option<Binder>, claimed: string, now: int)
    ensures Moves(state, true, reading, EvidenceFor(binder, claimed), now) <==>
      && Decide(state, reading, now, LEGACY_SKEW).Accepted()
      && (binder.Some? && binder.value.principal.Some? ==>
            LegacyPermits(binder.value.permitted, binder.value.principal.value, claimed))
    ensures !Moves(state, false, reading, EvidenceFor(binder, claimed), now)
    ensures EvidenceFor(binder, claimed).participantId == claimed
    ensures binder.None? ==> EvidenceFor(binder, claimed).reason == Some(NoBinderInjected)
  {
    if binder.Some? { EvidenceMeans(binder.value.permitted, binder.value.principal, claimed); }
  }

  /** A document that can be accepted claims to be the participant it is for. */
  lemma AcceptedClaimsItself(cal: Calendar, state: LineageState, document: Json, now: int)
    requires Lawful(cal) && Admit(cal, state, document, now, LEGACY_SKEW).Accepted()
    ensures document.Obj? && Get(document.members, NodeId) == Str(state.participantId)
  {
    AdmitDecides(cal, state, document, now, LEGACY_SKEW);
    RefusalsMean(state, Read(cal, document).heartbeat, now, LEGACY_SKEW);
  }

  /** Over whole runs the legacy consumer, too, is the fold of admission over the
      attempts its session and its binder let through. */
  lemma {:induction false} LegacyIsFold(participantId: string, attempts: seq<Attempt>)
    ensures ReaderAfter(participantId, attempts) == Run(Rules(participantId, LEGACY_SKEW), Open(attempts))
  {
    if attempts != [] {
      var init, a := attempts[..|attempts| - 1], attempts[|attempts| - 1];
      LegacyIsFold(participantId, init);
      OnlyAcceptanceMoves(ReaderAfter(participantId, init), a.reading, a.at, LEGACY_SKEW);
      RunSnoc(Rules(participantId, LEGACY_SKEW), Open(init), Delivery(a.reading, a.at));
    }
  }
}
