/** The producer side: one counter, one epoch, one lease length. */
module Issuer {
  import opened Wire
  import opened Validation
  import opened Model
  import opened Lineage
  import opened History

  /** The heartbeat that counter value `sequence` stands for. */
  function Minted(participantId: string, epochId: string, sequence: nat, now: int, lease: int,
                  extensions: map<Name, Json>): Heartbeat
  {
    Heartbeat(Str(participantId), Str(epochId), Int(sequence), now, now + lease, extensions)
  }

  class HeartbeatIssuer {
    const participantId: string
    const epochId: string
    const lease: int
    var extensions: map<Name, Json>
    var nextSequence: nat

    /** `minted` is the random epoch the source falls back to when it is given
        none, or an empty one. */
    constructor (participantId: string, epochId: string, minted: string, lease: int, extensions: map<Name, Json>)
      ensures this.participantId == participantId && this.lease == lease && this.extensions == extensions
      ensures this.epochId == if epochId != "" then epochId else minted
      ensures nextSequence == 0
    {
      this.participantId := participantId;
      this.epochId := if epochId != "" then epochId else minted;
      this.lease := lease;
      this.extensions := extensions;
      nextSequence := 0;
    }

    /** `issue`, with the clock's reading passed in. */
    method Issue(now: int) returns (h: Heartbeat)
      modifies this`nextSequence
      ensures h == Minted(participantId, epochId, old(nextSequence), now, lease, extensions)
      ensures h.nodeId == Str(participantId) && h.bootId == Str(epochId) && h.sequence == Int(old(nextSequence))
      ensures h.issuedAt == now && h.expiresAt - h.issuedAt == lease && h.extensions == extensions
      ensures nextSequence == old(nextSequence) + 1
    {
      h := Heartbeat(Str(participantId), Str(epochId), Int(nextSequence), now, now + lease, extensions);
      nextSequence := nextSequence + 1;
    }

    /** Any number of renewals: the stream is one legal epoch and the counter ends
        past it. */
    method IssueAll(instants: seq<int>) returns (stream: seq<Heartbeat>)
      modifies this`nextSequence
      ensures |stream| == |instants| && nextSequence == old(nextSequence) + |instants|
      ensures forall i | 0 <= i < |stream| ::
        stream[i] == Minted(participantId, epochId, old(nextSequence) + i, instants[i], lease, extensions)
      ensures LegalHistory(stream)
    {
      stream := [];
      for i := 0 to |instants|
        invariant |stream| == i && nextSequence == old(nextSequence) + i
        invariant forall k | 0 <= k < i ::
          stream[k] == Minted(participantId, epochId, old(nextSequence) + k, instants[k], lease, extensions)
      {
        var h := Issue(instants[i]);
        stream := stream + [h];
      }
      OneEpochIsLegal(stream);
    }
  }

  /** One epoch with rising counters is a legal history. */
  lemma OneEpochIsLegal(stream: seq<Heartbeat>)
    requires forall i | 0 <= i < |stream| :: stream[i].bootId == stream[0].bootId
    requires forall i, j | 0 <= i < j < |stream| :: Rises(stream[i], stream[j])
    ensures LegalHistory(stream)
  {
    forall i, j | 0 <= i < j < |stream| && stream[i].bootId == stream[j].bootId ensures InBlock(stream, i, j) {}
  }

  /** A lease length whose documents are valid whatever the instant of issue. */
  ghost predicate AlwaysValid(lease: int) {
    forall now: int :: LeavesWindow(now, lease)
  }

  predicate LeavesWindow(now: int, lease: int) {
    0 < FloorMs(now + lease) - FloorMs(now) <= MAX_LEASE
  }

  /** That is every length from one millisecond to one hour, and no other: the
      wire keeps only milliseconds, so a shorter lease can vanish on it and a
      microsecond more than an hour can be rounded up into a refusal. */
  lemma ValidLeases(lease: int)
    ensures AlwaysValid(lease) <==> MILLISECOND <= lease <= MAX_LEASE
  {
    if lease < MILLISECOND {
      assert !LeavesWindow(0, lease);
    } else if lease > MAX_LEASE {
      assert !LeavesWindow(MILLISECOND - 1, lease);
    }
  }

  /** An up-to-date consumer: whatever it holds, this revision is next. */
  predicate Expects(state: LineageState, h: Heartbeat) {
    h.nodeId == Str(state.participantId) && Supersedes(state, h.bootId, h.sequence)
  }

  /** What an issuer serves, an up-to-date consumer takes at the instant of issue,
      provided its skew bound covers the millisecond the wire drops. */
  lemma IssuedIsAdmitted(cal: Calendar, state: LineageState, h: Heartbeat, now: int, lease: int, maxSkew: int)
    requires Lawful(cal) && Presentable(h) && Expects(state, h)
    requires h.issuedAt == now && h.expiresAt == now + lease
    requires MILLISECOND <= lease <= MAX_LEASE && maxSkew >= MILLISECOND - 1
    ensures Admit(cal, state, ToDict(cal, h), now, maxSkew) ==
      Returned(Admission(Accept(state, Truncate(h)), None, false))
  {
    ValidLeases(lease);
    assert LeavesWindow(now, lease);
    ReadWire(cal, h);
    AdmitDecides(cal, state, ToDict(cal, h), now, maxSkew);
  }

  /** From the issuer's arguments to what is held: a lease that is minted, rendered
      and read back is held as what it was minted with, and lasts until `lease`
      after its issue, to the millisecond, and no longer. */
  lemma MintedIsHeld(cal: Calendar, state: LineageState, epochId: string, sequence: nat, now: int, lease: int,
                     extensions: map<Name, Json>, maxSkew: int)
    requires Lawful(cal) && NodeIdPattern(state.participantId) && BootIdPattern(epochId)
    requires forall key | key in extensions :: Dotted(key)
    requires Supersedes(state, Str(epochId), Int(sequence))
    requires MILLISECOND <= lease <= MAX_LEASE && maxSkew >= MILLISECOND - 1
    ensures var document := ToDict(cal, Minted(state.participantId, epochId, sequence, now, lease, extensions));
      var out := Admit(cal, state, document, now, maxSkew);
      && out.Accepted() && out.admission.state.held.Some?
      && var held := out.admission.state.held.value;
         && held.nodeId == Str(state.participantId) && held.bootId == Str(epochId) && held.sequence == Int(sequence)
         && held.issuedAt == FloorMs(now) && held.extensions == extensions
         && forall u: int :: IsFresh(held, u) <==> u < FloorMs(now + lease)
  {
    var h := Minted(state.participantId, epochId, sequence, now, lease, extensions);
    IssuedIsAdmitted(cal, state, h, now, lease, maxSkew);
  }
}
