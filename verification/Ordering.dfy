/** Delivery order and clock arithmetic: what a run of admissions cannot be made
    to do by loss, repetition, reordering, or a skewed clock. */
module Ordering {
  import opened Wire
  import opened Validation
  import opened Model
  import opened Lineage
  import opened History

  /** The heartbeats one issuer minted in one epoch, in order. */
  ghost predicate OneIssuer(r: Rules, stream: seq<Heartbeat>) {
    && (forall i | 0 <= i < |stream| ::
          && stream[i].nodeId == Str(r.participantId) && stream[i].bootId == stream[0].bootId
          && stream[i].sequence.Int?)
    && (forall i, j | 0 <= i < j < |stream| :: stream[i].sequence.n < stream[j].sequence.n)
  }

  /** Document number `index` of the stream, arriving at `at`. */
  datatype Arrived = Arrived(index: nat, at: int)

  function Highest(arrivals: seq<Arrived>): int
    ensures Highest(arrivals) >= -1
  {
    if arrivals == [] then -1
    else
      var h := Highest(arrivals[..|arrivals| - 1]);
      if arrivals[|arrivals| - 1].index > h then arrivals[|arrivals| - 1].index else h
  }

  ghost predicate Within(arrivals: seq<Arrived>, n: nat) {
    forall a | a in arrivals :: a.index < n
  }

  /** A document that outruns everything before it is within the skew bound and
      unexpired when it arrives. Nothing is asked of the others. */
  ghost predicate Timely(r: Rules, stream: seq<Heartbeat>, arrivals: seq<Arrived>)
    requires Within(arrivals, |stream|)
  {
    forall i | 0 <= i < |arrivals| && arrivals[i].index > Highest(arrivals[..i]) ::
      Admissible(r, Delivery(Candidate(stream[arrivals[i].index]), arrivals[i].at))
  }

  function Deliveries(r: Rules, stream: seq<Heartbeat>, arrivals: seq<Arrived>): (ds: seq<Delivery>)
    requires Within(arrivals, |stream|)
  {
    seq(|arrivals|, i requires 0 <= i < |arrivals| =>
      assert arrivals[i] in arrivals;
      Delivery(Candidate(stream[arrivals[i].index]), arrivals[i].at))
  }

  /** What the next arrival is answered with, knowing only the highest so far. */
  function ExpectedReason(highest: int, index: nat): Option<ViolationCode> {
    if index < highest then Some(SequenceRollback) else None
  }

  /** Holding number `highest` of the stream, or nothing. */
  function Holding(r: Rules, stream: seq<Heartbeat>, highest: int): LineageState
    requires -1 <= highest < |stream|
  {
    if highest == -1 then Empty(r.participantId)
    else LineageState(r.participantId, Some(stream[highest]), {stream[0].bootId})
  }

  lemma HighestIsWithin(arrivals: seq<Arrived>, n: nat)
    requires Within(arrivals, n)
    ensures Highest(arrivals) < n
  {
  }

  lemma HighestIsMaximum(arrivals: seq<Arrived>)
    ensures forall a | a in arrivals :: a.index <= Highest(arrivals)
    ensures arrivals != [] ==> exists a :: a in arrivals && a.index == Highest(arrivals)
  {
    if arrivals != [] {
      var init, a := arrivals[..|arrivals| - 1], arrivals[|arrivals| - 1];
      HighestIsMaximum(init);
      assert a in arrivals;
      if a.index <= Highest(init) {
        var b :| b in init && b.index == Highest(init);
        assert b in arrivals;
      }
    }
  }

  /** One arrival at a consumer that holds number `highest`. */
  lemma OneArrival(r: Rules, stream: seq<Heartbeat>, highest: int, a: Arrived)
    requires OneIssuer(r, stream) && -1 <= highest < |stream| && a.index < |stream|
    requires a.index > highest ==> Admissible(r, Delivery(Candidate(stream[a.index]), a.at))
    ensures var state := Holding(r, stream, highest);
      Verdict(r, state, Delivery(Candidate(stream[a.index]), a.at)) ==
        if a.index > highest then Returned(Admission(Holding(r, stream, a.index), None, false))
        else Returned(Admission(state, ExpectedReason(highest, a.index), a.index == highest))
  {
    var h := stream[a.index];
    assert h.bootId == stream[0].bootId && h.nodeId == Str(r.participantId);
    if highest >= 0 {
      assert stream[highest].bootId == stream[0].bootId && stream[highest].sequence.Int?;
    }
  }

  lemma DeliveriesPrefix(r: Rules, stream: seq<Heartbeat>, arrivals: seq<Arrived>, i: nat)
    requires Within(arrivals, |stream|) && i < |arrivals|
    ensures Within(arrivals[..i], |stream|) && arrivals[i].index < |stream|
    ensures Deliveries(r, stream, arrivals)[..i] == Deliveries(r, stream, arrivals[..i])
    ensures Deliveries(r, stream, arrivals)[i] == Delivery(Candidate(stream[arrivals[i].index]), arrivals[i].at)
  {
    assert forall b :: b in arrivals[..i] ==> b in arrivals;
    assert arrivals[i] in arrivals;
  }

  lemma TimelyPrefix(r: Rules, stream: seq<Heartbeat>, arrivals: seq<Arrived>, i: nat)
    requires Within(arrivals, |stream|) && Timely(r, stream, arrivals) && i < |arrivals|
    ensures Within(arrivals[..i], |stream|) && Timely(r, stream, arrivals[..i])
  {
    assert forall b :: b in arrivals[..i] ==> b in arrivals;
    forall j | 0 <= j < i ensures arrivals[..i][..j] == arrivals[..j] {}
  }

  /** However the documents of one epoch are lost, repeated or reordered on the
      way, the consumer ends holding the highest one that arrived. */
  lemma {:induction false} OrderDoesNotMatter(r: Rules, stream: seq<Heartbeat>, arrivals: seq<Arrived>)
    requires OneIssuer(r, stream) && Within(arrivals, |stream|) && Timely(r, stream, arrivals)
    ensures -1 <= Highest(arrivals) < |stream|
    ensures Run(r, Deliveries(r, stream, arrivals)) == Holding(r, stream, Highest(arrivals))
  {
    HighestIsWithin(arrivals, |stream|);
    if arrivals != [] {
      var n := |arrivals| - 1;
      TimelyPrefix(r, stream, arrivals, n);
      DeliveriesPrefix(r, stream, arrivals, n);
      OrderDoesNotMatter(r, stream, arrivals[..n]);
      OneArrival(r, stream, Highest(arrivals[..n]), arrivals[n]);
    }
  }

  /** On the way it answers every arrival with accepted, duplicate or rollback
      according to how it compares with the highest before it, and never with
      anything else: no conflict, no epoch reuse, no skew. */
  lemma EveryVerdict(r: Rules, stream: seq<Heartbeat>, arrivals: seq<Arrived>, i: nat)
    requires OneIssuer(r, stream) && Within(arrivals, |stream|) && Timely(r, stream, arrivals)
    requires i < |arrivals|
    ensures var ds := Deliveries(r, stream, arrivals);
      var highest, index := Highest(arrivals[..i]), arrivals[i].index;
      var out := Verdict(r, Run(r, ds[..i]), ds[i]);
      && out.Returned?
      && (out.Accepted() <==> index > highest)
      && (out.admission.duplicate <==> index == highest)
      && (out.admission.reason == Some(SequenceRollback) <==> index < highest)
      && (out.admission.reason == Some(SequenceRollback) || out.admission.reason == None)
  {
    TimelyPrefix(r, stream, arrivals, i);
    DeliveriesPrefix(r, stream, arrivals, i);
    OrderDoesNotMatter(r, stream, arrivals[..i]);
    OneArrival(r, stream, Highest(arrivals[..i]), arrivals[i]);
  }

  /** Two ways of delivering one epoch that share their highest document end in
      the same state. */
  lemma SameHighestSameState(r: Rules, stream: seq<Heartbeat>, one: seq<Arrived>, two: seq<Arrived>)
    requires OneIssuer(r, stream) && Highest(one) == Highest(two)
    requires Within(one, |stream|) && Timely(r, stream, one) && Within(two, |stream|) && Timely(r, stream, two)
    ensures Run(r, Deliveries(r, stream, one)) == Run(r, Deliveries(r, stream, two))
  {
    OrderDoesNotMatter(r, stream, one);
    OrderDoesNotMatter(r, stream, two);
  }

  // ---- Clock arithmetic ----

  ghost predicate ClockRises(ds: seq<Delivery>) {
    forall i, j | 0 <= i <= j < |ds| :: ds[i].at <= ds[j].at
  }

  predicate AcceptedAt(r: Rules, ds: seq<Delivery>, i: nat)
    requires i < |ds|
  {
    ds[i].reading.Candidate? && Verdict(r, Run(r, ds[..i]), ds[i]).Accepted()
  }

  function HeartbeatAt(r: Rules, ds: seq<Delivery>, i: nat): Heartbeat
    requires i < |ds| && AcceptedAt(r, ds, i)
  {
    ds[i].reading.heartbeat
  }

  /** Every acceptance is fresh when it is made, issued within the skew bound of
      it. */
  lemma AcceptedInWindow(r: Rules, ds: seq<Delivery>, i: nat)
    requires i < |ds| && AcceptedAt(r, ds, i)
    ensures var h := HeartbeatAt(r, ds, i);
      && IsFresh(h, ds[i].at)
      && Distance(h.issuedAt, ds[i].at) <= r.maxSkew
  {
    OnlyAcceptanceMoves(Run(r, ds[..i]), ds[i].reading, ds[i].at, r.maxSkew);
  }

  /** While the consumer's clock does not run backwards, what it accepts can fall
      back in issue time by at most twice the skew bound. */
  lemma IssueTimesBarelyFall(r: Rules, ds: seq<Delivery>, i: nat, j: nat)
    requires i < j < |ds| && ClockRises(ds) && AcceptedAt(r, ds, i) && AcceptedAt(r, ds, j)
    ensures HeartbeatAt(r, ds, j).issuedAt >= HeartbeatAt(r, ds, i).issuedAt - 2 * r.maxSkew
  {
    AcceptedInWindow(r, ds, i);
    AcceptedInWindow(r, ds, j);
  }

  /** Where a held lease came from: the last acceptance of the run. */
  lemma {:induction false} HeldSince(r: Rules, ds: seq<Delivery>) returns (i: nat)
    requires Run(r, ds).held.Some?
    ensures i < |ds| && AcceptedAt(r, ds, i) && Run(r, ds).held == Some(HeartbeatAt(r, ds, i))
    ensures forall j | i < j < |ds| :: !AcceptedAt(r, ds, j)
  {
    var n := |ds| - 1;
    var init, d := ds[..n], ds[n];
    OnlyAcceptanceMoves(Run(r, init), d.reading, d.at, r.maxSkew);
    if AcceptedAt(r, ds, n) {
      i := n;
    } else {
      i := HeldSince(r, init);
      assert forall j | 0 <= j < n :: init[..j] == ds[..j];
      assert AcceptedAt(r, ds, i);
      forall j | i < j < |ds| ensures !AcceptedAt(r, ds, j) {
        if j < n { assert !AcceptedAt(r, init, j); }
      }
    }
  }

  /** Every candidate went through validation (`ReadShape`). */
  ghost predicate AllLeased(ds: seq<Delivery>) {
    forall d | d in ds && d.reading.Candidate? :: Leased(d.reading.heartbeat)
  }

  /** A lease cannot outlive its acceptance by more than an hour and the skew
      bound, whatever else arrived since. */
  lemma Horizon(r: Rules, ds: seq<Delivery>, t: int) returns (i: nat)
    requires Run(r, ds).held.Some? && IsFresh(Run(r, ds).held.value, t) && AllLeased(ds)
    ensures i < |ds| && AcceptedAt(r, ds, i) && (forall j | i < j < |ds| :: !AcceptedAt(r, ds, j))
    ensures t < ds[i].at + r.maxSkew + MAX_LEASE
  {
    i := HeldSince(r, ds);
    AcceptedInWindow(r, ds, i);
  }
}
