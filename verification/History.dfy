/** Whole runs of admission, compared with a specification that looks only at
    the list of accepted heartbeats. */
module History {
  import opened Wire
  import opened Validation
  import opened Model
  import opened Lineage

  /** What was read from one document, arriving at one instant. */
  datatype Delivery = Delivery(reading: Reading, at: int)

  /** The consumer's rules for one participant. */
  datatype Rules = Rules(participantId: string, maxSkew: int)

  function Verdict(r: Rules, state: LineageState, d: Delivery): Outcome {
    Decide(state, d.reading, d.at, r.maxSkew)
  }

  /** Folding `admit` over a delivery list, from the empty state. */
  function Run(r: Rules, ds: seq<Delivery>): LineageState {
    if ds == [] then Empty(r.participantId)
    else
      var before := Run(r, ds[..|ds| - 1]);
      StateAfter(before, Verdict(r, before, ds[|ds| - 1]))
  }

  lemma RunSnoc(r: Rules, ds: seq<Delivery>, d: Delivery)
    ensures Run(r, ds + [d]) == StateAfter(Run(r, ds), Verdict(r, Run(r, ds), d))
  {
    assert (ds + [d])[..|ds|] == ds;
  }

  /** The heartbeats that fold accepted, in order. */
  function Log(r: Rules, ds: seq<Delivery>): seq<Heartbeat> {
    if ds == [] then []
    else
      var d := ds[|ds| - 1];
      if Verdict(r, Run(r, ds[..|ds| - 1]), d).Accepted() && d.reading.Candidate?
      then Log(r, ds[..|ds| - 1]) + [d.reading.heartbeat]
      else Log(r, ds[..|ds| - 1])
  }

  function Epochs(log: seq<Heartbeat>): set<Json> {
    set h | h in log :: h.bootId
  }

  /** `b` is a later revision of the epoch `a` belongs to. */
  predicate Rises(a: Heartbeat, b: Heartbeat) {
    a.sequence.Int? && b.sequence.Int? && a.sequence.n < b.sequence.n
  }

  /** What a history may look like: each epoch is one contiguous block, and the
      counter rises strictly inside it. */
  ghost predicate LegalHistory(log: seq<Heartbeat>) {
    forall i, j | 0 <= i < j < |log| && log[i].bootId == log[j].bootId :: InBlock(log, i, j)
  }

  ghost predicate InBlock(log: seq<Heartbeat>, i: nat, j: nat)
    requires i < j < |log|
  {
    Rises(log[i], log[j]) && forall k | i <= k <= j :: log[k].bootId == log[i].bootId
  }

  /** A document that nothing but its lineage could keep out. */
  predicate Admissible(r: Rules, d: Delivery) {
    && d.reading.Candidate?
    && d.reading.heartbeat.nodeId == Str(r.participantId)
    && Distance(d.reading.heartbeat.issuedAt, d.at) <= r.maxSkew
    && IsFresh(d.reading.heartbeat, d.at)
  }

  /** The one-shot specification: walk the deliveries, keeping every admissible
      heartbeat that leaves the kept list a legal history. No state, no set of
      retired epochs, no comparison of digests. */
  ghost function OneShot(r: Rules, ds: seq<Delivery>): seq<Heartbeat> {
    if ds == [] then []
    else
      var kept := OneShot(r, ds[..|ds| - 1]);
      var d := ds[|ds| - 1];
      if Admissible(r, d) && LegalHistory(kept + [d.reading.heartbeat])
      then kept + [d.reading.heartbeat]
      else kept
  }

  /** The state that a history of accepted heartbeats amounts to. */
  function StateOf(participantId: string, log: seq<Heartbeat>): LineageState {
    LineageState(participantId, if log == [] then None else Some(log[|log| - 1]), Epochs(log))
  }

  /** A legal history may grow by a new epoch or by a later revision of the last
      one, and in no other way. */
  lemma LegalGrowth(participantId: string, log: seq<Heartbeat>, h: Heartbeat)
    requires LegalHistory(log)
    ensures LegalHistory(log + [h]) <==> Supersedes(StateOf(participantId, log), h.bootId, h.sequence)
  {
    var grown, n := log + [h], |log|;
    if LegalHistory(grown) {
      assert forall i | 0 <= i < n && grown[i].bootId == grown[n].bootId ::
        InBlock(grown, i, n) && grown[n - 1].bootId == grown[i].bootId;
      assert forall i | 0 <= i < n :: log[i] == grown[i];
    }
    if Supersedes(StateOf(participantId, log), h.bootId, h.sequence) {
      forall i, j | 0 <= i < j < |grown| && grown[i].bootId == grown[j].bootId ensures InBlock(grown, i, j) {
        if j < n {
          assert InBlock(log, i, j);
        } else {
          assert log[i].bootId in Epochs(log);
          if i < n - 1 { assert InBlock(log, i, n - 1); }
        }
      }
    }
  }

  lemma EpochsGrow(log: seq<Heartbeat>, h: Heartbeat)
    ensures Epochs(log + [h]) == Epochs(log) + {h.bootId}
  {
    assert forall g :: g in log + [h] <==> g in log || g == h;
  }

  /** One step: from the state a legal history amounts to, a document is accepted
      exactly when it is admissible and extends the history legally. */
  lemma AcceptedIffLegal(r: Rules, log: seq<Heartbeat>, d: Delivery)
    requires LegalHistory(log)
    ensures Verdict(r, StateOf(r.participantId, log), d).Accepted() <==>
      Admissible(r, d) && LegalHistory(log + [d.reading.heartbeat])
  {
    if d.reading.Candidate? {
      LegalGrowth(r.participantId, log, d.reading.heartbeat);
    }
  }

  /** Over every delivery list: the fold keeps exactly the one-shot history, which
      is legal; the held heartbeat is its last entry and the retired epochs are
      its epochs. */
  lemma {:induction false} WholeRun(r: Rules, ds: seq<Delivery>)
    ensures Log(r, ds) == OneShot(r, ds)
    ensures LegalHistory(Log(r, ds))
    ensures Run(r, ds) == StateOf(r.participantId, Log(r, ds))
  {
    if ds != [] {
      var init, d := ds[..|ds| - 1], ds[|ds| - 1];
      WholeRun(r, init);
      AcceptedIffLegal(r, Log(r, init), d);
      OnlyAcceptanceMoves(Run(r, init), d.reading, d.at, r.maxSkew);
      if Verdict(r, Run(r, init), d).Accepted() {
        var h := d.reading.heartbeat;
        EpochsGrow(Log(r, init), h);
      }
    }
  }

  /** What a legal history rules out: accepting a revision twice, and returning
      to an epoch after accepting another. */
  lemma NothingReturns(log: seq<Heartbeat>, i: nat, j: nat)
    requires LegalHistory(log) && i < j < |log|
    ensures RevisionOf(log[i]) != RevisionOf(log[j])
    ensures (exists k :: i < k < j && log[k].bootId != log[i].bootId) ==> log[j].bootId != log[i].bootId
  {
    assert log[i].bootId == log[j].bootId ==> InBlock(log, i, j);
  }

  lemma LegalPrefix(log: seq<Heartbeat>, n: nat)
    requires LegalHistory(log) && n <= |log|
    ensures LegalHistory(log[..n])
  {
    var init := log[..n];
    forall i, j | 0 <= i < j < |init| && init[i].bootId == init[j].bootId ensures InBlock(init, i, j) {
      assert InBlock(log, i, j);
    }
  }

  predicate LastInEpoch(log: seq<Heartbeat>, h: Heartbeat) {
    log != [] && log[|log| - 1].bootId == h.bootId
  }

  /** Both counters are numbers and the last accepted one is of the same epoch. */
  predicate Numbered(log: seq<Heartbeat>, h: Heartbeat) {
    LastInEpoch(log, h) && h.sequence.Int? && log[|log| - 1].sequence.Int?
  }

  /** Why a well-formed candidate for this participant is turned away, or taken
      for a repetition, after any delivery list: read off the accepted history
      alone. */
  lemma VerdictReadOffHistory(r: Rules, ds: seq<Delivery>, h: Heartbeat, now: int)
    requires h.nodeId == Str(r.participantId)
    ensures var log, state := Log(r, ds), Run(r, ds);
      var out := Verdict(r, state, Delivery(Candidate(h), now));
      && (out == Refuse(state, BootIdReuse) <==> !LastInEpoch(log, h) && exists g :: g in log && g.bootId == h.bootId)
      && (out == Refuse(state, SequenceRollback) <==> Numbered(log, h) && h.sequence.n < log[|log| - 1].sequence.n)
      && (out == Refuse(state, SequenceConflict) <==>
            Numbered(log, h) && h.sequence == log[|log| - 1].sequence && Truncate(h) != Truncate(log[|log| - 1]))
      && (out == Returned(Admission(state, None, true)) <==>
            LastInEpoch(log, h) && Truncate(h) == Truncate(log[|log| - 1]))
  {
    WholeRun(r, ds);
  }

  /** How often the epoch of an accepted heartbeat differs from the one accepted
      before it, the first acceptance included. */
  function EpochChanges(log: seq<Heartbeat>): nat {
    if log == [] then 0
    else
      var init := log[..|log| - 1];
      EpochChanges(init) +
      if init != [] && init[|init| - 1].bootId == log[|log| - 1].bootId then 0 else 1
  }

  /** In a legal history that is just the number of different epochs. */
  lemma {:induction false} ChangesCountEpochs(log: seq<Heartbeat>)
    requires LegalHistory(log)
    ensures EpochChanges(log) == |Epochs(log)|
  {
    if log == [] {
    } else {
      var init, h := log[..|log| - 1], log[|log| - 1];
      assert log == init + [h];
      LegalPrefix(log, |log| - 1);
      ChangesCountEpochs(init);
      LegalGrowth("", init, h);
      EpochsGrow(init, h);
      if init != [] { assert init[|init| - 1].bootId in Epochs(init); }
    }
  }

  /** Behind any router over a fixed pool of epochs, in any order and with any
      repetition, the held epoch changes at most once per epoch of the pool. */
  lemma EpochChangesAreBounded(r: Rules, ds: seq<Delivery>, pool: set<Json>)
    requires forall d | d in ds && d.reading.Candidate? :: d.reading.heartbeat.bootId in pool
    ensures EpochChanges(Log(r, ds)) <= |pool|
  {
    WholeRun(r, ds);
    ChangesCountEpochs(Log(r, ds));
    LogComesFromDeliveries(r, ds);
    SubsetIsSmaller(Epochs(Log(r, ds)), pool);
  }

  lemma {:induction false} LogComesFromDeliveries(r: Rules, ds: seq<Delivery>)
    ensures forall h | h in Log(r, ds) :: exists d :: d in ds && d.reading == Candidate(h)
  {
    if ds != [] {
      var init, d := ds[..|ds| - 1], ds[|ds| - 1];
      LogComesFromDeliveries(r, init);
      forall h | h in Log(r, ds) ensures exists e :: e in ds && e.reading == Candidate(h) {
        if h in Log(r, init) {
          var e :| e in init && e.reading == Candidate(h);
          assert e in ds;
        } else {
          assert d in ds;
        }
      }
    }
  }

  lemma SubsetIsSmaller<T>(a: set<T>, b: set<T>)
    requires a <= b
    ensures |a| <= |b|
  {
    assert b == a + (b - a);
  }

  /** What validation leaves of a counter, in every reading of a run. */
  ghost predicate Counted(ds: seq<Delivery>) {
    forall d | d in ds && d.reading.Candidate? :: SequenceOk(d.reading.heartbeat.sequence)
  }

  lemma FoldsStaySound(r: Rules, ds: seq<Delivery>)
    requires Counted(ds)
    ensures Sound(Run(r, ds))
  {
    WholeRun(r, ds);
    LogComesFromDeliveries(r, ds);
    var log := Log(r, ds);
    if log != [] { assert log[|log| - 1] in log; }
  }

  // ---- Documents ----

  datatype Arrival = Arrival(document: Json, at: int)

  /** Folding `admit` itself over documents. */
  function RunDocuments(cal: Calendar, r: Rules, arrivals: seq<Arrival>): LineageState {
    if arrivals == [] then Empty(r.participantId)
    else
      var before := RunDocuments(cal, r, arrivals[..|arrivals| - 1]);
      var a := arrivals[|arrivals| - 1];
      StateAfter(before, Admit(cal, before, a.document, a.at, r.maxSkew))
  }

  function Deliver(cal: Calendar, arrivals: seq<Arrival>): (ds: seq<Delivery>)
  {
    seq(|arrivals|, i requires 0 <= i < |arrivals| => Delivery(Read(cal, arrivals[i].document), arrivals[i].at))
  }

  /** Every statement about deliveries is a statement about documents. */
  lemma {:induction false} DocumentsAreDeliveries(cal: Calendar, r: Rules, arrivals: seq<Arrival>)
    requires Lawful(cal)
    ensures RunDocuments(cal, r, arrivals) == Run(r, Deliver(cal, arrivals))
  {
    if arrivals != [] {
      var init, a := arrivals[..|arrivals| - 1], arrivals[|arrivals| - 1];
      DocumentsAreDeliveries(cal, r, init);
      AdmitDecides(cal, RunDocuments(cal, r, init), a.document, a.at, r.maxSkew);
      assert Deliver(cal, arrivals)[..|init|] == Deliver(cal, init);
    }
  }

  /** So what `AdmitRaisesExactly` asks of a state holds after every run. */
  lemma RunsStaySound(cal: Calendar, r: Rules, arrivals: seq<Arrival>)
    requires Lawful(cal)
    ensures Sound(RunDocuments(cal, r, arrivals))
  {
    DocumentsAreDeliveries(cal, r, arrivals);
    forall d | d in Deliver(cal, arrivals) && d.reading.Candidate? ensures SequenceOk(d.reading.heartbeat.sequence) {
      var i :| 0 <= i < |arrivals| && d == Delivery(Read(cal, arrivals[i].document), arrivals[i].at);
      ReadShape(cal, arrivals[i].document);
    }
    FoldsStaySound(r, Deliver(cal, arrivals));
  }

  /** Every single call in a run of calls: when it raises. */
  lemma RunRaisesExactly(cal: Calendar, r: Rules, arrivals: seq<Arrival>, i: nat)
    requires Lawful(cal) && i < |arrivals|
    ensures var state, a := RunDocuments(cal, r, arrivals[..i]), arrivals[i];
      !Admit(cal, state, a.document, a.at, r.maxSkew).Returned? <==> Raises(cal, state, a.document)
  {
    RunsStaySound(cal, r, arrivals[..i]);
    AdmitRaisesExactly(cal, RunDocuments(cal, r, arrivals[..i]), arrivals[i].document, arrivals[i].at, r.maxSkew);
  }
}
