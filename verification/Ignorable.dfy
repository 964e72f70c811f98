/** Optional data: what a consumer that throws it away still gets right. */
module Ignorable {
  import opened Wire
  import opened Validation
  import opened Model
  import opened Lineage
  import opened History

  /** A document reduced to the six mandatory members. */
  function Strip(document: Json): Json {
    if document.Obj? then Obj(map name | name in document.members && Required(name) :: document.members[name])
    else document
  }

  /** A document without its namespaced top-level members. */
  function DropForeign(document: Json): Json {
    if document.Obj? then
      Obj(map name | name in document.members && (Recognised(name) || !Dotted(name)) :: document.members[name])
    else document
  }

  /** The optional members obey the contract: extensions are an object of
      namespaced keys, and everything unknown is namespaced. */
  predicate OptionalOk(document: Json) {
    && document.Obj?
    && ExtensionsOk(Get(document.members, Extensions))
    && forall name | name in document.members :: Recognised(name) || Dotted(name)
  }

  function Bare(h: Heartbeat): Heartbeat {
    h.(extensions := map[])
  }

  function BareState(state: LineageState): LineageState {
    match state.held
    case None => state
    case Some(h) => state.(held := Some(Bare(h)))
  }

  function BareReading(reading: Reading): Reading {
    if reading.Candidate? then Candidate(Bare(reading.heartbeat)) else reading
  }

  /** The same answer, and states equal up to optional data. */
  predicate SameAnswer(full: Outcome, bare: Outcome) {
    match full
    case Returned(a) =>
      && bare.Returned? && bare.admission.reason == a.reason && bare.admission.duplicate == a.duplicate
      && bare.admission.state == BareState(a.state)
    case _ => bare == full
  }

  /** A redelivered revision whose optional data changed and nothing else did. */
  predicate ClashesInExtensions(state: LineageState, reading: Reading) {
    && reading.Candidate? && state.held.Some?
    && reading.heartbeat.nodeId == Str(state.participantId)
    && Truncate(Bare(reading.heartbeat)) == Truncate(Bare(state.held.value))
    && reading.heartbeat.extensions != state.held.value.extensions
  }

  /** Throwing optional members away before reading only empties the extensions
      of what is read. */
  lemma StripReads(cal: Calendar, document: Json)
    requires OptionalOk(document)
    ensures Read(cal, Strip(document)) == BareReading(Read(cal, document))
  {
    var m, n := document.members, Strip(document).members;
    assert forall name: Name | Required(name) :: Get(n, name) == Get(m, name);
    assert Get(n, Extensions) == Null && HasRequired(n) == HasRequired(m);
    assert Window(cal, n) == Window(cal, m);
    assert Valid(cal, document) == Valid(cal, Strip(document));
  }

  /** Namespaced top-level members take no part at all, in any document. */
  lemma ForeignMembersIgnored(cal: Calendar, state: LineageState, document: Json, now: int, maxSkew: int)
    ensures Admit(cal, state, DropForeign(document), now, maxSkew) == Admit(cal, state, document, now, maxSkew)
  {
    if document.Obj? {
      var m, n := document.members, DropForeign(document).members;
      assert forall name: Name | Recognised(name) :: (name in n <==> name in m) && Get(n, name) == Get(m, name);
      ForeignValid(cal, document);
    }
  }

  lemma ForeignValid(cal: Calendar, document: Json)
    requires document.Obj?
    ensures Valid(cal, DropForeign(document)) <==> Valid(cal, document)
  {
    var m, n := document.members, DropForeign(document).members;
    assert forall name: Name | Recognised(name) :: (name in n <==> name in m) && Get(n, name) == Get(m, name);
    assert Window(cal, n) == Window(cal, m);
    assert (forall name | name in m :: Recognised(name) || Dotted(name)) <==>
           (forall name | name in n :: Recognised(name) || Dotted(name)) by {
      if forall name | name in n :: Recognised(name) || Dotted(name) {
        forall name | name in m ensures Recognised(name) || Dotted(name) {
          if !Dotted(name) { assert name in n; }
        }
      }
    }
  }

  /** One step. The documentation promises the same verdict to a consumer that
      discards every optional member; it gets it exactly when the candidate does
      not repeat the held revision with other extensions. */
  lemma SameAnswerExactly(state: LineageState, reading: Reading, now: int, maxSkew: int)
    ensures SameAnswer(Decide(state, reading, now, maxSkew), Decide(BareState(state), BareReading(reading), now, maxSkew))
      <==> !ClashesInExtensions(state, reading)
  {
  }

  /** The same on documents: `admit` of the stripped document against the stripped
      state. */
  lemma StripAnswersExactly(cal: Calendar, state: LineageState, document: Json, now: int, maxSkew: int)
    requires Lawful(cal) && OptionalOk(document)
    ensures SameAnswer(Admit(cal, state, document, now, maxSkew), Admit(cal, BareState(state), Strip(document), now, maxSkew))
      <==> !ClashesInExtensions(state, Read(cal, document))
  {
    AdmitDecides(cal, state, document, now, maxSkew);
    AdmitDecides(cal, BareState(state), Strip(document), now, maxSkew);
    StripReads(cal, document);
    SameAnswerExactly(state, Read(cal, document), now, maxSkew);
  }

  function BareDeliveries(ds: seq<Delivery>): seq<Delivery> {
    seq(|ds|, i requires 0 <= i < |ds| => Delivery(BareReading(ds[i].reading), ds[i].at))
  }

  /** The two consumers answer alike at every step of the run. */
  ghost predicate AlwaysSameAnswer(r: Rules, ds: seq<Delivery>) {
    var bare := BareDeliveries(ds);
    forall i | 0 <= i < |ds| ::
      SameAnswer(Verdict(r, Run(r, ds[..i]), ds[i]), Verdict(r, Run(r, bare[..i]), bare[i]))
  }

  ghost predicate NeverClashes(r: Rules, ds: seq<Delivery>) {
    forall i | 0 <= i < |ds| :: !ClashesInExtensions(Run(r, ds[..i]), ds[i].reading)
  }

  /** Without a clash the two consumers stay equal up to optional data. */
  lemma {:induction false} BareRun(r: Rules, ds: seq<Delivery>)
    requires NeverClashes(r, ds)
    ensures Run(r, BareDeliveries(ds)) == BareState(Run(r, ds))
  {
    if ds != [] {
      var n := |ds| - 1;
      var init := ds[..n];
      assert forall i | 0 <= i < n :: init[..i] == ds[..i];
      BareRun(r, init);
      assert BareDeliveries(ds)[..n] == BareDeliveries(init);
      SameAnswerExactly(Run(r, init), ds[n].reading, ds[n].at, r.maxSkew);
    }
  }

  /** Whole runs: the stripped consumer answers alike at every step exactly when
      no step of the full one clashes. */
  lemma IgnorableExactly(r: Rules, ds: seq<Delivery>)
    ensures AlwaysSameAnswer(r, ds) <==> NeverClashes(r, ds)
  {
    var bare := BareDeliveries(ds);
    if NeverClashes(r, ds) {
      forall i | 0 <= i < |ds|
        ensures SameAnswer(Verdict(r, Run(r, ds[..i]), ds[i]), Verdict(r, Run(r, bare[..i]), bare[i]))
      {
        BareUpTo(r, ds, i);
        SameAnswerExactly(Run(r, ds[..i]), ds[i].reading, ds[i].at, r.maxSkew);
      }
    } else {
      var k :| 0 <= k < |ds| && ClashesInExtensions(Run(r, ds[..k]), ds[k].reading);
      var i := FirstClash(r, ds, k);
      BareUpTo(r, ds, i);
      SameAnswerExactly(Run(r, ds[..i]), ds[i].reading, ds[i].at, r.maxSkew);
    }
  }

  lemma BareUpTo(r: Rules, ds: seq<Delivery>, i: nat)
    requires i <= |ds| && forall j | 0 <= j < i :: !ClashesInExtensions(Run(r, ds[..j]), ds[j].reading)
    ensures Run(r, BareDeliveries(ds)[..i]) == BareState(Run(r, ds[..i]))
  {
    assert forall j | 0 <= j < i :: ds[..i][..j] == ds[..j];
    BareRun(r, ds[..i]);
    assert BareDeliveries(ds)[..i] == BareDeliveries(ds[..i]);
  }

  lemma FirstClash(r: Rules, ds: seq<Delivery>, k: nat) returns (i: nat)
    requires k < |ds| && ClashesInExtensions(Run(r, ds[..k]), ds[k].reading)
    ensures i < |ds| && ClashesInExtensions(Run(r, ds[..i]), ds[i].reading)
    ensures forall j | 0 <= j < i :: !ClashesInExtensions(Run(r, ds[..j]), ds[j].reading)
    decreases k
  {
    i := k;
    if j: nat :| j < k && ClashesInExtensions(Run(r, ds[..j]), ds[j].reading) {
      i := FirstClash(r, ds, j);
    }
  }

  /** A publisher that never changes the extensions of a revision. */
  ghost predicate RevisionFixesExtensions(ds: seq<Delivery>) {
    forall d, e | d in ds && e in ds && d.reading.Candidate? && e.reading.Candidate?
      && RevisionOf(d.reading.heartbeat) == RevisionOf(e.reading.heartbeat) ::
      d.reading.heartbeat.extensions == e.reading.heartbeat.extensions
  }

  lemma HeldWasDelivered(r: Rules, ds: seq<Delivery>, i: nat)
    requires i <= |ds| && Run(r, ds[..i]).held.Some?
    ensures exists d :: d in ds && d.reading == Candidate(Run(r, ds[..i]).held.value)
  {
    var log := Log(r, ds[..i]);
    WholeRun(r, ds[..i]);
    LogComesFromDeliveries(r, ds[..i]);
    assert log[|log| - 1] in log;
    var d :| d in ds[..i] && d.reading == Candidate(log[|log| - 1]);
    assert d in ds;
  }

  /** Against such a publisher optional data is ignorable, as promised. */
  lemma IgnorableWhenFixed(r: Rules, ds: seq<Delivery>)
    requires RevisionFixesExtensions(ds)
    ensures AlwaysSameAnswer(r, ds) && Run(r, BareDeliveries(ds)) == BareState(Run(r, ds))
  {
    forall i | 0 <= i < |ds| ensures !ClashesInExtensions(Run(r, ds[..i]), ds[i].reading) {
      assert ds[i] in ds;
      if Run(r, ds[..i]).held.Some? { HeldWasDelivered(r, ds, i); }
    }
    IgnorableExactly(r, ds);
    BareRun(r, ds);
  }

  /** The promise itself fails: one revision served twice, the second time with
      other extensions, is a duplicate without them and a conflict with them. */
  lemma IgnorabilityFails(h: Heartbeat, extra: map<Name, Json>, now: int, maxSkew: int)
    requires Typed(h) && h.extensions != extra && h.issuedAt == now < h.expiresAt && maxSkew >= 0
    ensures var r := Rules(h.nodeId.s, maxSkew);
      var ds := [Delivery(Candidate(h), now), Delivery(Candidate(h.(extensions := extra)), now)];
      && Verdict(r, Run(r, ds[..1]), ds[1]) == Refuse(Run(r, ds[..1]), SequenceConflict)
      && Verdict(r, Run(r, BareDeliveries(ds)[..1]), BareDeliveries(ds)[1]).admission.duplicate
      && !AlwaysSameAnswer(r, ds)
  {
    var r := Rules(h.nodeId.s, maxSkew);
    var ds := [Delivery(Candidate(h), now), Delivery(Candidate(h.(extensions := extra)), now)];
    assert ds[..1][..0] == [];
    assert Run(r, ds[..1]).held == Some(h);
    var bare := BareDeliveries(ds);
    assert bare[..1][..0] == [];
    assert Run(r, bare[..1]).held == Some(Bare(h));
  }
}
