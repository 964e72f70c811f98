/** The two-participant demonstration: a publisher that can be frozen, thawed,
    restarted and relabelled, and the one observer that polls it. */
module Demo {
  import opened Wire
  import opened Validation
  import opened Model
  import opened Lineage
  import opened History
  import opened Issuer

  /** The bound the observer widens its skew to. */
  const DEMO_SKEW := 3600 * SECOND

  function StatusExtension(status: string): map<Name, Json> {
    map[ModernHeartbeat := Obj(map[Other("status") := Str(status)])]
  }

  // ---- The publisher ----

  /** What a participant is between requests; `last` is the document it would
      replay. */
  datatype Publisher = Publisher(
    participantId: string, lease: int, status: string, frozen: bool, restarts: nat,
    epochId: string, nextSequence: nat, last: Option<Heartbeat>)

  function NewPublisher(participantId: string, lease: int, epochId: string): Publisher {
    Publisher(participantId, lease, "serving", false, 0, epochId, 0, None)
  }

  predicate Replays(p: Publisher) {
    p.frozen && p.last.Some?
  }

  function NextMint(p: Publisher, now: int): Heartbeat {
    Minted(p.participantId, p.epochId, p.nextSequence, now, p.lease, StatusExtension(p.status))
  }

  function Serve(p: Publisher, now: int): Publisher {
    if Replays(p) then p else p.(nextSequence := p.nextSequence + 1, last := Some(NextMint(p, now)))
  }

  /** What a request at `now` is answered with. */
  function Shown(p: Publisher, now: int): Heartbeat {
    if Replays(p) then p.last.value else NextMint(p, now)
  }

  datatype Operation = Freeze | Thaw | Restart(minted: string) | SetStatus(status: string) | Unknown

  function Controlled(p: Publisher, op: Operation): Publisher {
    match op
    case Freeze => p.(frozen := true)
    case Thaw => p.(frozen := false)
    case Restart(minted) =>
      p.(epochId := minted, nextSequence := 0, last := None, frozen := false, restarts := p.restarts + 1)
    case SetStatus(status) => p.(status := status)
    case Unknown => p
  }

  class Participant {
    const cal: Calendar
    const participantId: string
    const lease: int
    var status: string
    var frozen: bool
    var restarts: nat
    var issuer: HeartbeatIssuer
    var last: Option<Json>
    ghost var shown: Option<Heartbeat>

    constructor (cal: Calendar, participantId: string, lease: int, minted: string)
      ensures this.cal == cal && Valid() && fresh(issuer)
      ensures View() == NewPublisher(participantId, lease, minted)
    {
      this.cal, this.participantId, this.lease := cal, participantId, lease;
      status, frozen, restarts := "serving", false, 0;
      issuer := new HeartbeatIssuer(participantId, "", minted, lease, map[]);
      last := None;
      shown := None;
    }

    ghost predicate Valid()
      reads this, issuer
    {
      && issuer.participantId == participantId && issuer.lease == lease
      && last == (if shown.None? then None else Some(ToDict(cal, shown.value)))
    }

    ghost function View(): Publisher
      reads this, issuer
    {
      Publisher(participantId, lease, status, frozen, restarts, issuer.epochId, issuer.nextSequence, shown)
    }

    /** `heartbeat`: mint the next document, or replay the last one while frozen. */
    method Beat(now: int) returns (document: Json)
      requires Valid()
      modifies this, issuer
      ensures Valid() && issuer == old(issuer) && View() == Serve(old(View()), now)
      ensures document == ToDict(cal, Shown(old(View()), now))
    {
      if frozen && last.Some? {
        return last.value;
      }
      issuer.extensions := StatusExtension(status);
      var h := issuer.Issue(now);
      last := Some(ToDict(cal, h));
      shown := Some(h);
      document := last.value;
    }

    /** `control`; `ok` is false for an operation it does not know. */
    method Control(op: Operation) returns (ok: bool)
      requires Valid()
      modifies this
      ensures Valid() && View() == Controlled(old(View()), op) && ok == !op.Unknown?
      ensures issuer == old(issuer) || fresh(issuer)
    {
      ok := true;
      match op {
        case Freeze => frozen := true;
        case Thaw => frozen := false;
        case Restart(minted) =>
          issuer := new HeartbeatIssuer(participantId, "", minted, lease, map[]);
          last := None;
          shown := None;
          frozen := false;
          restarts := restarts + 1;
        case SetStatus(text) => status := text;
        case Unknown => ok := false;
      }
    }
  }

  // ---- The observer ----

  datatype Transition = Transition(epochId: Json, sequence: Json, expiresAt: Json)

  function TransitionOf(document: Json): Transition {
    if document.Obj? then
      Transition(Get(document.members, BootId), Get(document.members, Sequence), Get(document.members, ExpiresAt))
    else Transition(Null, Null, Null)
  }

  datatype Observer = Observer(state: LineageState, transitions: seq<Transition>, refusals: seq<ViolationCode>)

  function NewObserver(participantId: string): Observer {
    Observer(Empty(participantId), [], [])
  }

  /** `poll`, given what was served. */
  function Observe(o: Observer, document: Json, outcome: Outcome): Observer {
    if outcome.Accepted() then
      o.(state := outcome.admission.state, transitions := o.transitions + [TransitionOf(document)])
    else if outcome.Returned? && outcome.admission.reason.Some? then
      o.(refusals := o.refusals + [outcome.admission.reason.value])
    else o
  }

  class Session {
    const cal: Calendar
    var state: LineageState
    var transitions: seq<Transition>
    var refusals: seq<ViolationCode>

    constructor (cal: Calendar, participantId: string)
      ensures this.cal == cal && View() == NewObserver(participantId)
    {
      this.cal := cal;
      state := Empty(participantId);
      transitions, refusals := [], [];
    }

    function View(): Observer
      reads this
    {
      Observer(state, transitions, refusals)
    }

    /** `poll`: the publisher's clock reads `minting` when it answers, the
        observer's reads `now` when it judges. */
    method Poll(publisher: Participant, minting: int, now: int) returns (document: Json, outcome: Outcome)
      requires publisher.Valid()
      modifies this, publisher, publisher.issuer
      ensures publisher.Valid() && publisher.issuer == old(publisher.issuer)
      ensures publisher.View() == Serve(old(publisher.View()), minting)
      ensures document == ToDict(publisher.cal, Shown(old(publisher.View()), minting))
      ensures outcome == Admit(cal, old(View()).state, document, now, DEMO_SKEW)
      ensures View() == Observe(old(View()), document, outcome)
    {
      document := publisher.Beat(minting);
      outcome := Admit(cal, state, document, now, DEMO_SKEW);
      if outcome.Accepted() {
        state := outcome.admission.state;
        transitions := transitions + [TransitionOf(document)];
      } else if outcome.Returned? && outcome.admission.reason.Some? {
        refusals := refusals + [outcome.admission.reason.value];
      }
    }
  }

  // ---- Lock step ----

  datatype Event = Control(op: Operation) | Poll(minting: int, now: int)

  /** Both sides, everything minted, and every epoch ever used. */
  datatype Stage = Stage(publisher: Publisher, observer: Observer, minted: seq<Heartbeat>, used: set<string>)

  function Opening(participantId: string, lease: int, epochId: string): Stage {
    Stage(NewPublisher(participantId, lease, epochId), NewObserver(participantId), [], {epochId})
  }

  /** How the observer judges what it is shown. */
  function Judged(cal: Calendar, s: Stage, e: Event): Outcome
    requires e.Poll?
  {
    Admit(cal, s.observer.state, ToDict(cal, Shown(s.publisher, e.minting)), e.now, DEMO_SKEW)
  }

  function Play(cal: Calendar, s: Stage, e: Event): Stage {
    match e
    case Control(op) =>
      s.(publisher := Controlled(s.publisher, op), used := s.used + if op.Restart? then {op.minted} else {})
    case Poll(minting, _) =>
      s.(publisher := Serve(s.publisher, minting),
         observer := Observe(s.observer, ToDict(cal, Shown(s.publisher, minting)), Judged(cal, s, e)),
         minted := if Replays(s.publisher) then s.minted else s.minted + [NextMint(s.publisher, minting)])
  }

  function PlayAll(cal: Calendar, s: Stage, events: seq<Event>): Stage {
    if events == [] then s else Play(cal, PlayAll(cal, s, events[..|events| - 1]), events[|events| - 1])
  }

  /** Restarts come under well-formed epochs never used, and a freshly minted document reaches
      the observer before it expires. */
  predicate Fair(s: Stage, e: Event) {
    match e
    case Control(op) => op.Restart? ==> op.minted !in s.used && BootIdPattern(op.minted)
    case Poll(minting, now) =>
      !Replays(s.publisher) ==> minting <= now < FloorMs(minting + s.publisher.lease)
  }

  ghost predicate AllFair(cal: Calendar, s: Stage, events: seq<Event>) {
    forall i | 0 <= i < |events| :: Fair(PlayAll(cal, s, events[..i]), events[i])
  }

  function Ledger(cal: Calendar, minted: seq<Heartbeat>): seq<Transition> {
    seq(|minted|, i requires 0 <= i < |minted| => TransitionOf(ToDict(cal, minted[i])))
  }

  /** What every moment of the play keeps. */
  predicate InStep(cal: Calendar, s: Stage) {
    var p, o := s.publisher, s.observer;
    && o.state.participantId == p.participantId && MILLISECOND <= p.lease <= MAX_LEASE
    && NodeIdPattern(p.participantId) && BootIdPattern(p.epochId)
    && (p.last.Some? ==> Presentable(p.last.value) && 0 < WireWindow(p.last.value) <= MAX_LEASE)
    && p.epochId in s.used && (forall epoch | epoch in o.state.retired :: epoch.Str? && epoch.s in s.used)
    && (o.state.held.Some? ==> o.state.held.value.bootId in o.state.retired)
    && (p.last.None? <==> p.nextSequence == 0)
    && (p.last.None? ==> Str(p.epochId) !in o.state.retired)
    && (p.last.Some? ==>
          && p.last.value.nodeId == Str(p.participantId) && p.last.value.bootId == Str(p.epochId)
          && p.last.value.sequence == Int(p.nextSequence - 1)
          && o.state.held == Some(Truncate(p.last.value)))
    && o.refusals == [] && o.transitions == Ledger(cal, s.minted)
  }

  /** What the observer's `admit` makes of the document it is shown. */
  lemma ShownReads(cal: Calendar, state: LineageState, h: Heartbeat, now: int)
    requires Lawful(cal) && Presentable(h) && 0 < WireWindow(h) <= MAX_LEASE
    ensures Admit(cal, state, ToDict(cal, h), now, DEMO_SKEW) == Decide(state, Candidate(Truncate(h)), now, DEMO_SKEW)
  {
    ReadWire(cal, h);
    AdmitDecides(cal, state, ToDict(cal, h), now, DEMO_SKEW);
  }

  /** Whatever this publisher mints can be read: its status rides in a namespaced
      extension and its lease survives the wire. */
  lemma MintIsReadable(p: Publisher, now: int)
    requires NodeIdPattern(p.participantId) && BootIdPattern(p.epochId) && MILLISECOND <= p.lease <= MAX_LEASE
    ensures Presentable(NextMint(p, now)) && 0 < WireWindow(NextMint(p, now)) <= MAX_LEASE
  {
    ValidLeases(p.lease);
    assert LeavesWindow(now, p.lease);
  }

  /** Whatever is shown on such a stage reads back as it was rendered. */
  lemma JudgedDecides(cal: Calendar, s: Stage, e: Event)
    requires Lawful(cal) && InStep(cal, s) && e.Poll?
    ensures Judged(cal, s, e) == Decide(s.observer.state, Candidate(Truncate(Shown(s.publisher, e.minting))), e.now, DEMO_SKEW)
    ensures Presentable(Shown(s.publisher, e.minting)) && 0 < WireWindow(Shown(s.publisher, e.minting)) <= MAX_LEASE
  {
    MintIsReadable(s.publisher, e.minting);
    ShownReads(cal, s.observer.state, Shown(s.publisher, e.minting), e.now);
  }

  /** The next mint is news to the observer. */
  lemma MintDecided(cal: Calendar, s: Stage, e: Event)
    requires InStep(cal, s) && e.Poll? && Fair(s, e) && !Replays(s.publisher)
    ensures var h := Truncate(NextMint(s.publisher, e.minting));
      Decide(s.observer.state, Candidate(h), e.now, DEMO_SKEW) ==
        Returned(Admission(Accept(s.observer.state, h), None, false))
  {
    assert Distance(FloorMs(e.minting), e.now) <= DEMO_SKEW;
  }

  lemma ControlKeeps(cal: Calendar, s: Stage, e: Event)
    requires InStep(cal, s) && Fair(s, e) && e.Control?
    ensures InStep(cal, Play(cal, s, e))
  {
  }

  lemma ReplayKeeps(cal: Calendar, s: Stage, e: Event)
    requires Lawful(cal) && InStep(cal, s) && e.Poll? && Replays(s.publisher)
    ensures Judged(cal, s, e) == Returned(Admission(s.observer.state, None, true)) && Play(cal, s, e) == s
  {
    JudgedDecides(cal, s, e);
  }

  lemma MintKeeps(cal: Calendar, s: Stage, e: Event)
    requires Lawful(cal) && InStep(cal, s) && Fair(s, e) && e.Poll? && !Replays(s.publisher)
    ensures InStep(cal, Play(cal, s, e)) && Judged(cal, s, e).Accepted()
  {
    JudgedDecides(cal, s, e);
    MintDecided(cal, s, e);
    var h := NextMint(s.publisher, e.minting);
    assert Ledger(cal, s.minted + [h]) == Ledger(cal, s.minted) + [TransitionOf(ToDict(cal, h))];
  }

  /** One event: the answer is accepted when the document was minted for it and
      duplicate when it was replayed, and everything stays in step. */
  lemma OneEvent(cal: Calendar, s: Stage, e: Event)
    requires Lawful(cal) && InStep(cal, s) && Fair(s, e)
    ensures InStep(cal, Play(cal, s, e))
    ensures e.Poll? && !Replays(s.publisher) ==> Judged(cal, s, e).Accepted()
    ensures e.Poll? && Replays(s.publisher) ==> Judged(cal, s, e) == Returned(Admission(s.observer.state, None, true))
  {
    match e {
      case Control(_) => ControlKeeps(cal, s, e);
      case Poll(_, _) => if Replays(s.publisher) { ReplayKeeps(cal, s, e); } else { MintKeeps(cal, s, e); }
    }
  }

  /** For every interleaving of freeze, thaw, restart, status changes and polls the
      refusals ledger stays empty and the transitions ledger is the minted stream,
      in order. */
  lemma {:induction false} LockStep(cal: Calendar, participantId: string, lease: int, epochId: string, events: seq<Event>)
    requires Lawful(cal) && NodeIdPattern(participantId) && BootIdPattern(epochId) && MILLISECOND <= lease <= MAX_LEASE
    requires AllFair(cal, Opening(participantId, lease, epochId), events)
    ensures var s := PlayAll(cal, Opening(participantId, lease, epochId), events);
      InStep(cal, s) && s.observer.refusals == [] && s.observer.transitions == Ledger(cal, s.minted)
  {
    if events != [] {
      var n := |events| - 1;
      var start := Opening(participantId, lease, epochId);
      assert forall i | 0 <= i < n :: events[..n][..i] == events[..i];
      LockStep(cal, participantId, lease, epochId, events[..n]);
      assert Fair(PlayAll(cal, start, events[..n]), events[n]);
      OneEvent(cal, PlayAll(cal, start, events[..n]), events[n]);
    }
  }

  /** Each poll of such a play. */
  lemma EveryPoll(cal: Calendar, participantId: string, lease: int, epochId: string, events: seq<Event>, i: nat)
    requires Lawful(cal) && NodeIdPattern(participantId) && BootIdPattern(epochId) && MILLISECOND <= lease <= MAX_LEASE
    requires i < |events| && events[i].Poll?
    requires AllFair(cal, Opening(participantId, lease, epochId), events)
    ensures var s := PlayAll(cal, Opening(participantId, lease, epochId), events[..i]);
      var outcome := Judged(cal, s, events[i]);
      outcome.Returned? && outcome.admission.reason == None &&
      (outcome.admission.duplicate <==> Replays(s.publisher))
  {
    var start := Opening(participantId, lease, epochId);
    assert forall j | 0 <= j < i :: events[..i][..j] == events[..j];
    LockStep(cal, participantId, lease, epochId, events[..i]);
    OneEvent(cal, PlayAll(cal, start, events[..i]), events[i]);
  }

  // ---- What the operations mean ----

  /** The last of freeze, thaw and restart was a freeze. */
  predicate LastFroze(events: seq<Event>) {
    if events == [] then false
    else
      match events[|events| - 1]
      case Control(Freeze) => true
      case Control(Thaw) => false
      case Control(Restart(_)) => false
      case _ => LastFroze(events[..|events| - 1])
  }

  function LastStatus(events: seq<Event>): string {
    if events == [] then "serving"
    else
      match events[|events| - 1]
      case Control(SetStatus(status)) => status
      case _ => LastStatus(events[..|events| - 1])
  }

  function LastEpoch(opening: string, events: seq<Event>): string {
    if events == [] then opening
    else
      match events[|events| - 1]
      case Control(Restart(minted)) => minted
      case _ => LastEpoch(opening, events[..|events| - 1])
  }

  function Restarts(events: seq<Event>): nat {
    if events == [] then 0
    else
      Restarts(events[..|events| - 1]) +
      match events[|events| - 1]
      case Control(Restart(_)) => 1
      case _ => 0
  }

  /** After any events the publisher is as the last operations that mattered left it:
      neither a poll nor an unknown operation changes any of this. */
  lemma {:induction false} OperationsMean(cal: Calendar, participantId: string, lease: int, epochId: string, events: seq<Event>)
    ensures var p := PlayAll(cal, Opening(participantId, lease, epochId), events).publisher;
      && p.frozen == LastFroze(events) && p.status == LastStatus(events)
      && p.epochId == LastEpoch(epochId, events) && p.restarts == Restarts(events)
      && p.participantId == participantId && p.lease == lease
  {
    if events != [] { OperationsMean(cal, participantId, lease, epochId, events[..|events| - 1]); }
  }

  predicate Thawing(e: Event) {
    e.Control? && (e.op.Thaw? || e.op.Restart?)
  }

  /** While a shown document is frozen, every later poll is shown that very document,
      whatever else happens short of a thaw or a restart, and nothing is minted. */
  lemma {:induction false} FrozenRepeats(cal: Calendar, s: Stage, events: seq<Event>, now: int)
    requires Replays(s.publisher) && forall e | e in events :: !Thawing(e)
    ensures var end := PlayAll(cal, s, events);
      Replays(end.publisher) && end.publisher.last == s.publisher.last && end.minted == s.minted
      && Shown(end.publisher, now) == s.publisher.last.value
  {
    if events != [] {
      var n := |events| - 1;
      assert events[n] in events && forall e | e in events[..n] :: e in events;
      FrozenRepeats(cal, s, events[..n], now);
    }
  }

  /** What a poll is shown otherwise: a lease of this publisher's epoch and length,
      issued then, with the status of the moment in its one extension. */
  lemma MintMeans(p: Publisher, now: int)
    requires !Replays(p)
    ensures var h := Shown(p, now);
      && h.nodeId == Str(p.participantId) && h.bootId == Str(p.epochId) && h.sequence == Int(p.nextSequence)
      && h.issuedAt == now && h.expiresAt == now + p.lease
      && h.extensions.Keys == {ModernHeartbeat} && h.extensions[ModernHeartbeat].Obj?
      && h.extensions[ModernHeartbeat].members == map[Other("status") := Str(p.status)]
      && Serve(p, now).last == Some(h)
  {
  }

  // ---- The observer's ledgers, whoever publishes ----

  function ObserveAll(cal: Calendar, participantId: string, arrivals: seq<Arrival>): Observer {
    if arrivals == [] then NewObserver(participantId)
    else
      var before, a := ObserveAll(cal, participantId, arrivals[..|arrivals| - 1]), arrivals[|arrivals| - 1];
      Observe(before, a.document, Admit(cal, before.state, a.document, a.at, DEMO_SKEW))
  }

  /** One entry an acceptance, in order: the epoch, the counter and the expiry as the
      document has them. */
  function Accepted(cal: Calendar, r: Rules, arrivals: seq<Arrival>): seq<Transition> {
    if arrivals == [] then []
    else
      var init, a := arrivals[..|arrivals| - 1], arrivals[|arrivals| - 1];
      if Admit(cal, RunDocuments(cal, r, init), a.document, a.at, r.maxSkew).Accepted() && a.document.Obj?
      then
        var m := a.document.members;
        Accepted(cal, r, init) + [Transition(Get(m, BootId), Get(m, Sequence), Get(m, ExpiresAt))]
      else Accepted(cal, r, init)
  }

  /** One entry a refusal, in order. */
  function RefusedFor(cal: Calendar, r: Rules, arrivals: seq<Arrival>): seq<ViolationCode> {
    if arrivals == [] then []
    else
      var init, a := arrivals[..|arrivals| - 1], arrivals[|arrivals| - 1];
      var out := Admit(cal, RunDocuments(cal, r, init), a.document, a.at, r.maxSkew);
      if out.Returned? && out.admission.reason.Some? then RefusedFor(cal, r, init) + [out.admission.reason.value]
      else RefusedFor(cal, r, init)
  }

  /** Whatever documents it is served, the observer's state is the fold of `admit`
      over them and its two ledgers are the acceptances and the refusals of that
      fold; duplicates are in neither. */
  lemma {:induction false} LedgersMean(cal: Calendar, participantId: string, arrivals: seq<Arrival>)
    requires Lawful(cal)
    ensures var o, r := ObserveAll(cal, participantId, arrivals), Rules(participantId, DEMO_SKEW);
      && o.state == RunDocuments(cal, r, arrivals)
      && o.transitions == Accepted(cal, r, arrivals) && o.refusals == RefusedFor(cal, r, arrivals)
  {
    if arrivals != [] {
      var init, a := arrivals[..|arrivals| - 1], arrivals[|arrivals| - 1];
      LedgersMean(cal, participantId, init);
      OneObservation(cal, ObserveAll(cal, participantId, init), a);
    }
  }

  lemma OneObservation(cal: Calendar, o: Observer, a: Arrival)
    requires Lawful(cal)
    ensures var out := Admit(cal, o.state, a.document, a.at, DEMO_SKEW);
      && Observe(o, a.document, out).state == StateAfter(o.state, out)
      && (out.Accepted() ==> a.document.Obj?)
  {
    AdmitDecides(cal, o.state, a.document, a.at, DEMO_SKEW);
    OnlyAcceptanceMoves(o.state, Read(cal, a.document), a.at, DEMO_SKEW);
  }

  /** An entry of the ledger of mints, in the heartbeat's own terms. */
  lemma LedgerMeans(cal: Calendar, minted: seq<Heartbeat>, i: nat)
    requires i < |minted|
    ensures |Ledger(cal, minted)| == |minted|
    ensures Ledger(cal, minted)[i] == Transition(minted[i].bootId, minted[i].sequence, FormatRfc3339(cal, minted[i].expiresAt))
  {
    Rendered(cal, minted[i]);
  }
}
