/** The consumer loop: hints, deadlines, the identity gate and the authoritative
    refetch. */
module Consumer {
  import opened Wire
  import opened Validation
  import opened Model
  import opened Lineage
  import opened History
  import opened Identity

  /** What a consumer is configured with. The refetch fraction is the exact
      quotient `numerator / denominator`. */
  datatype Terms = Terms(
    participantId: string,
    maxSkew: int,
    policy: Option<Policy>,
    numerator: int,
    denominator: int,
    maxInterval: int)

  const DEFAULT_MAX_INTERVAL := 60 * SECOND

  /** The configuration the source defaults to. */
  predicate HalfWindow(terms: Terms) {
    terms.numerator == 1 && terms.denominator == 2 && terms.maxInterval >= 0
  }

  /** What the transport answered one fetch with. */
  datatype Reply = Failed(exception: string) | Served(document: Json, principal: Option<Principal>)

  /** The same once the document has been read. */
  datatype Answer = Unanswered(exception: string) | Answered(reading: Reading, principal: Option<Principal>)

  function ReadReply(cal: Calendar, reply: Reply): Answer {
    match reply
    case Failed(exception) => Unanswered(exception)
    case Served(document, principal) => Answered(Read(cal, document), principal)
  }

  datatype Convergence = Advanced | Unchanged | Refused | IdentityUnbound | NonAuthoritative | Unreachable

  datatype Cause = NoCause | Violation(code: ViolationCode) | Identity(reason: Option<Reason>) | Exception(name: string)

  datatype ConvergenceVerdict = ConvergenceVerdict(
    convergence: Convergence, participantId: string, binding: Option<ResponseBinding>, cause: Cause,
    held: Option<Heartbeat>)

  /** How a refetch ended; `Raised` is the exception of a null member escaping. */
  datatype Refetched = Concluded(verdict: ConvergenceVerdict) | Raised

  /** Everything a consumer remembers. */
  datatype Tracker = Tracker(
    state: LineageState,
    pending: bool,
    lastFetchAt: Option<int>,
    lastBinding: Option<ResponseBinding>,
    hintsSeen: nat,
    hintsCoalesced: nat,
    fetches: nat)

  function Untouched(terms: Terms): Tracker {
    Tracker(Empty(terms.participantId), false, None, None, 0, 0, 0)
  }

  function RulesOf(terms: Terms): Rules {
    Rules(terms.participantId, terms.maxSkew)
  }

  // ---- Deadlines ----

  /** `timedelta` keeps whole microseconds, rounding a half to the even one. */
  function RoundHalfEven(n: int, d: int): int
    requires d > 0
  {
    var q, r := n / d, n % d;
    if 2 * r < d then q else if 2 * r > d then q + 1 else if q % 2 == 0 then q else q + 1
  }

  /** How long after a fetch the next one is due, given the window that was left. */
  function Interval(terms: Terms, window: int): int
    requires terms.denominator > 0
  {
    var scaled := (if window > 0 then window else 0) * terms.numerator;
    if scaled >= terms.maxInterval * terms.denominator then terms.maxInterval
    else RoundHalfEven(scaled, terms.denominator)
  }

  function Deadline(terms: Terms, t: Tracker): Option<int>
    requires terms.denominator > 0
  {
    if t.state.held.None? || t.lastFetchAt.None? then None
    else Some(t.lastFetchAt.value + Interval(terms, t.state.held.value.expiresAt - t.lastFetchAt.value))
  }

  predicate IsDue(terms: Terms, t: Tracker, now: int)
    requires terms.denominator > 0
  {
    t.pending || t.state.held.None? || Deadline(terms, t).None? || now >= Deadline(terms, t).value
  }

  /** Which integers are at or past a rounded quotient. */
  lemma RoundedExactly(n: int, d: int, k: int)
    requires d > 0
    ensures RoundHalfEven(n, d) <= k <==> 2 * (d * k) > 2 * n - d || (2 * (d * k) == 2 * n - d && k % 2 == 0)
  {
    var q, r := n / d, n % d;
    assert n == d * q + r;
    var y := k - q;
    assert d * k == d * q + d * y;
    if y >= 1 { assert d * y >= d; } else if y <= -1 { assert d * y <= -d; }
  }

  /** By the clock a consumer that has not heard a hint is due exactly when as much
      as the cap has gone by since its last fetch, or the fraction of the window it
      had then, to the nearest microsecond (a half counts for even). */
  ghost predicate ClockSaysDue(terms: Terms, gone: int, window: int) {
    var share := (if window > 0 then window else 0) * terms.numerator;
    || gone >= terms.maxInterval
    || 2 * (terms.denominator * gone) > 2 * share - terms.denominator
    || (2 * (terms.denominator * gone) == 2 * share - terms.denominator && gone % 2 == 0)
  }

  lemma IntervalExactly(terms: Terms, gone: int, window: int)
    requires terms.denominator > 0
    ensures Interval(terms, window) <= gone <==> ClockSaysDue(terms, gone, window)
  {
    var d, m := terms.denominator, terms.maxInterval;
    var share := (if window > 0 then window else 0) * terms.numerator;
    RoundedExactly(share, d, gone);
    if share >= m * d {
      var y := gone - m;
      assert d * gone == d * y + m * d;
      if y <= -1 { assert d * y <= -d; }
    } else {
      RoundedExactly(share, d, m);
      assert d * m == m * d;
    }
  }

  /** When a refetch is owed. */
  lemma DueExactly(terms: Terms, t: Tracker, now: int)
    requires terms.denominator > 0
    ensures IsDue(terms, t, now) <==>
      || t.pending || t.state.held.None? || t.lastFetchAt.None?
      || ClockSaysDue(terms, now - t.lastFetchAt.value, t.state.held.value.expiresAt - t.lastFetchAt.value)
  {
    if t.state.held.Some? && t.lastFetchAt.Some? {
      IntervalExactly(terms, now - t.lastFetchAt.value, t.state.held.value.expiresAt - t.lastFetchAt.value);
    }
  }

  /** For the default fraction: half the window, or the cap. */
  lemma DueAtHalf(terms: Terms, t: Tracker, now: int)
    requires HalfWindow(terms) && t.state.held.Some? && t.lastFetchAt.Some? && !t.pending
    requires t.lastFetchAt.value <= now
    ensures var gone, window := now - t.lastFetchAt.value, t.state.held.value.expiresAt - t.lastFetchAt.value;
      && (gone >= terms.maxInterval || 2 * gone > window ==> IsDue(terms, t, now))
      && (IsDue(terms, t, now) ==> gone >= terms.maxInterval || 2 * gone >= window - 1)
  {
    DueExactly(terms, t, now);
  }

  predicate HoldsFresh(t: Tracker, now: int) {
    t.state.held.Some? && IsFresh(t.state.held.value, now)
  }

  // ---- Steps ----

  predicate AnnouncesHeld(cal: Calendar, t: Tracker, hint: Option<ChangeHint>) {
    hint.Some? && t.state.held.Some? && Matches(cal, hint.value, t.state.held.value)
  }

  /** A hint announces what is held exactly when it was made for a heartbeat equal to
      the held one to the millisecond; a bare hint announces nothing. */
  lemma AnnouncesMeans(cal: Calendar, t: Tracker, h: Heartbeat, address: string)
    requires Lawful(cal)
    ensures !AnnouncesHeld(cal, t, None)
    ensures AnnouncesHeld(cal, t, Some(HintFor(cal, h, address))) <==>
      t.state.held.Some? && Truncate(h) == Truncate(t.state.held.value)
  {
    if t.state.held.Some? { HintMatchesWire(cal, h, t.state.held.value, address); }
  }

  /** One hint; `known` says whether it announces the held revision. */
  function HintStep(t: Tracker, known: bool): Tracker {
    var seen := t.(hintsSeen := t.hintsSeen + 1);
    if known then seen
    else if t.pending then seen.(hintsCoalesced := t.hintsCoalesced + 1)
    else seen.(pending := true)
  }

  predicate Schedules(t: Tracker, known: bool) {
    !known && !t.pending
  }

  function BindingOf(terms: Terms, principal: Option<Principal>): Option<ResponseBinding> {
    match terms.policy
    case None => None
    case Some(policy) => Some(Evaluate(policy, principal, terms.participantId))
  }

  /** Whether an answer may reach admission at all. */
  predicate Authoritative(terms: Terms, principal: Option<Principal>) {
    BindingOf(terms, principal).None? || BindingOf(terms, principal).value.binding.Bound?
  }

  /** The bookkeeping every answered fetch does before it is judged. */
  function Noted(terms: Terms, t: Tracker, now: int, principal: Option<Principal>): Tracker {
    t.(pending := false, fetches := t.fetches + 1, lastFetchAt := Some(now), lastBinding := BindingOf(terms, principal))
  }

  function RefetchStep(terms: Terms, t: Tracker, now: int, answer: Answer): Tracker {
    match answer
    case Unanswered(_) => t.(pending := false, fetches := t.fetches + 1)
    case Answered(reading, principal) =>
      var noted := Noted(terms, t, now, principal);
      if Authoritative(terms, principal)
      then noted.(state := StateAfter(t.state, Decide(t.state, reading, now, terms.maxSkew)))
      else noted
  }

  function RefetchResult(terms: Terms, t: Tracker, now: int, answer: Answer): Refetched {
    var who, held := terms.participantId, t.state.held;
    match answer
    case Unanswered(exception) => Concluded(ConvergenceVerdict(Unreachable, who, None, Exception(exception), held))
    case Answered(reading, principal) =>
      var binding := BindingOf(terms, principal);
      if !Authoritative(terms, principal) then
        if binding.value.binding.Unbound?
        then Concluded(ConvergenceVerdict(IdentityUnbound, who, binding, Identity(Some(PrincipalNotPermitted)), held))
        else Concluded(ConvergenceVerdict(NonAuthoritative, who, binding, Identity(binding.value.reason), held))
      else
        match Decide(t.state, reading, now, terms.maxSkew)
        case Returned(a) =>
          if a.duplicate then Concluded(ConvergenceVerdict(Unchanged, who, binding, NoCause, held))
          else if a.reason.Some? then Concluded(ConvergenceVerdict(Refused, who, binding, Violation(a.reason.value), held))
          else Concluded(ConvergenceVerdict(Advanced, who, binding, NoCause, a.state.held))
        case _ => Raised
  }

  function PollStep(terms: Terms, t: Tracker, now: int, answer: Answer): Tracker
    requires terms.denominator > 0
  {
    if IsDue(terms, t, now) then RefetchStep(terms, t, now, answer) else t
  }

  // ---- The stateful object ----

  class HeartbeatConsumer {
    const cal: Calendar
    const terms: Terms
    var state: LineageState
    var lastBinding: Option<ResponseBinding>
    var refetchPending: bool
    var lastFetchAt: Option<int>
    var hintsSeen: nat
    var hintsCoalesced: nat
    var fetches: nat

    constructor (cal: Calendar, terms: Terms)
      ensures this.cal == cal && this.terms == terms && View() == Untouched(terms)
    {
      this.cal := cal;
      this.terms := terms;
      state := Empty(terms.participantId);
      lastBinding := None;
      refetchPending := false;
      lastFetchAt := None;
      hintsSeen, hintsCoalesced, fetches := 0, 0, 0;
    }

    function View(): Tracker
      reads this
    {
      Tracker(state, refetchPending, lastFetchAt, lastBinding, hintsSeen, hintsCoalesced, fetches)
    }

    predicate IsFreshAt(now: int): (covered: bool)
      reads this
      ensures covered <==> state.held.Some? && now < state.held.value.expiresAt
    {
      HoldsFresh(View(), now)
    }

    /** `refetch_deadline`: reads the held lease and the last fetch, no hint. */
    method RefetchDeadline() returns (deadline: Option<int>)
      requires terms.denominator > 0
      ensures deadline == Deadline(terms, View())
    {
      if state.held.None? || lastFetchAt.None? { return None; }
      var window := state.held.value.expiresAt - lastFetchAt.value;
      var scaled := (if window > 0 then window else 0) * terms.numerator;
      var interval := if scaled >= terms.maxInterval * terms.denominator then terms.maxInterval
                      else RoundHalfEven(scaled, terms.denominator);
      deadline := Some(lastFetchAt.value + interval);
    }

    method Due(now: int) returns (due: bool)
      requires terms.denominator > 0
      ensures due == IsDue(terms, View(), now)
    {
      if refetchPending || state.held.None? { return true; }
      var deadline := RefetchDeadline();
      due := deadline.None? || now >= deadline.value;
    }

    method OnHint(hint: Option<ChangeHint>) returns (scheduled: bool)
      modifies this
      ensures View() == HintStep(old(View()), AnnouncesHeld(cal, old(View()), hint))
      ensures scheduled == Schedules(old(View()), AnnouncesHeld(cal, old(View()), hint))
    {
      hintsSeen := hintsSeen + 1;
      if hint.Some? && state.held.Some? && Matches(cal, hint.value, state.held.value) {
        return false;
      }
      if refetchPending {
        hintsCoalesced := hintsCoalesced + 1;
        return false;
      }
      refetchPending := true;
      scheduled := true;
    }

    method Refetch(now: int, reply: Reply) returns (result: Refetched)
      requires Lawful(cal)
      modifies this
      ensures View() == RefetchStep(terms, old(View()), now, ReadReply(cal, reply))
      ensures result == RefetchResult(terms, old(View()), now, ReadReply(cal, reply))
    {
      refetchPending := false;
      fetches := fetches + 1;
      match reply {
        case Failed(exception) =>
          return Concluded(ConvergenceVerdict(Unreachable, terms.participantId, None, Exception(exception), state.held));
        case Served(document, principal) =>
          lastFetchAt := Some(now);
          var binding := BindingOf(terms, principal);
          lastBinding := binding;
          if binding.Some? {
            if EnforceRaises(binding.value) {
              return Concluded(ConvergenceVerdict(
                IdentityUnbound, terms.participantId, binding, Identity(Some(PrincipalNotPermitted)), state.held));
            }
            if !binding.value.binding.Bound? {
              return Concluded(ConvergenceVerdict(
                NonAuthoritative, terms.participantId, binding, Identity(binding.value.reason), state.held));
            }
          }
          var outcome := AdmitDocument(cal, state, document, now, terms.maxSkew);
          if !outcome.Returned? { return Raised; }
          OnlyAcceptanceMoves(state, Read(cal, document), now, terms.maxSkew);
          state := outcome.admission.state;
          if outcome.admission.duplicate {
            return Concluded(ConvergenceVerdict(Unchanged, terms.participantId, binding, NoCause, state.held));
          }
          if outcome.admission.reason.Some? {
            return Concluded(ConvergenceVerdict(
              Refused, terms.participantId, binding, Violation(outcome.admission.reason.value), state.held));
          }
          return Concluded(ConvergenceVerdict(Advanced, terms.participantId, binding, NoCause, state.held));
      }
    }

    /** `poll`; `reply` is what a fetch would be answered with if one is owed. */
    method Poll(now: int, reply: Reply) returns (result: Option<Refetched>)
      requires Lawful(cal) && terms.denominator > 0
      modifies this
      ensures View() == PollStep(terms, old(View()), now, ReadReply(cal, reply))
      ensures result == if IsDue(terms, old(View()), now)
                        then Some(RefetchResult(terms, old(View()), now, ReadReply(cal, reply))) else None
    {
      var due := Due(now);
      if due {
        var done := Refetch(now, reply);
        result := Some(done);
      } else {
        result := None;
      }
    }
  }

  // ---- Runs ----

  datatype Event =
    | Hinted(hint: Option<ChangeHint>)
    | Fetched(at: int, answer: Answer)

  function Step(cal: Calendar, terms: Terms, t: Tracker, e: Event): Tracker {
    match e
    case Hinted(hint) => HintStep(t, AnnouncesHeld(cal, t, hint))
    case Fetched(at, answer) => RefetchStep(terms, t, at, answer)
  }

  function RunEvents(cal: Calendar, terms: Terms, t: Tracker, es: seq<Event>): Tracker {
    if es == [] then t else Step(cal, terms, RunEvents(cal, terms, t, es[..|es| - 1]), es[|es| - 1])
  }

  /** The results of the refetches, in order. */
  function Results(cal: Calendar, terms: Terms, t: Tracker, es: seq<Event>): seq<Refetched> {
    if es == [] then []
    else
      var before := Results(cal, terms, t, es[..|es| - 1]);
      match es[|es| - 1]
      case Hinted(_) => before
      case Fetched(at, answer) =>
        before + [RefetchResult(terms, RunEvents(cal, terms, t, es[..|es| - 1]), at, answer)]
  }

  function WithoutHints(es: seq<Event>): seq<Event> {
    if es == [] then []
    else if es[|es| - 1].Hinted? then WithoutHints(es[..|es| - 1])
    else WithoutHints(es[..|es| - 1]) + [es[|es| - 1]]
  }

  /** Everything but what hints are meant to touch. */
  predicate SameButForHints(a: Tracker, b: Tracker) {
    && a.state == b.state && a.lastFetchAt == b.lastFetchAt && a.lastBinding == b.lastBinding
    && a.fetches == b.fetches
  }

  /** One refetch cannot tell two trackers apart that only hints told apart. */
  lemma RefetchIsBlindToHints(terms: Terms, a: Tracker, b: Tracker, at: int, answer: Answer)
    requires SameButForHints(a, b)
    ensures SameButForHints(RefetchStep(terms, a, at, answer), RefetchStep(terms, b, at, answer))
    ensures RefetchResult(terms, a, at, answer) == RefetchResult(terms, b, at, answer)
  {
  }

  lemma QuietStep(cal: Calendar, terms: Terms, t: Tracker, quiet: seq<Event>, e: Event)
    requires e.Fetched?
    ensures RunEvents(cal, terms, t, quiet + [e]) == RefetchStep(terms, RunEvents(cal, terms, t, quiet), e.at, e.answer)
    ensures Results(cal, terms, t, quiet + [e]) ==
      Results(cal, terms, t, quiet) + [RefetchResult(terms, RunEvents(cal, terms, t, quiet), e.at, e.answer)]
  {
    assert (quiet + [e])[..|quiet|] == quiet;
  }

  /** Erasing every hint from any interleaving of hints and refetches changes no
      verdict, no state and no fetch time. */
  lemma {:induction false} HintsDoNotInterfere(cal: Calendar, terms: Terms, t: Tracker, es: seq<Event>)
    ensures SameButForHints(RunEvents(cal, terms, t, es), RunEvents(cal, terms, t, WithoutHints(es)))
    ensures Results(cal, terms, t, es) == Results(cal, terms, t, WithoutHints(es))
  {
    if es != [] {
      var init, e := es[..|es| - 1], es[|es| - 1];
      HintsDoNotInterfere(cal, terms, t, init);
      if e.Fetched? {
        var loud, quiet := RunEvents(cal, terms, t, init), RunEvents(cal, terms, t, WithoutHints(init));
        assert es == init + [e];
        QuietStep(cal, terms, t, init, e);
        QuietStep(cal, terms, t, WithoutHints(init), e);
        RefetchIsBlindToHints(terms, loud, quiet, e.at, e.answer);
      }
    }
  }

  /** Nor does it move the deadline. */
  lemma HintsDoNotMoveDeadlines(cal: Calendar, terms: Terms, t: Tracker, es: seq<Event>)
    requires terms.denominator > 0
    ensures Deadline(terms, RunEvents(cal, terms, t, es)) == Deadline(terms, RunEvents(cal, terms, t, WithoutHints(es)))
  {
    HintsDoNotInterfere(cal, terms, t, es);
  }

  /** How many hints of a run scheduled a refetch, and how many announced the
      held revision. */
  function Scheduled(cal: Calendar, terms: Terms, t: Tracker, es: seq<Event>): nat {
    if es == [] then 0
    else
      var e, before := es[|es| - 1], RunEvents(cal, terms, t, es[..|es| - 1]);
      Scheduled(cal, terms, t, es[..|es| - 1]) +
      if e.Hinted? && Schedules(before, AnnouncesHeld(cal, before, e.hint)) then 1 else 0
  }

  /** How many announced what was held when they came. */
  function Known(cal: Calendar, terms: Terms, t: Tracker, es: seq<Event>): nat {
    if es == [] then 0
    else
      var e, before := es[|es| - 1], RunEvents(cal, terms, t, es[..|es| - 1]);
      Known(cal, terms, t, es[..|es| - 1]) + if e.Hinted? && AnnouncesHeld(cal, before, e.hint) then 1 else 0
  }

  function Fetches(es: seq<Event>): nat {
    if es == [] then 0 else Fetches(es[..|es| - 1]) + if es[|es| - 1].Fetched? then 1 else 0
  }

  /** Every hint is accounted for exactly once, and no more refetches can be
      scheduled by hints than are performed, plus the one still pending. */
  lemma {:induction false} HintsAreAccountedFor(cal: Calendar, terms: Terms, es: seq<Event>)
    ensures var end := RunEvents(cal, terms, Untouched(terms), es);
      && end.hintsSeen == Scheduled(cal, terms, Untouched(terms), es) + end.hintsCoalesced + Known(cal, terms, Untouched(terms), es)
      && end.fetches == Fetches(es)
      && Scheduled(cal, terms, Untouched(terms), es) <= end.fetches + (if end.pending then 1 else 0)
  {
    if es != [] { HintsAreAccountedFor(cal, terms, es[..|es| - 1]); }
  }

  /** A hint that is news to a consumer that holds what `t` holds. */
  ghost predicate BringsNews(cal: Calendar, t: Tracker, es: seq<Event>) {
    exists e :: e in es && e.Hinted? && !AnnouncesHeld(cal, t, e.hint)
  }

  /** Between two refetches, however many hints come, exactly one schedules if any
      of them is news and none is pending already. */
  lemma {:induction false} OneHintSchedules(cal: Calendar, terms: Terms, t: Tracker, es: seq<Event>)
    requires forall e | e in es :: e.Hinted?
    ensures RunEvents(cal, terms, t, es).state == t.state
    ensures RunEvents(cal, terms, t, es).pending <==> t.pending || BringsNews(cal, t, es)
    ensures Scheduled(cal, terms, t, es) == if !t.pending && BringsNews(cal, t, es) then 1 else 0
  {
    if es != [] {
      var init, e := es[..|es| - 1], es[|es| - 1];
      assert es == init + [e] && e in es;
      OneHintSchedules(cal, terms, t, init);
      assert AnnouncesHeld(cal, RunEvents(cal, terms, t, init), e.hint) <==> AnnouncesHeld(cal, t, e.hint);
      assert BringsNews(cal, t, es) <==> BringsNews(cal, t, init) || !AnnouncesHeld(cal, t, e.hint);
    }
  }

  lemma {:induction false} RunsAppend(cal: Calendar, terms: Terms, t: Tracker, es: seq<Event>, more: seq<Event>)
    ensures RunEvents(cal, terms, t, es + more) == RunEvents(cal, terms, RunEvents(cal, terms, t, es), more)
  {
    if more == [] {
      assert es + more == es;
    } else {
      var n := |more| - 1;
      RunsAppend(cal, terms, t, es, more[..n]);
      assert (es + more)[..|es + more| - 1] == es + more[..n];
    }
  }

  /** Every refetch, answered or not, spends the hint: after any run that ends in a
      refetch and then only hints, a refetch is pending exactly when one of those
      hints was news. */
  lemma RefetchSpendsHints(cal: Calendar, terms: Terms, t: Tracker, es: seq<Event>, last: Event, news: seq<Event>)
    requires last.Fetched? && forall e | e in news :: e.Hinted?
    ensures var before := RunEvents(cal, terms, t, es + [last]);
      && !before.pending
      && (RunEvents(cal, terms, t, es + [last] + news).pending <==> BringsNews(cal, before, news))
  {
    QuietStep(cal, terms, t, es, last);
    RunsAppend(cal, terms, t, es + [last], news);
    OneHintSchedules(cal, terms, RunEvents(cal, terms, t, es + [last]), news);
  }

  /** The hints of a run, however they were taken. */
  function HintsIn(es: seq<Event>): nat {
    if es == [] then 0 else HintsIn(es[..|es| - 1]) + if es[|es| - 1].Hinted? then 1 else 0
  }

  /** Every hint is seen, and a refetch sees none. */
  lemma {:induction false} EveryHintIsSeen(cal: Calendar, terms: Terms, t: Tracker, es: seq<Event>)
    ensures RunEvents(cal, terms, t, es).hintsSeen == t.hintsSeen + HintsIn(es)
  {
    if es != [] { EveryHintIsSeen(cal, terms, t, es[..|es| - 1]); }
  }

  /** The last fetch of a run that was answered, if any was. */
  function LastAnswered(es: seq<Event>): (e: Option<Event>)
    ensures e.Some? ==> e.value in es && e.value.Fetched? && e.value.answer.Answered?
  {
    if es == [] then None
    else if es[|es| - 1].Fetched? && es[|es| - 1].answer.Answered? then Some(es[|es| - 1])
    else LastAnswered(es[..|es| - 1])
  }

  /** What a consumer remembers of one answered fetch, whether or not its answer was
      believed: when, and what its own principal was worth. */
  predicate RemembersAnswer(terms: Terms, t: Tracker, e: Event) {
    && e.Fetched? && e.answer.Answered? && t.lastFetchAt == Some(e.at)
    && match terms.policy
       case None => t.lastBinding == None
       case Some(policy) => t.lastBinding == Some(Evaluate(policy, e.answer.principal, terms.participantId))
  }

  lemma OneStepRemembered(cal: Calendar, terms: Terms, t: Tracker, e: Event)
    ensures var next := Step(cal, terms, t, e);
      if e.Fetched? && e.answer.Answered? then RemembersAnswer(terms, next, e)
      else next.lastFetchAt == t.lastFetchAt && next.lastBinding == t.lastBinding
  {
  }

  /** After any run that is the last fetch that was answered, and nothing if none was. */
  lemma {:induction false} LastAnswerIsRemembered(cal: Calendar, terms: Terms, es: seq<Event>)
    ensures var t := RunEvents(cal, terms, Untouched(terms), es);
      match LastAnswered(es)
      case None => t.lastFetchAt == None && t.lastBinding == None
      case Some(e) => RemembersAnswer(terms, t, e)
  {
    if es != [] {
      var init, e := es[..|es| - 1], es[|es| - 1];
      LastAnswerIsRemembered(cal, terms, init);
      OneStepRemembered(cal, terms, RunEvents(cal, terms, Untouched(terms), init), e);
    }
  }

  // ---- Identity ----

  /** One refetch. The state moves exactly on ADVANCED, and ADVANCED is exactly an
      authoritative answer whose reading admission accepts. */
  lemma MovesOnlyWhenAdvanced(terms: Terms, t: Tracker, now: int, answer: Answer)
    ensures var result := RefetchResult(terms, t, now, answer);
      var advanced := result.Concluded? && result.verdict.convergence.Advanced?;
      && (advanced <==> RefetchStep(terms, t, now, answer).state != t.state)
      && (advanced <==> answer.Answered? && Authoritative(terms, answer.principal)
                        && Decide(t.state, answer.reading, now, terms.maxSkew).Accepted())
      && (result.Concluded? ==> result.verdict.held == RefetchStep(terms, t, now, answer).state.held)
  {
    if answer.Answered? {
      OnlyAcceptanceMoves(t.state, answer.reading, now, terms.maxSkew);
    }
  }

  predicate Ends(result: Refetched, convergence: Convergence) {
    result.Concluded? && result.verdict.convergence == convergence
  }

  /** What each of the six verdicts says about the answer, the principal and the
      held lease; anything else raises. */
  lemma VerdictsMean(terms: Terms, t: Tracker, now: int, answer: Answer)
    ensures var result := RefetchResult(terms, t, now, answer);
      var judged := if answer.Answered? then Decide(t.state, answer.reading, now, terms.maxSkew) else ValueError;
      var anonymous := answer.Answered? && (answer.principal.None? || IsEmpty(answer.principal.value));
      && (Ends(result, Unreachable) <==> answer.Unanswered?)
      && (Ends(result, NonAuthoritative) <==> terms.policy.Some? && anonymous)
      && (Ends(result, IdentityUnbound) <==>
            && answer.Answered? && terms.policy.Some? && !anonymous
            && terms.policy.value(answer.principal.value, terms.participantId) != Some(true))
      && (Ends(result, Unchanged) <==>
            && answer.Answered? && Authoritative(terms, answer.principal) && answer.reading.Candidate?
            && answer.reading.heartbeat.nodeId == Str(t.state.participantId)
            && Redelivery(t.state, answer.reading.heartbeat))
      && (Ends(result, Refused) <==>
            && answer.Answered? && Authoritative(terms, answer.principal)
            && judged.Returned? && judged.admission.reason.Some?)
      && (Ends(result, Refused) ==> result.verdict.cause == Violation(judged.admission.reason.value))
  {
  }

  /** An outage: any number of fetches that fail change neither what is held nor
      when the next fetch is due, so a consumer that was due stays due; only a
      pending hint is spent. */
  lemma {:induction false} OutagesChangeNothing(cal: Calendar, terms: Terms, t: Tracker, es: seq<Event>)
    requires forall e | e in es :: e.Fetched? && e.answer.Unanswered?
    ensures var end := RunEvents(cal, terms, t, es);
      end == t.(pending := t.pending && es == [], fetches := t.fetches + |es|)
  {
    if es != [] {
      var init := es[..|es| - 1];
      assert es[|es| - 1] in es && forall e | e in init :: e in es;
      OutagesChangeNothing(cal, terms, t, init);
    }
  }

  /** What every verdict carries besides its name: the participant, the worth of the
      principal that came with this very answer, and a cause of its own kind. */
  lemma VerdictsCarry(terms: Terms, t: Tracker, now: int, answer: Answer)
    requires RefetchResult(terms, t, now, answer).Concluded?
    ensures var v := RefetchResult(terms, t, now, answer).verdict;
      && v.participantId == terms.participantId
      && (v.binding.Some? <==> answer.Answered? && terms.policy.Some?)
      && (v.binding.Some? ==> v.binding.value == Evaluate(terms.policy.value, answer.principal, terms.participantId))
      && match v.convergence
         case Unreachable => v.cause == Exception(answer.exception) && v.held == t.state.held
         case NonAuthoritative => v.cause == Identity(Some(NoPrincipalEvidence)) && v.held == t.state.held
         case IdentityUnbound => v.cause == Identity(Some(PrincipalNotPermitted)) && v.held == t.state.held
         case Unchanged => v.cause == NoCause && v.held == t.state.held
         case Refused => v.cause.Violation? && v.held == t.state.held
         case Advanced => v.cause == NoCause && v.held == Some(answer.reading.heartbeat)
  {
    VerdictsMean(terms, t, now, answer);
    MovesOnlyWhenAdvanced(terms, t, now, answer);
  }

  /** Without a binder every answer is authoritative. With one, authoritative means
      that this very response came with a non-empty principal the policy permits for
      this participant. */
  lemma AuthorityIsPermission(terms: Terms, principal: Option<Principal>)
    ensures Authoritative(terms, principal) <==>
      || terms.policy.None?
      || (principal.Some? && !IsEmpty(principal.value) &&
          terms.policy.value(principal.value, terms.participantId) == Some(true))
  {
  }

  /** What one event lets through to admission. */
  function GatedOne(terms: Terms, e: Event): seq<Delivery> {
    if e.Fetched? && e.answer.Answered? && Authoritative(terms, e.answer.principal)
    then [Delivery(e.answer.reading, e.at)] else []
  }

  /** The deliveries of a run that reached admission. */
  function Gated(terms: Terms, es: seq<Event>): seq<Delivery> {
    if es == [] then [] else Gated(terms, es[..|es| - 1]) + GatedOne(terms, es[|es| - 1])
  }

  lemma FoldStep(cal: Calendar, terms: Terms, t: Tracker, ds: seq<Delivery>, e: Event)
    requires t.state == Run(RulesOf(terms), ds)
    ensures Step(cal, terms, t, e).state == Run(RulesOf(terms), ds + GatedOne(terms, e))
  {
    if GatedOne(terms, e) == [] {
      assert ds + GatedOne(terms, e) == ds;
    } else {
      RunSnoc(RulesOf(terms), ds, GatedOne(terms, e)[0]);
    }
  }

  /** A consumer's lineage state is the fold of admission over the authoritative
      answers, so every theorem about folds is one about consumers. */
  lemma {:induction false} ConsumerIsFold(cal: Calendar, terms: Terms, es: seq<Event>)
    ensures RunEvents(cal, terms, Untouched(terms), es).state == Run(RulesOf(terms), Gated(terms, es))
  {
    if es != [] {
      var init := es[..|es| - 1];
      ConsumerIsFold(cal, terms, init);
      FoldStep(cal, terms, RunEvents(cal, terms, Untouched(terms), init), Gated(terms, init), es[|es| - 1]);
    }
  }

  /** A refetch raises exactly when it is authoritative and its document is one
      that makes `admit` raise. */
  lemma RefetchRaisesExactly(cal: Calendar, terms: Terms, t: Tracker, now: int, reply: Reply)
    requires Lawful(cal) && Sound(t.state)
    ensures RefetchResult(terms, t, now, ReadReply(cal, reply)).Raised? <==>
      reply.Served? && Authoritative(terms, reply.principal) && Raises(cal, t.state, reply.document)
  {
    if reply.Served? {
      AdmitDecides(cal, t.state, reply.document, now, terms.maxSkew);
      AdmitRaisesExactly(cal, t.state, reply.document, now, terms.maxSkew);
    }
  }

  /** Every answer of the run was read from a document. */
  ghost predicate Documented(cal: Calendar, es: seq<Event>) {
    forall e | e in es && e.Fetched? :: exists reply :: e.answer == ReadReply(cal, reply)
  }

  lemma {:induction false} GatedIsCounted(cal: Calendar, terms: Terms, es: seq<Event>)
    requires Documented(cal, es)
    ensures Counted(Gated(terms, es))
  {
    if es != [] {
      var init, e := es[..|es| - 1], es[|es| - 1];
      assert e in es && forall f | f in init :: f in es;
      GatedIsCounted(cal, terms, init);
      if e.Fetched? && e.answer.Answered? && e.answer.reading.Candidate? {
        var reply :| e.answer == ReadReply(cal, reply);
        ReadShape(cal, reply.document);
      }
    }
  }

  /** After any run of hints and replies, the next refetch raises exactly when it is
      authoritative and its document is one that makes `admit` raise. */
  lemma RunRefetchRaisesExactly(cal: Calendar, terms: Terms, es: seq<Event>, now: int, reply: Reply)
    requires Lawful(cal) && Documented(cal, es)
    ensures var t := RunEvents(cal, terms, Untouched(terms), es);
      RefetchResult(terms, t, now, ReadReply(cal, reply)).Raised? <==>
        reply.Served? && Authoritative(terms, reply.principal) && Raises(cal, t.state, reply.document)
  {
    ConsumerIsFold(cal, terms, es);
    GatedIsCounted(cal, terms, es);
    FoldsStaySound(RulesOf(terms), Gated(terms, es));
    RefetchRaisesExactly(cal, terms, RunEvents(cal, terms, Untouched(terms), es), now, reply);
  }
}
