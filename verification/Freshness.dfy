/** Two results about time: the loop keeps the lease fresh against a publisher
    that keeps minting, and it asks seldom against one that has stopped. */
module Freshness {
  import opened Wire
  import opened Validation
  import opened Model
  import opened Lineage
  import opened History
  import opened Identity
  import opened Issuer
  import opened Consumer

  // ---- Continuous freshness ----

  /** Something happening at one instant of the shared timeline: the publisher
      mints, a hint reaches the consumer, or the consumer's host polls. Whether a
      hint announces what is held is left open, so every hint is covered. */
  datatype What = Mints(h: Heartbeat) | Hints(known: bool) | Polls(principal: Option<Principal>)

  datatype Moment = Moment(at: int, what: What)

  /** Everything minted so far, the consumer, and which mint it was last served. */
  datatype World = World(minted: seq<Heartbeat>, tracker: Tracker, served: int)

  /** A poll is served the newest mint, as it reads after the wire (`ReadWire`). */
  function Newest(minted: seq<Heartbeat>, principal: Option<Principal>): Answer {
    if minted == [] then Unanswered("nothing published yet")
    else Answered(Candidate(Truncate(minted[|minted| - 1])), principal)
  }

  /** That is what the rendered document reads as, for any lease of one
      millisecond to one hour and identifiers that fit their patterns. */
  lemma NewestIsServed(cal: Calendar, minted: seq<Heartbeat>, principal: Option<Principal>)
    requires Lawful(cal) && minted != [] && Presentable(minted[|minted| - 1])
    requires MILLISECOND <= minted[|minted| - 1].expiresAt - minted[|minted| - 1].issuedAt <= MAX_LEASE
    ensures ReadReply(cal, Served(ToDict(cal, minted[|minted| - 1]), principal)) == Newest(minted, principal)
  {
    var h := minted[|minted| - 1];
    ValidLeases(h.expiresAt - h.issuedAt);
    assert LeavesWindow(h.issuedAt, h.expiresAt - h.issuedAt);
    ReadWire(cal, h);
  }

  function Advance(terms: Terms, w: World, m: Moment): World
    requires terms.denominator > 0
  {
    match m.what
    case Mints(h) => w.(minted := w.minted + [h])
    case Hints(known) => w.(tracker := HintStep(w.tracker, known))
    case Polls(principal) =>
      World(w.minted, PollStep(terms, w.tracker, m.at, Newest(w.minted, principal)),
            if IsDue(terms, w.tracker, m.at) then |w.minted| - 1 else w.served)
  }

  function After(terms: Terms, ms: seq<Moment>): World
    requires terms.denominator > 0
  {
    if ms == [] then World([], Untouched(terms), -1)
    else Advance(terms, After(terms, ms[..|ms| - 1]), ms[|ms| - 1])
  }

  /** The figures of a deployment, in microseconds: how long a lease lasts, how
      far apart mints may lie, and how late a poll may come. */
  datatype Timing = Timing(lease: int, gap: int, delay: int)

  /** A window of which the refetch fraction, or the refetch interval if that is
      sooner, leaves at least `delay`. For the default fraction of a half the window
      must be two delays. */
  predicate Outlasts(terms: Terms, window: int, delay: int) {
    && window > 0
    && (|| (&& terms.numerator < terms.denominator
            && window * (terms.denominator - terms.numerator) >= terms.denominator * delay)
        || window >= terms.maxInterval + delay)
  }

  /** `gap` and the sub-millisecond slack of the wire fit in the skew bound, and
      what is left of a lease after them outlasts the poll delay. */
  predicate Workable(terms: Terms, c: Timing) {
    && c.gap >= 0 && c.delay >= 0
    && c.gap + (MILLISECOND - 1) <= terms.maxSkew
    && Outlasts(terms, c.lease - c.gap - (MILLISECOND - 1), c.delay)
  }

  lemma RoundedUpByHalf(n: int, d: int)
    requires d > 0
    ensures 2 * (d * RoundHalfEven(n, d)) <= 2 * n + d
  {
    var q := n / d;
    assert d * (q + 1) == d * q + d;
  }

  lemma SignOfProduct(d: int, y: int)
    requires d > 0
    ensures d * y >= 0 <==> y >= 0
  {
    if y < 0 { assert d * -y > 0 && d * y == -(d * -y); }
  }

  /** The interval is at most the cap, and at most the fraction, rounded. */
  lemma IntervalIsLeast(terms: Terms, window: int)
    requires terms.denominator > 0 && window > 0
    ensures Interval(terms, window) <= terms.maxInterval
    ensures 2 * (terms.denominator * Interval(terms, window)) <= 2 * (window * terms.numerator) + terms.denominator
  {
    var d, m, scaled := terms.denominator, terms.maxInterval, window * terms.numerator;
    RoundedUpByHalf(scaled, d);
    if scaled < m * d {
      var i := RoundHalfEven(scaled, d);
      assert d * (2 * (m - i) + 1) == 2 * (m * d) - 2 * (d * i) + d;
      SignOfProduct(d, 2 * (m - i) + 1);
    } else {
      assert m * d == d * m;
    }
  }

  lemma Margin(window: int, p: int, q: int, delay: int, i: int)
    requires q > 0 && window * (q - p) >= q * delay && 2 * (q * i) <= 2 * (window * p) + q
    ensures window - i >= delay
  {
    assert window * (q - p) == window * q - window * p;
    assert q * (2 * (window - delay - i) + 1) == 2 * (window * q) - 2 * (q * delay) - 2 * (q * i) + q;
    SignOfProduct(q, 2 * (window - delay - i) + 1);
  }

  /** Whatever the fraction, such a window has `delay` left at the deadline. */
  lemma DeadlineLeaves(terms: Terms, window: int, delay: int)
    requires terms.denominator > 0 && Outlasts(terms, window, delay)
    ensures window - Interval(terms, window) >= delay
  {
    IntervalIsLeast(terms, window);
    if window < terms.maxInterval + delay {
      Margin(window, terms.numerator, terms.denominator, delay, Interval(terms, window));
    }
  }

  lemma OutlastsMore(terms: Terms, window: int, more: int, delay: int)
    requires Outlasts(terms, window, delay) && window <= more
    ensures Outlasts(terms, more, delay)
  {
    var d := terms.denominator - terms.numerator;
    if d > 0 {
      assert more * d == window * d + d * (more - window);
      SignOfProduct(d, more - window);
    }
  }

  ghost predicate Sorted(ms: seq<Moment>) {
    forall i, j | 0 <= i <= j < |ms| :: ms[i].at <= ms[j].at
  }

  /** What the publisher does: every mint is a lease for this participant issued
      at its own instant, and the mints form a legal history, so that a restart
      always comes under an epoch never used before. */
  ghost predicate Publishes(terms: Terms, c: Timing, ms: seq<Moment>)
    requires terms.denominator > 0
  {
    && LegalHistory(After(terms, ms).minted)
    && forall i | 0 <= i < |ms| && ms[i].what.Mints? :: MintedAt(terms, c, ms[i].what.h, ms[i].at)
  }

  predicate MintedAt(terms: Terms, c: Timing, h: Heartbeat, at: int) {
    h.nodeId == Str(terms.participantId) && h.issuedAt == at && h.expiresAt == at + c.lease
  }

  /** Every poll that leads to a fetch finds a mint that is at most `gap` old, and is
      authorised. */
  ghost predicate Supplied(terms: Terms, c: Timing, ms: seq<Moment>)
    requires terms.denominator > 0
  {
    forall i | 0 <= i < |ms| && ms[i].what.Polls? && IsDue(terms, After(terms, ms[..i]).tracker, ms[i].at) ::
      && Authoritative(terms, ms[i].what.principal)
      && var minted := After(terms, ms[..i]).minted;
         minted != [] && minted[|minted| - 1].issuedAt >= ms[i].at - c.gap
  }

  /** Moment number `i` is a poll that leads to a fetch. */
  predicate Fetches(terms: Terms, ms: seq<Moment>, i: nat)
    requires terms.denominator > 0 && i < |ms|
  {
    ms[i].what.Polls? && IsDue(terms, After(terms, ms[..i]).tracker, ms[i].at)
  }

  /** What the host does, hints or no hints: after every fetch it polls again, within
      `delay` of the deadline that fetch set, at or after that deadline, or before it
      because a hint is pending. Nothing is asked of the polls' outcome. */
  ghost predicate Prompt(terms: Terms, c: Timing, ms: seq<Moment>, end: int)
    requires terms.denominator > 0
  {
    forall i | 0 <= i < |ms| && Fetches(terms, ms, i) && Deadline(terms, After(terms, ms[..i + 1]).tracker).Some? ::
      var deadline := Deadline(terms, After(terms, ms[..i + 1]).tracker).value;
      end >= deadline + c.delay ==> AnsweredAfter(terms, ms, i, deadline, deadline + c.delay)
  }

  /** Poll number `j` comes in time, at the deadline or for a hint. */
  predicate Answers(terms: Terms, ms: seq<Moment>, j: nat, deadline: int, latest: int)
    requires terms.denominator > 0 && j < |ms|
  {
    && ms[j].what.Polls? && ms[j].at <= latest
    && (ms[j].at >= deadline || After(terms, ms[..j]).tracker.pending)
  }

  ghost predicate AnsweredAfter(terms: Terms, ms: seq<Moment>, i: nat, deadline: int, latest: int)
    requires terms.denominator > 0
  {
    exists j :: i < j < |ms| && Answers(terms, ms, j, deadline, latest)
  }

  /** Nothing held before the first poll; after it, the newest mint seen then. */
  ghost predicate Holds(terms: Terms, w: World) {
    var t := w.tracker;
    && t.state.participantId == terms.participantId
    && -1 <= w.served < |w.minted|
    && (w.served == -1 ==> t.state == Empty(terms.participantId))
    && (w.served >= 0 ==>
          && t.state.held == Some(Truncate(w.minted[w.served]))
          && t.state.retired <= Epochs(w.minted[..w.served + 1])
          && t.lastFetchAt.Some?)
  }

  /** What every prefix of such a run keeps: that, with a window that outlasts the
      delay. */
  ghost predicate Kept(terms: Terms, c: Timing, w: World) {
    && Holds(terms, w)
    && (w.served >= 0 ==>
          Outlasts(terms, w.tracker.state.held.value.expiresAt - w.tracker.lastFetchAt.value, c.delay))
  }

  lemma AfterGrows(terms: Terms, ms: seq<Moment>, i: nat)
    requires terms.denominator > 0 && i < |ms|
    ensures After(terms, ms[..i + 1]) == Advance(terms, After(terms, ms[..i]), ms[i])
  {
    assert ms[..i + 1][..i] == ms[..i];
  }

  /** A later mint of a legal history is never refused: it is a higher revision of
      the held epoch, or belongs to an epoch that was never served. */
  lemma NewerMintAccepted(terms: Terms, minted: seq<Heartbeat>, k: int, j: nat, state: LineageState, now: int)
    requires LegalHistory(minted) && -1 <= k < j < |minted|
    requires minted[j].nodeId == Str(state.participantId)
    requires Distance(FloorMs(minted[j].issuedAt), now) <= terms.maxSkew && FloorMs(minted[j].expiresAt) > now
    requires if k == -1 then state == Empty(state.participantId)
             else state.held == Some(Truncate(minted[k])) && state.retired <= Epochs(minted[..k + 1])
    ensures Decide(state, Candidate(Truncate(minted[j])), now, terms.maxSkew) ==
      Returned(Admission(Accept(state, Truncate(minted[j])), None, false))
  {
    if k >= 0 {
      if minted[k].bootId == minted[j].bootId {
        assert InBlock(minted, k, j);
      } else {
        forall i | 0 <= i <= k ensures minted[i].bootId != minted[j].bootId {
          assert minted[i].bootId == minted[j].bootId ==> InBlock(minted, i, j);
        }
        assert minted[j].bootId !in Epochs(minted[..k + 1]);
      }
    }
  }

  /** A mint at most `gap` old is within the skew bound, and has enough left. */
  lemma NewestIsTimely(terms: Terms, c: Timing, h: Heartbeat, now: int)
    requires Workable(terms, c) && MintedAt(terms, c, h, h.issuedAt) && now - c.gap <= h.issuedAt <= now
    ensures Distance(FloorMs(h.issuedAt), now) <= terms.maxSkew && FloorMs(h.expiresAt) > now
    ensures Outlasts(terms, FloorMs(h.expiresAt) - now, c.delay)
  {
    assert FloorMs(h.issuedAt) > h.issuedAt - MILLISECOND && FloorMs(h.expiresAt) > h.expiresAt - MILLISECOND;
    OutlastsMore(terms, c.lease - c.gap - (MILLISECOND - 1), FloorMs(h.expiresAt) - now, c.delay);
  }

  /** Served the newest mint, a consumer that held an earlier one, or that one, or
      nothing, holds it. */
  lemma NewestIsHeld(terms: Terms, minted: seq<Heartbeat>, k: int, state: LineageState, now: int)
    requires LegalHistory(minted) && -1 <= k < |minted| && minted != []
    requires minted[|minted| - 1].nodeId == Str(state.participantId)
    requires Distance(FloorMs(minted[|minted| - 1].issuedAt), now) <= terms.maxSkew
    requires FloorMs(minted[|minted| - 1].expiresAt) > now
    requires if k == -1 then state == Empty(state.participantId)
             else state.held == Some(Truncate(minted[k])) && state.retired <= Epochs(minted[..k + 1])
    ensures var h := minted[|minted| - 1];
      var next := StateAfter(state, Decide(state, Candidate(Truncate(h)), now, terms.maxSkew));
      next.participantId == state.participantId && next.held == Some(Truncate(h)) && next.retired <= Epochs(minted)
  {
    var j := |minted| - 1;
    assert minted[..j + 1] == minted && minted[j] in minted;
    if k < j {
      NewerMintAccepted(terms, minted, k, j, state, now);
      if k >= 0 { assert forall g :: g in minted[..k + 1] ==> g in minted; }
    }
  }

  lemma PollHolds(terms: Terms, w: World, now: int, principal: Option<Principal>)
    requires Holds(terms, w) && LegalHistory(w.minted) && Authoritative(terms, principal) && w.minted != []
    requires w.minted[|w.minted| - 1].nodeId == Str(terms.participantId)
    requires Distance(FloorMs(w.minted[|w.minted| - 1].issuedAt), now) <= terms.maxSkew
    requires FloorMs(w.minted[|w.minted| - 1].expiresAt) > now
    ensures var t := RefetchStep(terms, w.tracker, now, Newest(w.minted, principal));
      && Holds(terms, World(w.minted, t, |w.minted| - 1)) && t.lastFetchAt == Some(now)
  {
    NewestIsHeld(terms, w.minted, w.served, w.tracker.state, now);
    assert w.minted[..|w.minted| - 1 + 1] == w.minted;
  }

  /** One due poll renews the lease. */
  lemma PollRenews(terms: Terms, c: Timing, w: World, now: int, principal: Option<Principal>)
    requires terms.denominator > 0 && Workable(terms, c) && Kept(terms, c, w) && LegalHistory(w.minted)
    requires Authoritative(terms, principal) && w.minted != []
    requires var h := w.minted[|w.minted| - 1];
      MintedAt(terms, c, h, h.issuedAt) && now - c.gap <= h.issuedAt <= now
    ensures var w' := World(w.minted, RefetchStep(terms, w.tracker, now, Newest(w.minted, principal)), |w.minted| - 1);
      Kept(terms, c, w')
  {
    NewestIsTimely(terms, c, w.minted[|w.minted| - 1], now);
    PollHolds(terms, w, now, principal);
  }

  /** The newest mint is no later than `now`. */
  predicate Dated(terms: Terms, c: Timing, w: World, now: int) {
    w.minted != [] ==>
      var h := w.minted[|w.minted| - 1];
      MintedAt(terms, c, h, h.issuedAt) && h.issuedAt <= now
  }

  /** What a moment has to satisfy when it comes. */
  ghost predicate Allowed(terms: Terms, c: Timing, w: World, m: Moment)
    requires terms.denominator > 0
  {
    match m.what
    case Mints(h) => MintedAt(terms, c, h, m.at) && LegalHistory(w.minted + [h])
    case Hints(_) => true
    case Polls(principal) =>
      IsDue(terms, w.tracker, m.at) ==>
        && Authoritative(terms, principal)
        && w.minted != [] && w.minted[|w.minted| - 1].issuedAt >= m.at - c.gap
  }

  lemma MomentKeeps(terms: Terms, c: Timing, w: World, m: Moment)
    requires terms.denominator > 0 && Workable(terms, c) && LegalHistory(w.minted)
    requires Kept(terms, c, w) && Dated(terms, c, w, m.at) && Allowed(terms, c, w, m)
    ensures Kept(terms, c, Advance(terms, w, m)) && Dated(terms, c, Advance(terms, w, m), m.at)
    ensures m.what.Polls? ==> Advance(terms, w, m).served >= 0
  {
    match m.what {
      case Mints(h) =>
        assert w.served >= 0 ==> (w.minted + [h])[..w.served + 1] == w.minted[..w.served + 1];
      case Hints(_) =>
      case Polls(principal) =>
        if IsDue(terms, w.tracker, m.at) {
          PollRenews(terms, c, w, m.at, principal);
        }
    }
  }

  /** The invariant holds after every prefix of the run, and something is held as
      soon as one poll has been made. */
  lemma {:induction false} AlwaysKept(terms: Terms, c: Timing, ms: seq<Moment>, n: nat)
    requires terms.denominator > 0 && Workable(terms, c) && n <= |ms|
    requires Sorted(ms) && Publishes(terms, c, ms) && Supplied(terms, c, ms)
    ensures var w := After(terms, ms[..n]);
      && Kept(terms, c, w) && (n > 0 ==> Dated(terms, c, w, ms[n - 1].at))
      && ((exists i :: 0 <= i < n && ms[i].what.Polls?) ==> w.served >= 0)
  {
    if n > 0 {
      var i := n - 1;
      AlwaysKept(terms, c, ms, i);
      AfterGrows(terms, ms, i);
      EachIsAllowed(terms, c, ms, i);
      var w := After(terms, ms[..i]);
      assert Dated(terms, c, w, ms[i].at) by { assert i > 0 ==> ms[i - 1].at <= ms[i].at; }
      MomentKeeps(terms, c, w, ms[i]);
      ServedStays(terms, w, ms[i]);
    }
  }

  lemma LegalSoFar(terms: Terms, ms: seq<Moment>, n: nat)
    requires terms.denominator > 0 && n <= |ms| && LegalHistory(After(terms, ms).minted)
    ensures LegalHistory(After(terms, ms[..n]).minted)
  {
    MintedPrefix(terms, ms, n);
    var minted, sofar := After(terms, ms).minted, After(terms, ms[..n]).minted;
    assert minted[..|sofar|] == sofar;
    LegalPrefix(minted, |sofar|);
  }

  lemma EachIsAllowed(terms: Terms, c: Timing, ms: seq<Moment>, i: nat)
    requires terms.denominator > 0 && i < |ms| && Publishes(terms, c, ms) && Supplied(terms, c, ms)
    ensures LegalHistory(After(terms, ms[..i]).minted) && Allowed(terms, c, After(terms, ms[..i]), ms[i])
  {
    LegalSoFar(terms, ms, i);
    LegalSoFar(terms, ms, i + 1);
    AfterGrows(terms, ms, i);
  }

  lemma ServedStays(terms: Terms, w: World, m: Moment)
    requires terms.denominator > 0 && w.served < |w.minted|
    ensures w.served >= 0 ==> Advance(terms, w, m).served >= 0
  {
  }

  lemma {:induction false} MintedPrefix(terms: Terms, ms: seq<Moment>, n: nat)
    requires terms.denominator > 0 && n <= |ms|
    ensures After(terms, ms[..n]).minted <= After(terms, ms).minted
    decreases |ms| - n
  {
    if n == |ms| {
      assert ms[..n] == ms;
    } else {
      MintedPrefix(terms, ms, n + 1);
      AfterGrows(terms, ms, n);
    }
  }

  /** The instant `t` lies after exactly the first `n` moments. */
  ghost predicate FallsAfter(ms: seq<Moment>, n: nat, t: int)
    requires n <= |ms|
  {
    (forall i | 0 <= i < n :: ms[i].at <= t) && forall i | n <= i < |ms| :: t < ms[i].at
  }

  /** What only a fetch changes. */
  predicate Remembers(a: Tracker, b: Tracker) {
    a.state == b.state && a.lastFetchAt == b.lastFetchAt
  }

  lemma OnlyFetchesMove(terms: Terms, ms: seq<Moment>, i: nat)
    requires terms.denominator > 0 && i < |ms| && !Fetches(terms, ms, i)
    ensures Remembers(After(terms, ms[..i + 1]).tracker, After(terms, ms[..i]).tracker)
  {
    AfterGrows(terms, ms, i);
  }

  lemma {:induction false} QuietBetween(terms: Terms, ms: seq<Moment>, i: nat, j: nat)
    requires terms.denominator > 0 && i <= j <= |ms| && forall k | i <= k < j :: !Fetches(terms, ms, k)
    ensures Remembers(After(terms, ms[..j]).tracker, After(terms, ms[..i]).tracker)
    decreases j
  {
    if i < j {
      QuietBetween(terms, ms, i, j - 1);
      OnlyFetchesMove(terms, ms, j - 1);
    }
  }

  /** The last fetch among the first `n` moments. */
  lemma {:induction false} LastFetch(terms: Terms, ms: seq<Moment>, n: nat) returns (i: nat)
    requires terms.denominator > 0 && n <= |ms| && After(terms, ms[..n]).tracker.state.held.Some?
    ensures i < n && Fetches(terms, ms, i) && forall k | i < k < n :: !Fetches(terms, ms, k)
    decreases n
  {
    if Fetches(terms, ms, n - 1) {
      i := n - 1;
    } else {
      OnlyFetchesMove(terms, ms, n - 1);
      i := LastFetch(terms, ms, n - 1);
    }
  }

  /** At its deadline, or with a hint pending, a consumer is due; so while none of
      the later moments up to `n` is a fetch, none of them is an answer either. */
  lemma NoAnswerWithoutFetch(terms: Terms, ms: seq<Moment>, i: nat, n: nat, deadline: int, latest: int, t: int)
    requires terms.denominator > 0 && i < n <= |ms| && forall k | i < k < n :: !Fetches(terms, ms, k)
    requires Deadline(terms, After(terms, ms[..i + 1]).tracker) == Some(deadline)
    requires FallsAfter(ms, n, t) && latest <= t
    ensures !AnsweredAfter(terms, ms, i, deadline, latest)
  {
    forall j | i < j < |ms| ensures !Answers(terms, ms, j, deadline, latest) {
      if j < n {
        QuietBetween(terms, ms, i + 1, j);
        assert !Fetches(terms, ms, j);
      }
    }
  }

  /** Until a poll is later than `delay` past the deadline, the lease is fresh. */
  lemma FreshUntilLate(terms: Terms, c: Timing, w: World, t: int)
    requires terms.denominator > 0 && Workable(terms, c) && Kept(terms, c, w) && w.served >= 0
    requires t < Deadline(terms, w.tracker).value + c.delay
    ensures HoldsFresh(w.tracker, t)
  {
    DeadlineLeaves(terms, w.tracker.state.held.value.expiresAt - w.tracker.lastFetchAt.value, c.delay);
  }

  /** After the first poll there is a lease and a deadline, and the lease is fresh as
      long as the next poll is in time. */
  lemma FreshWhileInTime(terms: Terms, c: Timing, ms: seq<Moment>, n: nat)
    requires terms.denominator > 0 && Workable(terms, c) && n <= |ms|
    requires Sorted(ms) && Publishes(terms, c, ms) && Supplied(terms, c, ms)
    requires exists i :: 0 <= i < n && ms[i].what.Polls?
    ensures var t := After(terms, ms[..n]).tracker;
      && t.state.held.Some? && Deadline(terms, t).Some?
      && forall at: int :: at < Deadline(terms, t).value + c.delay ==> HoldsFresh(t, at)
  {
    AlwaysKept(terms, c, ms, n);
    var w := After(terms, ms[..n]);
    forall at: int | at < Deadline(terms, w.tracker).value + c.delay ensures HoldsFresh(w.tracker, at) {
      FreshUntilLate(terms, c, w, at);
    }
  }

  lemma SameDeadline(terms: Terms, a: Tracker, b: Tracker)
    requires terms.denominator > 0 && Remembers(a, b)
    ensures Deadline(terms, a) == Deadline(terms, b)
  {
  }

  /** A prompt host is never `delay` past the deadline. */
  lemma NeverLate(terms: Terms, c: Timing, ms: seq<Moment>, end: int, n: nat, t: int, deadline: int)
    requires terms.denominator > 0 && n <= |ms| && Prompt(terms, c, ms, end)
    requires FallsAfter(ms, n, t) && t <= end
    requires After(terms, ms[..n]).tracker.state.held.Some?
    requires Deadline(terms, After(terms, ms[..n]).tracker) == Some(deadline)
    ensures t < deadline + c.delay
  {
    var i := LastFetch(terms, ms, n);
    QuietBetween(terms, ms, i + 1, n);
    SameDeadline(terms, After(terms, ms[..n]).tracker, After(terms, ms[..i + 1]).tracker);
    if t >= deadline + c.delay {
      NoAnswerWithoutFetch(terms, ms, i, n, deadline, deadline + c.delay, t);
    }
  }

  /** Continuous freshness. Whatever hints arrive, however often the publisher
      restarts, and whatever fraction of a lease the consumer waits, from the first
      poll on the held lease is fresh at every instant of the run. */
  lemma AlwaysFresh(terms: Terms, c: Timing, ms: seq<Moment>, end: int, n: nat, t: int)
    requires terms.denominator > 0 && Workable(terms, c) && n <= |ms|
    requires Sorted(ms) && Publishes(terms, c, ms) && Supplied(terms, c, ms) && Prompt(terms, c, ms, end)
    requires FallsAfter(ms, n, t) && t <= end
    requires exists i :: 0 <= i < n && ms[i].what.Polls?
    ensures HoldsFresh(After(terms, ms[..n]).tracker, t)
    ensures var held := After(terms, ms[..n]).tracker.state.held; held.Some? && t < held.value.expiresAt
  {
    FreshWhileInTime(terms, c, ms, n);
    NeverLate(terms, c, ms, end, n, t, Deadline(terms, After(terms, ms[..n]).tracker).value);
  }

  // ---- The fetch budget ----

  /** Rounding never puts the next fetch further off than half the window, rounded
      up. */
  lemma HalfOrLess(terms: Terms, window: int)
    requires HalfWindow(terms)
    ensures 0 <= Interval(terms, window)
    ensures 2 * Interval(terms, window) <= (if window > 0 then window else 0) + 1
    ensures window >= 0 ==> Interval(terms, window) <= window
  {
  }

  /** How often a window can be halved, rounding up, before it is one microsecond:
      the length of `window - 1` in binary. */
  function Halvings(window: int): nat
    decreases if window > 1 then window else 0
  {
    if window <= 1 then 0 else 1 + Halvings((window + 1) / 2)
  }

  function Power2(n: nat): nat {
    if n == 0 then 1 else 2 * Power2(n - 1)
  }

  /** So it is the binary logarithm, rounded up. */
  lemma {:induction false} HalvingsIsLog(window: int)
    requires window >= 1
    ensures window <= Power2(Halvings(window)) < 2 * window
    decreases window
  {
    if window > 1 {
      HalvingsIsLog((window + 1) / 2);
      assert Power2(Halvings(window)) == 2 * Power2(Halvings((window + 1) / 2));
      LogBelow(window, Halvings((window + 1) / 2));
    }
  }

  /** The power of two that reaches half a number, rounded up, stays below it. */
  lemma LogBelow(window: int, n: nat)
    requires window > 1 && (window + 1) / 2 <= Power2(n) < 2 * ((window + 1) / 2)
    ensures 2 * Power2(n) < 2 * window
  {
    assert n > 0 ==> Power2(n) == 2 * Power2(n - 1);
  }

  lemma {:induction false} HalvingsGrow(a: int, b: int)
    requires a <= b
    ensures Halvings(a) <= Halvings(b)
    decreases if b > 1 then b else 0
  {
    if a > 1 { HalvingsGrow((a + 1) / 2, (b + 1) / 2); }
  }

  /** How many whole steps fit in a window. */
  function Steps(window: int, step: int): nat
    requires step > 0
    decreases if window > 0 then window else 0
  {
    if window < step then 0 else 1 + Steps(window - step, step)
  }

  lemma {:induction false} StepsIsQuotient(window: int, step: int)
    requires step > 0 && window >= 0
    ensures Steps(window, step) * step <= window < (Steps(window, step) + 1) * step
    decreases window
  {
    if window >= step { StepsIsQuotient(window - step, step); }
  }

  lemma {:induction false} StepsGrow(a: int, b: int, step: int)
    requires step > 0 && a <= b
    ensures Steps(a, step) <= Steps(b, step)
    decreases if b > 0 then b else 0
  {
    if a >= step { StepsGrow(a - step, b - step, step); }
  }

  /** The most refetches a window can cost before it is down to one microsecond:
      one for each full refetch interval in it, and one for each halving. */
  function Budget(terms: Terms, window: int): nat
    requires terms.maxInterval > 0
  {
    Steps(window, terms.maxInterval) + Halvings(window)
  }

  function WindowLeft(t: Tracker): int
    requires t.state.held.Some? && t.lastFetchAt.Some?
  {
    t.state.held.value.expiresAt - t.lastFetchAt.value
  }

  /** A refetch at or after the deadline leaves at most half the window, rounded
      up, or takes a whole refetch interval off it; the deadline never lies past
      the expiry. */
  lemma DeadlineShrinks(terms: Terms, t: Tracker, now: int)
    requires HalfWindow(terms) && t.state.held.Some? && t.lastFetchAt.Some?
    requires now >= Deadline(terms, t).value && WindowLeft(t) > 0
    ensures var left := t.state.held.value.expiresAt - now;
      left <= (WindowLeft(t) + 1) / 2 || left <= WindowLeft(t) - terms.maxInterval
    ensures Deadline(terms, t).value <= t.state.held.value.expiresAt
  {
    HalfOrLess(terms, WindowLeft(t));
  }

  lemma BudgetShrinks(terms: Terms, window: int, left: int)
    requires terms.maxInterval > 0 && window > 1
    requires left <= (window + 1) / 2 || left <= window - terms.maxInterval
    ensures Budget(terms, left) + 1 <= Budget(terms, window)
  {
    if left <= (window + 1) / 2 {
      HalvingsGrow(left, (window + 1) / 2);
      StepsGrow(left, window, terms.maxInterval);
    } else {
      HalvingsGrow(left, window);
      StepsGrow(left, window - terms.maxInterval, terms.maxInterval);
    }
  }

  /** Polling at the given instants a source that keeps answering with one reading. */
  function PollAll(terms: Terms, t: Tracker, instants: seq<int>, answer: Answer): Tracker
    requires terms.denominator > 0
    decreases |instants|
  {
    if instants == [] then t
    else PollAll(terms, PollStep(terms, t, instants[0], answer), instants[1..], answer)
  }

  ghost predicate Rising(t: Tracker, instants: seq<int>) {
    && (t.lastFetchAt.Some? ==> forall i | 0 <= i < |instants| :: t.lastFetchAt.value <= instants[i])
    && forall i, j | 0 <= i <= j < |instants| :: instants[i] <= instants[j]
  }

  /** The situation of the budget: a held lease, its own document still being
      served to an authorised request, no hint outstanding. */
  predicate Stalled(terms: Terms, t: Tracker, answer: Answer) {
    && t.state.held.Some? && t.lastFetchAt.Some? && !t.pending
    && answer.Answered? && answer.reading == Candidate(t.state.held.value)
    && Authoritative(terms, answer.principal)
    && t.state.held.value.nodeId == Str(t.state.participantId)
  }

  /** One such poll either does nothing or starts a new window. */
  lemma StalledPoll(terms: Terms, t: Tracker, now: int, answer: Answer)
    requires HalfWindow(terms) && Stalled(terms, t, answer)
    ensures var t' := PollStep(terms, t, now, answer);
      && Stalled(terms, t', answer) && t'.state == t.state
      && (t' == t || (&& t'.fetches == t.fetches + 1 && t'.lastFetchAt == Some(now)
                      && now >= Deadline(terms, t).value))
  {
  }

  /** The fetch budget: as long as more than one microsecond is left of the window,
      the refetches made so far and the budget still left never exceed the budget
      of the window they started from. */
  lemma {:induction false} FetchBudget(terms: Terms, t: Tracker, instants: seq<int>, answer: Answer)
    requires HalfWindow(terms) && terms.maxInterval > 0 && Stalled(terms, t, answer)
    requires Rising(t, instants)
    ensures var end := PollAll(terms, t, instants, answer);
      && end.state == t.state && end.lastFetchAt.Some?
      && WindowLeft(end) <= WindowLeft(t)
      && (WindowLeft(end) > 1 ==>
            (end.fetches - t.fetches) + Budget(terms, WindowLeft(end)) <= Budget(terms, WindowLeft(t)))
    decreases |instants|
  {
    if instants != [] {
      var next := PollStep(terms, t, instants[0], answer);
      StalledPoll(terms, t, instants[0], answer);
      FetchBudget(terms, next, instants[1..], answer);
      if next != t && WindowLeft(t) > 1 {
        DeadlineShrinks(terms, t, instants[0]);
        BudgetShrinks(terms, WindowLeft(t), WindowLeft(next));
      }
    }
  }

  /** The budget ends there: once a microsecond or less is left, half of it rounds
      to nothing and every poll is a refetch. */
  lemma SpentWindowIsAlwaysDue(terms: Terms, t: Tracker, now: int)
    requires HalfWindow(terms) && t.state.held.Some? && t.lastFetchAt.Some? && !t.pending
    ensures WindowLeft(t) <= 1 ==> Deadline(terms, t) == t.lastFetchAt && (IsDue(terms, t, now) <==> now >= t.lastFetchAt.value)
    ensures WindowLeft(t) > 1 && terms.maxInterval > 0 ==> Deadline(terms, t).value > t.lastFetchAt.value
  {
  }
}
