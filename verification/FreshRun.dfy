/** One run that meets everything continuous freshness asks for, so that it is not
    asked in vain: the program's own defaults, a restart, and a deadline met. */
module FreshRun {
  import opened Wire
  import opened Model
  import opened Lineage
  import opened History
  import opened Consumer
  import opened Freshness

  const TERMS := Terms("svc", 5 * SECOND, None, 1, 2, DEFAULT_MAX_INTERVAL)
  const TIMING := Timing(30 * SECOND, 4 * SECOND, SECOND)
  const RESTART := 15 * SECOND

  function Mint(epoch: string, at: int): Heartbeat {
    Heartbeat(Str("svc"), Str(epoch), Int(0), at, at + 30 * SECOND, map[])
  }

  const OLD := Mint("a", 0)
  const NEW := Mint("b", RESTART)

  /** A lease, a poll, a restart fifteen seconds on, and a poll then. */
  const RUN := [Moment(0, Mints(OLD)), Moment(0, Polls(None)), Moment(RESTART, Mints(NEW)), Moment(RESTART, Polls(None))]

  function HoldingOld(): Tracker {
    Tracker(LineageState("svc", Some(OLD), {OLD.bootId}), false, Some(0), None, 0, 0, 1)
  }

  function HoldingNew(): Tracker {
    Tracker(LineageState("svc", Some(NEW), {OLD.bootId} + {NEW.bootId}), false, Some(RESTART), None, 0, 0, 2)
  }

  lemma EpochsDiffer()
    ensures OLD.bootId != NEW.bootId && Truncate(OLD) == OLD && Truncate(NEW) == NEW
  {
    assert "a"[0] != "b"[0];
  }

  lemma FirstPoll()
    ensures PollStep(TERMS, Untouched(TERMS), 0, Newest([OLD], None)) == HoldingOld()
  {
    EpochsDiffer();
    assert {} + {OLD.bootId} == {OLD.bootId};
  }

  lemma SecondPollIsDue()
    ensures Deadline(TERMS, HoldingOld()) == Some(RESTART) && IsDue(TERMS, HoldingOld(), RESTART)
  {
  }

  lemma SecondPoll()
    ensures PollStep(TERMS, HoldingOld(), RESTART, Newest([OLD, NEW], None)) == HoldingNew()
  {
    EpochsDiffer();
    SecondPollIsDue();
  }

  /** The world after each prefix. */
  lemma Unfolds()
    ensures RUN[..4] == RUN
    ensures After(TERMS, RUN[..0]) == World([], Untouched(TERMS), -1)
    ensures After(TERMS, RUN[..1]) == World([OLD], Untouched(TERMS), -1)
    ensures After(TERMS, RUN[..2]) == World([OLD], HoldingOld(), 0)
    ensures After(TERMS, RUN[..3]) == World([OLD, NEW], HoldingOld(), 0)
    ensures After(TERMS, RUN[..4]) == World([OLD, NEW], HoldingNew(), 1)
  {
    AfterGrows(TERMS, RUN, 0);
    AfterGrows(TERMS, RUN, 1);
    AfterGrows(TERMS, RUN, 2);
    AfterGrows(TERMS, RUN, 3);
    FirstPoll();
    SecondPollIsDue();
    SecondPoll();
    assert [OLD] + [NEW] == [OLD, NEW] && [] + [OLD] == [OLD];
  }

  lemma IsWorkable()
    ensures Workable(TERMS, TIMING) && Sorted(RUN)
  {
  }

  lemma IsPublished()
    ensures Publishes(TERMS, TIMING, RUN)
  {
    Unfolds();
    EpochsDiffer();
    assert After(TERMS, RUN).minted == [OLD, NEW];
  }

  lemma IsSupplied()
    ensures Supplied(TERMS, TIMING, RUN)
  {
    Unfolds();
  }

  /** It is observed until a second past the deadline that the second poll meets. */
  lemma IsPrompt()
    ensures Prompt(TERMS, TIMING, RUN, RESTART + 5 * SECOND)
  {
    Unfolds();
    SecondPollIsDue();
    assert Answers(TERMS, RUN, 3, RESTART, RESTART + SECOND);
    assert AnsweredAfter(TERMS, RUN, 1, RESTART, RESTART + SECOND);
    assert Deadline(TERMS, HoldingNew()) == Some(2 * RESTART);
  }

  /** So on it the theorem says what it says: the lease is fresh throughout. */
  lemma FreshThroughout(n: nat, t: int)
    requires 2 <= n <= 4 && FallsAfter(RUN, n, t) && t <= RESTART + 5 * SECOND
    ensures HoldsFresh(After(TERMS, RUN[..n]).tracker, t)
  {
    IsWorkable();
    IsPublished();
    IsSupplied();
    IsPrompt();
    assert RUN[1].what.Polls?;
    AlwaysFresh(TERMS, TIMING, RUN, RESTART + 5 * SECOND, n, t);
  }
}
