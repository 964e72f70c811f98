# A model of the heartbeat lease protocol

A heartbeat is an ordered liveness lease: a participant, an epoch minted once per
process start, a counter that rises inside the epoch, and a window of time. An
issuer mints leases, an unreliable channel loses, repeats and reorders them, and a
consumer admits or refuses each document it reads. These files model that system
and prove what it keeps over whole runs. `dafny verify dfyconfig.toml` checks them all.

The modules follow the program:

| module | what it models |
|---|---|
| `Wire`, `Model`, `Validation` | instants, JSON values, the document and its validation, digests and change hints |
| `Lineage`, `History`, `Ordering`, `Ignorable` | `admit`, its fold over any delivery list, delivery order and clock arithmetic, optional data |
| `Issuer`, `Consumer`, `Freshness`, `FreshRun` | the issuer object, the consumer object, the two theorems about time, and a run that meets the premises of the first |
| `CleanRoom` | the independent participant and its simulation of the reference |
| `Identity`, `Router` | principals and the two identity binders, the request envelope and the era router |
| `LegacyEra`, `LegacySession`, `LegacyFetch` | legacy negotiation, both session halves, the legacy consumer |
| `Demo`, `Fleet` | publisher and observer in lock step, replicas behind a gateway |
| `SharedRun`, `Checksums` | the copied-lines measure, the SHA256SUMS printer and parser |

## How it is modelled

- Instants are integers, in microseconds, the resolution of Python's `datetime`. What
  the wire keeps is whole milliseconds, truncated, so rounding down is part of every
  statement about documents. Refetch fractions are exact quotients, and a computed
  interval is rounded to whole microseconds, half to even, as `timedelta` does.
- `Json` keeps `Null`: a member that is present and null passes validation, so it has to
  be possible in the model.
- SHA-256 is an injective constructor over the rendered document.
- Verdicts are stated twice: `Lineage.Admit` follows the code on documents, branch by
  branch, and `Lineage.Decide` is the judgement on what was read from the document,
  with no text and no digest. `Lineage.AdmitDecides` says they are the same, and every
  theorem about runs is about `Decide` and so about `admit`.
- Objects that change are classes. Each method's contract gives the whole new state as
  a step function of the old one, and the theorems about runs are about folds of those
  step functions.

## What the code does that its documentation does not say

- `refetch` is documented to never raise. It raises exactly on the documents of
  `Lineage.Raises`, after any run (`History.RunRaisesExactly`,
  `Consumer.RunRefetchRaisesExactly`): a null instant or a null counter compared inside
  the held epoch, in a document that passes validation (`Lineage.AdmitCanRaise`); and an
  instant that its offset carries out of the years there are, such as
  `0001-01-01T00:00:00+01:00`, which raises `OverflowError` in validation itself
  (`Lineage.AdmitCanOverflow`). The `except HeartbeatError` branch around `admit`
  (convergence.py:249) can never be taken: `Model.ParseAfterValidation` leaves no such
  error. "Exactly" is said of text that UTF-8 can encode. A lone surrogate, which JSON
  may write as an escape inside an extension, makes the digest raise as well, the second
  time its revision is delivered; it has no character in this model.
- Optional data is documented to be safely ignorable. It is, exactly as long as no
  document repeats the held revision with other extensions (`Ignorable.IgnorableExactly`);
  `Ignorable.IgnorabilityFails` gives the family on which it is not, where the full
  consumer reports a conflict and the one that discards extensions a duplicate.
  Namespaced top-level members never matter.
- A duplicate is described as byte-identical. It is equality of the six fields, to the
  millisecond, and of the extensions (`Model.DigestIdentifies`); top-level namespaced
  members and the spelling of instants play no part. The clean-room participant does
  compare documents as they are written, which is one of the differences that
  `CleanRoom.SameWordExactly` lists.
- The clean room and the reference hold the same lease after every delivery exactly when
  the clean room never takes a document that has no version, has an instant without a
  date in UTC, or is outside the skew bound (`CleanRoom.SimulationExactly`). A
  redelivery or a replay, however late, does not part them.
- A lease is valid on the wire at every instant of issue exactly from one millisecond to
  one hour (`Issuer.ValidLeases`).
- Once a microsecond or less is left of a lease whose document keeps being served, every
  poll is a fetch (`Freshness.SpentWindowIsAlwaysDue`).
- The legacy server's FAILED state is absorbing. The client's is not
  (`LegacySession.ClientLeavesFailed`).
- The two eras disagree on one principal: the empty string is no evidence to the current
  binder and a principal to the legacy one (`Identity.ErasAgree`).
- A mirrored header that is missing is accepted; only one that disagrees is refused
  (`Router.BuiltRoutes`).
- Documentation of round-robin routing speaks of epoch flapping. A consumer behind such
  a router changes its held epoch at most once per replica (`Fleet.RoundRobin`); every
  later return of an epoch is refused.

## Model

| member | source | states |
|---|---|---|
| `Wire.TextKeepsMilliseconds` | src/mcp_heartbeat/model.py:51-70 | Formatting and parsing an instant loses exactly the microseconds below the millisecond; two instants share a text exactly when they share a millisecond |
| `Validation.ValidateDocument` | src/mcp_heartbeat/validation.py:45-119 | It raises exactly when one of the instants has no date in UTC; otherwise its list holds a complaint if and only if that complaint applies, and is empty exactly for documents of the valid shape, for every value whatever |
| `Validation.DocumentReasonMeans` | src/mcp_heartbeat/validation.py:122-158 | Every outcome if and only if: no reason for valid documents of version 0.1, the version first, then both window reasons, the general one for every other fault; raising exactly when the version is read and an instant has no date in UTC |
| `Validation.FieldEdges` | src/mcp_heartbeat/model.py:44-45 | Identifiers and counters at the edges of what they may be: lengths 1 to 255 and 1 to 128, alphabets, counters from zero |
| `Model.WireRoundTrip` | src/mcp_heartbeat/model.py:176-218 | Parsing a rendered heartbeat floors both instants and changes nothing else, or is refused, with the exact condition; truncation is idempotent and invisible on the wire |
| `Model.DigestIdentifies` | src/mcp_heartbeat/model.py:222-225 | Equal digests exactly when the heartbeats are equal to the millisecond, extensions included |
| `Model.HintMatchesWire` | src/mcp_heartbeat/ports.py:47-57 | A hint matches exactly the heartbeats equal to its own to the millisecond, so one built in memory matches the one parsed |
| `Model.ParseAfterValidation` | src/mcp_heartbeat/model.py:206-218 | After validation `from_dict` raises none of its own errors, and raises `ValueError` exactly for a null instant |
| `Lineage.AdmitDecides` | src/mcp_heartbeat/lineage.py:108-143 | `admit` on a document is the text-free judgement on what was read from it, for every state, document, instant and bound |
| `Lineage.RefusalsMean` | src/mcp_heartbeat/lineage.py:121-143 | What each refusal of a candidate, and acceptance, takes, if and only if: address, then lineage, then skew, then expiry |
| `Lineage.MalformedMeans` | src/mcp_heartbeat/lineage.py:116-118 | What each refusal of any other document takes, if and only if |
| `Lineage.OnlyAcceptanceMoves` | docs/heartbeat-0.1.md:141-143 | A state changes if and only if the document is accepted, and then holds it and retires its epoch; every refusal preserves it |
| `Lineage.AdmitRaisesExactly` | src/mcp_heartbeat/lineage.py:116-135 | The exact condition on state and document under which `admit` raises: null instants, null counters, dates out of range |
| `Lineage.AdmitCanRaise` | src/mcp_heartbeat/validation.py:78-82 | A valid document on which it raises |
| `Lineage.AdmitCanOverflow` | src/mcp_heartbeat/model.py:62-70 | A null-free document on which it raises `OverflowError` |
| `History.WholeRun` | src/mcp_heartbeat/lineage.py:108-143 | Over every delivery list the accepted heartbeats are those of a one-shot specification that knows no state; held is the last and the retired epochs are the epochs of that list |
| `History.NothingReturns` | src/mcp_heartbeat/lineage.py:63-80 | No revision is accepted twice and no epoch returns after another |
| `History.VerdictReadOffHistory` | src/mcp_heartbeat/lineage.py:63-91 | After any run, epoch reuse, rollback, conflict and duplicate are each reported exactly when the accepted history says so |
| `History.EpochChangesAreBounded` | docs/heartbeat-0.1.md:83-88 | Fed from any pool of epochs, in any order, it changes at most once per epoch of the pool |
| `History.DocumentsAreDeliveries` | src/mcp_heartbeat/lineage.py:108-143 | Folding `admit` over documents is folding the judgement over what is read from them |
| `History.RunRaisesExactly` | src/mcp_heartbeat/lineage.py:108-143 | At every step of every run of documents, the exact condition under which `admit` raises; what it needs of the state is kept by every run |
| `Ordering.OrderDoesNotMatter` | docs/heartbeat-0.1.md:129-133 | However one epoch is lost, repeated or reordered, the highest document that arrived ends up held |
| `Ordering.EveryVerdict` | docs/heartbeat-0.1.md:129-133 | Every single verdict of such a run, if and only if; never a conflict nor an epoch reuse |
| `Ordering.SameHighestSameState` | docs/heartbeat-0.1.md:129-133 | Two ways of delivering one epoch with the same highest document end in the same state |
| `Ordering.IssueTimesBarelyFall` | src/mcp_heartbeat/lineage.py:101-102 | With a clock that does not run backwards accepted issue times fall back at most twice the skew bound |
| `Ordering.Horizon` | src/mcp_heartbeat/lineage.py:94-105 | Nothing is reported fresh later than an hour and the skew bound after the last acceptance, whatever else arrives |
| `Ignorable.ForeignMembersIgnored` | docs/heartbeat-0.1.md:40-45 | Dropping namespaced top-level members changes no verdict on any document |
| `Ignorable.StripAnswersExactly` | docs/heartbeat-0.1.md:40-45 | The same for `admit` on the document and on the stripped document |
| `Ignorable.IgnorableExactly` | docs/heartbeat-0.1.md:40-45 | Whole runs: alike at every step exactly when no step of the full run clashes |
| `Ignorable.IgnorableWhenFixed` | docs/heartbeat-0.1.md:40-45 | When a revision determines its extensions every verdict agrees and the states are equal up to stripping |
| `Ignorable.IgnorabilityFails` | docs/heartbeat-0.1.md:40-45 | The two-document runs on which the documented promise fails |
| `Issuer.HeartbeatIssuer.Issue` | src/mcp_heartbeat/issuer.py:63-75 | A heartbeat of this participant, epoch, counter and extensions, issued now and expiring one lease later, and the counter one higher |
| `Issuer.HeartbeatIssuer.IssueAll` | src/mcp_heartbeat/issuer.py:34-75 | Any number of renewals form one legal epoch of consecutive counters |
| `Issuer.ValidLeases` | src/mcp_heartbeat/issuer.py:63-75 | Leases valid on the wire at every instant are exactly those of one millisecond to one hour |
| `Issuer.MintedIsHeld` | src/mcp_heartbeat/issuer.py:63-75 | Minted, rendered, read and admitted, it is held as it was minted, and fresh exactly until its lease after issue, to the millisecond |
| `Consumer.HeartbeatConsumer.RefetchDeadline` | src/mcp_heartbeat_current/convergence.py:159-171 | The deadline from the held lease and the last fetch alone |
| `Consumer.HeartbeatConsumer.Due` | src/mcp_heartbeat_current/convergence.py:173-179 | Owed by hint, by emptiness or by deadline |
| `Consumer.DueExactly` | src/mcp_heartbeat_current/convergence.py:159-179 | A refetch is owed exactly when nothing is held or fetched, a hint is pending, the cap has gone by since the last fetch, or the fraction of the window left then, to the nearest microsecond |
| `Consumer.DueAtHalf` | src/mcp_heartbeat_current/convergence.py:159-179 | For the default fraction: half the window or the cap, both ways up to a microsecond of rounding |
| `Consumer.HeartbeatConsumer.OnHint` | src/mcp_heartbeat_current/convergence.py:183-197 | The whole new state and whether a refetch was scheduled |
| `Consumer.AnnouncesMeans` | src/mcp_heartbeat_current/convergence.py:191-192 | A hint is known exactly when it was made for a heartbeat equal to the held one to the millisecond; a bare one never |
| `Consumer.HeartbeatConsumer.Refetch` | src/mcp_heartbeat_current/convergence.py:201-273 | The whole new state and the result, for every reply and every state, raising included |
| `Consumer.HeartbeatConsumer.Poll` | src/mcp_heartbeat_current/convergence.py:275-278 | A refetch exactly when one is owed |
| `Consumer.HintsDoNotInterfere` | src/mcp_heartbeat_current/convergence.py:183-273 | Erasing every hint from any interleaving leaves state, verdicts, fetch time and binding as they were |
| `Consumer.HintsDoNotMoveDeadlines` | src/mcp_heartbeat_current/convergence.py:159-171 | And every deadline as it was |
| `Consumer.HintsAreAccountedFor` | src/mcp_heartbeat_current/convergence.py:144-147 | Over any run hints seen are scheduled plus coalesced plus those that matched the lease held when they came, and scheduled refetches are performed but for one pending |
| `Consumer.EveryHintIsSeen` | src/mcp_heartbeat_current/convergence.py:190-190 | Every hint of a run is counted as seen |
| `Consumer.OneHintSchedules` | src/mcp_heartbeat_current/convergence.py:139-142 | Between two refetches exactly one hint schedules, if any does not match the held lease and none is pending |
| `Consumer.RefetchSpendsHints` | src/mcp_heartbeat_current/convergence.py:183-206 | After any run that ends in a refetch, answered or not, and then hints, a refetch is pending exactly when one of those hints was news |
| `Consumer.MovesOnlyWhenAdvanced` | src/mcp_heartbeat_current/convergence.py:201-273 | The state changes exactly on ADVANCED, which is exactly an authoritative answer that admission accepts |
| `Consumer.VerdictsMean` | src/mcp_heartbeat_current/convergence.py:201-273 | What each of the other verdicts says about the answer, its principal and the held lease, if and only if |
| `Consumer.VerdictsCarry` | src/mcp_heartbeat_current/convergence.py:201-273 | The participant, binding, cause and held lease that every verdict carries |
| `Consumer.LastAnswerIsRemembered` | src/mcp_heartbeat_current/convergence.py:219-221 | After any run, fetch time and binding are those of the last answered fetch, believed or not |
| `Consumer.OutagesChangeNothing` | src/mcp_heartbeat_current/convergence.py:207-217 | Any number of failed fetches change neither state, binding, fetch time nor hint counters; only a pending hint is spent |
| `Consumer.AuthorityIsPermission` | src/mcp_heartbeat_current/identity.py:223-243 | Without a binder every answer is authoritative; with one, exactly those with a non-empty principal of this response that the policy permits |
| `Consumer.ConsumerIsFold` | src/mcp_heartbeat_current/convergence.py:201-273 | A consumer's lineage state over any run is the fold of admission over its authoritative answers |
| `Consumer.RefetchRaisesExactly` | src/mcp_heartbeat_current/convergence.py:201-256 | The exact condition under which one refetch raises |
| `Consumer.RunRefetchRaisesExactly` | src/mcp_heartbeat_current/convergence.py:201-256 | The same after any run of hints and replies, with nothing asked of the state |
| `Freshness.AlwaysFresh` | src/mcp_heartbeat_current/convergence.py:155-179 | Continuous freshness: from the first poll the held lease is fresh at every instant of the run, across hints and restarts and for any refetch fraction. Asked: mints at most `gap` apart with `gap` and a millisecond within the skew bound, every fetch served, `delay` left of a lease at its deadline, and a host that after each fetch polls within `delay` of the deadline, at or after it or with a hint pending |
| `FreshRun.FreshThroughout` | src/mcp_heartbeat_current/convergence.py:155-179 | A run with the program's own defaults, a restart and a deadline meets all of that |
| `Freshness.NewestIsServed` | src/mcp_heartbeat_current/convergence.py:201-219 | The run's answers are those of the rendered documents |
| `Freshness.FetchBudget` | src/mcp_heartbeat_current/convergence.py:159-278 | At the default fraction, over any polls against a stalled publisher, refetches made and budget left never exceed the window's budget |
| `Freshness.HalvingsIsLog` | src/mcp_heartbeat_current/convergence.py:159-171 | The halvings in that budget are the binary logarithm, rounded up |
| `Freshness.SpentWindowIsAlwaysDue` | src/mcp_heartbeat_current/convergence.py:159-179 | With a microsecond or less left every poll is due; with more, the deadline lies ahead |
| `CleanRoom.Validate` | cleanroom/hb_cleanroom/participant.py:86-156 | The complete list of its complaints, empty exactly for the documents it finds valid |
| `CleanRoom.ValidatorsAgree` | cleanroom/hb_cleanroom/participant.py:86-156 | The two validators agree on every value, with exactly two exceptions: the reference lets a null instant through, and raises on one without a date in UTC |
| `CleanRoom.CleanRoomConsumer.Admit` | cleanroom/hb_cleanroom/participant.py:222-249 | The word and the whole new state |
| `CleanRoom.CleanRoomIssuer.Issue` | cleanroom/hb_cleanroom/participant.py:190-200 | The document the reference would render for the next counter |
| `CleanRoom.LockStep` | cleanroom/hb_cleanroom/participant.py:222-253 | One step keeps the two in lock step exactly when the clean room's own guards do not pass a document that lacks a version, overflows, or is outside the skew bound |
| `CleanRoom.SameWordExactly` | cleanroom/hb_cleanroom/participant.py:222-249 | For every document the reference reads, the exact condition under which both give the same reason |
| `CleanRoom.UnreadWordExactly` | cleanroom/hb_cleanroom/participant.py:222-226 | The same for documents it does not read and does not raise on |
| `CleanRoom.CanonicalWordsAgree` | src/mcp_heartbeat_conformance/cleanroom.py:482-488 | At every step of a run of canonical, null-free documents that never trips the skew bound, both give the same reason for every document that is read and fresh |
| `CleanRoom.Simulation` | cleanroom/hb_cleanroom/participant.py:208-253 | Whenever `admit` never refuses for skew on a run of documents with a version and UTC dates, both hold the same lease and have retired the same epochs at every step |
| `CleanRoom.SimulationExactly` | cleanroom/hb_cleanroom/participant.py:208-253 | For any run whatever, when that is so: the exact condition, step by step |
| `CleanRoom.SkewSeparates` | src/mcp_heartbeat/lineage.py:101-102 | Beyond the skew bound they part |
| `CleanRoom.OverflowSeparates` | cleanroom/hb_cleanroom/participant.py:69-83 | A document one takes and the other raises on |
| `Identity.CompactRoundTrip` | src/mcp_heartbeat_current/identity.py:60-75 | `from_compact` undoes `compact` for every principal, escapes and surrogate pairs included |
| `Identity.CompactInjective` | src/mcp_heartbeat_current/identity.py:60-64 | No two principals share a compact text |
| `Identity.CompactText` | src/mcp_heartbeat_current/identity.py:60-64 | The text a policy is keyed by: three parts in brackets, without spaces |
| `Identity.EscapesExactly` | src/mcp_heartbeat_current/identity.py:62-64 | What each character of a part is written as: itself, a short escape, or lower-case code units |
| `Identity.FingerprintNamesPrincipal` | src/mcp_heartbeat_current/identity.py:160-204 | A fingerprint is reported exactly for a checked principal, and two reports share one exactly when they share the principal |
| `Identity.BindingsMean` | src/mcp_heartbeat_current/identity.py:160-204 | Each binding and each reason of the request binder, if and only if, for every policy |
| `Identity.TablePermitsExactly` | src/mcp_heartbeat_current/identity.py:240-244 | A static table binds exactly what it lists, and its holes are told from its refusals |
| `Identity.EvidenceMeans` | src/mcp_heartbeat_legacy/identity.py:121-211 | Each binding and each reason of the legacy binder, if and only if, and what no binder gives |
| `Identity.ErasAgree` | src/mcp_heartbeat_legacy/identity.py:121-191 | Both binders give the same binding and reason for every table re-keyed through `compact`, exactly unless the principal is the empty string |
| `Identity.ErasAgreeOnPredicates` | src/mcp_heartbeat_legacy/identity.py:121-142 | The same if and only if for an injected predicate |
| `LegacyEra.NeverEchoes` | src/mcp_heartbeat_legacy/era.py:177-224 | A revision is negotiated exactly when it is asked for and supported, and nothing else is echoed |
| `LegacyEra.CodesMean` | src/mcp_heartbeat_legacy/era.py:177-224 | Each negotiation code, if and only if |
| `LegacyEra.OffersAreJudgedExactly` | src/mcp_heartbeat_legacy/era.py:227-303 | When a heartbeat offer is supported, ambiguous or refused as modern, if and only if, for any capabilities whatever |
| `LegacyEra.AgreementViolations` | src/mcp_heartbeat_legacy/capabilities.py:64-109 | The complete list of discrepancies: each is reported if and only if it applies, and there are none exactly when advertisement and registry agree in both directions |
| `LegacyEra.AdvertisedTruthfully` | src/mcp_heartbeat_legacy/capabilities.py:43-61 | What is derived from a registry agrees with it, and offers the heartbeat exactly when the read is served |
| `LegacySession.LegacyServerSession.HandleCall` | src/mcp_heartbeat_legacy/session.py:148-177 | Response and whole new state for every call in every state |
| `LegacySession.HandledExactly` | src/mcp_heartbeat_legacy/session.py:157-177 | Over any calls, which of them run their handler, and which fault each other one gets, if and only if |
| `LegacySession.LifecycleCallsExactly` | src/mcp_heartbeat_legacy/session.py:179-236 | Over any calls, which lifecycle calls are taken and which fault each other one gets, if and only if |
| `LegacySession.Lifecycle` | src/mcp_heartbeat_legacy/session.py:148-236 | Under arbitrary calls the state says how many initializes and notifications were taken; FAILED exactly with one disagreement |
| `LegacySession.HandlersRunAfterHandshake` | src/mcp_heartbeat_legacy/session.py:157-177 | A handler runs only after exactly one answered initialize and one acknowledged notification |
| `LegacySession.FailedIsForever` | src/mcp_heartbeat_legacy/session.py:179-200 | The server's FAILED is absorbing and everything after is refused |
| `LegacySession.FailureIsRecorded` | src/mcp_heartbeat_legacy/session.py:186-200 | A failed session's one disagreement is the first initialize's revision and its code |
| `LegacySession.AnswersOnlySupported` | src/mcp_heartbeat_legacy/session.py:186-218 | Only a supported revision that was asked for is ever answered |
| `LegacySession.AnswerMeans` | src/mcp_heartbeat_legacy/session.py:206-226 | What an answered initialize carries and leaves in effect, for any offer |
| `LegacySession.ServerReadyExactly` | src/mcp_heartbeat_legacy/session.py:127-130 | Over any calls, when the server is heartbeat-ready |
| `LegacySession.LegacyClientSession.InitializeRequest` | src/mcp_heartbeat_legacy/session.py:298-309 | The request, or the lifecycle fault |
| `LegacySession.LegacyClientSession.ConsumeInitializeResult` | src/mcp_heartbeat_legacy/session.py:311-338 | Whole new state and fault, in any state |
| `LegacySession.LegacyClientSession.InitializedNotification` | src/mcp_heartbeat_legacy/session.py:340-349 | Whole new state and fault |
| `LegacySession.ClientFollowsLastResult` | src/mcp_heartbeat_legacy/session.py:311-349 | Under arbitrary calls the client's state depends only on the last result it consumed and a notification since |
| `LegacySession.ClientReadyExactly` | src/mcp_heartbeat_legacy/session.py:279-281 | Over any calls, when the client is heartbeat-ready |
| `LegacySession.ClientFaultsExactly` | src/mcp_heartbeat_legacy/session.py:298-349 | Over any calls, which of the client's are refused and how; a silent downgrade ends the session |
| `LegacySession.ClientLeavesFailed` | src/mcp_heartbeat_legacy/session.py:311-338 | Which single calls leave the client's FAILED state |
| `LegacySession.HonestHandshake` | src/mcp_heartbeat_legacy/session.py:179-349 | An honest exchange brings both sides to READY with one era, heartbeat-ready exactly when the client asks and the server serves the read |
| `LegacySession.Handshake` | src/mcp_heartbeat_legacy/session.py:84-349 | The same on the two objects |
| `LegacyFetch.LegacyHeartbeatConsumer.Refetch` | src/mcp_heartbeat_legacy/resources.py:277-328 | The state changes exactly when ready, admitted and not unbound; what each outcome reports; when a hint is corroborated or counted |
| `LegacyFetch.BinderDecides` | src/mcp_heartbeat_legacy/resources.py:270-308 | Without a binder admission decides; with one the session's principal must be permitted for the claimed participant, if there is a principal |
| `LegacyFetch.LegacyIsFold` | src/mcp_heartbeat_legacy/resources.py:277-328 | Over any run the state is the fold of admission over the attempts the session and the binder let through |
| `Router.BuiltRoutes` | src/mcp_heartbeat_current/metadata.py:142-208 | What a built request routes to under any headers whatever |
| `Router.BuilderRoundTrip` | src/mcp_heartbeat_current/metadata.py:61-119 | `route` recovers version, method, client info and capabilities of every built modern request; building fails exactly without its mirrored parameter |
| `Router.BodyCarries` | src/mcp_heartbeat_current/metadata.py:90-99 | A built message carries the caller's id and parameters untouched |
| `Router.MetaCarries` | src/mcp_heartbeat_current/metadata.py:61-93 | And the caller's own members of `_meta` |
| `Router.HeadersMean` | src/mcp_heartbeat_current/metadata.py:69-88 | Which headers a built message has, and what they mirror |
| `Router.AlteredHeaderRefused` | src/mcp_heartbeat_current/metadata.py:173-192 | Any altered header the builder wrote is refused as a mismatch |
| `Router.CurrentExactly` | src/mcp_heartbeat_current/era.py:104-160 | Which messages route to the current era under which headers; no message changes era with its headers |
| `Router.RefusedExactly` | src/mcp_heartbeat_current/era.py:104-160 | Every other outcome of routing, if and only if: handshakes, cross-era confusion, and the envelope's refusals in order |
| `Router.CurrentIsRebuilt` | src/mcp_heartbeat_current/metadata.py:61-208 | Whatever routes to the current era routes the same when rebuilt from what was recovered, except that the builder insists on the mirrored parameter |
| `Router.LegacyClientRoutesHandshake` | src/mcp_heartbeat_current/era.py:104-160 | Both messages of the legacy client route to the handshake era under any headers |
| `Demo.Participant.Beat` | demo/publisher/hb_demo_publisher/__init__.py:76-83 | The next document, or the last while frozen, and the whole new state |
| `Demo.Participant.Control` | demo/publisher/hb_demo_publisher/__init__.py:85-104 | The whole new state for every operation |
| `Demo.OperationsMean` | demo/publisher/hb_demo_publisher/__init__.py:85-104 | After any events the publisher is frozen, labelled, restarted and in the epoch its last operations say |
| `Demo.FrozenRepeats` | demo/publisher/hb_demo_publisher/__init__.py:76-80 | While a shown document is frozen every later poll is shown that document and nothing is minted |
| `Demo.MintMeans` | demo/publisher/hb_demo_publisher/__init__.py:81-83 | Otherwise a poll is shown a lease of this epoch, counter and length, with the status of the moment |
| `Demo.Session.Poll` | demo/observer/hb_demo_observer/__init__.py:158-176 | Both objects' whole new state and the outcome of `admit` |
| `Demo.LedgersMean` | demo/observer/hb_demo_observer/__init__.py:158-176 | Whatever it is served, the observer's state is the fold of `admit`, and its ledgers are that fold's acceptances and refusals in order |
| `Demo.LockStep` | demo/observer/hb_demo_observer/__init__.py:149-176 | For every interleaving of operations and polls the refusals stay empty and the transitions are the minted stream, in order |
| `Demo.EveryPoll` | demo/observer/hb_demo_observer/__init__.py:158-176 | Each poll is accepted when a document was minted and a duplicate when one was replayed |
| `Fleet.Replica.Beat` | src/mcp_heartbeat_conformance/runtime.py:62-65 | The next revision of the replica's own epoch |
| `Fleet.Gateway.Route` | src/mcp_heartbeat_conformance/runtime.py:86-91 | The pinned replica, or the next in turn |
| `Fleet.Gateway.Fetch` | src/mcp_heartbeat_conformance/runtime.py:93-98 | The routed replica's document and the ledger, or nothing and no change |
| `Fleet.RoundRobin` | src/mcp_heartbeat_conformance/runtime.py:71-98 | Gateway, replicas and consumer objects together: over any number of reads, any beats between them, pinning and outages, the consumer's held epoch changes at most once per replica |
| `Fleet.RoutingIsBounded` | src/mcp_heartbeat_conformance/runtime.py:71-98 | The same for any router at all |
| `SharedRun.LongestSharedRun` | src/mcp_heartbeat_conformance/cleanroom.py:123-134 | A block of the candidate lying in the reference, of greatest length, the earliest of those |
| `Checksums.Render` | tools/build_release.py:513-530 | The header's lines and one line an entry, each ended |
| `Checksums.OneEntryPrinted` | tools/build_release.py:529-530 | One entry more is one line more: digest, two spaces, name, line feed |
| `Checksums.Parse` | tools/build_release.py:533-543 | The table its lines add up to |
| `Checksums.NoGapSkipped` | tools/build_release.py:540-541 | A line without a double space adds nothing |
| `Checksums.RoundTrip` | tools/build_release.py:533-543 | Parsing what was rendered under any header of comments gives the same table, for every table of trimmed one-line names and hexadecimal digests |

## Left out

- The calendar text of instants is abstract: any reader and writer with the law of `Wire.Lawful`.
- The identifier patterns are full matches; that `$` also matches before a final line feed is not modelled.
- Floating point: seconds are exact, so a quotient that rounds in binary is not modelled.
- SHA-256 and canonical JSON are one injective constructor; lone surrogates, which cannot be encoded and make the digest raise, are not modelled, nor are documents nested or numbers written past the interpreter's limits.
- Years: instants have no first or last year here except in texts that are read; that an issuer's clock plus a lease may overflow, or that a platform may not pad years below 1000, is not modelled.
- Messages of complaints and refusals are constructors, not prose; a revision label is the pair it spells.
- `__eq__` between JSON numbers of different kinds: `1` and `1.0` are different values here.
- Key loops run in any order where the source follows insertion order, so the order of complaints is not stated.
- Random epochs are passed in; where they must be new or well formed, that is a stated premise.
- Lengths of time an operation takes, threads and locks: each method is one atomic step.
- HeartbeatConsumer's own clock: every instant is passed in.
- Identity.FromCompact: reads exactly the array layout `compact` writes and gives `None` for other JSON texts, because nothing else is ever passed to it.
- LegacySession constructors take a supported era as a precondition, where the source raises for any other.
- The legacy auth context's source label, and prose detail of evidence.
- Router: header names are compared after case folding, which is taken as done.
- Router.BuildRequest: takes a `_meta` that is a mapping or falsy, and not a list of pairs, which `dict` accepts too; anything else makes the source raise a bare error.
- `extension_version` is not a field of `Heartbeat`, because nothing but 0.1 can be in it.
- Checksums.Render: takes the header's lines from its caller, where the source prints twelve fixed ones, all comments or empty; and prints in any order of names, of which the sorted one is an instance.
- Demo: times in the ledgers, the `state` report, and the HTTP in between.
- LegacyHint addresses and the URI functions; `ChangeHint.from_dict`; `updated_notifications`.
- Fleet.Gateway.Route: with no replicas and none pinned the source divides by zero; here that is a precondition.
- `SubscriptionStream`, `parse_hint`, the topology rules, release adjudication, matrix cases and verdict counting: they would only add easy members.
- HTTP, containers, subprocesses, archives, the SDK bridge, and the source scans for lint and isolation.
