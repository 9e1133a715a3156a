# Attestation verifier: models and proofs

A Dafny model of the hard logic of a TEE attestation verifier, and proofs about it. Run
`dafny verify dfyconfig.toml` to check everything. Cryptography, certificates, JSON and the network are
parameters of the models; nothing is assumed about them. In particular hash functions are arbitrary functions of
the right output length, so a binding result reads "equal, or here is an explicit collision".

## What is modelled

- **The collateral store** (`CollateralDates`, `StoreSteps`, `StoreSafety`, `StoreTiming`, `StorePause`, `StoreGate`,
  `StoreDue`, `StoreOrigin`, `StoreWitnesses`, `ColdRate`, `NativeStore`, `StoreEntry`, `Lookup`, `Published`). A state
  machine over the store's atomic steps: one entry per vendor URL, loaded by a single flight, then refreshed under a lock per
  URL; recorded failures, a pause per vendor host, a window of cold fetches per host. What the disk holds, what the upstream answers, when the clock moves and how callers interleave and vanish are arbitrary. The class
  `Native` keeps the same maps in place; each of its methods is one step, and its calls are a run. `Lookup` models one verdict's
  view: the choice among held, cached, attached and loaded copies, and `StoreEntry` what it gets from a run of the store.
- **SNP measurement registers** (`MeasurementRegisters`). A log of extends of 16 registers, and its commitment in
  REPORT_DATA.
- **TPM quotes** (`TpmQuote`, `TpmAttest`, `TpmPcrs`). The TPMS_ATTEST parser against a printer, and the checks of PCR
  values that travel beside the quote.
- **Google's endorsements** (`Protobuf`, `Endorsement`, `GoldenMessages`). The strict protobuf reader against a printer, and the data flow of
  the endorsement check.
- **The envelope** (`Envelope`). Attached responses, sorted, with each issuer chain written once.
- **The cache** (`ColdSet`, `Kds`, `PercentCoding`, `KeySet`). The bound on cold fetches, the AMD URLs and their reader, the
  percent coding of issuer chains across two crates, and the NVIDIA key set cut for attachment.

`Prelude` holds options, results and byte order. Every lemma switches automatic induction off, so each proof is the text
of its body. Where the code loops or updates in place, the model is a method proved equal to a function, and the results
are lemmas about those functions. What spans several steps of the store (`entry`, and the interleaving of its callers) is
stated over runs.

## Where code and documentation, or expectation, differ

The models follow the code.

- The cache's README says a 429 or 503 pauses "every fetch to that vendor host for its Retry-After", and that an outage is not
  asked about again for "the upstream's Retry-After". Three things in the code are against it.
  First, both are capped at `recheck` (five minutes) and a Retry-After of 0 counts as one second
  (`crates/attestation/src/collateral/store.rs:586-592` and 612-615): `StorePause.AnHourIsCutToFiveMinutes` is an input,
  `StorePause.PauseKeepsRetryAfter` the condition on the header, `StorePause.ReplyPausesForRetryAfter` and
  `StorePause.RecordStandsForRetryAfter` carry it to the runs and steps. Second, a later 429 or 503 replaces the pause, also by a shorter
  one: `StoreWitnesses.ShorterReplyEndsThePause`. Third, a cold fetch looks at the pause before it is counted, not after:
  `StoreWitnesses.ColdRequestSlipsPastThePause`. `StorePause.PauseStandsMeans` says exactly when a host is paused, and
  `StorePause.PausedHostIsLeftAlone` that there is no fourth way.
- A fetch that finds its host paused is told the whole seconds left. Waiting just those is not enough: the fraction is cut
  off, so the gate is still closed, exactly while a second or more is left. `StorePause.PauseTellsTheWait` says so; one
  second more is always enough. The one second told when a second is full is enough: `ColdRate.TurnedAwayMeans`.
- "The fallback is asked exactly when no copy on hand passes" is false: only the newest copy is judged.
  `Lookup.AskedThoughACopyPasses` is the input, `Lookup.AskedExactlyWhenNonePasses` the exact condition.
- "Do not ask the vendor about one piece more often than this" (`crates/attestation/src/collateral/store.rs:505`) holds from
  the entry in memory (`StoreTiming.EntryHoldsBackRequests`) and from refetch to refetch (`StoreTiming.RefetchesAreSpread`).
  It fails for the load's own request when the disk copy is kept: `StoreWitnesses.RefetchSoonAfterALoad` is a run,
  `StoreTiming.LoadCountsFromItsReply` the exact condition. It also fails when a refresh is cancelled between its answer and
  the note that it looked, unless a failure was recorded: `StoreWitnesses.LostRefreshIsAskedAgain` is a run,
  `StoreGate.LostAnswerIsAskedAgainExactly` says exactly when the next request can follow. And it fails for a piece that is not in
  memory, where no time is noted at all: unless its disk copy is current, such a piece is held back by a recorded failure,
  a pause of its host and a full second of cold fetches, and by nothing else. `StoreGate.LoadAsksExactly` says so, `StoreTiming.RepliesRecorded` which failures are
  recorded, and `StoreWitnesses.FailedLoadIsAskedAgain` is a run.
- `crates/attestation/src/context.rs:86-88` says a cache's "not found" is never taken as the vendor's.
  `get_if_published` (`crates/attestation/src/collateral/store.rs:283-293`) turns any 404 or 410 into "not published":
  `Published.ACachesNotFoundIsTaken` is an input, `Published.NoneOfAReply` says which replies read so, and
  `Published.NoneIsTheVendorsWithoutACache` that without a cache as upstream the answer is the vendor's.
- `parse_quote_info` ignores bytes behind the digest and does not look at the magic; `TpmAttest.AcceptedIsPrinted` says so.
- The cut key set keeps every token's verdict, but stays acceptable as a set only under the condition of `KeySet.CutSetVerifies`.

## Model

| member | source | states |
|---|---|---|
| `CollateralDates.OrderIsTotal` | crates/attestation/src/collateral/mod.rs:233-235 | copies of a piece are totally preordered by version and then issue time, so "the newest copy" is well defined and ties are exactly the equal issues |
| `CollateralDates.AcceptableMeans` | crates/attestation/src/collateral/store.rs:68-93 | a piece passes exactly inside its window extended by seven days of grace and at or above its floor; the verdict is told "current" exactly from thisUpdate to nextUpdate and "stale" exactly in the grace after it, with the version carried and the floor asked for |
| `CollateralDates.NewerMeetsFloor` | crates/attestation/src/collateral/store.rs:87-92 | of two copies the newer one meets every floor the older one meets |
| `CollateralDates.RefreshAt` | crates/attestation/src/collateral/store.rs:108-126 | the refresh time is at least a day before nextUpdate, not before the last quarter of the window where that leaves a day, and the day before nextUpdate when the copy has no usable thisUpdate |
| `CollateralDates.RefreshTimesAreSpread` | crates/attestation/src/collateral/store.rs:112-126 | every moment from the last quarter of the window to a day before nextUpdate is drawn by some random number |
| `StoreSafety.RunKeepsInv` | crates/attestation/src/collateral/store.rs:535-784 | in every state of every run: memory holds only copies that verified for a piece of that URL, every lane holds what its lock promises, everything past the gate has no standing failure |
| `StoreSafety.OneLane` | crates/attestation/src/collateral/store.rs:553-555 | a URL is never loaded and refreshed at once |
| `StoreSafety.MemoryIsVerified` | crates/attestation/src/collateral/store.rs:157-176 | at any moment of any run, whatever disk and upstream say, every entry of memory verified for an id published at its URL |
| `StoreSafety.StepKeepsNewest` | crates/attestation/src/collateral/store.rs:736-784 | a step changes a kept entry only by noting a later look or by a verified copy that is not older, and only the refresh of that very URL replaces it |
| `StoreSafety.FailedRefetchKeepsTheCopy` | crates/attestation/src/collateral/store.rs:753-776 | a refetch that failed, did not verify or is older leaves body, chain, dates and origin of the entry, and all other entries, as they were |
| `StoreSafety.MemoryNeverGoesBack` | crates/attestation/src/collateral/store.rs:535-784 | over a whole run the copy of a URL is never lost and its (version, issue time) never decreases |
| `StoreTiming.RefetchesAreSpread` | crates/attestation/src/collateral/store.rs:525-563 | two refetches of one URL are at least `recheck` apart, from the end of one to the start of the next, for any number of callers and even when forced, unless the caller of the first vanished with the answer in hand and no recorded failure stands that long in its stead |
| `StoreTiming.LoadCountsFromTheCopyItKeeps` | crates/attestation/src/collateral/store.rs:693-730 | what one finished load leaves in memory: the fetched copy, or the disk copy with the time it was read |
| `StoreTiming.EntryHoldsBackRequests` | crates/attestation/src/collateral/store.rs:525-563 | from any moment at which a URL is in memory and not being refreshed, the next request about it waits `recheck` from when its entry was last looked at, even if callers vanish |
| `StoreTiming.NextRequestAfterFinish` | crates/attestation/src/collateral/store.rs:504-563 | after a finished load or refresh the next request about the URL waits `recheck` from when the entry left in memory was looked at |
| `StoreTiming.LoadCountsFromItsReply` | crates/attestation/src/collateral/store.rs:693-730 | the interval after a load counts from the reply to its own request if and only if the fetched copy is kept or no time had passed since the disk was read, and never from later |
| `StoreTiming.NextRequestAfterLoadReply` | crates/attestation/src/collateral/store.rs:504-563 | under that condition the next request waits `recheck` from the load's reply |
| `StoreWitnesses.RefetchSoonAfterALoad` | crates/attestation/src/collateral/store.rs:693-776 | a run in which a refetch follows the load's own request after one nanosecond: a disk copy past its window, a 404 almost `recheck` later, a forced refresh |
| `StoreWitnesses.LostRefreshIsAskedAgain` | crates/attestation/src/collateral/store.rs:745-776 | a run in which a refresh whose caller vanishes after its answer is asked again at once |
| `StoreWitnesses.FailedLoadIsAskedAgain` | crates/attestation/src/collateral/store.rs:693-730 | a run in which a load of a piece held nowhere fails with an unrecorded 404 and the next one asks at once |
| `StoreGate.GateLetsThrough` | crates/attestation/src/collateral/store.rs:575-609 | an undisturbed fetch goes out if and only if the store is online, no recorded failure and no pause of the host stands and, when cold, the second has room; then one cold fetch is counted and nothing else changes |
| `StoreGate.LoadAsksExactly` | crates/attestation/src/collateral/store.rs:693-730 | from any reachable state with the piece neither in memory nor being loaded, an undisturbed lookup sends a request at that very moment if and only if the disk has no current copy and the gate is open, with room in the second when there is no disk copy |
| `StoreGate.RefreshAsksExactly` | crates/attestation/src/collateral/store.rs:525-563 | from any reachable state with the piece in memory and not being refreshed, an undisturbed look sends a request at that very moment if and only if `recheck` has passed since the last look, it is forced or from its refresh time on (an hour after the last look without a nextUpdate), and the gate is open |
| `StoreGate.RunRefreshesWhenDue` | crates/attestation/src/collateral/store.rs:745-752 | in every state of every run, a refresh is under way only for an entry last looked at `recheck` ago or earlier |
| `StoreGate.LostAnswerIsAskedAgainExactly` | crates/attestation/src/collateral/store.rs:736-776 | after a refresh lost its answer, a forced look at once or at any later moment sends the next request if and only if at that moment the store is online and neither a recorded failure nor a pause stands |
| `StoreDue.TimeToRefresh` | crates/attestation/src/collateral/store.rs:525-533 | in every state of every run, an entry is to be refreshed never before the last quarter of its window, always in the last day before nextUpdate, and without a nextUpdate exactly an hour after the last look, whatever was drawn |
| `StoreDue.LookBeginsRefresh` | crates/attestation/src/collateral/store.rs:736-752 | in every run and with any callers around, a look begins a refresh within these bounds: never within `recheck`, always when forced or in the last day after it, hourly without a nextUpdate |
| `StoreDue.UnforcedLookAsks` | crates/attestation/src/collateral/store.rs:525-563 | with the gate open, an undisturbed unforced look sends a request within the same bounds |
| `StoreOrigin.EntriesAreBroughtIn` | crates/attestation/src/collateral/store.rs:157-176 | every entry in memory or in the hands of an operation, in every run, was read from disk or carried by a reply about its URL at an earlier step, verified for the id of that operation |
| `StoreOrigin.OriginsAreTrue` | crates/attestation/src/collateral/store.rs:623-664 | an entry in memory is called the vendor's, a cache's or the disk's only when a direct reply, a reply through a cache, or a read of the disk brought that very copy for its URL; its refresh time is one that can be drawn |
| `StoreTiming.StandingFailureIsRepeated` | crates/attestation/src/collateral/store.rs:585-596 | while a recorded failure stands a fetch answers that very failure; upstream, cold budget, host state and records are untouched |
| `StoreTiming.NoAskWhileAFailureStands` | crates/attestation/src/collateral/store.rs:585-596 | in no run does a request about a URL go out while its recorded failure stands, or from an offline store |
| `StoreTiming.FailuresHoldBackRequests` | crates/attestation/src/collateral/store.rs:585-661 | after a failure is recorded, the next request about that URL comes no earlier than the time it stands |
| `StoreTiming.RecordedFailureIsAnswered` | crates/attestation/src/collateral/store.rs:585-596 | until a recorded failure has stood its time, every fetch of the URL in every run answers that very failure with nothing asked, counted or recorded |
| `StoreTiming.NotPublishedIsWaitedOut` | crates/attestation/src/collateral/store.rs:585-653 | after the vendor's "not published" is recorded, the next request about the URL waits `recheck`, and until then each fetch answers it |
| `StoreTiming.RepliesRecorded` | crates/attestation/src/collateral/store.rs:623-660 | a reply is recorded as a failure exactly when it is an outage (no status, 5xx, 408, 429) or the vendor's own "not published" about a piece the evidence names, and succeeds exactly when its copy verifies for the id asked |
| `StoreTiming.NotPublishedIsTheVendorsWord` | crates/attestation/src/collateral/store.rs:623-653 | over runs, "not published" for a URL is only ever the repetition of an earlier 404, 410 or 400 of the vendor itself about a piece the evidence names |
| `StorePause.PauseIsBounded` | crates/attestation/src/collateral/store.rs:597-622 | whatever Retry-After the vendor sends, at no moment of any run is its host paused for more than `recheck` from that moment |
| `StorePause.StepBoundsPause` | crates/attestation/src/collateral/store.rs:610-622 | only a 429 or 503 of the vendor itself moves the pause of its host, and it moves it to the capped Retry-After from now, whatever stood before |
| `StorePause.PauseKeepsRetryAfter` | crates/attestation/src/collateral/store.rs:586-615 | the Retry-After, or ten seconds without one, is the length of the pause and of an outage's silence if and only if it is at least one second and fits `recheck`, or both are zero; otherwise both last `recheck`, or one second for a zero |
| `StorePause.ReplyPausesForRetryAfter` | crates/attestation/src/collateral/store.rs:597-622 | at any later moment of a run, a host is paused exactly until the Retry-After of its last 429 or 503 (ten seconds without one) is over, if and only if the same condition holds |
| `StorePause.PauseStandsMeans` | crates/attestation/src/collateral/store.rs:597-622 | at any moment of any run a host is paused exactly when the pause of the last 429 or 503 it answered itself is not over; earlier ones never count |
| `StorePause.PausedHostIsLeftAlone` | crates/attestation/src/collateral/store.rs:597-622 | in every run, after a 429 or 503 of a host no request about any of its pieces goes out before that pause is over, except after a later such reply whose pause is over sooner or by a cold fetch past the gate before the reply |
| `StorePause.RetryAfterIsWaitedOut` | crates/attestation/src/collateral/store.rs:597-622 | so for every Retry-After the code honours, and without a later reply that cuts it short, each request to the host but a cold one already past the gate waits until the Retry-After is over |
| `StorePause.RecordStandsForRetryAfter` | crates/attestation/src/collateral/store.rs:585-596 | a recorded outage stands for exactly its Retry-After if and only if the same condition holds |
| `StorePause.RepliesAreTold` | crates/attestation/src/collateral/store.rs:610-664 | what each reply becomes: the entry with its origin and time, a refusal, or the failure with status and Retry-After handed on, a pause without one telling its whole seconds |
| `StorePause.PauseTellsTheWait` | crates/attestation/src/collateral/store.rs:474-480 | a fetch that finds its host paused is told the whole seconds left, at least one; waiting just those is not enough exactly while a second or more is left, one more always is |
| `StoreSteps.HostOfUrl` | crates/attestation/src/collateral/store.rs:468-472 | the host is what stands between the scheme and the first slash or question mark |
| `StorePause.AnHourIsCutToFiveMinutes` | crates/attestation/src/collateral/store.rs:511-518 | the failing input with the interval the code ships: a 503 with Retry-After 3600 holds host and piece back for 300 seconds |
| `StorePause.RequestsWereLetOn` | crates/attestation/src/collateral/store.rs:597-609 | every request of every run was let on at the gate, at that step or earlier, at a moment with no pause of its host standing, and only waited to be counted since |
| `StorePause.WarmRequestsRespectThePause` | crates/attestation/src/collateral/store.rs:597-609 | a request that goes out while a pause stands is a cold one that had passed the gate before |
| `StoreWitnesses.ColdRequestSlipsPastThePause` | crates/attestation/src/collateral/store.rs:597-619 | a run in which a cold fetch past the gate goes out after another reply has paused the host |
| `StoreWitnesses.ShorterReplyEndsThePause` | crates/attestation/src/collateral/store.rs:610-622 | a run in which a host asks for 60 seconds, another request under way is then told 1 second, and a third piece is asked for 59 seconds too early |
| `ColdRate.RunIsWellCounted` | crates/attestation/src/collateral/store.rs:667-683 | in every run the admitted cold fetches of a host are numbered 1 to 10 within seconds that start at least a second apart |
| `ColdRate.ColdFetchesAreBounded` | crates/attestation/src/collateral/store.rs:667-683 | in every run any interval of L seconds holds at most 10 * (ceil(L) + 1) admitted cold fetches of one host |
| `ColdRate.ColdRequestsAreAdmitted` | crates/attestation/src/collateral/store.rs:597-609 | no request about a piece held nowhere goes out except as one of those admissions |
| `ColdRate.TurnedAwayMeans` | crates/attestation/src/collateral/store.rs:669-683 | in any run a cold fetch is turned away exactly when ten of its host were admitted in the second that is not over; it is told one second, and then the next second has begun with none counted |
| `NativeStore.ObjectIsSafe` | crates/attestation/src/collateral/store.rs:497-508 | after any sequence of calls the object's memory holds verified copies only, because the calls are a run |
| `NativeStore.ObjectNeverGoesBack` | crates/attestation/src/collateral/store.rs:497-508 | no entry the object ever held goes back or is lost |
| `StoreEntry.AnswersAreFromMemory` | crates/attestation/src/collateral/store.rs:535-563 | whatever `entry` answers is what memory held at some moment between question and answer, so it verified for its URL; a piece that was in memory at the question is always answered |
| `StoreEntry.LaterEntriesAreNotOlder` | crates/attestation/src/collateral/store.rs:535-563 | of two answers of `entry` for one URL, one after the other, with any callers in between, the later has no lower version or earlier issue time, and there is a later one if there was a first |
| `StoreEntry.LoadedIsDatedAlike` | crates/attestation/src/collateral/store.rs:316-330 | what `entry` answers carries the dates it has for the id asked, when dates are in the copy |
| `StoreEntry.LookupsNeverGoBack` | crates/attestation/src/collateral/store.rs:291-342 | successive lookups of one piece with nothing held or attached never go back in version and issue time; a later one fails only as refused, exactly when the copy now in memory does not verify for the id |
| `NativeStore.Native.Drop` | crates/attestation/src/collateral/store.rs:745-784 | a dropped load or refresh frees its lock and leaves the shared maps as they are |
| `NativeStore.Native.StartLoad` | crates/attestation/src/collateral/store.rs:693-720 | the imperative load, up to the point where the upstream may be asked, is the state machine's step |
| `NativeStore.Native.StartRefresh` | crates/attestation/src/collateral/store.rs:736-752 | the imperative refresh looks again, under the lock, whether the entry is due, as the step does |
| `NativeStore.Native.CheckFailed` | crates/attestation/src/collateral/store.rs:581-596 | looking at recorded failures in place is the step |
| `NativeStore.Native.CheckPause` | crates/attestation/src/collateral/store.rs:597-605 | looking at the host's pause in place is the step |
| `NativeStore.Native.AdmitCold` | crates/attestation/src/collateral/store.rs:669-683 | `admit_cold`, which updates second and counter in place, is the step |
| `NativeStore.Native.HandleReply` | crates/attestation/src/collateral/store.rs:609-660 | classifying a reply and pausing the host in place is the step |
| `NativeStore.Native.RecordFailure` | crates/attestation/src/collateral/store.rs:637-651 | recording a failure is the step and touches nothing else |
| `NativeStore.Native.Complete` | crates/attestation/src/collateral/store.rs:721-776 | what memory holds after a load or refresh is the step's outcome |
| `Lookup.Newest` | crates/attestation/src/collateral/store.rs:302-313 | the loop's choice: not older than any copy, and newer than every copy before it |
| `Lookup.NewestOnHand` | crates/attestation/src/collateral/store.rs:302-313 | the loop over the copies on hand keeps the first newest one and refuses when any copy does not verify |
| `Lookup.View.Lookup` | crates/attestation/src/collateral/store.rs:295-342 | the imperative lookup gives the rule's answer, asks the fallback exactly when the rule says so, records the response once and lists the missing URL once |
| `Lookup.View.constructor` | crates/attestation/src/collateral/store.rs:211-229 | a view starts with nothing used, and of two attachments for one URL the later one counts |
| `Lookup.LastAttachmentCounts` | crates/attestation/src/collateral/store.rs:218-224 | the attached copy of a URL is exactly the last one the evidence carries for it |
| `Lookup.View.OnHand` | crates/attestation/src/collateral/store.rs:347-365 | which copies are on hand and in what order: a held one first, an attached one last, the cached one before it and only beside it, nothing else |
| `Lookup.View.Record` | crates/attestation/src/collateral/store.rs:232-239 | a used response is kept once per URL, the first one |
| `Lookup.FirstResponseIsKept` | crates/attestation/src/collateral/store.rs:232-239 | keeping a response adds it for its URL when there is none yet, at the end, and changes no other, so each URL keeps its first |
| `Lookup.View.Load` | crates/attestation/src/collateral/store.rs:369-384 | a store without memory or network answers offline and lists the URL once |
| `Lookup.MissingIsListedOnce` | crates/attestation/src/collateral/store.rs:379-383 | a missing URL is listed once, at the end, and none is taken off |
| `Lookup.AnswerVerifies` | crates/attestation/src/collateral/store.rs:291-342 | a returned piece verifies for the exact id asked, whatever disk, upstream, caller and attester supplied, and so does every copy on hand; what is said of it (current, stale, version, floor) is true of its dates |
| `Lookup.AnswerIsNewest` | crates/attestation/src/collateral/store.rs:295-342 | for every answer: when a copy carries the same dates for each id of its URL, the returned piece is no older than any copy on hand or the loaded one, and ties go to held, cached, attached, loaded |
| `Lookup.AnswerIsFirstNewest` | crates/attestation/src/collateral/store.rs:300-339 | the answer is the first newest of all copies considered, the loaded one last |
| `Lookup.NoAnswerMeans` | crates/attestation/src/collateral/store.rs:295-337 | a lookup fails exactly when a copy on hand is bad, or a loaded copy newer than all is bad, or there is no copy at all; the first two are refusals, the last is the fallback's failure |
| `Lookup.AskedExactlyWhenNonePasses` | crates/attestation/src/collateral/store.rs:316-323 | that the fallback is asked exactly when no copy passes fails exactly when some copy passes while the newest lies outside its window with grace; a floor never makes the difference |
| `Lookup.AskedThoughACopyPasses` | crates/attestation/src/collateral/store.rs:316-339 | an input where the fallback is asked, and its failure answered with a copy that does not pass, although another copy on hand passes |
| `Lookup.ServeRaw` | crates/attestation/src/collateral/serve.rs:103-120 | what a cache serves for a piece is the very response that lookup verified; the "kept no response" exit is not reached |
| `Lookup.ServedMeans` | crates/attestation/src/collateral/serve.rs:103-120 | a cache's client is told "not published" exactly when nothing is held and the upstream said so (the vendor's word, or a 404 or 410 of anyone), "unavailable" with the upstream's Retry-After exactly for its other failures, "refused" only when a copy does not verify |
| `Published.NoneMeans` | crates/attestation/src/collateral/store.rs:281-293 | a lookup answers "none" exactly when nothing is on hand and the fallback failed with a 404 or 410 |
| `Published.NoneOfAReply` | crates/attestation/src/collateral/store.rs:281-293 | a reply reads as "none" exactly when it is a 404 or 410 and not the vendor's own about a piece the evidence names |
| `Published.ACachesNotFoundIsTaken` | crates/attestation/src/collateral/store.rs:281-293 | an input: a cache's 404 about a piece the evidence does not name is answered as not published |
| `Published.NotFoundIsAReply` | crates/attestation/src/collateral/store.rs:623-660 | in every run an operation that ends in a 404 or 410 had that very answer from the upstream, never from a recorded failure |
| `Published.NoneIsTheVendorsWithoutACache` | crates/attestation/src/collateral/store.rs:281-293 | in a run without a cache as upstream "none" is the vendor's own word about a piece the evidence does not name; about one it names "none" is always a cache's |
| `MeasurementRegisters.Extend` | crates/attestation/src/platforms/snp/measurement_registers.rs:37-43 | one register is overwritten by its extension, the other fifteen stay |
| `MeasurementRegisters.Replay` | crates/attestation/src/platforms/snp/measurement_registers.rs:71-99 | the loop over entries is the functional replay, errors included |
| `MeasurementRegisters.ReportDataFor` | crates/attestation/src/platforms/snp/measurement_registers.rs:51-66 | the buffer filled step by step is header and hash of the commitment |
| `MeasurementRegisters.Verify` | crates/attestation/src/platforms/snp/measurement_registers.rs:104-120 | the imperative check is the functional one |
| `MeasurementRegisters.ReplayOutcome` | crates/attestation/src/platforms/snp/measurement_registers.rs:71-100 | a log is refused for its length or its first index above 15 and for nothing else, is too short exactly below the event count, and is replayed otherwise |
| `MeasurementRegisters.EntryExtends` | crates/attestation/src/platforms/snp/measurement_registers.rs:91-99 | each entry turns the register it names into the hash of its value followed by the entry's digest and changes no other |
| `MeasurementRegisters.ReportLayout` | crates/attestation/src/platforms/snp/measurement_registers.rs:45-69 | the report data is the event count, low byte first, twelve zeros, and the hash over tag, header, the registers in order and the caller's data |
| `MeasurementRegisters.ReplayContinues` | crates/attestation/src/platforms/snp/measurement_registers.rs:89-98 | replaying n + m entries is replaying n and going on with the rest of the log |
| `MeasurementRegisters.ReplayReadsOnlyItsPrefix` | crates/attestation/src/platforms/snp/measurement_registers.rs:89-98 | entries behind the count do not change the registers |
| `MeasurementRegisters.LaterEventsKeepTheVerdict` | crates/attestation/src/platforms/snp/measurement_registers.rs:101-120 | appending whole valid entries never changes an accepted verdict |
| `MeasurementRegisters.HonestReportsAreAccepted` | crates/attestation/src/platforms/snp/measurement_registers.rs:51-120 | a report made over a replayed log is accepted for every log and count: verify inverts report_data |
| `MeasurementRegisters.RegisterIsItsChain` | crates/attestation/src/platforms/snp/measurement_registers.rs:89-98 | each register is the hash chain of its own digests in order |
| `MeasurementRegisters.ChainClash` | crates/attestation/src/platforms/snp/measurement_registers.rs:37-43 | two digest sequences that end in one register are equal, or an explicit SHA-384 collision or preimage of the zero register is computed |
| `MeasurementRegisters.RegistersClash` | crates/attestation/src/platforms/snp/measurement_registers.rs:37-98 | the same for all registers of two logs |
| `MeasurementRegisters.BindingClash` | crates/attestation/src/platforms/snp/measurement_registers.rs:101-120 | one REPORT_DATA accepted with two logs and caller data means equal counts, caller data, registers and per-register digest sequences, or an explicit collision or zero preimage |
| `MeasurementRegisters.SameDigestsSameRegisters` | crates/attestation/src/platforms/snp/measurement_registers.rs:89-98 | logs that agree register by register replay to the same registers |
| `MeasurementRegisters.SameSequencesSameVerdict` | crates/attestation/src/platforms/snp/measurement_registers.rs:101-120 | logs with the same per-register digest sequences get one verdict from every report over those entries |
| `MeasurementRegisters.InterleavingIsNotBound` | crates/attestation/src/platforms/snp/measurement_registers.rs:101-120 | two different logs that every report with an event count other than one accepts or refuses alike |
| `MeasurementRegisters.FirstEntryIsBound` | crates/attestation/src/platforms/snp/measurement_registers.rs:101-120 | a report that counts the first entry only, accepted with both of those logs, breaks the hash explicitly |
| `MeasurementRegisters.SnpResult.CheckMeasurementRegisters` | crates/attestation/src/platforms/snp/measurement_registers.rs:122-150 | the result fields afterwards: report data matches only with an accepted commitment and a held launch digest pin; registers are shown only on a passed verdict and are then the pinned ones; a malformed log changes nothing |
| `TpmQuote.ParseQuoteInfo` | crates/attestation/src/platforms/tpm_common.rs:542-630 | the parser that advances an offset answers as the functional reading, error by error |
| `TpmQuote.ParseSelections` | crates/attestation/src/platforms/tpm_common.rs:568-605 | the loop over selections collects hash algorithms and PCR indices of each, in order |
| `TpmQuote.ParseBitmap` | crates/attestation/src/platforms/tpm_common.rs:596-604 | the nested loops push the indices of the set bits |
| `TpmQuote.ExtractNonce` | crates/attestation/src/platforms/tpm_common.rs:438-468 | the nonce parser answers as the functional reading |
| `TpmQuote.SelectedAreTheSetBits` | crates/attestation/src/platforms/tpm_common.rs:596-604 | a PCR is selected exactly when its bit is set |
| `TpmQuote.BitsMakeUpTheByte` | crates/attestation/src/platforms/tpm_common.rs:596-604 | the bits looked at are those of the binary form: their weights add up to the byte |
| `TpmQuote.WhyNoQuote` | crates/attestation/src/platforms/tpm_common.rs:542-631 | why a message is no quote: the part it ends in, in the order of the message, or that it is not one SHA-256 selection |
| `TpmQuote.WhyNoSelections` | crates/attestation/src/platforms/tpm_common.rs:570-592 | why selections are not read: the part of the first incomplete one that is missing |
| `TpmQuote.WhyNoNonce` | crates/attestation/src/platforms/tpm_common.rs:438-469 | why a message has no nonce: too short, another magic, or the sized field it ends in |
| `TpmQuote.SetBits` | crates/attestation/src/platforms/tpm_common.rs:596-604 | selected PCRs are strictly increasing |
| `TpmAttest.PrintedIsRead` | crates/attestation/src/platforms/tpm_common.rs:542-630 | parse after print is the identity; a well-formed message that is no quote over one SHA-256 selection is refused |
| `TpmAttest.AcceptedIsPrinted` | crates/attestation/src/platforms/tpm_common.rs:542-630 | every accepted message is the print of exactly the quote read from it, up to trailing bytes the parser ignores |
| `TpmAttest.AcceptedQuotes` | crates/attestation/src/platforms/tpm_common.rs:542-648 | a well-formed message is accepted exactly when its type is 0x8018 and it has one selection, of bank 0x000B |
| `TpmAttest.NonceMeans` | crates/attestation/src/platforms/tpm_common.rs:438-469 | a nonce is read from exactly the messages that carry the magic and reach to its end, and it is their extra data |
| `TpmAttest.NonceIsExtraData` | crates/attestation/src/platforms/tpm_common.rs:438-468 | the nonce read is the printed extraData, whatever else the message says, if it carries the magic |
| `TpmAttest.SelectedAreOneBitmap` | crates/attestation/src/platforms/tpm_common.rs:632-651 | an accepted quote has one selection and its PCRs are the set bits of that bitmap |
| `TpmAttest.HugeCountsStopEarly` | crates/attestation/src/platforms/tpm_common.rs:568-605 | a selection count larger than a third of the message gives the very error that count gives: no 32-bit count loops longer |
| `TpmPcrs.VerifyTpmPcrs` | crates/attestation/src/platforms/tpm_common.rs:481-538 | the check with its growing concatenation is the functional one, error by error |
| `TpmPcrs.VerifiedMeans` | crates/attestation/src/platforms/tpm_common.rs:481-538 | the PCR array passes exactly when it is nonempty, all entries are 32 bytes, the quote parses, every selected PCR is there and the hash of the selected values is the signed digest |
| `TpmPcrs.NotVerifiedMeans` | crates/attestation/src/platforms/tpm_common.rs:481-537 | why an array fails: empty, the first entry that is not 32 bytes, a bad quote, the first selected PCR it does not reach, or the digest, in this order |
| `TpmPcrs.ChosenAt` | crates/attestation/src/platforms/tpm_common.rs:481-537 | what is hashed is the selected values in the order of the selection |
| `TpmPcrs.SelectedPcrsAreBound` | crates/attestation/src/platforms/tpm_common.rs:512-535 | two arrays that pass for one quote agree on every selected PCR, or SHA-256 collides on the two concatenations |
| `TpmPcrs.VerdictsAreBound` | crates/attestation/src/platforms/tpm_common.rs:687-774 | for arrays that passed, the verdicts of check_pcrs and check_init_data depend on nothing the quote does not sign, or SHA-256 collides |
| `TpmPcrs.InitDataIsBound` | crates/attestation/src/platforms/tpm_common.rs:697-722 | one quote confirms one init-data hash only, whatever arrays come with it, or SHA-256 collides |
| `TpmPcrs.InitDataMeans` | crates/attestation/src/platforms/tpm_common.rs:697-722 | init data is confirmed exactly when the quote signs PCR 8 and its value is that of a register extended by the hash and nothing else; an unsigned PCR 8 is a mismatch whatever the array says |
| `TpmPcrs.PinsAreBound` | crates/attestation/src/platforms/tpm_common.rs:745-784 | two pin maps confirmed for one quote agree on every register they share, whatever arrays came along, or SHA-256 collides |
| `TpmPcrs.PinsMean` | crates/attestation/src/platforms/tpm_common.rs:745-784 | beside an array that passes, pins are confirmed exactly when each names a selected register up to 23 and its very value; the error is the smallest pin above 23 |
| `TpmPcrs.TooFewIsUnreachable` | crates/attestation/src/platforms/tpm_common.rs:713-718 | once the PCRs verified, check_init_data errs only for a hash that is not 32 bytes, never for too few PCRs |
| `TpmPcrs.UnselectedEntriesAreFree` | crates/attestation/src/platforms/tpm_common.rs:687-693 | replacing an entry outside the selection changes neither the PCR check nor a verdict |
| `TpmPcrs.UnselectedPinsAreNotConfirmed` | crates/attestation/src/platforms/tpm_common.rs:736-743 | a pin outside the signed selection is never confirmed, whatever the array says |
| `TpmPcrs.CheckPcrs` | crates/attestation/src/platforms/tpm_common.rs:745-774 | the loop over pins answers whether every pin is selected and equal, after the checks of emptiness, index range and quote |
| `TpmPcrs.CheckPinIndexes` | crates/attestation/src/platforms/tpm_common.rs:776-784 | the smallest pin above 23 is the one reported, and none exactly when every pin names a PCR |
| `Protobuf.Varint` | crates/attestation/src/platforms/gcp_endorsement.rs:338-357 | the loop that assembles a varint by shifts answers as the reader |
| `Protobuf.VarintIsCanonical` | crates/attestation/src/platforms/gcp_endorsement.rs:338-357 | the varint reader accepts exactly the printer's outputs below 2^64 and never exits with "too long" |
| `Protobuf.Fields` | crates/attestation/src/platforms/gcp_endorsement.rs:337-387 | the loop over the buffer answers as the functional parse, error by error |
| `Protobuf.PayloadRoundTrip` | crates/attestation/src/platforms/gcp_endorsement.rs:374-383 | a field's value is read exactly from its encoding, for each wire type |
| `Protobuf.ReaderAcceptsExactlyEncodings` | crates/attestation/src/platforms/gcp_endorsement.rs:337-387 | the reader accepts exactly the concatenations of field encodings and says which fields they encode |
| `Protobuf.MessagesAreCanonical` | crates/attestation/src/platforms/gcp_endorsement.rs:305-387 | for messages of varint and length-delimited fields, parsing and printing are inverse in both directions: one encoding a message |
| `Protobuf.ParseOfConcatenation` | crates/attestation/src/platforms/gcp_endorsement.rs:368-386 | after an accepted message the reader goes on with what follows, errors included |
| `Protobuf.WhyNoVarint` | crates/attestation/src/platforms/gcp_endorsement.rs:338-357 | a varint is refused only where the buffer ends, at a tenth byte above one, or at a zero after the first byte |
| `Protobuf.WhyNoField` | crates/attestation/src/platforms/gcp_endorsement.rs:366-384 | a field is refused for its key, number zero, another wire type, or a value that is not all there, each by its own error |
| `Protobuf.WhyNoMessage` | crates/attestation/src/platforms/gcp_endorsement.rs:364-388 | a message is refused for its first bad field, behind fields that are accepted |
| `Protobuf.TooLongIsUnreachable` | crates/attestation/src/platforms/gcp_endorsement.rs:356-356 | the "varint too long" exit is unreachable |
| `Endorsement.ParseGolden` | crates/attestation/src/platforms/gcp_endorsement.rs:389-411 | field by field, the parsed measurement is the fold of the fields |
| `Endorsement.LastBytes` | crates/attestation/src/platforms/gcp_endorsement.rs:132-141 | the last value of a field, an error if any of its values is of another kind |
| `Endorsement.LastValueWins` | crates/attestation/src/platforms/gcp_endorsement.rs:132-141 | when a golden measurement parses, last_bytes finds for each of its length-delimited fields the very value the measurement holds |
| `Endorsement.UnknownFieldsAreIgnored` | crates/attestation/src/platforms/gcp_endorsement.rs:389-411 | unknown fields, wherever they stand, change neither value nor error |
| `Endorsement.AppendedMessageOverrides` | crates/attestation/src/platforms/gcp_endorsement.rs:389-411 | a message appended to an accepted one is read on top of what the first one set |
| `Endorsement.CheckEndorsement` | crates/attestation/src/platforms/gcp_endorsement.rs:110-130 | accepted exactly when: the golden measurement is the parse of the very bytes the signature covers, the signing certificate is its own cert field, and provenance holds |
| `Endorsement.WhyNotEndorsed` | crates/attestation/src/platforms/gcp_endorsement.rs:110-130 | the reasons of a refusal and their order, each counting only when all before it are right |
| `Endorsement.ProvenanceMeans` | crates/attestation/src/platforms/gcp_endorsement.rs:110-130 | a rightly signed endorsement is accepted exactly when it is not later than 2 August 2024 or names a changelist or a commit |
| `Endorsement.EmptyMessagesAreZero` | crates/attestation/src/platforms/gcp_endorsement.rs:389-465 | absent fields read as zero, no bytes or nothing |
| `Endorsement.WrongFieldsAreRefused` | crates/attestation/src/platforms/gcp_endorsement.rs:315-334 | a known field of another kind or a number that does not fit its type is an error, never a default |
| `Endorsement.NoCertNoEndorsement` | crates/attestation/src/platforms/gcp_endorsement.rs:110-130 | without a certificate in the signed bytes nothing is endorsed |
| `GoldenMessages.GoldenRoundTrip` | crates/attestation/src/platforms/gcp_endorsement.rs:389-411 | reading a printed golden measurement gives it back, every field by its number, down to every SEV-SNP entry and TDX RAM size of the embedded messages |
| `GoldenMessages.SevSnpIsRead` | crates/attestation/src/platforms/gcp_endorsement.rs:420-443 | a printed SEV-SNP measurement is read back; of two entries for one vCPU count the later one counts |
| `GoldenMessages.TdxIsRead` | crates/attestation/src/platforms/gcp_endorsement.rs:445-466 | a printed TDX measurement is read back, its RAM sizes in order |
| `Envelope.Evidence.Attach` | crates/attestation/src/types.rs:106-128 | the in-place rewrite leaves exactly the stripped, sorted, delta-written list |
| `Envelope.Evidence.HeldCollateral` | crates/attestation/src/types.rs:91-102 | the reader gives each piece the nearest chain at or before it |
| `Envelope.StableSortIsUnique` | crates/attestation/src/types.rs:110-110 | a stable sort by chain and URL is unique, so any sort algorithm gives this list |
| `Envelope.LeMeans` | crates/attestation/src/types.rs:110-110 | text is ordered by prefix, or by the smaller byte where it first differs |
| `Envelope.SortIsStable` | crates/attestation/src/types.rs:110-110 | the sort used here is such a stable sort and a permutation |
| `Envelope.DeltaRoundTrip` | crates/attestation/src/types.rs:68-128 | reading back what was written gives the same list exactly when no piece without a chain stands behind one with a chain |
| `Envelope.AttachRoundTrip` | crates/attestation/src/types.rs:91-128 | held_collateral after attach is a permutation of the responses with roots stripped, stably sorted |
| `Envelope.EachChainOnce` | crates/attestation/src/types.rs:104-105 | every chain that remains is written exactly once |
| `Envelope.AttachAgain` | crates/attestation/src/types.rs:91-128 | attaching the list read back gives the identical envelope when root stripping is idempotent |
| `ColdSet.RunKeepsInv` | crates/attestation-cache/src/lib.rs:228-243 | in every state of every run at most 16 URLs are in the cold set, and they correspond one to one with the live guards |
| `ColdSet.BusyMeans` | crates/attestation-cache/src/lib.rs:228-238 | a request is answered busy exactly when 16 guards are alive and none is for its URL: a URL being fetched is never busy |
| `ColdSet.EmptyWithoutGuards` | crates/attestation-cache/src/lib.rs:299-306 | the set is empty exactly when no request holds a guard |
| `ColdSet.LeavingFreesItsOwn` | crates/attestation-cache/src/lib.rs:300-306 | a request that ends frees its own URL if it was fetching it, and never one another request is fetching |
| `ColdSet.KnownIsBounded` | crates/attestation-cache/src/lib.rs:153-159 | the swept set never forgets and never grows beyond 1024 or what it was told to warm |
| `ColdSet.KnownMeans` | crates/attestation-cache/src/lib.rs:153-159 | the sweep keeps what it was told to warm and exactly the URLs once served as a shared piece while there was room |
| `ColdSet.RunGoesOn` | crates/attestation-cache/src/lib.rs:222-306 | at any moment a new request can arrive and any request under way can end |
| `ColdSet.CrowdIsReached` | crates/attestation-cache/src/lib.rs:239-242 | what is not bounded: for every n a run leads to n + 1 requests under way for one URL in the set |
| `ColdSet.Cache.Begin` | crates/attestation-cache/src/lib.rs:222-242 | the check and insert under the lock is the state machine's step |
| `ColdSet.Cache.End` | crates/attestation-cache/src/lib.rs:300-306 | the end of a request, with its guard's drop, is the step |
| `ColdSet.Cache.Remember` | crates/attestation-cache/src/lib.rs:153-159 | a URL is remembered only while fewer than 1024 are |
| `Kds.UrlIsRead` | crates/attestation/src/collateral/serve.rs:122-153 | vcek_id reads back from the printed URL exactly the id, a Turin CHIP_ID cut to 8 bytes and zero-padded |
| `Kds.NamedKeepsMilanAndGenoa` | crates/attestation/src/collateral/amd.rs:41-60 | for Milan and Genoa the id is unchanged, and the normalised id has the same URL |
| `Kds.SharedUrl` | crates/attestation/src/collateral/amd.rs:41-60 | two ids share a URL exactly when they differ in nothing but the last 56 bytes of a Turin CHIP_ID |
| `Kds.CrlIsNoVcek` | crates/attestation/src/collateral/serve.rs:36-49 | no CRL URL is read as a VCEK |
| `Kds.CrlIsAtItsUrl` | crates/attestation/src/collateral/serve.rs:36-43 | each CRL URL names its own CRL |
| `Kds.ServedExactlyWhatIsPublished` | crates/attestation/src/collateral/serve.rs:36-49 | the dispatch serves a piece only at its own URL, and at the URL of every VCEK and CRL that piece |
| `Kds.OnlyPrintedUrlsAreServed` | crates/attestation/src/collateral/serve.rs:45-49 | a URL is served as an AMD piece exactly when some piece prints to it |
| `Kds.TcbIsRead` | crates/attestation/src/collateral/serve.rs:139-151 | the TCB is read back from its printed parts, each part by its own name |
| `Kds.SplitJoined` | crates/attestation/src/collateral/serve.rs:140-142 | splitting at `&` inverts joining |
| `Kds.HexRoundTrip` | crates/attestation/src/collateral/serve.rs:136-136 | hex decoding inverts hex encoding |
| `Kds.HexIsRead` | crates/attestation/src/collateral/serve.rs:136-136 | hex is written in small letters and read exactly when it is what is written but for the case of letters |
| `Kds.DecimalIsRead` | crates/attestation/src/collateral/amd.rs:48-58 | a number printed with at least two digits is read back |
| `Kds.ByteIsRead` | crates/attestation/src/collateral/serve.rs:139-144 | a number is read exactly with any zeros before it and a plus sign before those |
| `Kds.FirstNamedMeans` | crates/attestation/src/collateral/serve.rs:139-144 | of several parts with one name the first counts, even when nothing follows its equals sign |
| `PercentCoding.PercentDecode` | crates/attestation/src/collateral/vendor.rs:362-384 | the index loop ends, stays in bounds on every input, and the text is what reading the functional decoder's bytes as UTF-8 gives |
| `PercentCoding.RoundTrip` | crates/attestation-cache/src/lib.rs:314-324 | decoding what was encoded gives the bytes back, for every byte string |
| `PercentCoding.TextRoundTrip` | crates/attestation/src/collateral/vendor.rs:362-384 | text arrives as it was sent when reading as UTF-8 keeps text |
| `PercentCoding.EncodedIsAHeaderValue` | crates/attestation-cache/src/lib.rs:255-259 | encoded text is visible ASCII, so the header value is never refused |
| `PercentCoding.UnreservedAre` | crates/attestation-cache/src/lib.rs:314-324 | what is not encoded is letters, digits and -._~ |
| `PercentCoding.EscapesMean` | crates/attestation/src/collateral/vendor.rs:363-384 | an escape is a percent sign with two hex digits of any case, or a plus sign and one |
| `PercentCoding.OnlyEncodingsComeBack` | crates/attestation/src/collateral/vendor.rs:363-384 | encoding what was decoded gives the input back exactly when every byte is unreserved or part of an escape with two capital digits of a reserved byte, and those inputs are exactly the encodings |
| `KeySet.KeysUsed` | crates/attestation/src/platforms/nvidia_gpu/verify.rs:146-164 | the in-place retain leaves exactly the keys whose kid a token names, in order; a body that is no key set is passed on |
| `KeySet.VerifiesMeans` | crates/attestation/src/platforms/nvidia_gpu/verify.rs:464-520 | a token verifies exactly when it is compact, ES384, without critical extensions, and the first key of its kid is anchored, in its period and accepts it |
| `KeySet.KidNotFoundMeans` | crates/attestation/src/platforms/nvidia_gpu/verify.rs:490-494 | the error that has the key set fetched anew arises exactly when all before the key is right and no key has the kid |
| `KeySet.TokenIsLookedAtFirst` | crates/attestation/src/platforms/nvidia_gpu/verify.rs:464-489 | shape, header, algorithm, critical extensions and kid are looked at in this order, whatever the keys |
| `KeySet.KnownMeans` | crates/attestation/src/platforms/nvidia_gpu/verify.rs:49-59 | every kid is known exactly when each answer has its shape and each kid a token names is that of some key |
| `KeySet.CollectKids` | crates/attestation/src/platforms/nvidia_gpu/verify.rs:148-159 | the kids collected are exactly those some token of a well-shaped answer names |
| `KeySet.CutKeepsTheFirstKey` | crates/attestation/src/platforms/nvidia_gpu/verify.rs:489-493 | looking up a named kid in the cut set finds the very same first key, also with duplicate kids; any other kid finds none |
| `KeySet.CutKeepsEveryVerdict` | crates/attestation/src/platforms/nvidia_gpu/verify.rs:462-520 | every token of every answer verifies against the cut set as against the full one, error included |
| `KeySet.CutKeepsKnown` | crates/attestation/src/platforms/nvidia_gpu/verify.rs:49-59 | whether a kid is missing is the same question of both sets |
| `KeySet.CutSetVerifies` | crates/attestation/src/collateral/nvidia.rs:26-42 | the cut set is accepted as collateral exactly when a key under the anchor is named |
| `KeySet.VerifyingTokenKeepsTheSet` | crates/attestation/src/collateral/nvidia.rs:26-42 | one token that verifies with the full set is enough for the cut set to be accepted |
| `KeySet.CutSetCanFail` | crates/attestation/src/collateral/nvidia.rs:26-42 | without such a token an accepted set can be refused when cut |

## Left out

- Lookup.AnswerIsNewest: promises the order only when a copy carries the same dates for every id its URL is for, because the code compares the dates the entry was loaded with; Lookup.AnswerIsFirstNewest needs no such condition, and StoreEntry.LoadedIsDatedAlike derives it.
- StoreEntry.LookupsNeverGoBack: takes as given that dates are in the copy; reading them is certificate and JSON parsing.
- PercentCoding.PercentDecode: does not say what reading undecodable bytes as UTF-8 gives, because that conversion is the standard library's; it is a parameter.
- Envelope.AttachAgain: takes as given that removing roots twice changes nothing more; PEM parsing is not part of this model.
- Memory is modelled without eviction, so nothing is claimed about a URL that fell out of moka's 4096 entries.
- The recorded failures are kept in a moka cache of 4096 entries too (`crates/attestation/src/collateral/store.rs:516`), modelled without eviction: every claim that a standing failure holds requests back is about failures not evicted.
- `cached` (what memory or disk has, nothing fetched): what it answers is a parameter of `Lookup.View.Lookup`.
- `Store::serve` as a whole: the dispatch of AMD URLs (`Kds.PieceAt`) and the serving of one piece (`Lookup.ServeRaw`) are modelled.
- The disk: what a read returns is arbitrary; writes and what other processes put there are not modelled.
- HTTP, vsock, TLS, retries of a single request, discovery of the host's cache, timeouts: a reply is any value at any time.
- Overflow of i64 in `refresh_at` for dates near the ends of the range: times there are integers.
- The text of errors and log messages; error kinds are kept.
- Signatures, certificates, CRLs, RSA, ECDSA and their libraries: parameters.
- Base64, hex of evidence, JSON and PEM: values arrive decoded.
- Timing of constant-time comparisons: modelled as equality.
- The other URLs a cache serves (Intel, Google, NVIDIA): compared with the printed URL as the AMD ones are.
- TDX quotes, DCAP and CCEL, HCL reports, GPU device verification, claims extraction, policies, command lines: not modelled.
