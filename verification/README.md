# Versentry in Dafny

Versentry watches running containers, asks image registries for newer tags or digests, and notifies
when it finds one. This project models its stateful and algorithmic cores and proves what they promise.

| file | models |
|---|---|
| `Model.dfy`, `NotificationState.dfy` | updates and their state keys; the store of last-notified targets, its file and its save protocol |
| `Runs.dfy`, `History.dfy` | one pass (filter, deliver, record, prune, save) as a method on a store and notifiers; whole runs with crashes and restarts as a state machine; the laws of every history |
| `Engine.dfy` | `RunOnce` and the container checks: which updates are reported, why each is real, which keys stay active |
| `Coordinator.dfy` | the one-slot queue between signals, schedule and passes, in all interleavings |
| `RegistryRetry.dfy`, `RegistryPass.dfy` | the 429/5xx retry recursion against a response script and a time budget; the per-pass memo cache |
| `Semver.dfy`, `SemverSelect.dfy`, `NumericSelect.dfy`, `SelectorsAgree.dfy`, `BareInteger.dfy` | versions, both tag selectors, their agreement, the bare-integer diagnosis |
| `Rules.dfy` | rule validation and lookup |
| `DiscordEmbeds.dfy`, `DiscordContent.dfy` | splitting and packing for Discord |
| `HttpRetry.dfy` | the notifiers' HTTP retry loop in 64-bit nanoseconds |
| `Text.dfy`, `Arith.dfy`, `Wrappers.dfy` | strings, powers, options |

What the code changes step by step is a class or a method with a loop, proved against a specification
function or a declarative predicate; the laws are lemmas about those. Methods that change nothing but
locals (selectors, parsers, packing) state their result outright.

Selection, retrying, suppression, packing and checking each have a second, independent description in
plain terms, with literal limits and the fields of the data in place of the predicates the code shares
with its specification, and a lemma that ties the two: `ScanRequests`, `ComparesByPrecedence`,
`CheckReports`, `WithheldWasDelivered`, `PartitionsAreMessages` and their neighbours.

## Environment and assumptions

- Everything outside is a parameter: container list, registry replies and their duration, notifier
  answers, clock readings, save faults, crash points, cancellation, other goroutines' requests.
- The semver parser is an arbitrary function from tags to versions. Two assumptions are made of it where
  they are needed: that two- and three-segment numeric tags are read with missing segments as 0
  (`SelectorsAgree.ReadsShortDotted`) and that bare integers carry no pre-release
  (`BareInteger.BaresAreReleases`). Precedence is that of section 11 of Semantic Versioning 2.0.0.
- The regular expression engine and the image reference parser are arbitrary functions; of the latter
  `Engine.TagsHaveRepos` is used: a reference with a tag has a repository.
- A `char` is one byte; white space is the ASCII kind.
- Hosts hold no `/` (`Engine.HostsHaveNoSlash`); container names hold no `|` and differ
  (`Engine.DistinctNames`); repositories hold no `#`. These are `requires` of the injectivity lemmas and
  of what rests on them. Renaming a file is atomic. An unreadable state file counts as a corrupt one.
- A sleep that ends on the same instant as its context may go either way (`Env.tie`).

## Where code, comments and documentation differ

- `docs/configuration.md` says (lines 247 and 315) that state is saved only after all notifiers succeed.
  The code saves after every state-writing pass; a refused delivery only keeps its updates from being
  recorded, and pruning still happens. So the rule holds of a refused pass exactly when no inactive key
  is there to prune (`History.RefusedPassStillSaves`); `History.RefusedDeliveryRewritesFile` is an input
  where it fails.
- `docs/configuration.md` promises (line 303) one short Retry-After retry per request. The code retries
  again after an intervening 5xx, exactly when `RegistryRetry.TwoLimitsRetriedExactly` says, as on the
  input of `RegistryRetry.TwoLimitsRetried`. A request is bounded by its deadline only
  (`RegistryRetry.CallsAreBounded`, reached by `RegistryRetry.CallBoundIsReached`).
- The third criterion of `preferEqualSemverTag`, the suffix, never decides: equal versions have equal
  suffixes (`SemverSelect.SelectedFormIsClosest`).
- Docker Hub lookup keys are not symmetric for the empty name; `Rules.HubKeysAreSymmetricExcept` says
  exactly where. Validation rejects empty images, so lookups are unambiguous all the same.
- `splitDigestLinesIntoEmbeds` measures the line that closes the first group with the title still on,
  so the second embed may close with room left. `DiscordEmbeds.SecondEmbedClosesEarly` says exactly when,
  `DiscordEmbeds.SecondLineStaysAlone` is an input; nothing is lost by it.
- "Nothing is repeated without cause" needs one target per key in a pass. `Engine.RunOnceReportsWell`
  derives it from distinct container names, `Engine.NoRepeatAcrossPasses` draws the conclusion for whole
  runs, and `History.SecondPassIsSilentExactly` shows that exactly batches without it are repeated.

## Model

| member | source | states |
|---|---|---|
| History.NoInventedRecord | internal/core/app.go:269-306 | Over every run with crashes and restarts, a live process's entry was loaded from the first file or accepted by every notifier in an earlier state-writing pass, with that key, target and time |
| History.NothingLost | internal/core/app.go:269-306 | Every update a pass of any run reports is offered to every notifier; or the pass was stopped while delivering and committed nothing, so it is offered again; or its target was loaded from the first file, or every notifier accepted the same target for the same key in an earlier committed pass |
| History.WithheldWasDelivered | internal/core/app.go:269-306 | Over every run, an update that a suppressing pass reports and does not offer was on the first file under its key with the tag or bare digest it moves to, or every notifier accepted an update of that key to that tag, or to that digest, in an earlier committed pass |
| History.SuppressedExactlyWhenStanding | internal/state/state.go:119-148 | A suppressing pass holds an update back if and only if its target was loaded or delivered earlier and since then no pass delivered another target for the key or pruned it as inactive |
| History.NoRepeatWithoutCause | internal/state/state.go:134-148 | A target delivered by two passes of a run has a cause in between: another target delivered for the key, or a pruning pass that found it inactive |
| History.TwoTargetsPerKeyRepeat | internal/state/state.go:162-172 | Without one target per key the law fails: any two targets under one key in one pass make the next pass deliver the first again |
| History.AllRecordedExactly | internal/state/state.go:162-172 | A delivered and committed pass with all keys active leaves everything it reported on file if and only if it reported one target per key |
| History.SecondPassIsSilentExactly | internal/core/app.go:269-306 | After any run, a scheduled pass accepted by all and run once more offers nothing the second time if and only if it reported one target per key |
| History.CrashLeavesOldOrNew | internal/state/state.go:188-228 | Take any file at which `RunPass` may be stopped in a live process of any run. Stopping there is one of the crash events of runs: it leaves exactly that file, and the next start loads the entries from before the pass or those after it |
| History.CleanRestartChangesNothing | internal/state/state.go:39-73 | After any run, restarting a live process changes neither memory nor file nor history: a completed save loads back what was saved |
| History.UncommittedOffersAgain | internal/core/app.go:286-303 | Until another pass commits, what an interrupted or failed pass offered is offered again whenever it is reported: a crash can cause redelivery, never loss |
| History.ForcedPassLeavesNoTrace | internal/core/app.go:270-303 | Whatever a forced pass delivers, every later state of the run is what it would have been without that pass |
| History.UncommittedPassLeavesNoTrace | internal/core/app.go:269-306 | The same for a pass without a listing, with a failed save or stopped before the rename, once the process is started again |
| History.RefusedDeliveryOnlyPrunes | internal/core/app.go:286-303 | A committed pass that some notifier refused changes the entries if and only if pruning is allowed and some recorded key is inactive |
| History.RefusedPassStillSaves | docs/configuration.md:247 | In every run a refused state-writing pass rewrites the file all the same; what the next start reads differs if and only if there was an inactive key to prune |
| History.RefusedDeliveryRewritesFile | docs/configuration.md:315 | An input: the only notifier refuses, and the file loses the entry of a container that is gone |
| History.RunFollowsItsLog | internal/state/state.go:39-73 | Between passes memory mirrors the file, the file is what the history says, and each pass offered what the file before it left to offer |
| History.RecordedIsStanding | internal/state/state.go:162-185 | The entries on file are exactly the targets loaded or delivered and not disturbed since |
| History.CommitRecords | internal/state/state.go:218-228 | After a committed pass a target is on file if and only if the pass delivered it, or it was there and the pass neither overwrote nor pruned it |
| Runs.RunPass | internal/core/app.go:269-306 | One pass is one step of the process model: memory, file, error result, and in the inboxes exactly the offer to the notifiers whose answers the step records. Stopped after `n` notifiers it leaves the inboxes and file of the same pass ended by a crash after `n`; the files it can be stopped at later are exactly those of the save, each left by a crash event of the pass. Without a store a forced pass delivers everything and a suppressing one fails before delivering |
| Runs.PassWithStore | internal/core/app.go:276-306 | The pass after listing, spelled out: entries and file are those of recording what was accepted and pruning; stopped during delivery it leaves a served prefix and the old file, stopped later exactly the files of the save |
| Runs.StopsAreCrashes | internal/state/state.go:188-213 | The old and the new file are both what some crash event of the pass leaves |
| Runs.NotifyAll | internal/core/app.go:253-264 | Every notifier is offered the batch once, whatever the others answer; true if and only if all accepted; stopped in between, exactly a prefix of them has been offered it |
| Model.EntryKeyIsInjective | internal/state/state.go:95-111 | State keys are equal if and only if container part, host and repository are |
| Model.EntryKeyFormat | internal/state/state.go:95-111 | The state key in full: name, else the first twelve characters of the id, else unknown, then host and repository |
| Model.TargetIsWhereItMoves | internal/state/state.go:150-155 | The recorded pair is semver and the latest tag or, without one, digest and the remote digest without its sha256 prefix |
| Model.SameTargetExactly | internal/state/state.go:134-155 | Two updates have the same target if and only if key and latest tag are equal and, where the tag is empty, the remote digests up to the prefix |
| NotificationState.Store.Load | internal/state/state.go:39-73 | A missing, corrupt or older file gives the empty store, a current one its entries |
| NotificationState.LoadedExactly | internal/state/state.go:39-73 | A document holds its entries from version 2 on, every other file none; a saved one has version 2 |
| NotificationState.RecordedExactly | internal/state/state.go:134-148 | An update counts as recorded if and only if the entry of its key holds the tag or bare digest it moves to |
| NotificationState.Store.Filter | internal/state/state.go:119-132 | Splits the batch, in order: suppressed are exactly the updates whose entry holds the tag or bare digest they move to |
| NotificationState.PickMembers | internal/state/state.go:119-148 | An update is notified if and only if it is in the batch and its key holds no entry of its mode and value |
| NotificationState.PickPartitions | internal/state/state.go:119-132 | The two parts together hold every update of the batch as often as the batch does |
| NotificationState.Store.Record | internal/state/state.go:162-172 | The new entries are those of the record function; the last update of each key leaves the tag or bare digest it moves to, and the time |
| NotificationState.RecordAllWrites | internal/state/state.go:162-172 | Each notified key gets mode, value and time of its last update in the batch |
| NotificationState.RecordAllKeeps | internal/state/state.go:162-172 | Keys that were not notified keep their entry or absence |
| NotificationState.Store.Prune | internal/state/state.go:175-185 | Exactly the active keys survive, unchanged |
| NotificationState.Store.Save | internal/state/state.go:188-213 | Succeeds only without a fault, leaves the old or the new file in place, and the files it can be stopped at are exactly none without path or directory, else the old one twice, then the final one if the write succeeded |
| NotificationState.Store.AfterPass | internal/state/state.go:218-228 | Records, prunes when allowed, saves; the files it can be stopped at are exactly those of the save |
| Engine.RunOnce | internal/core/engine.go:86-164 | Reports, in order, the update of each monitored container that has one, decided as in `OutcomeReports`, the distinct keys, and pruning allowed exactly for a non-empty fleet; fails exactly without a list or when a check fails during cancellation; with distinct names the listing is one the run laws speak of |
| Engine.CheckContainer | internal/core/engine.go:174-268 | Finds an update if and only if a real one exists for the container's mode, reports up to date or failure exactly in their cases, otherwise skips |
| Engine.CheckReports | internal/core/engine.go:174-413 | Whatever CheckContainer returns: digest decides exactly when the rule's track is digest or the tag is neither semver nor numeric, and then an update has both digests and no tag and is found when both are known and differ; else one to a newer tag is found exactly when the listing offers one; up-to-date and failure likewise |
| Engine.OutcomeReports | internal/core/engine.go:174-374 | The same for what a pass keeps of a check: which update, from which side, and when |
| Engine.CheckNumeric | internal/core/engine.go:270-313 | Numeric mode: update if and only if the greatest candidate is newer than the current tag |
| Engine.CheckDigest | internal/core/engine.go:318-374 | Digest mode: update if and only if both digests are known and differ after normalization |
| Engine.CheckOrSkip | internal/core/engine.go:123-136 | A failed check stops a pass that is being cancelled and otherwise counts as skipped |
| Engine.ReportedKeysAreActive | internal/core/engine.go:115-172 | The key of every reported update is among the active keys |
| Engine.DistinctKeysReportWell | internal/core/engine.go:115-172 | So it does with distinct container keys, whatever the names |
| Engine.NamesMakeKeysDistinct | internal/core/engine.go:166-172 | Distinct names without a vertical bar and hosts without `/` give distinct keys |
| Engine.RunOnceReportsWell | internal/core/engine.go:115-172 | With distinct container names a pass meets both hypotheses of the history laws |
| Engine.NoRepeatAcrossPasses | internal/core/app.go:269-306 | For every run whose listings `RunOnce` reports for distinctly named containers, a target two passes deliver was disturbed in between |
| Engine.SuppressionAcrossPasses | internal/state/state.go:119-148 | For the same runs, an update is held back if and only if its target is standing |
| Engine.ReportedTagIsNewer | internal/core/engine.go:202-259 | A reported tag is listed, admitted by the include rule, not a bare integer and newer than the current one; in both modes its bump is major, minor or patch exactly when the first of major and minor to change is the first, the second or neither, and that segment rose |
| Engine.ActiveKeysMembers | internal/core/engine.go:110-121 | The active keys are exactly the keys of monitored containers, each once |
| Engine.ContainerKeyExactly | internal/core/engine.go:166-172 | A container has a key exactly when its reference parses to a repository, the key of its updates |
| Engine.FilterTags | internal/core/rules.go:202-210 | Keeps exactly the tags the include rule matches, in order |
| Coordinator.CoordinatorIsSafe | internal/core/app.go:54-97 | In every interleaving pending implies running, no pass starts while one runs, a pass started with requests waiting is forced exactly when one of them is, and nothing accepted is left when the loop is idle |
| Coordinator.AcceptedIsServedNext | internal/core/app.go:358-396 | An accepted request has its say in the very next pass that starts, and a forced one makes that pass forced |
| Coordinator.PassesGoOn | internal/core/app.go:358-396 | From every reachable state an idle loop starts the pass it is asked for, a running pass can end, the loop then starts the pass the waiting requests call for or is idle when none wait, and requests are accepted as long as it runs |
| Coordinator.NothingElseMoves | internal/core/app.go:358-396 | Every other move changes nothing; after a failed pass the loop stays stopped |
| Coordinator.RunCoordinator.RunChecks | internal/core/app.go:358-380 | Passes run in the modes their predecessors' arrivals call for; the loop ends not running and with nothing pending, at the first error or the first pass without arrivals |
| Coordinator.RunCoordinator.TryQueue | internal/core/app.go:67-75 | Accepts exactly while running; a forced request replaces the pending one, others only fill an empty slot |
| Coordinator.RunCoordinator.End | internal/core/app.go:77-86 | Takes the pending request; running ends exactly when there is none |
| Coordinator.RunCoordinator.Begin | internal/core/app.go:61-65 | Running is set, pending is kept |
| Coordinator.QueuePendingServes | internal/core/app.go:88-97 | The slot always holds the mode that the accepted requests together call for |
| Coordinator.ForcedOverrides | internal/core/app.go:88-97 | The mode that overrides a pending one is exactly that of the forced check |
| RegistryRetry.ScanIsFlat | internal/core/registrypass/pass.go:139-238 | For every script the retry recursion ends at the first reply that is final, a 429 with missing or long Retry-After, or of the class before it, unless a sleep outlives the context first; that reply gives the answer and only a rate limit marks |
| RegistryRetry.ScanRequests | internal/core/registrypass/pass.go:139-238 | For every script a request goes on after a reply exactly when it is a 429 with a Retry-After of at most ten seconds after no 429, or a 5xx after no 5xx, and the context outlives the wait, which is the Retry-After or one second; its last reply gives its value, rate-limited with a mark, unavailable, or itself |
| RegistryRetry.CallsAreBounded | internal/core/registrypass/pass.go:162-238 | Every script ends after at most two calls per started second of budget, hence at most 2·⌊B⌋+2, and after one call without budget |
| RegistryRetry.CallBoundIsReached | internal/core/registrypass/pass.go:162-238 | Alternating 429 and 5xx answers reach the bound for whole seconds |
| RegistryRetry.TwoLimitsRetriedExactly | internal/core/registrypass/pass.go:162-238 | A request retries two rate limits if and only if one among its first two replies is followed by a server error and another rate limit, none of them final, too long or outliving the context |
| RegistryRetry.TwoLimitsRetried | docs/configuration.md:303 | An input: waits of two seconds with a 503 between them, within thirty seconds |
| RegistryRetry.ServerBackoff | internal/core/registrypass/retry.go:53-59 | The delay is one second doubled for every attempt after the first |
| RegistryRetry.Wire.Sleep | internal/core/registrypass/retry.go:26-38 | Non-positive sleeps succeed at once; others if and only if the timer fires before the context is done, and cost their duration |
| RegistryPass.Pass.FetchWithRetry | internal/core/registrypass/pass.go:139-160 | Answer, calls, time left and host mark are those of the scan over the registry's replies, and so those of `ScanRequests` |
| RegistryPass.Pass.HandleRateLimit | internal/core/registrypass/pass.go:162-193 | After a 429 the request goes on as the scan does, marking the host exactly when it says |
| RegistryPass.Pass.RetryServerError | internal/core/registrypass/pass.go:195-238 | After a 5xx the request goes on as the scan does |
| RegistryPass.Pass.ListTags | internal/core/registrypass/pass.go:49-59 | One step of the pass state machine; the registry is called exactly when host is unmarked and key uncached |
| RegistryPass.Pass.TagDigest | internal/core/registrypass/pass.go:62-72 | The same for digests |
| RegistryPass.PassRefinesMemo | internal/core/registrypass/pass.go:49-125 | Over any request sequence: a host marked by an earlier fetch answers rate-limited without a call; otherwise the first request of a target fetches and the later ones repeat its answer |
| RegistryPass.AtMostOneFetch | internal/core/registrypass/pass.go:49-110 | No target is fetched twice, and a marked host is never called again |
| RegistryPass.HostsAreIsolated | internal/core/registrypass/pass.go:112-125 | A request is answered as if only the earlier requests on its own host had been made |
| RegistryPass.ListKeyIsInjective | internal/core/registrypass/pass.go:50 | List keys are equal if and only if host and repository are |
| RegistryPass.DigestKeyIsInjective | internal/core/registrypass/pass.go:63 | Digest keys are equal if and only if host, repository and tag are |
| Semver.CompareFlip | internal/core/semvercheck.go:52 | Precedence is antisymmetric, and versions without build metadata compare equal only when they are equal |
| Semver.ComparesByPrecedence | internal/core/semvercheck.go:52 | Lower is exactly: the triple rises at its first difference; or it is equal and only the lower has a pre-release; or at the first differing identifier a smaller number, a number before letters, or bytewise smaller letters; or fewer identifiers of an equal start |
| Semver.CompareTransitive | internal/core/semvercheck.go:52 | Greater precedence is transitive |
| Semver.BumpNamesFirstRise | internal/core/semvercheck.go:65-73 | For a newer version the bump names the first segment that changed, and that segment went up |
| SemverSelect.SelectSemverTag | internal/core/semvercheck.go:36-62 | Returns the greatest eligible tag with its version, or nothing when none is eligible |
| SemverSelect.SelectedIsGreatest | internal/core/semvercheck.go:36-62 | The selected tag is listed, parses, is no bare integer and no skipped pre-release, and no other such tag has higher precedence |
| SemverSelect.NothingToSelect | internal/core/semvercheck.go:36-62 | Nothing is selected exactly when no listed tag is such a candidate |
| SemverSelect.BareExactly | internal/core/bare_integer.go:18-24 | A bare integer is white space, an optional lower-case v, one or more of the ten digits, white space |
| SemverSelect.SelectionIgnoresListingOrder | internal/core/semvercheck.go:125-137 | Listings with the same tags, in any order, repetition or paging, give the same selection |
| SemverSelect.PreferEqualSemverIsTotal | internal/core/semvercheck.go:137-160 | The tie-break decides exactly one way between distinct tags and never prefers a tag to itself |
| SemverSelect.PreferEqualSemverIsTransitive | internal/core/semvercheck.go:137-160 | The tie-break is transitive |
| SemverSelect.PreferencesInOrder | internal/core/semvercheck.go:137-160 | The tie-break is exactly: v like the current tag, components like it, suffix like it, more components, more bytes, smaller bytes |
| SemverSelect.BetterIsTotal | internal/core/semvercheck.go:52 | So is version then tie-break: total on distinct parsed tags |
| SemverSelect.BetterIsTransitive | internal/core/semvercheck.go:52 | and transitive |
| SemverSelect.SelectedFormIsClosest | internal/core/semvercheck.go:125-160 | Among tags of the selected version the selected one follows the documented priorities down to length and bytes; the suffix never decides |
| SemverSelect.ParseTagForm | internal/core/semvercheck.go:82-107 | The form is prefix, number of non-empty dotted parts before any suffix, and pre-release |
| SemverSelect.FormOfWritten | internal/core/semvercheck.go:82-107 | The form of a tag written as optional v, parts joined by dots and a suffix is that v, the number of parts, and its pre-release |
| NumericSelect.ParseNumericVersion | internal/core/numeric.go:22-41 | Accepts exactly the numeric language with segments that fit 64 bits, returning their values |
| NumericSelect.ParseSpecExactly | internal/core/numeric.go:22-41 | A tag is read as given segments if and only if, trimmed and without an optional v, it is two or more digit groups joined by dots with those values, each at most 2^63 − 1 |
| NumericSelect.NumericREIsItsLanguage | internal/core/numeric.go:13 | Splitting at dots recognizes exactly two or more digit groups joined by dots after an optional v |
| NumericSelect.ParseAfterPrint | internal/core/numeric.go:22-41 | Printing two or more segments, with or without v, and parsing gives them back, or nothing when one does not fit 64 bits |
| NumericSelect.NumericIsNotBare | internal/core/numeric.go:77-83 | No numeric tag is a bare integer, so the selector's bare check never matters |
| NumericSelect.CompareNumeric | internal/core/numeric.go:45-66 | The loop computes the zero-padded comparison |
| NumericSelect.ComparesPadded | internal/core/numeric.go:43-66 | The comparison is lexicographic order on zero-padded segments, in all three outcomes |
| NumericSelect.CompareSegmentsFlip | internal/core/numeric.go:45-66 | Swapping the arguments negates the result |
| NumericSelect.CompareSegmentsTransitive | internal/core/numeric.go:45-66 | A total preorder: transitive, with equality only from equalities |
| NumericSelect.SelectNumericTag | internal/core/numeric.go:70-100 | Returns the greatest numeric tag with its segments, or nothing when there is none |
| NumericSelect.NumericSelectedIsGreatest | internal/core/numeric.go:70-100 | No listed numeric tag is greater than the selected one on zero-padded segments |
| NumericSelect.NumericSelectedFormIsClosest | internal/core/numeric.go:122-137 | Among equal numeric tags the selected one follows the priorities v, count like the current tag, more segments, length, bytes |
| NumericSelect.NumericSelectionIgnoresListingOrder | internal/core/numeric.go:70-100 | The selection depends on the set of listed tags only |
| NumericSelect.BetterDottedIsTotal | internal/core/numeric.go:122-137 | Version then tie-break is total on distinct numeric tags |
| NumericSelect.BetterDottedIsTransitive | internal/core/numeric.go:122-137 | and transitive |
| NumericSelect.NumericBumpNamesFirstRise | internal/core/numeric.go:103-117 | The bump names the first of major and minor that changed, and it went up |
| SelectorsAgree.CompareAgrees | internal/core/numeric.go:45-66 | On at most three segments numeric comparison is semver precedence |
| SelectorsAgree.PreferAgrees | internal/core/numeric.go:122-137 | On short numeric tags both tie-breaks agree |
| SelectorsAgree.SelectorsPickTheSameTag | internal/core/numeric.go:70-100 | When current tag and candidates have two or three segments both selectors pick the same tag |
| BareInteger.AffectingIsExact | internal/core/bare_integer.go:45-81 | With a selected tag, the affecting list is non-empty if and only if admitting bare integers would have selected a version newer than both current and selected |
| BareInteger.CollectBareIntegerTags | internal/core/bare_integer.go:26-41 | Collects the distinct trimmed bare integers in order of first occurrence |
| BareInteger.BareTagsMembers | internal/core/bare_integer.go:26-41 | The collected tags are exactly the trimmed listed ones that are bare integers |
| BareInteger.BareTagsInFirstOrder | internal/core/bare_integer.go:26-41 | They have no duplicates and stand in the order of their first positions |
| BareInteger.CollectBareIntegerTagsNewerThan | internal/core/bare_integer.go:45-60 | Keeps those newer than the current version |
| BareInteger.BareIntegersAffectingSelection | internal/core/bare_integer.go:66-81 | Keeps those newer than the selected version, or all when none was selected |
| Rules.ValidateRules | internal/config/config.go:136-167 | Succeeds if and only if every rule is well-formed and no two share a lookup key; otherwise names the first offending rule, and the earlier one it conflicts with |
| Rules.CheckRule | internal/config/config.go:139-158 | A single rule passes if and only if it is well-formed |
| Rules.NoSharedKeysIsUnambiguous | internal/config/config.go:159-164 | Rules share no key if and only if no image on any host is matched by two of them |
| Rules.ValidatedRulesResolve | internal/core/rules.go:50-87 | After validation no rule is overwritten, and a lookup returns the one matching rule, or nothing exactly when none matches |
| Rules.RuleOrderIsIrrelevant | internal/core/rules.go:77-87 | The result does not depend on the order of rules or of lookup keys |
| Rules.LookupKeysExactly | internal/imageref/rulekeys.go:12-23 | The keys are the repository, first, and on Docker Hub only its other spelling with or without the library prefix |
| Rules.ResolvedRule | internal/core/rules.go:50-87 | After validation a matched rule comes back with its image, its compiled include and its trimmed track, or mode where the track is blank |
| Rules.HubKeysAreClasses | internal/imageref/rulekeys.go:12-28 | On non-empty names, being a lookup key of each other is having the same full Docker Hub path |
| Rules.HubKeysAreSymmetricExcept | internal/imageref/rulekeys.go:12-23 | Lookup keys are symmetric except between the empty name and the bare library prefix |
| Rules.NewConfigRuleResolver | internal/core/rules.go:50-74 | Fails exactly on an include that does not compile, else maps images to rules, the last winning |
| Rules.RuleFor | internal/core/rules.go:77-87 | The rule of the first lookup key that has one |
| Rules.ChainRuleFor | internal/core/rules.go:189-199 | The answer of the first source that has one |
| DiscordEmbeds.PackEmbedsIntoMessages | internal/notifier/discord/embed.go:130-153 | The messages concatenate to the input, each has one embed or up to 10 with at most 6000 bytes of titles and descriptions together, and no such partition has fewer |
| DiscordEmbeds.CharsIsTextLength | internal/notifier/discord/embed.go:28-30 | What the packing counts is the length of all titles and descriptions of a batch |
| DiscordEmbeds.GreedyStaysAhead | internal/notifier/discord/embed.go:139-148 | A greedy packing that has no more left to cover than another valid one needs no more blocks |
| DiscordEmbeds.SplitDigestLinesIntoEmbeds | internal/notifier/discord/embed.go:86-128 | Embeds show consecutive groups that partition the lines; every group took each of its lines and refused the first line of the next, where the title counts in the first group, and also for the line that opens the second unless the first group was a lone line too long with the title; only the first has a title |
| DiscordEmbeds.SplitIsDetermined | internal/notifier/discord/embed.go:109-126 | That description leaves no choice: title and lines determine the groups and all embeds |
| DiscordEmbeds.EmbedsAreFilled | internal/notifier/discord/embed.go:114-124 | Every embed but the second had no room for the first line of the next |
| DiscordEmbeds.SecondEmbedClosesEarly | internal/notifier/discord/embed.go:114-124 | The second embed closes with room for the next line if and only if it is a lone line too long with the title, the first is not, and both lines fit together |
| DiscordEmbeds.SecondLineStaysAlone | internal/notifier/discord/embed.go:114-124 | An input: with a title of 20 bytes and lines of 4000, 4080 and 10 the embeds are one line each, though the last two fit together |
| DiscordEmbeds.PlaceLine | internal/notifier/discord/embed.go:109-125 | Placing one line keeps the closed groups greedy, with all lines so far in order, and leaves open only a chunk within its limit |
| DiscordEmbeds.SplitLosesNothing | internal/notifier/discord/embed.go:95-107 | A description is its group with an empty line between any two lines, unless it is one line alone longer than 4096, which is cut there; the first embed carries the title up to 256 bytes, no other does |
| DiscordEmbeds.DigestMessages | internal/notifier/discord/discord.go:185-201 | After splitting and packing every message has 1 to 10 embeds and at most 6000 bytes of titles and descriptions, the split's embeds in order |
| DiscordContent.SplitContent | internal/notifier/discord/payload.go:78-99 | Chunks are within the limit and the text is the chunks with only newlines between; each but a short last one ends at the last newline beyond the middle of the limit or at the limit, without the newlines there; none is empty but the first of a long text that is all newlines up to its first cut |
| DiscordContent.CutPointIsCut | internal/notifier/discord/payload.go:91-94 | The cut is after the last newline of the limit when that lies beyond the middle, else at the limit |
| HttpRetry.Do | internal/notifier/httpretry/retry.go:49-85 | All attempts before the last were retryable, each sleep is its attempt's delay, and each result says how the call ended |
| HttpRetry.AttemptsWithoutCancellation | internal/notifier/httpretry/retry.go:49-85 | Without cancellation the attempts are the smaller of the limit and the first final outcome, with one sleep fewer |
| HttpRetry.DelayForAttempt | internal/notifier/httpretry/retry.go:109-118 | A server-given wait is used as is; else the delay is the geometric one up to 64-bit wrap-around, and equal to it if and only if it fits |
| HttpRetry.SleepsAreGeometric | internal/notifier/httpretry/retry.go:109-118 | While the last delay fits, none overflows and n sleeps total RetryDelay·(m^n − 1)/(m − 1) |
| HttpRetry.WithDefaults | internal/notifier/httpretry/retry.go:87-107 | Positive settings are kept, the others get the defaults: 3 attempts, 1 s delay, 60 s longest server-given wait, multiplier 2 |
| HttpRetry.ClassifiedExactly | internal/notifier/httpretry/classify.go:14-63 | Exactly which attempts succeed and are retried; a server-given wait is positive and at most 60 seconds |
| HttpRetry.RateLimitedWait | internal/notifier/httpretry/classify.go:44-87 | After a 429: the server's seconds or the time to its date, one second without either, no retry above 60 seconds; seconds too many for 64-bit nanoseconds wrap |
| HttpRetry.SleepsAreBounded | internal/notifier/httpretry/classify.go:47-63 | Every sleep is at most 60 seconds or the backoff of an attempt without a server-given wait |

## Left out

- HTTP, Docker, the OCI transport, connection eviction: replaced by reply scripts and disjoint error classes.
- YAML, environment overrides, templates, JSON, command line, log text and the skip reasons in it: no hard property.
- Parsing of the semver library, the image reference library and regular expressions: arbitrary functions, see above.
- Mutexes: the pass layer is called by one goroutine; the coordinator's locked sections are single moves of its state machine.
- Labels (`versentry.include`, `track`, `watch`) and `exclude_containers`: a label rule enters as one more source of the chain, monitoring as an arbitrary predicate.
- Cron, tickers, health stamps, time zones, image web links, markdown escaping, plugin options, the other notifiers: clock or library bound, or only easy claims.
- The log decisions about bare integers (warn once, adjacent major, list truncation), and the numeric-mode variant, which returns early on every tag that reaches it.
- UTF-8 boundaries in truncation: limits are counted in bytes, as the code does.
- Aliasing of Go maps: entries and caches are map values in fields that the methods reassign.
- Loop bodies that are one piece in the source are cut where a rule is checked and its keys are claimed, where a container is checked and its failure handled, where a pass has its listing and store, where its delivery begins and ends, where one notifier is called, and where a digest line is placed.
