# Protocols, logs and printers of the DSH plugins: a Dafny model

The plugins of this repository contain small protocols whose guarantees are easy to break by an innocent edit: an upgrade that rewrites two files under a journal, a copier that collapses equal packages, a repair that must never lose a byte, lock files that are reclaimed when stale, epochs that outlive awaits, logs that must equal what is in memory. This project states those guarantees over every input, every run and every reachable state, and proves them.

`dafny verify dfyconfig.toml` checks everything.

## How the pieces are modelled

| file | what it models |
|---|---|
| `JsObject.dfy` | JavaScript objects and maps as insertion-ordered association lists |
| `UpgradeDocuments.dfy` | `package.json` and `package-lock.json`, the lock-file closure merge, its undo without a saved copy, and staging |
| `UpgradeProtocol.dfy` | the journalled upgrade and its recovery as a step machine over any number of calls and processes |
| `UpgradeProgress.dfy` | what an upgrade achieves when nothing stops it, and what every commit and every write rests on |
| `GenerationClosure.dfy` | the memoised walk over an installed package graph, the copy under path-free keys, the closure identity |
| `Utf8.dfy`, `LedgerSalvage.dfy` | strict UTF-8 decoding (section 4 of RFC 3629), the ledger scan, and the repair over names, inodes and bytes |
| `CanonicalText.dfy`, `CanonicalStamp.dfy` | JSON string literals (section 7 of RFC 8259), canonical JSON as identity, the stamp merge |
| `UpdateLock.dfy` | the update check's cross-process lock with stale reclaim |
| `AutoRouting.dfy` | AUTO mode, its epochs, and the judgements that run beside mode requests |
| `VerdictCache.dfy`, `GeoFailover.dfy` | the network verdict cache with backoff, and the two geo endpoints with their budgets |
| `FeedbackBook.dfy` | bindings, ratings and facts in memory beside an append-only file |
| `Observations.dfy` | the observation log of case-verify: reading, appending, superseding, confirming a plan |
| `StageTokens.dfy` | the routing dispatcher's one-shot tokens over interleaved dispatches |
| `Lines.dfy`, `Substrings.dfy` | splitting and joining lines, occurrences of one text in another |
| `ManagedInvocation.dfy`, `AdapterBlock.dfy` | shell quoting and reading, and the adapter block printed and parsed |
| `ToolPairs.dfy` | removal of unpaired tool calls and results |
| `UsageReport.dfy` | the session fold, the sweep for continuations, linking, grouping and classing of decisions |

Code that changes state step by step is written as methods and classes and proved against specification functions; the properties are lemmas about those functions. Protocols whose point is interleaving (`UpgradeProtocol`, `UpdateLock`, `AutoRouting`) are step machines: one step is the code between two awaits. `StageTokens` and `VerdictCache` have both: a class for each await-free segment, and whole runs over the segments. Lemmas whose name ends in `Exactly` or `Alone` say when an operation succeeds and what it then gives, key by key, without its own specification function.

Hashes are injective, random tokens and lock identities are never reused, file writes and renames are atomic, and clocks do not run backwards. Serializers and schemas that are not part of this model (zod, `JSON.parse`, `decodeRecord`) are function parameters; what is assumed of them is a predicate named `Faithful` or `Sound` at the place of use.

## What turned out different from the stated intent

- **AUTO can be carried over a fallback.** A `setMode(AUTO)` that finds AUTO already in place, or whose agent cannot be resolved at first, does not call `invalidate`. If the session falls back to MANUAL while it runs, the request turns AUTO on again and a judgement from before the fallback still writes its route. `AutoRouting.RedundantRequestRevives` is the run, `AutoRouting.WritesRestOnAuto` the exact condition for all runs.
- **A changed network does not always re-query at once.** The class comment of `NetworkVerdictCache` says a fingerprint or configuration change re-queries immediately. A caller that arrives while a refresh is in flight joins it and is told about the network that refresh began on (`VerdictCache.ChangedNetworkJoins`); `VerdictCache.AnswerIsAboutTheCallersNetwork` is the exact condition on every run.
- **The first backoff is not capped.** With `backoffBaseMs` above `backoffMaxMs` the first wait exceeds the cap (`VerdictCache.FirstWaitExceedsCap`); on all runs the cache waits the capped power exactly when the base does not exceed the cap (`VerdictCache.PostponementIsCappedPower`). The configuration check at `packages/home-network-model-guard/src/config.ts` line 151 is what rules it out.
- **A budget that runs out while the body is read is reported as an invalid response**, not as a timeout, although the caller has waited just as long (`GeoFailover.LateBodyIsInvalid`; `GeoFailover.SlowBodiesAreCalledInvalid` is two such endpoints).
- **A torn append swallows the next one.** A feedback book that goes on running after a failed append keeps the next event in memory but not in its file, exactly when the file no longer ends in a newline (`FeedbackBook.AgreementNeedsANewline`). And a tear that loses only the newline counts as made on replay (`FeedbackBook.TornAppendIsInvisible`).
- **Three line separators break the observation log.** `splitlines` cuts at U+0085, U+2028 and U+2029, which the writer leaves unescaped: one such character in an observation makes the whole log unreadable (`Observations.AppendedLogReads`).
- **A path that holds the start marker makes a block that cannot be read back**, though it was rendered without complaint (`AdapterBlock.PathsDecideReadingBack`).
- **A restored file equals the old one byte for byte only if it was stored as the printer prints it** and the re-staged root entry is the old one (`UpgradeDocuments.RecoveryIsInverse`).
- **A property that only the new release has stays in the root entry.** Staging spreads the staged entry over the one in place, so what the old release's entry lacks is not taken out again (`UpgradeDocuments.NewPropertyStays`); the old entry comes back exactly when the upgraded one has no such property (`UpgradeDocuments.NewPropertiesDecide`). A recovery that is killed after writing such a lock file leaves it with neither recorded hash, and every later recovery refuses it as drift (`UpgradeDocuments.UnfaithfulRestagingStrands`).
- **An edit between the last reading and the write is lost.** The writes are guarded by two agreeing readings, but an outside edit after the second is overwritten (`UpgradeProtocol.LateEditIsLost`); no other edit is (`UpgradeProtocol.OnlyLateEditsAreLost`).
- **A hoisted package can find more in a generation than in the install.** All copies lie below the `node_modules` that holds the served package's own links, so an optional dependency a package had skipped is found there if the served package has one of that name (`GenerationClosure.HoistedPackageFindsMore`; `GenerationClosure.NothingMoreIsResolvedExactly` is the exact condition).
- **Links back to the served package dangle** unless a copy happens to have its key (`GenerationClosure.LinksAreClosedExactlyWithoutLinkBack`).
- **A failed directory sync after the rename is reported as "log unchanged"** although the log is already the valid prefix, or gone (`LedgerSalvage.SyncFailureIsMisreported`). Under that report the log holds the original exactly when the rename or removal itself failed; the backup holds it either way (`LedgerSalvage.Salvage`).

## Model

| member | source | states |
|---|---|---|
| `UpgradeDocuments.MergeClosure` | packages/dsh-openspec/src/upgrade-transaction.ts:99-104 | the merge loop gives what `Merged` says: other keys skipped, new keys appended, equal releases kept, a different release is a conflict |
| `UpgradeDocuments.MergeAppends` | packages/dsh-openspec/src/upgrade-transaction.ts:99-104 | a successful merge leaves every existing entry alone and only appends new, distinct dependency keys |
| `UpgradeDocuments.MergeContained` | packages/dsh-openspec/src/upgrade-transaction.ts:188-193 | a closure whose releases are all locked already merges without any change |
| `UpgradeDocuments.MergedExactly` | packages/dsh-openspec/src/upgrade-transaction.ts:99-104 | a merge succeeds exactly if no entry is locked at another release, and then each key maps as before or, if it was missing and is a dependency, as staged |
| `UpgradeDocuments.PlannedExactly` | packages/dsh-openspec/src/upgrade-transaction.ts:84-104 | an upgrade is planned exactly if the three places agree on a stable pin, what is staged is the target with its announced integrity, and its closure is compatible |
| `UpgradeDocuments.PlanUpgrades` | packages/dsh-openspec/src/upgrade-transaction.ts:90-111 | the planned files, key by key and property by property: the new pin in all three places, the staged root properties over the old ones, missing dependencies added, nothing else changed; and the hashes and the old pin in the journal |
| `UpgradeDocuments.UndoClosure` | packages/dsh-openspec/src/upgrade-transaction.ts:194-197 | the removal loop refuses any recorded key that is no dependency key or whose entry no longer has the recorded hash |
| `UpgradeDocuments.UndoExtension` | packages/dsh-openspec/src/upgrade-transaction.ts:110-110 | removing the recorded added closure from an extended lock file leaves exactly the entries before the extension |
| `UpgradeDocuments.BaseBack` | packages/dsh-openspec/src/upgrade-transaction.ts:183-187 | writing the previous pin and a root entry over an upgraded lock file changes nothing but the root entry, added closure included |
| `UpgradeDocuments.UpgradeShape` | packages/dsh-openspec/src/upgrade-transaction.ts:90-111 | every prepared journal records an upgraded base plus appended new keys, and as added closure exactly those keys |
| `UpgradeDocuments.RestoresPackages` | packages/dsh-openspec/src/upgrade-transaction.ts:184-197 | the lock entries a recovery computes are the old ones with the re-staged root entry |
| `UpgradeDocuments.RecoveryOutcome` | packages/dsh-openspec/src/upgrade-transaction.ts:166-202 | from either or both files written, a recovery succeeds and gives the old documents, printed where they had been rewritten |
| `UpgradeDocuments.RecoveryIsInverse` | packages/dsh-openspec/src/upgrade-transaction.ts:166-202 | recovery gives back the old bytes exactly when each rewritten file was stored as printed and the re-staged root entry is the old one |
| `UpgradeDocuments.RecoveryKeepsOtherKeys` | packages/dsh-openspec/src/upgrade-transaction.ts:181-197 | after a recovery every lock key but the root entry maps as before the upgrade, and the old pin is back |
| `UpgradeDocuments.StagingIsRestaged` | packages/dsh-openspec/src/stage-target.ts:36-49 | an isolated install contained in the checkout's lock file stages to something recovery accepts |
| `UpgradeDocuments.StagesExactly` | packages/dsh-openspec/src/stage-target.ts:36-49 | staging succeeds exactly if the install has the release with its integrity, the lock file has both entries and the closures are compatible; the staged entries key by key |
| `UpgradeDocuments.StagedPasses` | packages/dsh-openspec/src/upgrade-transaction.ts:84-104 | what staging provides against an agreed pin passes every check of the transaction that asked for it |
| `UpgradeDocuments.OldRootComesBackExactly` | packages/dsh-openspec/src/stage-target.ts:42-42 | whatever the three root entries hold: spreading the staged one over the present one gives the old one exactly when every property the old entry has is brought back with its value and the present one has no other |
| `UpgradeDocuments.NewPropertiesDecide` | packages/dsh-openspec/src/stage-target.ts:42-42 | re-staging the old release over the upgraded entry gives the old root entry exactly when the new release's entry has no property the old one lacks |
| `UpgradeDocuments.NewPropertyStays` | packages/dsh-openspec/src/stage-target.ts:42-42 | a concrete pair of releases for which it does not |
| `UpgradeDocuments.UnfaithfulRestagingStrands` | packages/dsh-openspec/src/upgrade-transaction.ts:166-203 | after such a re-staging the lock file just written has neither recorded hash, and the next recovery refuses |
| `UpgradeProtocol.StepKeeps` | packages/dsh-openspec/src/upgrade-transaction.ts:57-132 | every step of any call, kill or sweep keeps the invariant that ties files, journal, locks and the progress of each call together |
| `UpgradeProtocol.JournalIsDisciplined` | packages/dsh-openspec/src/upgrade-transaction.ts:62-122 | over every run: `prepared` is written only over a resolved journal and the before files, `committed` only over the after files, `rolled-back` only over the before files |
| `UpgradeProtocol.PreparedMeansBeforeOrAfter` | packages/dsh-openspec/src/upgrade-transaction.ts:62-122 | after any interleaving of upgrades, recoveries, exceptions, kills and swept locks, under a prepared journal each file has its before- or after-hash, and at most one call holds the lock |
| `UpgradeProtocol.RecoveryUndoesEveryInterruption` | packages/dsh-openspec/src/upgrade-transaction.ts:141-210 | from every interruption point, once its locks are gone, one recovery restores both files byte for byte, resolves the journal and releases every lock |
| `UpgradeProgress.UpgradeAlone` | packages/dsh-openspec/src/upgrade-transaction.ts:47-132 | one upgrade alone, nothing throwing, from any world with a resolved journal and no locks: exactly if the target is stable, verified and upgradable both files are upgraded and the journal is committed, or left prepared if the sync fails; otherwise nothing has changed; every lock is released |
| `UpgradeProgress.CommitsAreEarned` | packages/dsh-openspec/src/upgrade-transaction.ts:86-122 | over every run: a commit belongs to an upgrade that in that run has staged and verified its target, whose sync was accepted and whose activation did not fail |
| `UpgradeProgress.SourceWritesAreEarned` | packages/dsh-openspec/src/upgrade-transaction.ts:86-115 | over every run: a call changes a source file only after staging and verifying the release it is to bring, a recovery the one before the interrupted upgrade |
| `UpgradeProgress.OneCallPerProcess` | packages/dsh-openspec/src/upgrade-transaction.ts:66-68 | over every run at most one call of a process is past its busy mark |
| `UpgradeProtocol.FaithfulExactly` | packages/dsh-openspec/src/upgrade-transaction.ts:166-197 | what staging gives against any interrupted state restores the old root entry, as the byte-for-byte result asks, exactly when the entries in place bring it back |
| `UpgradeProtocol.WritesFollowAgreeingReadings` | packages/dsh-openspec/src/upgrade-transaction.ts:114-117 | with outside edits at every await: files are written only if the two readings agreed, and a recovery writes only if each file it read had the before- or after-hash |
| `UpgradeProtocol.OnlyLateEditsAreLost` | packages/dsh-openspec/src/upgrade-transaction.ts:114-122 | over every run with edits: a content that a write replaces without the call having read it arrived after the call's last reading of that file |
| `UpgradeProtocol.LateEditIsLost` | packages/dsh-openspec/src/upgrade-transaction.ts:114-122 | an edit between the last reading and the write is replaced by the call's own content |
| `GenerationClosure.ResolveDependency` | packages/dsh-openspec/src/generation-closure.ts:5-14 | the walk up the directories gives what `Resolve` says |
| `GenerationClosure.ResolveIsNearest` | packages/dsh-openspec/src/generation-closure.ts:5-14 | a name resolves to the entry of the longest enclosing directory that has one |
| `GenerationClosure.ResolveFindsEnclosing` | packages/dsh-openspec/src/generation-closure.ts:5-14 | a name is found exactly if some enclosing directory has it |
| `GenerationClosure.PlannableExactly` | packages/dsh-openspec/src/generation-closure.ts:104-121 | a package can be planned exactly if it has an identity, a content unless it is the served one, and every listed dependency has a proper name and is found with an identity, or is optional and missing |
| `GenerationClosure.ClosurePlanner.Visit` | packages/dsh-openspec/src/generation-closure.ts:98-131 | the memoised visit terminates on cycles and adds exactly complete packages reachable from where it began; it fails only if an unplannable one is reachable |
| `GenerationClosure.Plan` | packages/dsh-openspec/src/generation-closure.ts:132-134 | the plan has exactly the packages reachable from the served one, each with its key and links, and exists exactly when all of them can be planned |
| `GenerationClosure.CopyDependencyClosure` | packages/dsh-openspec/src/generation-closure.ts:146-171 | the copy succeeds exactly when all packages can be planned and equal keys mean equal links; then every copied package has the directory of its key |
| `GenerationClosure.KeysTellPackagesApart` | packages/dsh-openspec/src/generation-closure.ts:111-122 | two packages, of one install or of two, have equal keys exactly if they agree in name, version, content, dependency names and the identities found under them |
| `GenerationClosure.LinksPreserveResolution` | packages/dsh-openspec/src/generation-closure.ts:161-170 | following links: a path of dependency names leads through the recorded links exactly when the install resolves it, to the directory keyed by that package |
| `GenerationClosure.WriteGeneration` | packages/dsh-openspec/src/generation-closure.ts:155-170 | the copier lays the served package and every copy with manifest, content and links, and changes nothing outside the generation |
| `GenerationClosure.CopyPreservesResolution` | packages/dsh-openspec/src/generation-closure.ts:152-170 | walking up `node_modules`: what the install resolves along any path of names, the laid generation resolves by the same walk, to a directory that holds the name, version and content of that package |
| `GenerationClosure.NothingMoreIsResolvedExactly` | packages/dsh-openspec/src/generation-closure.ts:111-117 | the laid generation resolves no path the install does not, exactly when no optional name a package skipped shows through from a directory above its copy |
| `GenerationClosure.HoistedPackageFindsMore` | packages/dsh-openspec/src/generation-closure.ts:111-117 | a concrete install in which it does |
| `GenerationClosure.LinksAreClosedExactlyWithoutLinkBack` | packages/dsh-openspec/src/generation-closure.ts:133-134 | every link of a generation leads to a copy exactly when nothing links back to the served package, or a copy has its key |
| `GenerationClosure.ClosureIdentity` | packages/dsh-openspec/src/generation-closure.ts:138-143 | the identity is made of the set of keys of the copied packages and the top links, and of nothing else |
| `GenerationClosure.IdentityIgnoresLayout` | packages/dsh-openspec/src/generation-closure.ts:16-23 | installs related by a bisimulation (nested copies hoisted, duplicates shared) have the same closure identity |
| `GenerationClosure.IdentityTellsInstallsApart` | packages/dsh-openspec/src/generation-closure.ts:137-143 | two identities are equal exactly if the installs copy the same packages, by name, version, content and context, and have the same top links |
| `Utf8.DecodeAtNewline` | packages/dsh-collab/src/salvage.ts:12-17 | strict decoding distributes over byte 0x0A |
| `Utf8.WholeAgreesWithLines` | packages/dsh-collab/src/salvage.ts:12-17 | the whole buffer decodes exactly when every line does, and to the same lines |
| `Utf8.SplitIsUnique` | packages/dsh-collab/src/salvage.ts:12-17 | text has only one division into newline-terminated lines |
| `Utf8.EncodedDecodes` | packages/dsh-collab/src/salvage.ts:12-17 | strict decoding accepts the encoding of every text and gives the text back |
| `Utf8.DecodedWidth` | packages/dsh-collab/src/salvage.ts:12-17 | what decodes has no surrogates and no byte more than its text needs |
| `LedgerSalvage.ScanLog` | packages/dsh-collab/src/salvage.ts:18-31 | the scan returns the longest prefix of complete lines that decode and number 1, 2, 3 and so on, and says whether a complete line follows it |
| `LedgerSalvage.Continues` | packages/dsh-collab/src/salvage.ts:22-29 | any longer valid prefix goes on from a shorter one with the next number on the next line |
| `LedgerSalvage.RescanIsClean` | packages/dsh-collab/src/salvage.ts:18-31 | scanning the kept prefix keeps the same count and reports no bad line |
| `LedgerSalvage.ScanAgreesWithWholeDecode` | packages/dsh-collab/src/salvage.ts:12-17 | the kept prefix decodes as a whole, to exactly the lines the scan saw, the n-th being record n |
| `LedgerSalvage.LinkBackup` | packages/dsh-collab/src/salvage.ts:84-93 | the backup gets a name not used before and holds the original bytes; nothing is overwritten |
| `LedgerSalvage.WritePrefix` | packages/dsh-collab/src/salvage.ts:73-83 | writing and cleaning up the temporary file never touches the log or a backup, whatever fails |
| `LedgerSalvage.ReplaceLog` | packages/dsh-collab/src/salvage.ts:98-102 | the log becomes the prefix in one rename or is removed, while the backup holds the original |
| `LedgerSalvage.Salvage` | packages/dsh-collab/src/salvage.ts:36-117 | whatever fails and wherever it is cut off, the original bytes stay under some name and no older backup changes; each report is given exactly when it should be; what the log is under each report: untouched, exactly the valid prefix, or, when the replacement is reported as failed, the original exactly when the rename or removal itself failed; our lock and temporary file are left exactly where a failure keeps them, and another's lock is not touched |
| `LedgerSalvage.SyncFailureIsMisreported` | packages/dsh-collab/src/salvage.ts:98-107 | for every corrupt log, if only the last directory sync fails the replacement is reported as failed although it has been made |
| `CanonicalText.ReadsBack` | packages/dsh-collab/src/stamp.ts:29-29 | a reader of JSON strings gets back exactly the string written and stops at its end |
| `CanonicalText.SortedIsUnique` | packages/dsh-collab/src/stamp.ts:36-36 | sorting keys leaves no trace of their insertion order |
| `CanonicalText.LessIsFirstDifference` | packages/dsh-collab/src/stamp.ts:36-36 | keys are ordered by their first differing unit, a prefix first |
| `CanonicalStamp.Reads` | packages/dsh-collab/src/stamp.ts:28-39 | canonical texts are prefix-free: agreeing texts come from equal values and end at the same place |
| `CanonicalStamp.SamePrints` | packages/dsh-collab/src/stamp.ts:35-37 | values equal up to key order print alike |
| `CanonicalStamp.CanonicalIsFaithful` | packages/dsh-collab/src/stamp.ts:27-39 | for all finite plain JSON values, canonical texts are equal exactly when the values are, whatever the order of keys |
| `CanonicalStamp.PlainExactly` | packages/dsh-collab/src/stamp.ts:27-39 | a value has a canonical text exactly if everything that occurs in it, at any depth, is JSON with each key once |
| `CanonicalStamp.CanonicalForm` | packages/dsh-collab/src/stamp.ts:28-38 | the text of each kind of value: no spaces, commas between, members in ascending order of their keys |
| `CanonicalStamp.StampKeyExactly` | packages/dsh-collab/src/stamp.ts:41-47 | a value is a usable stamp exactly if it is a plain object whose canonical text has a UTF-8 form of at most 1024 bytes, and its key is that text |
| `CanonicalStamp.OwnershipIsExact` | packages/dsh-collab/src/stamp.ts:52-57 | a record belongs to a stamp exactly when its ext is that stamp and nothing beside it; equal keys mean equal stamps |
| `CanonicalStamp.MergeField` | packages/dsh-collab/src/stamp.ts:59-59 | which side the value of every key of a merge comes from |
| `CanonicalStamp.MergeCarriesStamp` | packages/dsh-collab/src/stamp.ts:58-59 | whatever the base, every leaf of the stamp is carried to the same place |
| `CanonicalStamp.MergeKeepsBase` | packages/dsh-collab/src/stamp.ts:58-59 | what is under keys only the base has is kept, and nothing else appears there |
| `CanonicalStamp.MergeIsIdempotent` | packages/dsh-collab/src/stamp.ts:58-59 | applying a stamp twice is applying it once, key order included |
| `UpdateLock.StepKeeps` | packages/dsh-openspec/src/update-check.ts:95-141 | every step of any process keeps: a live holder's lock is the lock in place, and claims on one observed lock are exclusive |
| `UpdateLock.MutualExclusion` | packages/dsh-openspec/src/update-check.ts:95-141 | for any number of processes and any interleaving at most one holds the lock |
| `UpdateLock.OnlyStaleOrOwnIsRemoved` | packages/dsh-openspec/src/update-check.ts:99-112 | a step that makes a lock disappear removes its own, or the very lock it had observed as stale |
| `UpdateLock.ProcessAlone` | packages/dsh-openspec/src/update-check.ts:93-141 | one process alone works under its own fresh lock exactly if there is no lock or an unclaimed stale one, and lock and claim are gone in the end; otherwise it leaves everything as it was |
| `AutoRouting.StepKeeps` | packages/dsh-auto-model-routing/src/policy-host.ts:93-125 | every step of requests, children and main steps keeps what is known about each running judgement |
| `AutoRouting.WritesRestOnAuto` | packages/dsh-auto-model-routing/src/policy-host.ts:172-239 | a written effort or route rests on uninterrupted AUTO since its judgement began, exactly when no request that skipped the invalidation revived AUTO since |
| `AutoRouting.SensibleWritesRestOnAuto` | packages/dsh-auto-model-routing/src/index.ts:77-96 | if requests ask for a mode not in place and resolve their agent alike twice, every write rests on uninterrupted AUTO |
| `AutoRouting.RedundantRequestRevives` | packages/dsh-auto-model-routing/src/index.ts:80-86 | a concrete run in which a redundant request carries a judgement over a moment of MANUAL |
| `AutoRouting.ChildAlone` | packages/dsh-auto-model-routing/src/policy-host.ts:93-125 | an undisturbed managed child gets its route written once, after its judgement if one is needed; outside AUTO nothing happens |
| `AutoRouting.TurnAlone` | packages/dsh-auto-model-routing/src/policy-host.ts:207-239 | an undisturbed user turn is judged, becomes the active judgement, and its effort is written once |
| `AutoRouting.StepAlone` | packages/dsh-auto-model-routing/src/policy-host.ts:172-205 | a later step writes again from the active judgement while that has the present epoch |
| `AutoRouting.RequestAlone` | packages/dsh-auto-model-routing/src/index.ts:77-96 | one mode request brings about the mode it asks for, except AUTO on an unsupported model, and outdates running judgements exactly as often as the mode changes |
| `VerdictCache.SettledRefreshDecidesAnswers` | packages/home-network-model-guard/src/network.ts:175-201 | once a refresh has settled: a success answers its own network until the TTL ends and nobody else; a failure is never served as a verdict and turns callers on its network away until the backoff ends |
| `VerdictCache.SingleFlight` | packages/home-network-model-guard/src/network.ts:160-165 | over any run at most one refresh is unfinished, and it is the newest |
| `VerdictCache.HitsAreFresh` | packages/home-network-model-guard/src/network.ts:147-154 | a hit repeats a successful resolution that began on the caller's own fingerprint and epoch less than the TTL ago; failures are never served |
| `VerdictCache.FailuresBackOff` | packages/home-network-model-guard/src/network.ts:190-200 | after k failures in a row the next attempt on the same network starts at least min(base·2^(k-1), max) after the last, whatever base and cap are |
| `VerdictCache.PostponementIsCappedPower` | packages/home-network-model-guard/src/network.ts:195-200 | on every run the next attempt is allowed exactly min(base·2^(k-1), max) after the start of the k-th failure in a row, if and only if the base does not exceed the cap |
| `VerdictCache.FirstWaitExceedsCap` | packages/home-network-model-guard/src/config.ts:151-151 | a run that shows why: with a base above the cap the first wait is the base |
| `VerdictCache.AnswerIsAboutTheCallersNetwork` | packages/home-network-model-guard/src/network.ts:142-166 | on every run an answer is about the caller's own network exactly when no refresh is in flight, the one in flight began on that network, or there is a fresh entry for it |
| `VerdictCache.ChangedNetworkJoins` | packages/home-network-model-guard/src/network.ts:160-165 | a run in which a caller on a changed network joins the refresh of the other network |
| `GeoFailover.ResolveCountry` | packages/home-network-model-guard/src/geo.ts:181-200 | the loop over the endpoints gives what `Resolve` says |
| `GeoFailover.AttemptStaysInBudget` | packages/home-network-model-guard/src/geo.ts:203-222 | an endpoint takes at most its budget and two requests, the second only after the pause and before the deadline |
| `GeoFailover.AttemptSucceedsExactly` | packages/home-network-model-guard/src/geo.ts:203-222 | an endpoint gives a country exactly if its first request does before the deadline, or that one fails in a way worth retrying and the retry, 150 ms later, does |
| `GeoFailover.FallbackKeepsItsBudget` | packages/home-network-model-guard/src/geo.ts:168-200 | unless the caller aborts, a failed primary leaves the fallback an attempt that begins at once with a full budget and decides the result |
| `GeoFailover.LateBodyIsInvalid` | packages/home-network-model-guard/src/geo.ts:181-222 | for every script: if the last endpoint tried ends at its deadline, the caller is told of an invalid response when good headers had come before that deadline, and of a timeout otherwise |
| `GeoFailover.SlowBodiesAreCalledInvalid` | packages/home-network-model-guard/src/geo.ts:112-132 | two endpoints that send headers and stall are reported as invalid responses after both budgets |
| `FeedbackBook.FeedbackBook.constructor` | packages/dsh-auto-model-routing/src/feedback.ts:23-37 | opening a book folds every line of the file in order |
| `FeedbackBook.FeedbackBook.BindRecord` | packages/dsh-auto-model-routing/src/feedback.ts:48-48 | binding writes one line and adds the record, or does nothing if the message is bound |
| `FeedbackBook.FeedbackBook.SetFeedback` | packages/dsh-auto-model-routing/src/feedback.ts:49-53 | rating needs a binding, writes one event and changes only rating and time |
| `FeedbackBook.FeedbackBook.NoteFact` | packages/dsh-auto-model-routing/src/feedback.ts:55-60 | a fact is written once; an empty session is refused by the schema |
| `FeedbackBook.BookEqualsItsFile` | packages/dsh-auto-model-routing/src/feedback.ts:48-61 | from any file that is empty or ends in a newline, memory equals the replay of the file after every sequence of calls |
| `FeedbackBook.TornAppendIsInvisible` | packages/dsh-auto-model-routing/src/feedback.ts:36-36 | a torn last append does not affect replay, unless only its newline is missing: then it counts as made |
| `FeedbackBook.GluedLineIsLost` | packages/dsh-auto-model-routing/src/feedback.ts:61-61 | an event appended to an unfinished line is not replayed |
| `FeedbackBook.AgreementNeedsANewline` | packages/dsh-auto-model-routing/src/feedback.ts:61-61 | after a tear, memory and file agree on the next writing call exactly when the file ended in a newline or the call changed nothing |
| `FeedbackBook.FirstLineDecides` | packages/dsh-auto-model-routing/src/feedback.ts:27-35 | over any lines, corrupt and legacy ones included, a binding's decision is that of its first line and a fact's time that of its first line |
| `FeedbackBook.LastRatingWins` | packages/dsh-auto-model-routing/src/feedback.ts:30-35 | over any lines a message's rating is that of the last line about its own decision; lines about another decision never count |
| `FeedbackBook.CallsKeepDecisions` | packages/dsh-auto-model-routing/src/feedback.ts:48-60 | no call, torn or not, changes a decision or a fact's time in memory |
| `Lines.SplitJoin` | packages/dsh-openspec/src/adapter-block.ts:68-68 | lines without newlines come back from their join |
| `Lines.JoinSplit` | packages/dsh-openspec/src/adapter-block.ts:75-75 | every text comes back from its lines, none of which holds a newline |
| `ManagedInvocation.ReadShellArgument` | packages/dsh-openspec/src/adapter-block.ts:20-33 | the reading loop gives the value of the quoted argument and where it ends, or fails |
| `ManagedInvocation.ReadsEscaped` | packages/dsh-openspec/src/managed-invocation.ts:3-6 | reading gives back the quoted value exactly when what follows does not reopen the quote; a space or the end does not |
| `ManagedInvocation.ReadIsCanonical` | packages/dsh-openspec/src/adapter-block.ts:20-33 | every text that reads as an argument is the quoting of the value read |
| `ManagedInvocation.NormalizeInvocation` | packages/dsh-openspec/src/adapter-block.ts:35-53 | the index-based reader gives what `Normalized` says |
| `ManagedInvocation.NormalizesExactlyManaged` | packages/dsh-openspec/src/managed-invocation.ts:8-14 | normalising accepts exactly the strings a managed invocation has in that telemetry mode, and is the identity on them |
| `ManagedInvocation.IncludedThroughPaths` | packages/dsh-openspec/src/managed-invocation.ts:5-13 | a marker is in an invocation exactly when it is in one of its two paths |
| `AdapterBlock.MarkersAreSound` | packages/dsh-openspec/src/upstream-compat.ts:11-12 | the two real markers have the properties the round trip needs |
| `AdapterBlock.ParseAdapterBlock` | packages/dsh-openspec/src/adapter-block.ts:72-85 | the reading loop gives what `Parsed` says: unknown and duplicate fields refuse the block |
| `AdapterBlock.RendersExactly` | packages/dsh-openspec/src/adapter-block.ts:55-90 | when a document is rendered, and its text line by line: the trimmed body, an empty line, the block's fields in their order |
| `AdapterBlock.ParsesExactly` | packages/dsh-openspec/src/adapter-block.ts:72-85 | what is read is exactly a block at the last start marker and the end of the content, of allowed fields given once each, the four required ones well formed |
| `AdapterBlock.MarkerInInvocationRefuses` | packages/dsh-openspec/src/adapter-block.ts:73-76 | with the start marker in the invocation the reader begins inside that line and refuses |
| `AdapterBlock.RenderedReadsBack` | packages/dsh-openspec/src/adapter-block.ts:87-90 | for every accepted body, what is rendered reads back as the fields it was built from, notice and recovery among them, exactly when the invocation does not hold the start marker |
| `AdapterBlock.PathsDecideReadingBack` | packages/dsh-openspec/src/adapter-block.ts:87-90 | for two given paths the block is rendered, and reads back exactly when neither path holds the start marker |
| `Observations.ReadObservations` | skills/case-verify/scripts/_model.py:266-289 | the reading loop accepts exactly the logs whose every row passes all checks against the rows before it |
| `Observations.ReadExactly` | skills/case-verify/scripts/_model.py:205-289 | a log reads exactly if it is complete, the revisions ascend and every row stands against the earlier ones: known revision and checkpoint, fresh id, time, evidence with its present digest, and a supersede target of its own line that nothing has replaced |
| `Observations.AppendRecord` | skills/case-verify/scripts/_model.py:343-367 | it succeeds exactly if the log reads, the plan is confirmed for the present inputs and is the expected one, every check on the record passes and the write is whole; the row written is the record as given with the next number, the time, the active revision and the digests of the evidence; otherwise the file is as it was |
| `Observations.IdReads` | skills/case-verify/scripts/_model.py:352-353 | the printed number of an observation id reads back |
| `Observations.PreparedIsOk` | skills/case-verify/scripts/_model.py:343-356 | the row a call prepares passes every check the reader makes, a fresh id among them |
| `Observations.AppendedLogReads` | skills/case-verify/scripts/_model.py:343-367 | after a successful append the log reads as the old rows and the new one exactly when the line holds none of U+0085, U+2028 and U+2029; otherwise it cannot be read |
| `Observations.ReadRowsAreLinked` | skills/case-verify/scripts/_model.py:254-263 | in every readable log links point backwards, are unique, and stay within one checkpoint, revision and dimension |
| `Observations.ChainEnds` | skills/case-verify/scripts/_model.py:254-263 | every row's chain ends in an unreplaced row of the same checkpoint, revision and dimension |
| `Observations.EffectiveAreChainEnds` | skills/case-verify/scripts/_model.py:297-298 | the effective rows are exactly the chain ends of the active revision |
| `Observations.ChainsAreDisjoint` | skills/case-verify/scripts/_model.py:254-263 | two rows share a chain end exactly when one is reached from the other |
| `Observations.ConfirmStartsAfresh` | skills/case-verify/scripts/_model.py:402-416 | confirming appends the next revision with the inputs and the choice and makes it active, leaves the log readable whatever the checkpoints now are, and starts with no effective rows |
| `StageTokens.RoutingDispatcher.StageToken` | packages/dsh-openspec/src/routing.ts:84-89 | minting adds the token and keeps the newest up to the bound |
| `StageTokens.RoutingDispatcher.Begin` | packages/dsh-openspec/src/routing.ts:124-147 | a workflow selection goes on to the registry only with a live token of its own session, which is gone from the store afterwards; no request goes on with a feature that is not allowed |
| `StageTokens.RoutingDispatcher.Finish` | packages/dsh-openspec/src/routing.ts:148-160 | the token in the answer is never the provider's: it is the one just drawn for a selected formal first-stage answer, and otherwise absent; a selected answer names an acceptable candidate |
| `StageTokens.BeginsExactly` | packages/dsh-openspec/src/routing.ts:125-147 | a request reaches the provider exactly if no existing change answers it, a workflow selection shows a live token of its own session, and features and candidates are proper; and exactly which token leaves the store |
| `StageTokens.MintsExactly` | packages/dsh-openspec/src/routing.ts:84-89 | a new token goes last, and only the oldest ones go once there are too many |
| `StageTokens.TokenWorksOnce` | packages/dsh-openspec/src/routing.ts:93-138 | a minted token lets one selection of its session through at any time in the next ten minutes, and no second one |
| `StageTokens.EventKeeps` | packages/dsh-openspec/src/routing.ts:124-160 | every segment keeps: stored tokens are genuine, unspent and bounded, spent ones are paid for |
| `StageTokens.SelectionsAreTokened` | packages/dsh-openspec/src/routing.ts:138-138 | over whole runs each workflow selection that reached the provider spent a token of its session minted at most ten minutes before, and no two spent the same |
| `StageTokens.TokensComeFromFormalOutcomes` | packages/dsh-openspec/src/routing.ts:154-159 | unless the public issuing functions are used, the very token a selection spent was minted by a formal first-stage outcome of its session at most ten minutes before, and that outcome admits no other selection |
| `StageTokens.StoreStaysBounded` | packages/dsh-openspec/src/routing.ts:87-87 | after every operation of every run the store is within its bound |
| `StageTokens.OnlyTheOwnerBurnsAToken` | packages/dsh-openspec/src/routing.ts:96-100 | another session's attempt leaves a token usable by its owner, whose use is the last |
| `ToolPairs.ToolPairIds` | packages/subscriptions-sandbox-shim/src/strip.js:85-97 | the collecting loops give all call ids and all result ids |
| `ToolPairs.StripUnpairedToolBlocks` | packages/subscriptions-sandbox-shim/src/strip.js:112-160 | orphan filters, shortcut and provider gate together keep exactly the role-valid blocks and whole results whose id is paired |
| `ToolPairs.PipelineIsTrim` | packages/subscriptions-sandbox-shim/src/strip.js:131-159 | dropping orphans by the two filters is keeping the ids that are on both sides |
| `ToolPairs.IdsExactly` | packages/subscriptions-sandbox-shim/src/strip.js:112-126 | the ids that pair are those of calls in assistant messages, and those of results in user messages and of tool messages |
| `ToolPairs.CleanExactly` | packages/subscriptions-sandbox-shim/src/strip.js:99-110 | clean means: calls only in assistant and results only in user messages, and whatever is called is answered and the other way round |
| `ToolPairs.StrippedIsBalanced` | packages/subscriptions-sandbox-shim/src/strip.js:99-110 | after stripping, calls and results name the same ids: those that were on both sides before |
| `ToolPairs.StrippedIsGreatestCleanPart` | packages/subscriptions-sandbox-shim/src/strip.js:99-110 | the result is a clean part of the history, in order, and contains every other clean part: nothing more is dropped than has to be |
| `ToolPairs.UnchangedIffClean` | packages/subscriptions-sandbox-shim/src/strip.js:126-132 | a history is left alone exactly when it is clean already |
| `ToolPairs.StripIsIdempotent` | packages/subscriptions-sandbox-shim/src/strip.js:112-160 | stripping twice is stripping once |
| `UsageReport.ReadSession` | packages/dsh-auto-model-routing/src/usage-report.ts:86-115 | the loop over the events gives what the fold says |
| `UsageReport.LogExactly` | packages/dsh-auto-model-routing/src/usage-report.ts:86-115 | the log is: each message where it is first appended, in the turns of that moment; each turn's last end; each user turn's start as known when the user last spoke in it |
| `UsageReport.CallIdsAreDistinct` | packages/dsh-auto-model-routing/src/usage-report.ts:104-113 | a message written again is not a second call |
| `UsageReport.NextUserStarts` | packages/dsh-auto-model-routing/src/usage-report.ts:182-188 | the backward sweep gives each turn the start time of the smallest strictly later user turn, or nothing |
| `UsageReport.LinkDecisions` | packages/dsh-auto-model-routing/src/usage-report.ts:174-206 | the nested loops join every bound call, with its end and continuation, to the decision of its binding |
| `UsageReport.LinksExactly` | packages/dsh-auto-model-routing/src/usage-report.ts:174-206 | the links of a session are its bound calls in order, each with its binding, the end of its turn and the start of the user's next turn |
| `UsageReport.DecisionsAreTheirCalls` | packages/dsh-auto-model-routing/src/usage-report.ts:191-206 | a decision holds exactly the calls bound to it in log order, identity from the first, end and continuation from the last, ratings from all |
| `UsageReport.LinkedCallsAreConserved` | packages/dsh-auto-model-routing/src/usage-report.ts:191-206 | every linked call is in exactly one decision |
| `UsageReport.GroupDecisions` | packages/dsh-auto-model-routing/src/usage-report.ts:232-238 | the grouping loop gives what the fold says |
| `UsageReport.SubgroupsAreTheirDecisions` | packages/dsh-auto-model-routing/src/usage-report.ts:232-238 | a subgroup is the list of kept decisions with its group, model and depth, in order |
| `UsageReport.GroupTotalsAreConserved` | packages/dsh-auto-model-routing/src/usage-report.ts:239-271 | decisions and calls over all groups add up to those of the kept decisions |
| `UsageReport.CountBuckets` | packages/dsh-auto-model-routing/src/usage-report.ts:245-246 | every label has a counter, and each is the number of decisions in its bucket |
| `UsageReport.CountClasses` | packages/dsh-auto-model-routing/src/usage-report.ts:247-267 | each counter, per class, per label, per exposed label and per cause, is the number of decisions it is named after |
| `UsageReport.CountersAgree` | packages/dsh-auto-model-routing/src/usage-report.ts:245-267 | across the counters: every decision is explicit or unrated; the explicit labels repeat the feedback counters; both causes add up to the negatives and those counted twice; every exposed decision is an exposed label, a negative, implicitly fine or inconclusive |
| `UsageReport.BucketIsTheRating` | packages/dsh-auto-model-routing/src/usage-report.ts:246-246 | a decision is in a rating's bucket exactly when that is its only rating |

## Left out

- UpgradeProtocol.StepKeeps: two state directories that share one checkout are not modelled; a journal belongs to one state directory, and only the source lock is shared between two.
- UpgradeProtocol: consent, target syntax, worktree, recorded-checkout and writability refusals, which return before anything is read; the reported reason strings.
- UpgradeDocuments.RecoveryIsInverse: JSON documents are association lists with one table of dependencies; the rest of each document is one opaque value that no step changes.
- GenerationClosure.IdentityIgnoresLayout: assumes that no dependency links back to the served package; hashing, file copying and `generationHashes` are not part of this model.
- GenerationClosure.KeysTellPackagesApart: a key is an injective hash of what the source takes it of; its readable part and the truncation of its two hashes are not modelled.
- GenerationClosure.WriteGeneration: a dependency called `.dsh-closure`, and packages that bring `node_modules` of their own, which the copier leaves behind; a link to a key that was not copied is no entry.
- GenerationClosure.ResolveDependency: errors of `realpath` other than a missing entry end the plan and are not told apart.
- LedgerSalvage.Salvage: argument checks, the message texts and the simulated kill of the tests; `decodeRecord` is an arbitrary partial function.
- LedgerSalvage.Salvage: what fails, directory syncs included, is given for each run, and nothing is said about what survives a power failure.
- CanonicalStamp.CanonicalIsFaithful: cyclic values, which the serializer refuses, are not representable; numbers stand for their printed text.
- `stamp.ts`: `refusal`, `wakeSources`, `Projector` and `statusState` depend on the collaboration kernel, whose source is not part of this model.
- UpdateLock.MutualExclusion: assumes that a holder past 30 seconds takes no further step; the cache file, the backoff, the request and the version comparison are left out.
- AutoRouting.WritesRestOnAuto: `mainStatus`, `latest`, `applied` and `confirmMainRequest`, which only decide what is displayed and bound, and the choice of model and effort; agents are not re-created within a run; a usable verdict stands for an effort other than the one in place.
- UpdateLock and AutoRouting: state that the source updates in place in closures is a value that each step replaces.
- VerdictCache.HitsAreFresh: `lastResolution`, which only feeds the diagnosis page.
- GeoFailover.ResolveCountry: the country fields of a payload and the URL of an endpoint; each fetch is given by what it would do and when.
- FeedbackBook.BookEqualsItsFile: the order of `entries()` and the fields of a snapshot; the file is read once when the book is opened, by one process.
- ManagedInvocation.NormalizesExactlyManaged: `isAbsolute` is that of POSIX.
- AdapterBlock.RenderedReadsBack: `canonicalVersion` is an arbitrary function without newlines or `<` in its results, so what a notice's versions are normalised to is not stated.
- Observations.PreparedIsOk: ids with digits other than ASCII ones, evidence kind and scope, and the shape checks of the parser.
- Observations.ConfirmStartsAfresh: the gates and the strategy choice that come before a confirmation; the status table is a minimum over the effective rows and would only add an easy member.
- StageTokens.SelectionsAreTokened: a dispatcher reads its clock once per segment; the registry (provider lifecycle, timeout, shape checks) is an arbitrary reply, and `validateCandidateText` is left out.
- ToolPairs.StripUnpairedToolBlocks: whether the same object is returned; schema and argument stripping, which are one-branch facts.
- UsageReport.LinkDecisions: decoding and file discovery, child and seeded sessions, the since filter, token sums, the median, coverage counters, the effort tables and the reference table; the group label of a binding is given.
- UsageReport.GroupDecisions: the locale sort of the groups, which totals do not depend on.
- Liveness after a hard kill: stale lock and claim files are left to an operator, as in the source.
