# Proofs about the network-management backend

A Dafny project that models the parts of the backend whose correctness is hardest to see by reading: the
license lifecycle across several worker processes, and a number of small algorithms other features rest on.
`dafny verify dfyconfig.toml` checks everything.

## The license lifecycle

Every worker process holds a copy of the license state and shares two files with the others: the stored
license and a cache of the last signed answer of the license server.

* `LicenseToken` is the contract the rest stands on: a signature check is an uninterpreted function from a
  token to optional claims, and `VerifyToken` adds the checks on kind, nonce, key and machine.
* `LicenseModel` gives every function of `license_state.py` that changes state as a function from old values,
  clock readings, replies and files to new values. A file is a cell with a stamp that every write renews.
* `LicenseWorker` is the same code in its own form: a class with the module globals as fields, whose methods
  change them step by step. Each method is proved equal to its function in `LicenseModel`.
* `LicenseSystem` is the state machine: any number of workers, any interleaving of their calls (a sync is two
  steps, stamps before contents, and so is a validation and the taking of its answer), any clock readings,
  replies and failed writes, restarts, and files changed from outside. `Initial` allows any files.
* `LicenseAnswers` says which replies, cached tokens and files count, in the signed claims, and what each outcome
  leaves in every field.
* `LicenseClock`, `LicenseRejection`, `LicenseSync` and `LicenseWindows` hold the theorems over its runs.
* `AssetEntitlement` turns the resulting limit into a set of covered assets, `Heartbeat` is the thread that
  asks for answers.

## The algorithms

* `ShadowAnalysis`, `ConfigBlocks`: the firewall review of `fortinet_audit_cli.py`.
* `AuditMessages`, `AuditMeaning`, `AuditSentences`: the templates read off the source by `audit_messages.py`,
  and the strings the source can produce as their meaning.
* `Escaping`: escapes against the lexer that reads them (POSIX Shell Command Language, sections 2.2.1, 2.2.2
  and 2.7.4).
* `Redaction`: replacement of secrets by value.
* `RateLimiter`: the sliding windows on audit runs.
* `ThresholdKeys`; `ZoneMerge`, `ZoneInsertion`, `ZoneNames`: two data migrations.

`Options` and `PyText` hold what the other modules share: the optional value and Python's string operations.

## Where the code does less than its documentation says

Each of these is shown by a lemma with a case, or a family of cases, next to the exact condition under which the
promise holds.

* A worker whose clock is wrong when it starts refuses the cached answer but has recorded the files, so later
  syncs see nothing new and leave it without the license (`LicenseSync.ARefusedRestoreStaysBehind`,
  `LicenseSync.UpToDateIff`).
* A deleted license file is noticed by a worker only if that worker had recorded the file
  (`LicenseSync.ARemovalCanBeMissed`, `LicenseSync.RemovalIsNoticedIffTheFileWasKnown`).
* A cache write records the time its own process has seen, even below what the cache recorded: with a second
  worker under an earlier clock a restart can bring an ended token back
  (`LicenseClock.AnEarlierClockLowersTheRecord`, `LicenseClock.RecordIsLoweredIff`).
* A second rejection told under a clock set back forgets when the first was told
  (`LicenseRejection.SecondRejectionUnderAClockSetBackForgets`, `LicenseRejection.RejectionSticksIff`).
* A rejection in the cache is undone when another worker, which has not heard of it, writes the old token back;
  then a restart licenses the rejected worker again (`LicenseRejection.AnotherWorkerUndoesTheRejection`,
  `LicenseRejection.StepSoilsIff`, `LicenseRejection.HeardByAllHoldsForAllIff`).
* A restart loses a license that still holds if the clock reads well before the answer's issue time, or if the
  license file was removed or replaced and the running process has not noticed
  (`LicenseWindows.RestartIsTransparentIff`).
* Stopping the heartbeat can take a full delay if it falls between the thread's test of the stop event and its
  clearing of the wake event (`Heartbeat.StopIsPromptOutsideTheGap`).
* The tokens ALL_TCP, ALL_UDP and ALL_ICMP are taken to cover every service, which on the device they do not
  (`ShadowAnalysis.AllTcpIsNotEverything`, `ShadowAnalysis.RemovingTheReportedIsHarmlessIff`,
  `ShadowAnalysis.RemovalIsHarmlessIff`).
* Removing shadowed policies by id can remove others when ids repeat (`ShadowAnalysis.SharedIdsExample`,
  `ShadowAnalysis.RemovalByIdIsHarmlessIff`).
* Two holes of one template can share a name (`AuditSentences.NamesCanRepeat`,
  `AuditSentences.HoleNamesAreDistinctIff`).
* The apostrophe is not the only character that ends a PowerShell single-quoted string
  (`Escaping.TypographicApostropheEndsTheString`, `Escaping.PowershellReadsTheValueIff`).
* A secret that is a part of the marker <REDACTED>, or can stand across an edge of it, can be put back by its own
  replacement (`Redaction.OneSecretIsGoneIff`, `Redaction.GoneFromEveryTextIff`).
* A clock set back between a check and the stamp of its row lets an hour or a day hold one start too many
  (`RateLimiter.HoursAreKeptIff`, `RateLimiter.DaysAreKeptIff`).
* A threshold that is not a whole number is cut off when it is written back, but not when levels are derived
  from it (`ThresholdKeys.LevelsMatchTheWrittenBoundsIffWhole`, `ThresholdKeys.UpgradeKeepsTheMeaningIff`).
* Asset roles longer than a zone name may be can make the zone merge fail, or give one key two zones
  (`ZoneNames.LongRolesFail`, `ZoneNames.UpgradeSucceedsIff`, `ZoneNames.LongRoleTakesAKey`,
  `ZoneNames.EveryNetworkZoneIsThereOnceIff`, `ZoneNames.TheNewerZoneStaysIff`).

## Assumptions

* Times are integers in microseconds. Clock readings, replies, nonces and the success of a write are chosen
  freely at each step. A wait that is over early and one that runs out are separate steps.
* A file written anew has a new stamp (`_file_stamp` is modification time, size and inode).
* Startup attaches and then restores before other calls reach the worker, as `app/main.py` lines 213-219 do.
* Steps are as fine as follows. A validation that comes back and the taking of its answer are two steps of a
  process, with other threads' calls in between; so are the two halves of a sync. The code holds no lock across
  what is one step here in three places, and the steps assume nothing comes between: taking an answer and the
  reading of the state that ends `refresh_license_state`; the load of a changed offline license within a sync;
  `_adopt_cached_answer`, which reads the cache before it takes the lock.
* Which parameter names are secret, what `int()` makes of a text, and which license key a token claims before it
  is verified are parameters.
* A risk profile is part of its asset's record, since its asset id is unique, and a zone is known by its
  place in the list of zones, since the migration only adds zones. Names in network_zones fit its column.
* An audit row is stamped no earlier than its own check read the clock, with no other start of the user between.

## Model

| member | source | states |
|---|---|---|
| LicenseWorker.SecureStorage.constructor | app/core/license_client.py:151-170 | a new storage holds no files |
| LicenseWorker.SecureStorage.SaveState | app/core/license_client.py:181-193 | the cache is replaced as a whole under a new stamp, or not at all when the write fails |
| LicenseWorker.SecureStorage.SaveLicense | app/core/license_client.py:200-205 | the license file is replaced as a whole under a new stamp; the cache stays |
| LicenseWorker.SecureStorage.InstallOfflineLicense | app/core/license_client.py:390-443 | a pasted file is installed exactly when it holds a token that verifies for its own key and this machine as an offline license that has not ended, and the write succeeds; then every validation of that file gives that license, otherwise nothing is written |
| LicenseWorker.Worker.constructor | app/core/license_state.py:56-106 | a process starts unlicensed, having seen no time and loaded no file |
| LicenseWorker.Worker.AttachStateCache | app/core/license_state.py:111-130 | the stamps of the files as they are at startup are recorded, and the next sync is not throttled |
| LicenseWorker.Worker.SeenNow | app/core/license_state.py:259-265 | the latest time seen after also seeing now |
| LicenseWorker.Worker.PersistState | app/core/license_state.py:268-282 | the cache gets the token of a valid state only, with the latest time seen |
| LicenseWorker.Worker.ApplyState | app/core/license_state.py:402-416 | every entitlement field is set from the signed state, none is kept |
| LicenseWorker.Worker.ClearEntitlementFields | app/core/license_state.py:419-428 | no entitlement field is left over |
| LicenseWorker.Worker.GetLicenseState | app/core/license_state.py:431-518 | the snapshot is the model's view of state, latest time seen and now; only the latest time seen changes |
| LicenseWorker.Worker.StoreAnswer | app/core/license_state.py:521-535 | a signed answer becomes the state and goes to the cache |
| LicenseWorker.Worker.MarkLicenseServerOffline | app/core/license_state.py:538-557 | an unreachable server changes the offline mark only |
| LicenseWorker.Worker.MarkLicenseRejected | app/core/license_state.py:560-583 | a "no" ends the state, forgets the token and says so in the cache |
| LicenseWorker.Worker.RefreshLicenseState | app/core/license_state.py:586-648 | each of the five outcomes of a validation leaves the state its branch leaves, ending in the snapshot it returns where it does not raise; the last keeps the token and the cache |
| LicenseWorker.Worker.AdoptCached | app/core/license_state.py:217-249 | the cached answer is taken exactly when it verifies and is newer than all this process knows |
| LicenseWorker.Worker.TakeStamps | app/core/license_state.py:163-191 | the stamps are recorded before anything is read, and what is left to do is whether the license file changed or is gone |
| LicenseWorker.Worker.LoadChange | app/core/license_state.py:192-203 | from the files as they are by then: no license, the changed offline license, or the newer cached answer |
| LicenseWorker.Worker.RestoreCached | app/core/license_state.py:285-384 | a restart resumes the latest time seen and takes the cached answer only if it verifies and has not run out |
| LicenseSystem.VerifiedIsGenuine | app/core/license_token.py:59-125 | whatever validation or the cache hands on is what a trusted key signed, for this machine and in the supported version |
| LicenseAnswers.ResponseIsTakenIff | app/core/license_client.py:654-692 | with an online license a response is taken exactly if its token is signed by a trusted key in version 1, as an answer to a validation, for the stored key, this machine and the nonce sent, with an issue time; the state taken is field by field what it says; no answer and a 4xx are told apart from it |
| LicenseAnswers.OfflineFileIsTakenIff | app/core/license_client.py:402-414 | an offline license is taken exactly if the file is this machine's and its token is signed for its key, this machine and as a valid offline license with an end, whatever the network does |
| LicenseAnswers.CacheCountsIff | app/core/license_client.py:445-454 | a cached token counts exactly if it is signed for the key stored now and this machine, with an issue time from the year 1 to 9999 |
| LicenseAnswers.OfflineFileIsHeaderAndToken | app/core/license_client.py:391-400 | a file of two lines yields its second exactly if the first is the header and it has at most 16384 characters |
| LicenseAnswers.InstallableIff | app/core/license_client.py:416-431 | a file can be installed exactly if its token is signed as a valid offline license for the key it names and this machine and has not ended |
| LicenseAnswers.AnswerIsTheState | app/core/license_state.py:387-416 | an answer that counts leaves every field as the claims say (the limit a signed number, none below zero, unlimited for null, else five), the token and the issue time; the cache gets the token if it says yes |
| LicenseAnswers.ForeignResponseEndsTheLicense | app/core/license_state.py:617-622 | a response that does not count clears every field and the token, here and in the cache |
| LicenseAnswers.NoAnswerChangesNothing | app/core/license_state.py:623-629 | without an answer only the offline mark changes; a cache that is written holds the process's own token |
| LicenseAnswers.NoAnswerCostsNothing | app/core/license_state.py:595-602 | every entitlement after a validation that timed out is the one without the call |
| LicenseAnswers.RefusedRequestEndsTheLicense | app/core/license_state.py:638-650 | a 4xx ends the license in this process and leaves its token and the files |
| LicenseAnswers.NoLicenseFileGrantsNothing | app/core/license_state.py:630-637 | without a license file nothing is granted, and the token and the files stay |
| LicenseAnswers.OfflineFileIsTheState | app/core/license_state.py:192-203 | an offline license file becomes the state if it grants one, and ends the license if not |
| LicenseAnswers.RemovedFileEndsTheLicense | app/core/license_state.py:206-215 | a sync that finds the license file removed clears every field, the issue time and the token |
| LicenseAnswers.RestartTakesTheCacheIff | app/core/license_state.py:285-384 | a new process comes up field by field on the cached answer exactly if it counts, the clock reads at most five minutes before its issue and the time recorded, and it has not run out (an offline license at its end, any other after 32 days); else with nothing |
| LicenseAnswers.AdoptionTakesTheCache | app/core/license_state.py:239-249 | an adopted answer leaves every field as its claims say |
| LicenseAnswers.AnOutageEndsNothing | app/core/license_state.py:586-629 | over every run in which no reply reaches a worker with an online license, however long and whatever the others do, its state and token stay but for the offline mark |
| LicenseAnswers.AnOutageCostsNothing | app/core/license_state.py:586-629 | so that at any later reading not set back it grants what the windows alone would |
| LicenseAnswers.LoadedTokenIsForTheStoredKey | app/core/license_state.py:217-384 | a start or a sync takes a token only if it is signed for the license key stored at that moment |
| LicenseAnswers.EveryTokenIsForAStoredKey | app/core/license_state.py:217-384 | over every run, the token a worker runs on is signed for this machine and a license key that was stored since it started |
| LicenseAnswers.EveryGrantIsSigned | app/core/license_state.py:387-428 | over every run a valid state is field by field what the claims of the token it runs on say |
| LicenseSystem.StepInv | app/core/license_state.py:206-248 | no step of any worker, file or clock breaks the invariant of reachable states |
| LicenseSystem.NothingUnsignedBecomesALicense | app/core/license_state.py:366-428 | over every run a valid state has a validation time and is field by field what a token grants that a trusted key signed for this machine in the supported version, so "valid with nothing to count from" (line 491) is never reached |
| LicenseClock.EndedStaysEnded | app/core/license_state.py:441-518 | once a time past the end plus the tolerance was seen, no clock reading makes the snapshot valid |
| LicenseClock.InForceExactlyUntilTheEnd | app/core/license_state.py:462-518 | with a clock not set back by more than five minutes a token is in force up to its end and not a microsecond longer |
| LicenseClock.SetBackClockBlocks | app/core/license_state.py:441-461 | while a clock reads more than five minutes before the latest time seen or the issue time, nothing is granted |
| LicenseClock.SeenNeverDecreases | app/core/license_state.py:259-265 | over every run without a restart of the worker, the latest time seen never decreases |
| LicenseClock.EndedTokenNeverValidAgain | app/core/license_state.py:441-518 | over every run with arbitrary clock readings, a token whose end was once seen to be past is never valid again in that worker |
| LicenseClock.RecordIsLoweredIff | app/core/license_state.py:268-282 | a step leaves the time recorded in the cache at or above a bound exactly if it is not a write by a process that has seen less, nor a file put there or removed from outside |
| LicenseClock.RecordHoldsIff | app/core/license_state.py:268-282 | so over every run |
| LicenseClock.PersistRecords | app/core/license_state.py:268-282 | a successful cache write records all its process has seen |
| LicenseClock.OneWorkerNeverLowers | app/core/license_state.py:268-282 | over every run of a single worker nothing lowers the recorded time |
| LicenseClock.EndedTokenStaysDeadAcrossRestarts | app/core/license_state.py:312-351 | while the time in the cache is not lowered, an ended token stays ended in a worker that has seen the time or restarts, over any number of restarts of any worker, whatever the others have seen; the next two rows give the exact condition |
| LicenseClock.SeenIffShown | app/core/license_state.py:259-351 | over every run with any restarts, a worker has seen a time exactly if, since its last start, a clock reading of its own reached it or the cache it restored recorded it |
| LicenseClock.EndedForGoodIff | app/core/license_state.py:441-518 | no later reading makes the token a worker runs on valid exactly if it has seen its end plus the tolerance go by (or the token was issued later than that) |
| LicenseClock.EndedTokenStaysDeadIff | app/core/license_state.py:259-518 | so over every run of any workers: the token has ended for good in a worker exactly if its calls since its last start have shown it such a time |
| LicenseClock.AnEarlierClockLowersTheRecord | app/core/license_state.py:268-282 | a run in which a second worker's write under an earlier clock lowers it, and a restart of the first brings an ended token back |
| LicenseClock.RestartResumesTheTimeSeen | app/core/license_state.py:312-328 | a restart starts from the recorded time even when the token is not restored |
| LicenseRejection.StepLiftsIff | app/core/license_state.py:217-248 | a step lifts a rejection exactly if it is a signed "yes" of the worker's own, a "no" said to be from before, a cached "yes" it adopts, or a removed license file behind a "no" known only by its issue time |
| LicenseRejection.RejectionSticksIff | app/core/license_state.py:538-583 | after a "no" told at t, whatever all workers and files do, the worker stays refused throughout a run without its restart exactly if none of its calls is one of these |
| LicenseRejection.OnlyNewerAnswersAreAdopted | app/core/license_state.py:233-241 | offline marks lift nothing, and a sync only with another worker's answer that was issued after t, unless the license file is gone or is a changed offline license |
| LicenseRejection.RefuseRefuses | app/core/license_state.py:560-583 | a rejection puts the worker in that state |
| LicenseRejection.SecondRejectionUnderAClockSetBackForgets | app/core/license_state.py:217-248 | a run where a second "no" under a clock set back lets an answer issued between the two be adopted |
| LicenseRejection.StepSoilsIff | app/core/license_state.py:268-282 | a step leaves the cache without a valid answer issued at t or before exactly if it is not a write by a process that runs on or is given one that still verifies, nor a cache or license file put there from outside that gives one |
| LicenseRejection.CacheStaysCleanIff | app/core/license_state.py:268-282 | so over every run |
| LicenseRejection.OldAnswersStayOutIff | app/core/license_state.py:217-384 | any number of workers, any restarts: a worker is never licensed by an answer issued at t or before exactly if it neither takes one of its own nor loads one from the cache, at a start or in a sync |
| LicenseRejection.RejectionSurvivesRestartsIff | app/core/license_state.py:560-583 | while nothing brings such an answer back into the cache, restarts of the worker load none, so that it holds exactly until the worker takes one of its own |
| LicenseRejection.HeardByAllHoldsForAllIff | app/core/license_state.py:560-583 | once no worker is licensed by an answer issued at t or before and the cache holds none, this stays so for all of them and through all restarts exactly until one comes in from the license server or from outside |
| LicenseRejection.RefuseCleans | app/core/license_state.py:560-583 | a rejection whose cache write succeeds leaves no such answer in the cache and its process unlicensed, whatever t is |
| LicenseRejection.AnotherWorkerUndoesTheRejection | app/core/license_state.py:538-557 | a run without any clock set back in which the rejection is in the cache, a second worker marks the server offline, and a restart licenses the rejected worker again on the old token |
| LicenseRejection.RejectionSurvivesRestarts | app/core/license_state.py:323-328 | with one worker whose rejection reached the cache, no restart licenses the product again, whatever license file is installed; only a signed answer the worker takes does |
| LicenseRejection.RefuseLocks | app/core/license_state.py:560-583 | a rejection whose cache write succeeds reaches that state |
| LicenseSync.AdoptionRaisesKnown | app/core/license_state.py:217-249 | adoption happens exactly when the worker was behind, strictly raises what it knows, and brings it up to date |
| LicenseSync.NoUpdateIsLost | app/core/license_state.py:163-203 | over every run, if the next sync of an idle worker would see nothing new about a file, then since its start it has loaded that file at a step at which it was what it is now |
| LicenseSync.UpToDateIff | app/core/license_state.py:163-249 | over every run, an idle worker whose next sync would see nothing new holds the stored answer or knows something at least as recent exactly if a file is missing, or its last restore, verdict or load of these files kept it up: no restore refused what is stored, no unwritten verdict of its own was older |
| LicenseSync.ARefusedRestoreStaysBehind | app/core/license_state.py:340-364 | a run in which a wrong clock at the start has a worker refuse the stored answer, and with the clock right again it sees nothing new and stays without it |
| LicenseSync.OneSyncCatchesUp | app/core/license_state.py:163-249 | once writes stop, one unthrottled sync of an idle worker leaves it with the changed offline license's answer, without a license if the file is gone, or up to date; where it sees no change, up to date exactly if its calls before kept it up |
| LicenseSync.RemovalIsNoticedIffTheFileWasKnown | app/core/license_state.py:184-214 | after the license file is deleted, an unthrottled sync leaves a license valid exactly if it was valid and the worker had no file recorded |
| LicenseSync.ARemovalCanBeMissed | app/core/license_state.py:163-203 | a run of six steps in which that happens |
| LicenseSync.SyncsComeToRest | app/core/license_state.py:163-203 | over every run of syncs, cache writes are bounded by the license-file changes still to be dealt with |
| LicenseSync.OneChangeOneWritePerWorker | app/core/license_state.py:163-203 | one license-file change causes at most one cache write per worker |
| LicenseWindows.Windows | app/core/license_state.py:462-518 | 48 hours the plan, 30 days min(plan, 5), then nothing, counted from the signed issue time |
| LicenseWindows.SnapshotShowsTheWindow | app/core/license_state.py:462-518 | the snapshot carries the pilot marks and the end of the pilot exactly in the pilot window, and every other field as it is stored |
| LicenseWindows.NextAnswerRestoresThePlan | app/core/license_state.py:387-416 | the next signed answer gives exactly the plan back, whatever window the process was in: the limit as it is signed |
| LicenseWindows.SameGrantSameAnswers | app/core/asset_entitlement.py:50-54 | two processes with the same grant answer the same at all later times of a forward clock |
| LicenseWindows.RestartIsTransparentIff | app/core/license_state.py:268-384 | persist, restart, restore: every later entitlement is that of the process that never restarted exactly if there was no license, or the clock reads no earlier than the issue time less the tolerance and the token still verifies for the license file as it is now, or the license will have ended by the time the clock does |
| LicenseWindows.QuietRun | app/core/license_state.py:538-648 | over every run without a signed answer a state that is still valid is the same grant |
| LicenseWindows.EntitlementOnlyShrinks | app/core/license_state.py:462-518 | over every such run the entitlement at a later time is at most that at an earlier one |
| AssetEntitlement.PositionOfTheKth | app/core/asset_entitlement.py:83-85 | the k-th oldest asset has position k |
| AssetEntitlement.CoversTheOldest | app/core/asset_entitlement.py:88-98 | the licensed assets are exactly the first min(used, limit) by age |
| AssetEntitlement.ThroughIdAgrees | app/core/asset_entitlement.py:62-98 | for every existing asset the check agrees with the through-id of the usage figures |
| AssetEntitlement.ChecksAgree | app/core/asset_entitlement.py:126-185 | capacity check, remaining capacity and flush guard accept the same numbers under a valid license |
| AssetEntitlement.AddedAssetsAreCovered | app/core/asset_entitlement.py:126-145 | assets may be added exactly if the license then covers all there are; adding none needs a license only |
| AssetEntitlement.UsageTellsTheTruth | app/core/asset_entitlement.py:62-80 | the figures shown: the remaining number is what may be added and no more, unlimited means any number, and the inventory is over the limit exactly if an asset is not covered |
| AssetEntitlement.UnknownTargetNeedsUnlimited | app/core/asset_entitlement.py:88-98 | a target outside the inventory is covered only by an unlimited license |
| AssetEntitlement.FlushesStayWithinTheLimit | app/core/asset_entitlement.py:162-185 | no serial run of flushes takes the inventory past the limit, and one already past it does not grow |
| AssetEntitlement.SmallerGrantCoversLess | app/core/asset_entitlement.py:88-98 | a smaller grant covers a subset of the assets |
| AssetEntitlement.CoverageOnlyShrinks | app/core/asset_entitlement.py:88-98 | over every run without a signed answer the assets covered later are among those covered now |
| Heartbeat.HeartbeatService.constructor | app/core/heartbeat.py:64-101 | a service starts with no failures counted |
| Heartbeat.HeartbeatService.NextDelay | app/core/heartbeat.py:174-189 | success resets the count and sleeps the interval; the n-th failure in a row sleeps the n-th delay |
| Heartbeat.HeartbeatService.RunOnce | app/core/heartbeat.py:103-172 | each outcome of a beat leaves the license state its branch leaves, and a rejection, an answer and a missing activation count as success, an outage or an unexpected error does not |
| Heartbeat.DelaysAreSane | app/core/heartbeat.py:174-189 | with positive settings the delays of an outage are positive, never shorter than before and at most min(max_retry, interval) |
| Heartbeat.DelaysDouble | app/core/heartbeat.py:174-189 | the first retry comes after the retry time and each further one after twice the time before, up to both ceilings |
| Heartbeat.DelaysReachTheCeiling | app/core/heartbeat.py:174-189 | and a long outage is retried at exactly that ceiling |
| Heartbeat.OwedBeatComes | app/core/heartbeat.py:191-213 | a beat asked for starts within a fixed number of the thread's steps |
| Heartbeat.NoWakeUpIsLost | app/core/heartbeat.py:242-246 | over every interleaving, a beat_now is followed by a beat that starts after it, before a full delay is slept |
| Heartbeat.LeftAloneItGoesRound | app/core/heartbeat.py:191-213 | a wait that runs out is followed by exactly one beat and the next wait |
| Heartbeat.StoppingEndsWithin | app/core/heartbeat.py:248-263 | a loop with both events set, and not before its clearing of the one, ends after exactly a fixed number of its own steps |
| Heartbeat.StopIsPromptOutsideTheGap | app/core/heartbeat.py:194-255 | with stop setting its two events one after the other and anything in between, no full delay is slept afterwards exactly if the thread does not stand between the stop test and the clearing of the wake event all the while |
| ConfigBlocks.SplitConfigBlocks | scripts/fortinet_audit_cli.py:959-978 | the loop returns the texts of the blocks of the classified lines |
| ConfigBlocks.IsEditIff | scripts/fortinet_audit_cli.py:959-978 | a line is an edit line exactly if it is blanks, the four letters in any case and a blank |
| ConfigBlocks.IsNextIff | scripts/fortinet_audit_cli.py:959-978 | a next line exactly if it is blanks, the four letters in any case and blanks |
| ConfigBlocks.AsciiCaseDoesNotMatter | scripts/fortinet_audit_cli.py:959-978 | on ASCII text the words match exactly if they are equal in lower case |
| ConfigBlocks.ParserUndoesPrinter | scripts/fortinet_audit_cli.py:959-978 | on the text of any printed configuration exactly the printed blocks come back, in order |
| ConfigBlocks.DistributesAtNext | scripts/fortinet_audit_cli.py:971-975 | a configuration can be split after any next line and parsed in parts |
| ConfigBlocks.KeepsEveryInsideLineOnce | scripts/fortinet_audit_cli.py:963-978 | on any input every line inside a block is kept once and in order, and no other |
| ConfigBlocks.ReturnsPieces | scripts/fortinet_audit_cli.py:963-978 | on any input every returned block starts with its only edit line and a next line can only end it |
| ShadowAnalysis.Analyse | scripts/fortinet_audit_cli.py:1041-1066 | the report is exactly the pairs of policies of the configuration, neither disabled, of which the earlier shadows the later, each pair of ids once |
| ShadowAnalysis.CoverageIsAPreorder | scripts/fortinet_audit_cli.py:1035-1039 | coverage is transitive, and reflexive on accepting policies |
| ShadowAnalysis.AllTokensAre | scripts/fortinet_audit_cli.py:1030-1033 | the all-tokens are these seven words in any case |
| ShadowAnalysis.CoveredByAnUnreportedOne | scripts/fortinet_audit_cli.py:1041-1066 | every reported policy is covered by an earlier one that is not reported |
| ShadowAnalysis.RemovalKeepsDecisionsIff | scripts/fortinet_audit_cli.py:1032-1066 | for any set of names that every packet falls under, whatever all others mean, with disabled policies passed over: removing policies (with their copies) changes no decision exactly if every choice of one name per part from a removed policy is caught by an earlier policy, in each part by one of those names or the chosen one |
| ShadowAnalysis.RemovingTheReportedIsHarmlessIff | scripts/fortinet_audit_cli.py:1032-1066 | so for the reported policies, with no such name ("whatever the tokens mean") as with any; it holds when each is covered by an earlier one without other all-tokens, and always when every all-token is such a name |
| ShadowAnalysis.RemovingReportedPoliciesChangesNoDecision | scripts/fortinet_audit_cli.py:1032-1066 | for every packet that falls under every all-token, removing all reported policies together leaves the deciding policy the same |
| ShadowAnalysis.RemovalIsHarmlessIff | scripts/fortinet_audit_cli.py:1032-1066 | whatever the policies, removal is harmless for a packet exactly if it falls under every all-token or no policy could match it at all |
| ShadowAnalysis.AllTcpIsNotEverything | scripts/fortinet_audit_cli.py:1032-1033 | with ALL_TCP meaning TCP only, a reported policy for DNS decides a packet, and removing it leaves none to |
| ShadowAnalysis.TheReportNamesThem | scripts/fortinet_audit_cli.py:1055-1066 | the ids in the report are exactly those of the reported policies |
| ShadowAnalysis.RemovalByIdIsHarmlessIff | scripts/fortinet_audit_cli.py:1055-1066 | removing all policies with certain ids changes no decision exactly under the same condition, whatever set of names every packet falls under |
| ShadowAnalysis.RemovingReportedIdsIsHarmlessIff | scripts/fortinet_audit_cli.py:1055-1066 | so for the reported ids; with all all-tokens among those names the condition holds when only reported policies carry them |
| ShadowAnalysis.SharedIdsMislead | scripts/fortinet_audit_cli.py:980-982 | it fails when a policy shares the id of a reported one and has a choice of names that neither catches |
| ShadowAnalysis.SharedIdsExample | scripts/fortinet_audit_cli.py:980-982 | as three policies do of which two have the id "?" of blocks without a number |
| AuditMessages.Placeholder | scripts/audit_messages.py:42-60 | the loop returns the first free name of its list and takes it |
| AuditMessages.HoleNameIsFree | scripts/audit_messages.py:42-60 | a hole's name was not taken before |
| AuditMessages.NamedAfterTheLastTellingPart | scripts/audit_messages.py:42-55 | a hole is named after the last part of the dotted name that is neither value nor self, in lower case, and a call after its first argument |
| AuditMessages.TextsOf | scripts/audit_messages.py:63-87 | the recursive reading, with its shared set and growing list, is the functional one, rendered |
| AuditMessages.PartOptions | scripts/audit_messages.py:71-87 | one formatted part gives its own templates, or a single hole when it is not written out or, unless a conditional, already holds holes |
| AuditMessages.ValueIsOneHoleIff | scripts/audit_messages.py:77-85 | a formatted value is one hole exactly if it is not written out, or is no conditional and one of its texts has double braces |
| AuditMessages.RenderCross | scripts/audit_messages.py:66-87 | joining rendered texts is rendering joined templates |
| AuditMeaning.EverySentenceHasItsTemplate | scripts/audit_messages.py:63-87 | soundness: every string the expression can produce is an instance of a returned template |
| AuditMeaning.EveryTemplateIsRealised | scripts/audit_messages.py:63-87 | completeness: every returned template has an instance some choice of branches produces |
| AuditMeaning.TemplatesAreExact | scripts/audit_messages.py:63-87 | when every hole is a value that may be any string, the instances are exactly the strings the expression can produce |
| AuditSentences.ReportIsTheSet | scripts/audit_messages.py:100-106 | the report holds each text once and loses none but the empty one |
| AuditSentences.HoleShows | scripts/audit_messages.py:100-106 | a template with a hole is reported as one |
| AuditSentences.EverySentenceIsReported | scripts/audit_messages.py:100-106 | every non-empty string the expression can produce is an instance of a reported text |
| AuditSentences.HoleNamesAreDistinctIff | scripts/audit_messages.py:42-87 | no two holes of any template share a name exactly if, in one walk over the expression, no name is given again after a branch that may have used it |
| AuditSentences.NamesCanRepeat | scripts/audit_messages.py:69-74 | an expression whose template names two values alike |
| Escaping.ShellReadsTheValue | app/core/hardening_param_security.py:238-268 | inside an open single-quoted region what the escape returns reads as the value and the region stays open |
| Escaping.RawIsLiteralIffQuoteFree | app/core/hardening_param_security.py:271-293 | unescaped, exactly the values without a quote do |
| Escaping.RawQuoteLetsOut | app/core/hardening_param_security.py:271-293 | behind an unescaped quote ordinary text is the shell's to interpret |
| Escaping.TemplateWordIsLiteral | app/core/hardening_param_security.py:238-268 | what it returns reads, in a quoted template with the text around it, as one literal word |
| Escaping.DoublingRoundTripsIff | app/core/hardening_param_security.py:345-357 | quote doubling reads back for exactly the values without another character the reader takes for a quote |
| Escaping.PowershellReadsTheValueIff | app/core/hardening_param_security.py:345-357 | PowerShell reads what the escape returns back as the value for exactly the values without a typographic single quote |
| Escaping.TypographicApostropheEndsTheString | app/core/hardening_param_security.py:345-357 | at a typographic apostrophe, which is accepted and not doubled, the string ends |
| Escaping.ValidateHeredocBody | app/core/hardening_param_security.py:145-169 | a body is returned unchanged exactly if it is acceptable and no stripped line of it is the delimiter |
| Escaping.ReadWholeIffNoDelimiterLine | app/core/hardening_param_security.py:145-169 | a here-document reads a body back whole exactly when no line of it, as the shell counts lines, is the delimiter |
| Escaping.DelimiterLineIsSplit | app/core/hardening_param_security.py:145-169 | such a line is also one of splitlines, which breaks at more characters |
| Escaping.AcceptedBodyIsReadWhole | app/core/hardening_param_security.py:145-169 | an accepted body is read back whole and what follows stays what follows |
| Escaping.AcceptedIffReadWhole | app/core/hardening_param_security.py:172-194 | a text is accepted exactly when a device reading up to the delimiter reads all of it |
| Escaping.ValidateInteger | app/core/hardening_param_security.py:401-418 | an integer is accepted exactly within its bounds |
| Escaping.IntegerTextIsPlain | app/core/hardening_param_security.py:401-418 | and is replaced by its digits, without leading zeros and with a minus in front exactly if it is negative, which read back as the number |
| Redaction.MarkerSeparates | app/core/secret_redaction.py:25-32 | a secret of which no end and no beginning meets an edge of the marker, and that is no part of it, never stands across a marker |
| Redaction.WithoutBrackets | app/core/secret_redaction.py:25-32 | a secret without angle brackets is such a one exactly if it is no part of the word REDACTED |
| Redaction.ReplacedIsGone | app/core/secret_redaction.py:80-82 | a replaced secret occurs nowhere, also not across the edges of markers |
| Redaction.GoneStaysGone | app/core/secret_redaction.py:80-82 | replacing another secret does not bring it back |
| Redaction.RedactValues | app/core/secret_redaction.py:62-82 | after the longest-first loop no value of at least four characters of a parameter with a secret name is left anywhere; a text without any is left alone |
| Redaction.GoneFromEveryTextIff | app/core/secret_redaction.py:62-82 | over the whole pass, secrets that cannot stand across an edge of the marker are gone from every text exactly when none is a part of it |
| Redaction.OneSecretIsGoneIff | app/core/secret_redaction.py:80-82 | a single secret, whatever its characters, is gone from every text exactly if it is no part of the marker, does not begin with an end of it, and where its own end meets the marker's beginning, what is before cannot stand before the secret without making an earlier occurrence |
| Redaction.ReplaceAroundMarker | app/core/secret_redaction.py:80-82 | later replacements leave a marker whole and treat its two sides separately |
| Redaction.ReplacedBecomesOneMarker | app/core/secret_redaction.py:72-82 | every occurrence that is replaced, of any of the secrets, ends as exactly one marker, and the text between two of them is redacted as if it stood alone |
| RateLimiter.AuditRateLimiter.constructor | app/core/audit_rate_limiter.py:17-20 | the defaults are 5, 20 and 100 |
| RateLimiter.AuditRateLimiter.Configure | app/core/audit_rate_limiter.py:133-148 | only the given limits change |
| RateLimiter.AuditRateLimiter.CheckAuditLimit | app/core/audit_rate_limiter.py:40-81 | the three counts are compared in order, the first that is reached refusing |
| RateLimiter.AuditRateLimiter.GetUserAuditStats | app/core/audit_rate_limiter.py:97-131 | the check passes exactly when all three available figures are positive, and a positive figure is what is left |
| RateLimiter.EveryWindowIsBounded | app/core/audit_rate_limiter.py:40-81 | over every run and every sequence of timestamps in which each start is stamped no earlier than its own check read the clock, no half-open hour or day holds more starts than its limit and no more than the concurrent limit run |
| RateLimiter.DefaultsAreKept | app/core/audit_rate_limiter.py:17-81 | in such a run with the default limits: 20 an hour, 100 a day, 5 at once |
| RateLimiter.HoursAreKeptIff | app/core/audit_rate_limiter.py:54-65 | a start that passes keeps every hour, whatever rows there are, exactly if its stamp is no earlier than the hourly reading of its check, or the daily count sees the hour before the stamp with a limit no higher, or no check can pass |
| RateLimiter.DaysAreKeptIff | app/core/audit_rate_limiter.py:67-79 | and every day exactly if its stamp is no earlier than the daily reading, or the hourly count sees the day before the stamp with a limit no higher, or no check can pass |
| RateLimiter.BurstIsReached | app/core/audit_rate_limiter.py:40-81 | the rows with which these fail are reached from none, by limits raised for a while |
| RateLimiter.OthersDoNotCount | app/core/audit_rate_limiter.py:41-72 | one user's audits never count against another |
| RateLimiter.StepCounts | app/core/audit_rate_limiter.py:40-72 | a start that passes is exactly one more running audit and one more start of its user, a finish one less running, and nothing else moves a count |
| RateLimiter.QuotaComesBack | app/core/audit_rate_limiter.py:40-81 | a day after the last start, with nothing running, the check passes |
| RateLimiter.HourlyRightComesBackByOne | app/core/audit_rate_limiter.py:53-65 | a refusal on the hourly limit is over once the oldest counted start is an hour old, whatever the daily limit then says |
| ThresholdKeys.RiskDatabase.Update | alembic/versions/20260827_risk_level_threshold_keys.py:87-94 | the row of the key gets the value, no other row changes, and the count tells whether there was one |
| ThresholdKeys.RiskDatabase.Delete | alembic/versions/20260827_risk_level_threshold_keys.py:156-159 | the table is as it was without the key |
| ThresholdKeys.RiskDatabase.Upsert | alembic/versions/20260827_risk_level_threshold_keys.py:86-107 | by an update or an insert, the key ends with exactly one row, holding the value cut to a whole number, and the table is otherwise as it was |
| ThresholdKeys.RiskDatabase.WriteBounds | alembic/versions/20260827_risk_level_threshold_keys.py:154-159 | the table holds exactly these bounds in the natural convention |
| ThresholdKeys.RiskDatabase.RederiveTable | alembic/versions/20260827_risk_level_threshold_keys.py:110-126 | every row with a score gets its level, a row without keeps its own |
| ThresholdKeys.RiskDatabase.Upgrade | alembic/versions/20260827_risk_level_threshold_keys.py:129-161 | the rows of the settings, the scores and the history are what the specification functions say of the old ones |
| ThresholdKeys.RiskDatabase.Downgrade | alembic/versions/20260827_risk_level_threshold_keys.py:164-198 | the offset rows are restored, or nothing changes when the retired row is there already |
| ThresholdKeys.LevelCountsBounds | alembic/versions/20260827_risk_level_threshold_keys.py:117-120 | highest band first is the number of bounds the score has reached, a score on a bound included |
| ThresholdKeys.UpgradeWritesASoundTable | alembic/versions/20260827_risk_level_threshold_keys.py:148-159 | whatever was stored, the result is complete, natural, whole, within 0..100 and ascending, strictly unless two bounds share their whole part; other rows stay |
| ThresholdKeys.UpgradeWritesTheStoredBounds | alembic/versions/20260827_risk_level_threshold_keys.py:129-159 | the stored bounds, 20, 40, 60 or 80 where a key is missing, are written cut to whole numbers if they ascend within 0..100, and else all four defaults |
| ThresholdKeys.WholeTablesComeOutInOrder | alembic/versions/20260827_risk_level_threshold_keys.py:148-159 | every table of whole numbers comes out strictly ascending, and a second upgrade changes nothing |
| ThresholdKeys.LevelsMatchTheWrittenBoundsIffWhole | alembic/versions/20260827_risk_level_threshold_keys.py:86-126 | derived levels and written bounds agree on every score exactly when no fraction was cut off |
| ThresholdKeys.RowsAgreeWithTheSettings | alembic/versions/20260827_risk_level_threshold_keys.py:110-126 | after an upgrade of whole numbers each row with a score has the level the settings give it |
| ThresholdKeys.UpgradeKeepsTheMeaningIff | alembic/versions/20260827_risk_level_threshold_keys.py:129-161 | for a complete table in either convention every score keeps its level exactly when the bounds are whole, strictly ascending and within 0..100 |
| ThresholdKeys.DowngradeRestoresIff | alembic/versions/20260827_risk_level_threshold_keys.py:129-198 | upgrade then downgrade restores an offset table exactly when it was complete, whole, in order and without a very_high row |
| ThresholdKeys.DowngradeKeepsTheMeaningIff | alembic/versions/20260827_risk_level_threshold_keys.py:164-198 | a downgrade of a table in order keeps every score's level exactly when the three lower bounds are whole |
| ZoneMerge.Database.ReadZones | alembic/versions/e3b5d7f9a1c2_one_zone_list.py:49-51 | the dictionary maps each key to the first zone that has it |
| ZoneMerge.Database.FindOrAdd | alembic/versions/e3b5d7f9a1c2_one_zone_list.py:53-64 | a name finds the zone of its key or adds one, unless the unique index refuses it |
| ZoneMerge.Database.AddNetworkZones | alembic/versions/e3b5d7f9a1c2_one_zone_list.py:66-68 | every network zone is found or added in turn |
| ZoneMerge.Database.PlaceAsset | alembic/versions/e3b5d7f9a1c2_one_zone_list.py:74-94 | one asset is placed as the specification says and no other row changes |
| ZoneMerge.Database.PlaceAssets | alembic/versions/e3b5d7f9a1c2_one_zone_list.py:70-94 | all assets are placed in turn |
| ZoneMerge.Database.Upgrade | alembic/versions/e3b5d7f9a1c2_one_zone_list.py:39-98 | the database becomes what the specification says, or is left as it was when an insert is refused |
| ZoneMerge.EveryAssetIsPlaced | alembic/versions/e3b5d7f9a1c2_one_zone_list.py:74-94 | each asset ends in one zone whose name is its role, or is untouched without a zone and with an empty-key role; a kept risk zone leaves the profile as it was, and a role that decides marks it as set and gives a new one the time of the migration |
| ZoneMerge.UpgradeIsSound | alembic/versions/e3b5d7f9a1c2_one_zone_list.py:39-98 | names stay unique, every profile's zone exists, no zone is lost or renamed |
| ZoneMerge.SecondRunChangesNothing | alembic/versions/e3b5d7f9a1c2_one_zone_list.py:39-98 | a second run, at any later time, changes nothing |
| ZoneMerge.SameKeySameZone | alembic/versions/e3b5d7f9a1c2_one_zone_list.py:53-64 | roles that are one name to the key end in one zone |
| ZoneNames.StripKeepsKey | alembic/versions/e3b5d7f9a1c2_one_zone_list.py:34-36 | stripping a name does not change its key |
| ZoneMerge.LettersOfAscii | alembic/versions/e3b5d7f9a1c2_one_zone_list.py:34-36 | on ASCII names the key is the letters and digits of the name in lower case |
| ZoneMerge.KeyIsTheLetters | alembic/versions/e3b5d7f9a1c2_one_zone_list.py:31-36 | "internal" and "external" stand for two other keys, every other name for itself |
| ZoneNames.UpgradeSucceedsIff | alembic/versions/e3b5d7f9a1c2_one_zone_list.py:53-94 | the migration succeeds exactly if the names it inserts, as they are written, differ from those stored and from each other; then these are the zones it adds |
| ZoneNames.FittingNamesNeverFail | alembic/versions/e3b5d7f9a1c2_one_zone_list.py:53-64 | with roles of at most 100 characters it never fails, and each new zone has the key it was made for |
| ZoneNames.EveryNetworkZoneIsThereOnceIff | alembic/versions/e3b5d7f9a1c2_one_zone_list.py:66-68 | every network zone whose name has a key has exactly one risk zone of that key, or those that had it before, exactly if no name with another key is cut to one with that key |
| ZoneNames.TheNewerZoneStaysIff | alembic/versions/e3b5d7f9a1c2_one_zone_list.py:74-94 | of two conflicting zones the profile's is kept if it has a time and the asset no later one; otherwise the asset is in a zone of its role's key exactly if that zone was there or is written with its key |
| ZoneNames.SameShortNameFails | alembic/versions/e3b5d7f9a1c2_one_zone_list.py:57-63 | two roles with different keys but one name to be written make the migration fail |
| ZoneNames.LongRolesFail | alembic/versions/e3b5d7f9a1c2_one_zone_list.py:57-63 | as do two roles that differ only beyond the hundredth character |
| ZoneNames.CutRoleTakesAKey | alembic/versions/e3b5d7f9a1c2_one_zone_list.py:57-63 | a role cut to a name with the key of a network zone leaves two zones of that key, and its asset in a zone without the role's key |
| ZoneNames.LongRoleTakesAKey | alembic/versions/e3b5d7f9a1c2_one_zone_list.py:57-63 | as a role of a dash, the 99 letters of a network zone and more letters does |
| ZoneInsertion.AddItemsIff | alembic/versions/e3b5d7f9a1c2_one_zone_list.py:53-64 | names are added in turn exactly if what is written for the first of each new key is new too |

## Left out

- Redaction.GoneFromEveryTextIff: several secrets of which one can stand across an edge of the marker; whether it is left then depends on what the replacements of the others make of it. A single one is in `OneSecretIsGoneIff`.
- LicenseSystem.VerifiedIsGenuine: the Ed25519 check is an uninterpreted function; keys, encodings and the HTTP exchange that carries the token are not part of this model.
- License re-activation when a license stored online belongs to another machine (`license_client.py` lines 631-648), and the request signature and timestamp.
- Two license files with the same modification time, size and inode, which have one stamp in the code.
- Claims that are not numbers or lie outside what a datetime holds, beyond "no such time"; sums that pass the year 9999.
- A heartbeat restarted while an old thread is still alive, the join in `stop`, and `start`.
- Concurrent flushes: the guard counts and inserts without a lock, so sessions are taken one at a time. The same holds for an audit check and the row it allows.
- Deletion of audit sessions, and sessions whose start is NULL. Who calls the limiter is not part of this model.
- The regular-expression passes of redaction, and which names `_SECRET_NAME_RE` finds.
- The block parser `parse_policy_block`/`get_set_value`; shadow analysis starts from structured policies. `eval_control` and `calc_score` count table rows.
- f-string conversions and format specifications, `_assigned`, `_writers` and the walk over the source tree. Non-ASCII lower-casing in a hole's name.
- The other validators of `hardening_param_security.py`, which test characters against a set.
- Threshold values that are not numbers, and bounds with more than six significant digits, which `%g` rounds when levels are derived.
- Descriptions and scores of new zones, and the downgrade of the zone merge, which only recreates a table.
- Messages and logs.
