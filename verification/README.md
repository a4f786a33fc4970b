# Verified model of the lab's stateful cores

A Dafny model of seven parts of the repository whose behaviour spans several calls, several processes
or failures in between, and proofs of what they promise.

* **The deep verdict store** (`VerdictRecord`, `VerdictStore`, `VerdictEviction`, `LockedUpdate`,
  `LockedProgress`, `SharedVerdict`, `StoreCache`, `StoreProtocol`, `UnsavedFailures`,
  `VerdictJson`, `VerdictFormat`). Many processes share one JSON file with a compact
  failure record per binary. The record is proved against the log of all events; the locked
  read-mutate-replace cycle against every interleaving, failure and death of any number of writers; the
  two caches, one of which shares an object with the writer, as a class over a file others replace; the
  memory of a process that cannot save against one that can; and the reading of arbitrary JSON as failing
  closed, with the exact limit of that.
* **Speculative decoding** (`SpeculativeGreedy`, `SpeculativeSampling`). A model is a function from text
  to a next token or a distribution. The draft, verify and bonus loop is proved to produce the target's
  own greedy text, and the sampling rule to produce the target's own distribution over texts; what the
  code samples from instead is proved exact under exact conditions.
* **The `.env` editor** (`TextLines`, `EnvQuoting`, `EnvLines`, `EnvEdits`, `EnvFile`, `EnvShapes`,
  `EnvRoundTrip`, `EnvTextMode`). Quoting is proved against a reader of shell words written from sections
  2.2.1 to 2.2.3 and 2.3 of the POSIX.1-2017 Shell Command Language; parsing as lossless; editing as local,
  and as idempotent and readable back exactly under stated conditions.
* **The compiled knowledge base gate** (`CompiledKb`, `GatePaths`, `GateSlugs`, `GateCandidates`,
  `GateReads`, `GateApprovals`, `GateDismissals`, `GateFiles`, `ReviewQueue`). Operator steps, mount-time
  steps, rollback and pruning, any of whose loads and saves may fail, over whole runs.
* **The probe supervisor** (`ProbeReader`, `ProbeProtocol`, `ProbeAccount`, `ProbeRuns`). A capped streaming
  line reader, a framed protocol under deadlines, the accounting of five calls, and the exit code, which
  rests on the verdict store.
* **The cost tracker** (`Costs`, `CostPrices`) over real numbers, and **the JSON-lines purge**
  (`JsonlPurge`, `PurgeFiles`, `PurgeRules`, `PurgeCallers`) with both of its callers.

Objects that the source updates in place are classes here, and each method is tied by its postcondition
to a function of the old state; the laws are proved about those functions. Clocks, signatures of files,
the outcome of system calls, the chunks a pipe gives, the JSON parser and printer, and the models are
parameters.

## Where the code and its documentation part

* Two failures stamped in one order and saved in the other can clear a failure that stands
  (`VerdictRecord.OutOfOrderStampsLoseAFailure`).
* A failed write leaves its unsaved update in the writer's own cache
  (`StoreCache.Process.LockedUpdate`, `StoreCache.UnsavedPassIsBelieved`).
* A read that fails on a good store counts as an unreadable one: it is moved aside, and the update that
  follows starts from nothing (`LockedUpdate.FailedReadLosesTheStore`,
  `SharedVerdict.FailedReadForgetsAFailure`); when the write fails too the store is left missing
  (`LockedUpdate.StoreCanVanish`). In a reader such an error is cached under the good file's signature
  (`StoreCache.FailedOpenIsRemembered`).
* A failure nested deeper than `copy.deepcopy` goes, but not deeper than the parser does, reads as untested
  (`VerdictJson.DeepFailureFailsOpen`).
* The memory of a process that cannot save parts from the saved record where stamps are in the future, late
  or out of order, or probes overlap (the four `AgreesIff` lemmas of `UnsavedFailures`).
* The probe's deciding read takes a store it cannot read for cleared (`ProbeAccount.DecidingRead`); a child
  can make `passed` exceed `total` in two ways.
* The sampling code resamples from the residual of the draft's last distribution, adds 1e-10, and draws the
  bonus without the temperature; each is exact only under the condition its lemma gives, and with the 1e-10
  only where the draft is the target.
* A `.env` line ending in `\r\n` gives a sourced value a carriage return; an inline comment can make a
  second identical edit write again. A value with a carriage return is accepted and never read back.
* One failed load of the revocation file can forget every revocation (`GateReads.FailedLoadForgetsAll`), and
  one of the approvals, under a revocation, every approval (`GateApprovals.FailedLoadRevokesAll`). A sticky
  revocation that takes nothing away is forgotten; a mount stamps an operator's approval of a page it admits
  as its own, so that a rollback removes it; bootstrap does not always write the manifest.
* The cut of a term's slug at 80 characters can leave a dash that making a slug of it again takes off.
* A load rewrites the energy exactly when the token floor at its rate is more than five times the energy
  recorded and does not round to it (`Costs.RestartKeepsEnergyIff`); a rate raised enough since, or a
  negative one, can bring that about.
* The purge raises when testing that a file exists does, on bytes that do not decode and on JSON nested
  beyond the interpreter's limit, and changes the line count of a file with lone carriage returns. A malformed
  line is byte-identical only without carriage returns, and a temporary file can survive.

## Model

| member | source | states |
|---|---|---|
| `VerdictRecord.RecordMeansStanding` | src/arail/deep_verdict.py:809-836 | stamps in lock order and none in the future: a failure is on record exactly when some logged failure has no later pass begun after it, and `last` is then the newest stamp ever logged |
| `VerdictRecord.RecordFollowsLastFailure` | src/arail/deep_verdict.py:815-829 | for every log, whatever the clock: the record is non-null exactly when the failure recorded last is protected from every later pass, and carries that failure's stamp |
| `VerdictRecord.CountSinceNull` | src/arail/deep_verdict.py:809-836 | `count` is the number of failures since the record was last null, and `since` and `source` are those of the first of them |
| `VerdictRecord.LastProbeIsNewest` | src/arail/deep_verdict.py:1012-1029 | for every log the last probe on record is the one recorded last, passed or failed, and there is none exactly where none was recorded |
| `VerdictRecord.LastPassIsLastClearing` | src/arail/deep_verdict.py:1015-1022 | for every log `last_pass_at` is the time of the last pass that left no failure on record, and there is one exactly where some pass did |
| `VerdictRecord.NextPassIsRightIffNewest` | src/arail/deep_verdict.py:832-836 | a record that is right now stays right after every possible next pass exactly when no standing failure is stamped later than its `last_ts`: where the overwrite without a maximum starts to matter |
| `VerdictRecord.OutOfOrderStampsLoseAFailure` | src/arail/deep_verdict.py:870-894 | the trace that shows lock order is needed: two failures stamped one way and saved the other, then a pass, and a standing failure is off the record |
| `VerdictRecord.RunKeepsInvariant` | src/arail/deep_verdict.py:1012-1029 | in every record the writers can build a failed last probe has a failure on record, a null failure with a last probe means that probe passed and `last_pass_at` is its time, counts are positive, and nothing recorded is ever left blank |
| `VerdictStore.EvictDropsOnlyOldest` | src/arail/deep_verdict.py:800-806 | eviction keeps exactly 32 entries (or all, if fewer), never the kept key, leaves survivors unchanged, and drops only entries no younger than any survivor |
| `VerdictStore.VictimIsUnique` | src/arail/deep_verdict.py:794-806 | the next key to go is determined: oldest activity, ties in key order |
| `VerdictEviction.ActivityIsLatest` | src/arail/deep_verdict.py:794-797 | the activity of a binary is the latest of the times on record for it: its last probe's, its failure's last and its last pass's |
| `VerdictEviction.ActivityIsLastUpdate` | src/arail/deep_verdict.py:794-806 | where times follow lock order, a binary the store holds is as active as its last update, of whatever kind |
| `VerdictEviction.EvictsLeastRecent` | src/arail/deep_verdict.py:800-806 | so what an update makes the store forget was updated no later than anything it keeps, and of several at one time goes the first by key |
| `VerdictStore.StoredEntryIsSuffixRun` | src/arail/deep_verdict.py:777-806 | evictions included: what the store holds for a binary is the record of exactly the events logged for it since it was last absent |
| `VerdictStore.StoredProbesAreNewest` | src/arail/deep_verdict.py:1012-1029 | evictions included: the last probe and the last pass the store keeps for a binary are those of the events since it was last absent |
| `VerdictStore.StoreRunsEachBinary` | src/arail/deep_verdict.py:777-806 | with at most 32 binaries logged, each entry is the record of that binary's own events |
| `VerdictStore.StoreMeansStanding` | src/arail/deep_verdict.py:809-836 | the compact store refines the event log of all processes: a binary reads as failing exactly when one of its failures stands |
| `VerdictStore.StoreKeepsInvariant` | src/arail/deep_verdict.py:1012-1029 | every entry of every reachable store, evictions included, satisfies the entry invariant |
| `VerdictStore.Oldest` | src/arail/deep_verdict.py:803-805 | the loop that finds the oldest of some keys finds one no other is older than |
| `VerdictStore.Document.EntryFor` | src/arail/deep_verdict.py:777-793 | the entry is created blank when absent and nothing else changes |
| `VerdictStore.Document.EvictOldest` | src/arail/deep_verdict.py:800-806 | the loop computes the eviction |
| `VerdictStore.Document.NoteFailure` | src/arail/deep_verdict.py:884-891 | the mutation of a noted failure is one update of the store, and reports a transition exactly when no failure was on record |
| `VerdictStore.Document.RecordProbe` | src/arail/deep_verdict.py:1012-1029 | the mutation of a probe result is one update of the store |
| `UnsavedFailures.UnsavedFailuresChangeNothing` | src/arail/deep_verdict.py:847-862 | a process whose saves may all fail reports the state, last probe and failure time of one whose saves all worked, after any mix of its own failures and others' events: stamps need only follow lock order and lie within the slack of a later pass, passes begin in the order they are recorded, and an unsaved failure not be stamped before a pass already on record began |
| `UnsavedFailures.RunKeepsAgreement` | src/arail/deep_verdict.py:1095-1149 | the relation between disk, memory and the undisturbed record that every step keeps, up to a bound on the stamps of the failures so far |
| `UnsavedFailures.NextStepAgreesIff` | src/arail/deep_verdict.py:1095-1149 | from agreement and with no assumption about the next step, process and saved record say the same after it exactly when an own unsaved failure is not hidden at once by a pass begun later, and a pass that clears the record leaves no remembered failure stamped since it began |
| `UnsavedFailures.VerdictOfLog` | src/arail/deep_verdict.py:1118-1168 | with stamps in lock order and none in the future, a verdict is untested exactly while nothing is logged, failing exactly while a failure stands, passing otherwise, and names the probe recorded last |
| `UnsavedFailures.ShownIsNewer` | src/arail/deep_verdict.py:1135-1141 | of the stored failure and the one in memory the newer is shown, the stored one where they tie |
| `UnsavedFailures.TogetherThroughoutIff` | src/arail/deep_verdict.py:1095-1149 | over every run stamped in lock order and not in the future: the process reports the state of the saved record after every prefix exactly when each step passes a test on what the process itself sees before it |
| `UnsavedFailures.OnePassAgreesIffNotInFuture` | src/arail/deep_verdict.py:1095-1105 | an unsaved failure, then a pass: the two rules agree exactly when the failure is not stamped past the clock slack or is older than the probe |
| `UnsavedFailures.LateFailureAgreesIffNotBeforePass` | src/arail/deep_verdict.py:847-862 | a pass, then an unsaved failure: on a well-timed log they agree exactly when the failure is not stamped before the pass began, and the saved record fails in any case |
| `UnsavedFailures.OverlapAgreesIff` | src/arail/deep_verdict.py:1095-1105 | an unsaved failure, then two overlapping passes: a forgotten failure comes back exactly when it is stamped between the two beginnings, the later-recorded pass having begun first |
| `UnsavedFailures.OutOfOrderAgreesIff` | src/arail/deep_verdict.py:815-829 | an unsaved failure, a saved one stamped earlier, then a pass: the process keeps failing alone exactly when the pass began between the two stamps |
| `LockedUpdate.EveryRunKeepsInv` | src/arail/deep_verdict.py:709-774 | what every step of every run of any number of writers keeps, from any file, failures and deaths at any point and failed reads of a good file included |
| `LockedUpdate.MutualExclusion` | src/arail/deep_verdict.py:646-658 | at most one writer is between flock and unlock |
| `LockedUpdate.FileIsAlwaysWhole` | src/arail/deep_verdict.py:519-568 | at every moment the file is exactly the document of the updates applied since it was last moved aside, in lock order; before the first of them it is the initial one, or missing if moved; unreadable only if it was so from the start; never a torn document of the writers |
| `LockedUpdate.NothingLostIff` | src/arail/deep_verdict.py:735-752 | the file still stems from the initial document and every update ever applied exactly when no step of the run moved a whole document aside |
| `LockedUpdate.FileHoldsAllUpdates` | src/arail/deep_verdict.py:735-752 | and then it is the document of all applied updates, in lock order |
| `LockedUpdate.NoFailedReadLosesNothing` | src/arail/deep_verdict.py:549-566 | a run in which no read fails moves only unreadable files aside and loses nothing |
| `LockedUpdate.FailedReadLosesTheStore` | src/arail/deep_verdict.py:735-752 | one failed read of a good store: the call succeeds, and the file holds its update alone, whatever was there before |
| `LockedUpdate.AppliedExactlyAsReturned` | src/arail/deep_verdict.py:709-774 | a call that returned None was applied exactly once, one that returned an error not at all, and updates are applied in the order the calls got the lock |
| `LockedProgress.ErrorIffStepFailed` | src/arail/deep_verdict.py:709-774 | over every run of any number of writers a call that has returned reports an error, and is not applied, exactly when one of its own steps failed; a missing, unreadable or unread file is no error |
| `LockedProgress.UnfailingCallLands` | src/arail/deep_verdict.py:709-774 | from every state with the lock free a call run through without a failure lands: it returns None, its ticket is the last applied, the lock is free, and the file is the document found, or the empty one, with its update |
| `LockedProgress.FirstCallLands` | src/arail/deep_verdict.py:735-763 | so a first update lands on a missing, a whole and an unreadable file alike |
| `LockedProgress.CallLandsInEveryRun` | src/arail/deep_verdict.py:709-774 | and in every reachable state with the lock free it leaves the document of everything applied since the file was last moved aside |
| `LockedUpdate.StoreCanVanish` | src/arail/deep_verdict.py:735-774 | the gap: a file that is unreadable or cannot be read is moved aside, the write then fails, and the store is left missing |
| `SharedVerdict.SharedFileMeansStanding` | src/arail/deep_verdict.py:709-836 | protocol and record logic together, from a missing, corrupt or earlier-written file: in every reachable state of N writers the shared file says failing exactly when a failure of its log stands, the log being all updates since the last move-aside, and all updates ever where none moved a whole document |
| `SharedVerdict.FileIsItsLog` | src/arail/deep_verdict.py:709-774 | a file that can be read holds exactly the updates of its log, and it is unreadable only if it was found so and never moved |
| `SharedVerdict.FailedReadForgetsAFailure` | src/arail/deep_verdict.py:735-752 | one failed read during another binary's successful update, and a standing failure is off a readable, whole file |
| `SharedVerdict.SharedFileKeepsInvariant` | src/arail/deep_verdict.py:709-806 | from whatever was found, the shared file never holds more than 32 binaries and every entry on it is legal |
| `StoreCache.Disk.Interfere` | src/arail/deep_verdict.py:519-568 | what other processes do to the file between two looks: any number of replacements, each with its own signature, the last of which is the file |
| `StoreCache.Process.ReadStore` | src/arail/deep_verdict.py:519-568 | from a coherent cache a read that works answers with the file at the stat or at the open, and the cache stays coherent; a failed stat empties the cache, a failed open is cached as an error under the signature of the file |
| `StoreCache.Process.LockedUpdate` | src/arail/deep_verdict.py:709-774 | whichever of its system calls fail: whether it saves, what file it leaves, and when the cache still agrees with it. After a save the cache is current exactly when the stat behind the write works. A failed write leaves the update nobody saved in the cache, because the cached document is the object mutated; a failed read makes a saved update start from nothing |
| `StoreCache.Process.NoteFailure` | src/arail/deep_verdict.py:870-908 | saved: the file holds the update and memory forgets the binary; not saved: memory holds the failure judged against the last probe on disk, or against none where a failed open is remembered or the second read fails |
| `StoreCache.Process.RecordProbe` | src/arail/deep_verdict.py:970-1040 | when the result is written, when not, and what the file and the cache then hold, the cache emptied where the stat behind the write fails |
| `StoreProtocol.FateIsRun` | src/arail/deep_verdict.py:709-774 | whatever the file and whichever system calls fail, the one-process account of a locked update is a run of the protocol of many, with the same outcome and the same file |
| `StoreCache.Process.StoredLastProbe` | src/arail/deep_verdict.py:911-917 | it is the last probe the cache holds on a hit, the one on disk on a miss, and none when the read fails |
| `StoreCache.Process.ProbeSeenIsStored` | src/arail/deep_verdict.py:911-917 | from a coherent cache that is the one on disk, or none where the stat fails, or the open of a file that is not cached |
| `StoreCache.Process.Current` | src/arail/deep_verdict.py:1171-1191 | a verdict from coherent caches is a fresh assembly of the file at the stat or at the open, and a cached verdict is one too; what is told is what the cache holds for that binary, signature and memory from then on; a failed read is failing, and one that failed after the stat is remembered |
| `StoreCache.Process.Elapse` | src/arail/deep_verdict.py:519-568 | coherence survives any number of replacements by others |
| `StoreCache.RunOps` | src/arail/deep_verdict.py:519-568 | over every sequence of own failures, own probes, questions and replacements by others in which no write and no open fails, a process with its two caches leaves the file and the memory of one without any, and tells the same verdicts; the file is that one whatever fails |
| `StoreCache.FailedOpenIsRemembered` | src/arail/deep_verdict.py:549-568 | one failed open of a good file, and every binary reads as failing for as long as the file stays, which agrees with it exactly when the binary is |
| `StoreCache.UnsavedPassIsBelieved` | src/arail/deep_verdict.py:743-763 | after a passing probe whose write failed, the process's next verdict agrees with the file exactly when the pass clears nothing and was not the first |
| `VerdictJson.FailClosed` | src/arail/deep_verdict.py:492-506 | for every JSON value: one the parser or the validator refuses means failing; an accepted one with any non-null failure reads as failing exactly when neither that failure nor the last probe is nested deeper than the copy goes |
| `VerdictJson.DeepFailureFailsOpen` | src/arail/deep_verdict.py:1135-1149 | the failing input: a deep array under an unknown key of a failure is parsed and accepted, and reads as untested |
| `VerdictJson.HandlerIsReachedIff` | src/arail/deep_verdict.py:1118-1191 | the untested handler is reached from an accepted document exactly when a record of the binary is nested deeper than the copy goes, or the verdict would have been passing and its median is an integer no float can hold |
| `VerdictJson.PassedSinceIff` | src/arail/deep_verdict.py:1095-1105 | whatever is on record, a failure is superseded exactly by a pass that says it began later in a number a float can hold; only a larger integer raises, and every other stamp leaves it standing |
| `VerdictFormat.ValidDocIff` | src/arail/deep_verdict.py:458-505 | which documents are read at all, as a table of fields and kinds; everything else is refused |
| `VerdictJson.WrittenDocRoundTrips` | src/arail/deep_verdict.py:458-506 | every document the writers write validates and reads back as it was |
| `VerdictJson.AssemblyAgreesWithRecords` | src/arail/deep_verdict.py:1118-1168 | on written documents the assembly over JSON gives the report of the assembly over records |
| `SpeculativeGreedy.SpeculativeDecodeRound` | research/speculative-decoding/0a-acceptance-rate.py:271-381 | greedy round, any draft model: the accepted tokens and the bonus are the target's own greedy continuation, and the number accepted is how far draft and target agree |
| `SpeculativeGreedy.VerifiedInOnePass` | research/speculative-decoding/0a-acceptance-rate.py:300-316 | one pass over context and drafts predicts at each position what the target predicts after that prefix |
| `SpeculativeGreedy.AdvanceByRound` | research/speculative-decoding/0a-acceptance-rate.py:431-447 | the context of the next round is the prompt and a longer prefix of the target's greedy text |
| `SpeculativeGreedy.RunPrompt` | research/speculative-decoding/0a-acceptance-rate.py:425-447 | over all rounds the context is the prompt and a prefix of plain greedy decoding, 1 to k + 1 tokens longer each round, and the tokens counted are the tokens added |
| `SpeculativeGreedy.PlainResumes` | research/speculative-decoding/0a-acceptance-rate.py:431-447 | greedy decoding can stop and resume: decoding on from a decoded prefix gives the same text |
| `SpeculativeGreedy.DraftNeverChangesTheText` | research/speculative-decoding/0a-acceptance-rate.py:425-447 | two runs over one prompt with different drafts, k and rounds: of what they return the shorter is a prefix of the longer |
| `SpeculativeSampling.AcceptedIsOverlap` | research/speculative-decoding/0a-acceptance-rate.py:322-326 | what is drafted and accepted is the part of the target the draft covers |
| `SpeculativeSampling.RejectionMass` | research/speculative-decoding/0a-acceptance-rate.py:11-20 | the total rejection mass is the total excess of the target over the draft |
| `SpeculativeSampling.EmitsTargetIffResidual` | research/speculative-decoding/0a-acceptance-rate.py:11-20 | a position emits the target's distribution exactly when nothing is rejected or rejections are resampled from the normalised residual |
| `SpeculativeSampling.LastPositionIsExactIffUnsmoothed` | research/speculative-decoding/0a-acceptance-rate.py:356-365 | rejected at the last drafted position the code's residual is the algorithm's exactly when nothing is added before the draw; with 1e-10 it never is |
| `SpeculativeSampling.PositionIsExactIffAverageIsResidual` | research/speculative-decoding/0a-acceptance-rate.py:356-365 | the code's residual is that of the draft after everything it went on to write, so it depends on the drafted path: a position is exact exactly when nothing is rejected there, or the residual averaged over the rejected tokens and the paths after them is the algorithm's |
| `SpeculativeSampling.DrawIsUndefinedIff` | research/speculative-decoding/0a-acceptance-rate.py:356-365 | the residual divides by a zero sum exactly when the draft's last distribution is the target's at the rejected position |
| `SpeculativeSampling.SmoothedPositionIsExactIffDraftAgrees` | research/speculative-decoding/0a-acceptance-rate.py:356-365 | with anything added before the draw a position is exact exactly when draft and target agree there |
| `SpeculativeSampling.TwoWrongResidualsCanAverageRight` | research/speculative-decoding/0a-acceptance-rate.py:356-365 | with nothing added, two wrong residuals can average to the right one |
| `SpeculativeSampling.LateResidualChangesTheText` | research/speculative-decoding/0a-acceptance-rate.py:356-365 | a late residual can spoil the text: two tokens, a fair target, and the emitted token is certain |
| `SpeculativeSampling.SpeculationIsExact` | research/speculative-decoding/0a-acceptance-rate.py:11-20 | with the right residual and bonus every text is exactly as likely as under the target alone, from every point of every round |
| `SpeculativeSampling.RoundsExactIffBonusIsRight` | research/speculative-decoding/0a-acceptance-rate.py:369-378 | with exact positions, texts from the start of any round follow the target exactly when the bonus is drawn from the target after every text that k kept drafts can lead to |
| `SpeculativeSampling.BonusGap` | research/speculative-decoding/0a-acceptance-rate.py:369-378 | what a wrong bonus makes of the chance of the text it ends: off in proportion to the chance of keeping all the drafts |
| `SpeculativeSampling.CodeIsExactIff` | research/speculative-decoding/0a-acceptance-rate.py:318-378 | the code's own verifier, something added before every draw: its texts follow the target exactly when the draft is the target (or k is 0) and the bonus is right after every text a full round can lead to |
| `SpeculativeSampling.SoftmaxIgnoresTemperatureIff` | research/speculative-decoding/0a-acceptance-rate.py:369-378 | at any rational temperature but one, softmax gives what it gives at one exactly when all weights are equal |
| `SpeculativeSampling.TemperedRunsAreExactIff` | research/speculative-decoding/0a-acceptance-rate.py:369-378 | the bonus is drawn at temperature one: at any other rational temperature, exact positions and all, rounds are exact exactly when the target has no preference after any text a full round can lead to |
| `EnvQuoting.FourReplacesEscape` | src/arail/env_writer.py:77-83 | four successive replaces are one character-wise escape |
| `EnvQuoting.RightHandSideReads` | src/arail/env_writer.py:112-136 | for every value and old quote style a POSIX shell reads the right-hand side as exactly the value, whatever follows it |
| `EnvQuoting.SourcedValueIsExactUnlessCR` | src/arail/env_writer.py:112-136 | sourced, it assigns the value followed by the carriage returns that stand before the next blank, newline or end, and so the value itself exactly when there are none |
| `EnvQuoting.EscapeIsIdentityIffPlain` | src/arail/env_writer.py:65-84 | escaping changes a value exactly when something in it is special |
| `EnvShapes.UnquotedIff` | src/arail/env_writer.py:65-84 | a value goes in without quotes, and as it is, exactly when all of it is letters, digits and ten signs |
| `EnvEdits.WrittenLineSources` | src/arail/env_writer.py:112-153 | sourcing a rewritten line, whatever newline the parser took it to end in, assigns the value and, unless a comment stands between, as many carriage returns as precede the newline |
| `TextLines.SplitIsLossless` | src/arail/env_writer.py:197-210 | joining the lines gives the text back |
| `TextLines.SplitGivesLines` | src/arail/env_writer.py:197-210 | each piece is one line, and all but the last end in a newline |
| `TextLines.SplitOfJoin` | src/arail/env_writer.py:197-210 | the lines of a text are the only ones it has: splitting undoes joining |
| `TextLines.SplitText` | src/arail/env_writer.py:201-211 | the splitting loop computes the split |
| `EnvLines.ParseLines` | src/arail/env_writer.py:197-266 | the parsing loop classifies exactly the lines of the split |
| `EnvLines.ParseIsLossless` | src/arail/env_writer.py:197-266 | concatenating `raw` over the parsed lines gives every text back |
| `EnvEdits.ParseOfAssignment` | src/arail/env_writer.py:183-263 | the text of an assignment parses back into its prefix, key, rest and newline |
| `EnvShapes.IdentIff` | src/arail/env_writer.py:33-34 | a key is taken exactly when it is letters, digits and underscores and begins with no digit |
| `EnvShapes.ForbiddenIff` | src/arail/env_writer.py:326-327 | refused are exactly the values with a newline or a NUL |
| `EnvShapes.UnquotedValueIs` | src/arail/env_writer.py:104-110 | the quotes around a value come off exactly when both are there, and nothing else does |
| `EnvEdits.RewrittenLineParsesBack` | src/arail/env_writer.py:112-153 | a rewritten line without an inline comment parses back into exactly itself, and rewriting it again changes nothing |
| `EnvEdits.SecondWriteIff` | src/arail/env_writer.py:112-153 | a rewritten line with an inline comment is left alone by a second write exactly when the value went in unquoted, or holds no comment of its own and the kept one does not end in a double quote |
| `EnvFile.EditReplacesFirstMatch` | src/arail/env_writer.py:374-400 | an edit of a present key replaces the first line that sets it, ends an unended last line, and leaves every other line as it is |
| `EnvFile.EditAppends` | src/arail/env_writer.py:383-400 | an edit of an absent key keeps the whole text and adds a blank line if needed, the comment and the assignment |
| `EnvFile.FindKey` | src/arail/env_writer.py:352-366 | the search loop finds the first line that sets the key, its value, and how many later lines set it too |
| `EnvShapes.MatchesAreLines` | src/arail/env_writer.py:357-372 | the lines counted for a key are exactly the assignments to it |
| `EnvShapes.NewlineIs` | src/arail/env_writer.py:346-349 | new lines end in a carriage return and a newline exactly where more lines of the file end so than in a newline alone |
| `EnvFile.EnvironmentFile.SetEnvVar` | src/arail/env_writer.py:311-406 | which calls are refused, which write, what the file holds after, and what is reported |
| `EnvFile.EnvironmentFile.ReadEnvVar` | src/arail/env_writer.py:297-308 | the value of the last line that sets the key in the text as text mode reads it |
| `EnvRoundTrip.SecondEditIff` | src/arail/env_writer.py:352-406 | a second identical call writes nothing exactly when the key was appended, or the line has no inline comment, or one that survives being read back |
| `EnvRoundTrip.ReportedChangeIsReal` | src/arail/env_writer.py:374-406 | `changed` is reported exactly when the text changes |
| `EnvTextMode.ReadConcat` | src/arail/env_writer.py:297-308 | cut where a line ends, a file is read piece by piece: the later piece decides where it sets the key |
| `EnvTextMode.ReadAfterRewrite` | src/arail/env_writer.py:352-406 | after an edit of a present key, in every text and for every value that can be set: a read of any name sees what follows the line, then the line written, then what precedes it |
| `EnvTextMode.ReadAfterAppend` | src/arail/env_writer.py:383-406 | after an edit of an absent key, in every text and for every value that can be set: a read of any name sees the line appended, then what the text gave before |
| `EnvTextMode.OtherNamesStay` | src/arail/env_writer.py:297-406 | in no text does an edit change what a read of another name sees, where neither the value nor the line replaced holds a carriage return of its own |
| `EnvTextMode.AppendThenRead` | src/arail/env_writer.py:297-406 | in every text an appended value is read back exactly when it holds no carriage return and needed no escape |
| `EnvTextMode.RewriteThenRead` | src/arail/env_writer.py:297-406 | a rewritten value is read back, where no later line sets the key, exactly when it holds no carriage return and its quoting left it as it is |
| `EnvTextMode.WrittenLineReadsBackIff` | src/arail/env_writer.py:105-110 | per line: the value comes back exactly when nothing was escaped, or, beside a comment, when nothing had to be quoted |
| `GateReads.StepSeenKeepsIff` | src/arail/compiled_kb.py:460-514 | a step that does not name it keeps a remembered revocation exactly when it does not approve it after a failed load of the revocations, nor save them back after one |
| `GateReads.RevocationHoldsIff` | src/arail/compiled_kb.py:591-619 | over every run that never names it, whatever loads and saves fail, a remembered revocation holds throughout exactly when no step loses it that way |
| `GateReads.RevokedStaysOut` | src/arail/compiled_kb.py:591-619 | revoke an approved path with both saves working, and no later automatic approval, bootstrap, reject, prune, rollback or revocation that can read the revocations brings it back |
| `GateReads.FailedLoadForgetsAll` | src/arail/compiled_kb.py:75-79 | one failed load of the revocations while any page is approved forgets them all, and the next mount undoes them |
| `GateReads.SeenAllIsStep` | src/arail/compiled_kb.py:75-79 | where every load works the steps are those of the gate without faults |
| `GateApprovals.RunSeenAll` | src/arail/compiled_kb.py:75-79 | and whole runs are those of the gate without faults |
| `CompiledKb.RevokeRemembersIff` | src/arail/compiled_kb.py:607-619 | a sticky revocation is remembered exactly when it already was, or both saves worked and the call took some approved path away |
| `CompiledKb.OperatorBringsBackIff` | src/arail/compiled_kb.py:460-514 | an operator approval brings a path back exactly when some name for it is admitted and the first save works |
| `CompiledKb.HalfSavedRevokeIsUndone` | src/arail/compiled_kb.py:607-619 | a revocation whose second save failed is undone by the next mount that finds the page |
| `CompiledKb.AutoTargetsAreTermPaths` | src/arail/compiled_kb.py:715-747 | what the automatic step approves are term pages, neither rejected nor revoked, and cleaning their paths changes nothing |
| `CompiledKb.TermPathIsClean` | src/arail/compiled_kb.py:452-457 | a term page's path is its own cleaned form, so what was checked is what is approved |
| `CompiledKb.AutoApproves` | src/arail/compiled_kb.py:715-747 | a mount that runs through approves exactly the pages it admits, on top of what was approved, and touches no rejection or revocation |
| `GateCandidates.MountAdmitsIff` | src/arail/compiled_kb.py:670-747 | what a mount admits: exactly the pages that some term of the bundle names, that are there, neither dismissed nor revoked, and no furniture, in a world that may be mounted with automatic approval on |
| `CompiledKb.OnlyNamedOrTermsEnter` | src/arail/compiled_kb.py:460-514 | over whole runs a path enters the approved set only if the operator named it or it is a staged term page |
| `GateApprovals.ApprovedAfterIff` | src/arail/compiled_kb.py:460-639 | step by step and page by page, whatever loads and saves fail: an approval stays exactly when the step does not take it away, one comes exactly when the step approves the page, and the record of one that only stays is untouched |
| `GateApprovals.ApprovalHoldsIff` | src/arail/compiled_kb.py:460-639 | over every run an approval holds throughout exactly when no step takes it away |
| `GateApprovals.FailedLoadRevokesAll` | src/arail/compiled_kb.py:591-619 | one failed load of the approvals: revoking a page, whichever, then revokes them all |
| `GateApprovals.ApprovedMeansManifest` | src/arail/compiled_kb.py:460-639 | in every reachable state approvals have a manifest, and a manifest once written stays |
| `CompiledKb.AutoMeansTermAlways` | src/arail/compiled_kb.py:670-747 | in every reachable state an approval stamped automatic is of a term page |
| `GateDismissals.RejectedIff` | src/arail/compiled_kb.py:572-588 | after a reject whose save works a path is dismissed exactly when it was loaded as dismissed or some path of the call cleans to it, and nothing else has changed |
| `GateDismissals.StepKeepsDismissalIff` | src/arail/compiled_kb.py:460-588 | a step keeps a dismissal exactly when it neither admits the page in an approval that saves the dismissals, nor saves them back after a failed load of them |
| `GateDismissals.DismissalHoldsIff` | src/arail/compiled_kb.py:460-588 | over every run, whatever loads and saves fail, a dismissal holds throughout exactly when no step loses it that way |
| `GateDismissals.DismissedStaysOut` | src/arail/compiled_kb.py:572-588 | a page dismissed by a reject whose save works is not pending, no candidate of any mount and not approved anew at the end of every run that can read the dismissals and never approves it by name |
| `GateDismissals.ApprovalReadmits` | src/arail/compiled_kb.py:460-514 | an approval of all three saves takes the pages it admits out of the dismissals, and no others |
| `GateCandidates.CandidateIff` | src/arail/compiled_kb.py:353-365 | by folder, stem and suffix: a file is a candidate exactly when it is text, no furniture, hidden nowhere, and neither compiled nor the index |
| `GateCandidates.NoExtNoCandidate` | src/arail/compiled_kb.py:353-365 | a file without a suffix is none |
| `GateCandidates.FurnitureIsNone` | src/arail/compiled_kb.py:353-365 | a file that describes its folder is none, in whatever folder |
| `GateCandidates.TrailingSlash` | src/arail/compiled_kb.py:353-365 | slashes at the end of a path do not change the name of its file |
| `GateCandidates.TermPageIsCandidate` | src/arail/compiled_kb.py:353-365 | a staged term page always is one, but for the four whose slug names a piece of furniture |
| `GatePaths.CleanRelIff` | src/arail/compiled_kb.py:452-457 | a path is refused exactly when nothing is left of it or a component of what is left is `..`; any other is relative and without a backslash |
| `GatePaths.NormalIs` | src/arail/compiled_kb.py:452-457 | what goes from a path is blanks at both ends and then slashes at the front, and nothing else |
| `GatePaths.CleanTwice` | src/arail/compiled_kb.py:452-457 | cleaning again changes nothing of a path that begins with no blank |
| `GatePaths.CaseDoesNotMatter` | src/arail/compiled_kb.py:353-365 | the case of a letter makes no difference to suffixes and names |
| `GatePaths.HiddenIsComponent` | src/arail/compiled_kb.py:353-365 | a file is hidden exactly where a component of its path begins with a dot |
| `GateSlugs.SlugIs` | src/arail/compiled_kb.py:647-652 | a term's slug is the first 80 characters of its lower-case name, its runs of other characters made dashes, once the dashes at both ends are gone |
| `GateSlugs.SlugStays` | src/arail/compiled_kb.py:647-652 | what may be in a slug stays as it is |
| `GateSlugs.RunBecomesDash` | src/arail/compiled_kb.py:647-652 | a run of other characters becomes one dash, however long |
| `GateSlugs.SlugIsStableIff` | src/arail/compiled_kb.py:647-652 | making a slug of a slug changes nothing exactly when no dash is at either end, and the cut can leave one |
| `GateSlugs.SlugLetters` | src/arail/compiled_kb.py:644 | by code point: small letters, digits and the dash |
| `GateSlugs.WorldSlugIff` | src/arail/compiled_kb.py:670-690 | a world's slug is letters, digits and dashes, the first no dash, and the pattern lets one final newline by |
| `CompiledKb.RollbackRemovesAuto` | src/arail/compiled_kb.py:622-639 | the rollback removes exactly the automatic approvals and remembers none as revoked |
| `CompiledKb.RollbackThenMount` | src/arail/compiled_kb.py:622-639 | rolled back and mounted again, what is approved is the operator's and the mount's |
| `CompiledKb.OperatorApprovalSurvivesIff` | src/arail/compiled_kb.py:622-639 | an operator's approval outlives a mount and a rollback exactly when the mount did not admit that page |
| `CompiledKb.MountTwice` | src/arail/compiled_kb.py:670-747 | a mount run twice does what it did once |
| `CompiledKb.ApartAlways` | src/arail/compiled_kb.py:460-639 | where no save fails, no path is both approved and remembered as revoked |
| `CompiledKb.PruneKeepsLive` | src/arail/compiled_kb.py:544-569 | pruning leaves the approved and existing paths as they are, removes the others, and is a fixed point after one run |
| `CompiledKb.PruneKeepsGateState` | src/arail/compiled_kb.py:187-235 | and the state the gate reports does not change |
| `GateApprovals.GateStateIff` | src/arail/compiled_kb.py:187-235 | each reported state, by whether the gate is on, a manifest is there and something approved can still be found |
| `GateApprovals.ApprovingPopulates` | src/arail/compiled_kb.py:460-514 | an approval that admits a page of the tree leaves the gate populated |
| `CompiledKb.BootstrapWritesManifestIff` | src/arail/compiled_kb.py:750-824 | bootstrap leaves a manifest exactly when there was one, or its first save works and there are no terms, or some term qualifies (its documentation says always); a dry run changes nothing |
| `GateFiles.Gate.ApprovePaths` | src/arail/compiled_kb.py:460-514 | the loop over what its loads give, and the three saves, any of which may be the one that raises |
| `GateFiles.Gate.RejectPaths` | src/arail/compiled_kb.py:572-588 | the loop, its count and its save |
| `GateFiles.Gate.RevokePaths` | src/arail/compiled_kb.py:591-619 | the loop, its count of approvals taken away, and the saves |
| `GateFiles.Gate.RevokeAuto` | src/arail/compiled_kb.py:622-639 | the rollback over the manifest's automatic entries, and how many of them the second load still finds |
| `GateFiles.Gate.AutoApproveTerms` | src/arail/compiled_kb.py:670-747 | the filtering loop and the approval of what it kept, and that the paths returned are all of these or, where a save fails, none |
| `GateFiles.Gate.BootstrapRoot` | src/arail/compiled_kb.py:750-824 | which of its ways bootstrap takes |
| `GateFiles.Gate.PruneDangling` | src/arail/compiled_kb.py:544-569 | what is dropped, what is left, and when the save raises |
| `ReviewQueue.PendingPaths` | src/arail/compiled_kb.py:420-443 | the cheap feed is the pending files in walk order |
| `ReviewQueue.ListPending` | src/arail/compiled_kb.py:368-417 | the full feed is the stable sort of the rows of the first `limit` pending files; a limit below one acts as one |
| `ReviewQueue.FeedsAgree` | src/arail/compiled_kb.py:368-443 | the paths of the full feed are a permutation of the first `limit` of the cheap one, sorted by kind and title, ties in walk order |
| `ReviewQueue.QueueOrder` | src/arail/compiled_kb.py:411-416 | said of the paths: by kind, and within a kind by title, the smaller first |
| `ReviewQueue.RankIs` | src/arail/compiled_kb.py:268-285 | world terms come first, then scout findings, then what four kinds of agents put out, then all else |
| `ReviewQueue.WorldTermIff` | src/arail/compiled_kb.py:268-270 | a path is a world term exactly when it is a page in the terms folder of a world |
| `ReviewQueue.WorldOfIff` | src/arail/compiled_kb.py:315-317 | a path is of a world exactly when it lies in that world's folder |
| `ReviewQueue.ScopedIff` | src/arail/compiled_kb.py:394-398 | the queue of one world is the queue, of that world's pages only |
| `ReviewQueue.SortSorts` | src/arail/compiled_kb.py:411-416 | the sort is sorted and a permutation |
| `ReviewQueue.SortIsStable` | src/arail/compiled_kb.py:411-416 | rows that tie keep their order |
| `ReviewQueue.ApprovedQueueIsGone` | src/arail/compiled_kb.py:452-514 | approving a whole queue takes a path out of it exactly when cleaning some queued path gives it |
| `ReviewQueue.BlankNameStaysPending` | src/arail/compiled_kb.py:452-457 | a file whose name begins with a blank stays pending when its own listed path is approved |
| `ProbeReader.SplitIsSplitting` | src/arail/deep_probe.py:586-604 | splitting on newlines gives newline-free pieces that join back into the stream |
| `ProbeReader.SplitIsEndedAndOpen` | src/arail/deep_probe.py:586-604 | the lines ended so far and the open one are the pieces of the split |
| `ProbeReader.StderrPump.Take` | src/arail/deep_probe.py:590-594 | the kept head is the first 8192 bytes of the open line and never longer, whatever the pieces |
| `ProbeReader.StderrPump.Feed` | src/arail/deep_probe.py:576-600 | after any chunk the state says exactly what the stream so far says |
| `ProbeReader.ReadAll` | src/arail/deep_probe.py:569-606 | for every stream and every chunking the tail is the last 20 of split, drop an empty last piece, keep 8192 bytes |
| `ProbeReader.TailSays` | src/arail/deep_probe.py:569-606 | as many of the last lines of the stream as there are, at most 20, each cut at its first 8192 bytes; what follows the last newline is a line if it is not empty |
| `ProbeProtocol.ActedOnIsPrefix` | src/arail/deep_probe.py:519-552 | for every chunking, and wherever reading stops, the events acted on are a prefix of those the child emitted, and all of them up to the end event once it was read |
| `ProbeProtocol.Supervisor.Act` | src/arail/deep_probe.py:530-545 | one event changes the fields it names, and sets the end exactly when it ends the protocol |
| `ProbeProtocol.Supervisor.ActOnLines` | src/arail/deep_probe.py:519-546 | the inner loop acts on every whole line up to an end event |
| `ProbeProtocol.Supervisor.Drive` | src/arail/deep_probe.py:486-566 | over every course of clock, pipe and process the run goes on for as long as no turn stops it and ends the way that turn says; the fields are those of the events acted on, and a child that did not finish died loading, or in the call behind the last that reported |
| `ProbeRuns.StoppedBecause` | src/arail/deep_probe.py:506-562 | why it stopped: an interrupt, before all else; the deadline, before anything is read; done or a failed load, before the child's death; and the child's death |
| `ProbeRuns.GoesOnIff` | src/arail/deep_probe.py:504-562 | a run goes on through some turns exactly when none of these is true in any of them |
| `ProbeRuns.DeadlineIs` | src/arail/deep_probe.py:502-545 | the deadline at any turn is a call's time after the last turn that put it off, and a load's time after the start before there is one |
| `ProbeRuns.ProgressIff` | src/arail/deep_probe.py:530-545 | what puts it off is acting on a load or on a report of a call |
| `ProbeRuns.HasEndIff` | src/arail/deep_probe.py:530-545 | what ends the run is acting on `done` or on a failed load |
| `ProbeRuns.ReadStandsAt` | src/arail/deep_probe.py:513-524 | what was read is what the turns read, each behind those before it |
| `ProbeAccount.RowsFromResult` | src/arail/deep_probe.py:661-680 | each of the five rows is the last report of its call, or of the call the child died in |
| `ProbeAccount.RowSays` | src/arail/deep_probe.py:661-680 | the end of a row: timeout or crashed in the call the child died in, else what the report says, answered or error where it does not say, and not reached where there is no report |
| `ProbeRuns.PassIsFiveAnswers` | src/arail/deep_probe.py:345-421 | of the child as it is written, a full pass is five calls that ended answered |
| `ProbeRuns.FiveAnswersPass` | src/arail/deep_probe.py:345-421 | and a child that loads, answers five and is done is one, 5/5 |
| `ProbeAccount.FullIffAllAnswered` | src/arail/deep_probe.py:957-970 | a full pass is exactly: loaded, and the last report of each of the five calls is an answer |
| `ProbeAccount.AnsweredWereReachedIff` | src/arail/deep_probe.py:661-680 | answered rows are all among the attempted exactly when the child denies no answer of its own |
| `ProbeAccount.PassedWithinTotalIff` | src/arail/deep_probe.py:957-972 | passed is at most total exactly when, loaded, the answers the child denies are no more than the calls reached and missed, and, not loaded, no call was answered |
| `ProbeAccount.PassedCanExceedTotal` | src/arail/deep_probe.py:957-972 | one event of a child that answers a call it says it did not reach makes passed exceed total |
| `ProbeAccount.PassedWithoutLoading` | src/arail/deep_probe.py:957-972 | so does one answer without a loaded event |
| `ProbeAccount.HonestTotals` | src/arail/deep_probe.py:345-421 | for the child as it is written, wherever it stops: passed <= total <= 5, exactly the reported calls and the one it stopped in are attempted |
| `ProbeAccount.ChildCallsAreHonest` | src/arail/deep_probe.py:345-421 | whatever part of that child's output was acted on, its calls are numbered from one without gaps, and it loaded if there are any; what the child emits is closed under prefixes |
| `ProbeAccount.DecidingRead` | src/arail/deep_probe.py:988-1012 | exit zero needs a full, written pass, and is then decided by the record as that read finds it; a read that fails finds none and is taken for cleared, and an open can fail only where the cache is not current |
| `ProbeAccount.Conclude` | src/arail/deep_probe.py:976-1012 | with nobody writing behind it: exit zero exactly when all five answered, the write succeeded, and no failure the write found on record landed during the probe, or the deciding read is blind: its stat fails, or its open does and so did the stat behind the write. Once written, deep is passing for a reader, whatever it remembers, exactly when all five answered, no such failure landed and it remembers none of its own since the probe began, and otherwise failing; and the record says when the probe ran, how many answered of how many reached, and whether that is a pass |
| `Costs.RunConserves` | src/arail/costs.py:355-440 | in every run of calls and restarts, at whatever rates, the breakdowns by backend and by source sum to the totals |
| `Costs.TotalsAreThoseOfTheRecords` | src/arail/costs.py:400-416 | in every run of calls and restarts the totals, and each backend's calls, tokens, bill and latency, are those of the records made for it |
| `Costs.CountsAreThoseOfTheRecords` | src/arail/costs.py:400-416 | so are the calls counted at each depth and for each source, the bare agent bucket and its new name taken together |
| `CostPrices.InputTokensCost` | src/arail/costs.py:375-377 | more tokens in raise the raw price of a record by their part of the model's input price for a million |
| `CostPrices.OutputTokensCost` | src/arail/costs.py:375-377 | and more tokens out by their part of the output price |
| `CostPrices.MillionTokens` | src/arail/costs.py:375-377 | so a million more in cost exactly the input price, and a million more out the output price |
| `CostPrices.NoTokensNoPrice` | src/arail/costs.py:375-377 | and a call without tokens costs nothing before the minimum |
| `CostPrices.BillIs` | src/arail/costs.py:379-383 | the bill is never under the minimum, and above it the raw price times the usage multiplier, and the agents' too for a call not from the page; savings are bill less energy |
| `CostPrices.AgentsPayTheirMultiple` | src/arail/costs.py:379-383 | above the minimum an agent's call is billed the agents' multiple of what the same call from the page is |
| `CostPrices.ChargedIff` | src/arail/costs.py:431-432 | a real charge is put down for the three billing backends and no other |
| `CostPrices.LocalIff` | src/arail/costs.py:108-134 | no charge is known to be made for the six backends that run here, and nothing is known of any other |
| `CostPrices.EnergyIsLarger` | src/arail/costs.py:385-396 | the energy is the larger of what the time and what the tokens cost |
| `CostPrices.KilowattHour` | src/arail/costs.py:385-396 | a kilowatt for an hour costs the energy rate, and time and power count in proportion |
| `CostPrices.TokenJoules` | src/arail/costs.py:385-396 | and so do 3.6 million joules of tokens |
| `CostPrices.RunOfOneModel` | src/arail/costs.py:375-402 | over every run of calls and restarts of one backend and model the raw total is all the tokens in at the input price and all the tokens out at the output price |
| `CostPrices.RunPaysTheMinimum` | src/arail/costs.py:379-406 | over every run the bill is at least the minimum for every call |
| `Costs.EnergyStaysAboveFloor` | src/arail/costs.py:385-396 | at one rate the recorded energy never falls below the token floor, savings are bill less energy, and the load never reconciles |
| `Costs.ReloadIsIdentityIff` | src/arail/costs.py:263-344 | loading what was saved, at the same rate, is the identity exactly when there is no bare agent source |
| `Costs.BareBucketIff` | src/arail/costs.py:355-361 | there is one exactly when a call since the last restart left its source at the default |
| `Costs.RenameIs` | src/arail/costs.py:270-300 | the load moves the bare bucket's calls, if any, to the new name, and leaves the other sources as they are |
| `Costs.ReloadIsSettled` | src/arail/costs.py:263-320 | a second load changes nothing the first did not |
| `Costs.RestartKeepsEnergyIff` | src/arail/costs.py:312-320 | after every run of calls and restarts at any rates, a restart at any new rate leaves the energy as it was exactly when the token floor at that rate is at most five times the energy, or rounds to it; otherwise the rounded floor takes its place |
| `Costs.RewriteThreshold` | src/arail/costs.py:312-320 | put as a rate: with tokens to account for, that is a threshold at five times the energy per unit of floor |
| `Costs.RateUpToFiveTimes` | src/arail/costs.py:312-320 | hence, from one rate throughout, a restart at up to five times it never rewrites the energy, and the threshold is five exactly where the energy is all token floor |
| `Costs.NegativeRateReconciles` | src/arail/costs.py:312-320 | at a negative rate one call whose token energy is the larger is enough for the next load at that rate to find the floor more than five times the energy; it rewrites it exactly when rounding changes it |
| `Costs.NegativeRateCanKeep` | src/arail/costs.py:312-320 | and one call without latency energy is not |
| `Costs.HistoryIsLastMade` | src/arail/costs.py:450-483 | through restarts too the history is the last 500 records made |
| `Costs.CostTracker.TrackCall` | src/arail/costs.py:355-485 | one call updates the running totals, the breakdowns and the history in place |
| `Costs.CostTracker.Load` | src/arail/costs.py:263-320 | what a load makes of a saved document, the rename and the reconciliation loop included |
| `JsonlPurge.PurgedIsClean` | src/arail/jsonl_purge.py:57-87 | no body is left to detect, no line is more or less, and purging again changes nothing |
| `JsonlPurge.LinesOfPurged` | src/arail/jsonl_purge.py:57-87 | the lines of the rewritten file are the rewritten lines of the old one |
| `JsonlPurge.PurgedMeans` | src/arail/jsonl_purge.py:64-85 | line by line: one that reads as a value reads as that value without its body afterwards, printed anew unless looking for a body raised; any other goes through as it is |
| `JsonlPurge.MalformedStaysIff` | src/arail/jsonl_purge.py:64-73 | a blank or malformed line, wherever it stands, goes through with its carriage returns made newlines, so byte for byte exactly when it has none (its documentation says byte-identical) |
| `JsonlPurge.PurgedConcat` | src/arail/jsonl_purge.py:64-85 | cut at the end of a line, a file is purged part by part |
| `JsonlPurge.LineCountKeptIff` | src/arail/jsonl_purge.py:64-85 | the line count is kept exactly when every carriage return stands before a newline or at the end of the file |
| `PurgeFiles.PurgedPlusLeft` | src/arail/jsonl_purge.py:57-97 | what is reported as purged and what is left on disk add up to what was there, whatever fails, even when the call raises |
| `PurgeFiles.FilesAreOldOrPurged` | src/arail/jsonl_purge.py:57-97 | every file is untouched or wholly purged, and the call raises exactly when it comes to a path whose existence test raises, or a file that does not decode or nests too deeply (its documentation says never) |
| `PurgeFiles.RaisesIff` | src/arail/jsonl_purge.py:57-97 | in terms of what a caller could look at before: it raises exactly when the existence test of a listed path does, or a file is read that does not decode or has a line, not blank, nesting too deep |
| `PurgeFiles.ReportIs` | src/arail/jsonl_purge.py:57-97 | a call that returns lists exactly the files that are there and were not replaced, in order, and is ok exactly when there are none |
| `PurgeFiles.StraysAre` | src/arail/jsonl_purge.py:57-97 | which temporary files are left: for each path come to, by what its system calls did; for the others, what was there |
| `PurgeFiles.NoStrayIff` | src/arail/jsonl_purge.py:57-97 | none survives a purge that found none exactly when no file it came to was unreadable and every failure after a temporary was made could remove it; an existence test that raises leaves none (its documentation says none survives) |
| `PurgeFiles.SuccessMeansClean` | src/arail/jsonl_purge.py:57-97 | a purge that reports success has left no body in any listed file |
| `PurgeFiles.SecondPurgeReportsNone` | src/arail/jsonl_purge.py:57-97 | after a successful purge a second one reports none, whatever then fails |
| `PurgeFiles.Disk.Purge` | src/arail/jsonl_purge.py:57-97 | the loop over paths: what it does to the files and temporaries, reports and raises, whichever of its system calls fail, the existence test included |
| `PurgeFiles.Disk.CleanLines` | src/arail/jsonl_purge.py:64-85 | the loop over lines, what it writes, counts and raises |
| `PurgeFiles.StripRing` | src/arail/agent_trace.py:645-651 | the in-memory records are stripped in place, and the count is the number of different records that held a body |
| `PurgeFiles.PurgeBodies` | src/arail/activity.py:279-297 | both callers clear memory only when every rewrite landed; success leaves no body on disk or in memory, failure leaves memory as it was |
| `PurgeRules.CallersAreLawful` | src/arail/agent_trace.py:608-614 | both callers' rules are what the purge rests on |
| `PurgeCallers.DetectionIsExact` | src/arail/activity.py:199-212 | field by field: the legacy rule detects exactly an object trace with a prompt or a response, whatever the value, and the recorder's exactly an object under `bodies` |
| `PurgeCallers.LegacyStripped` | src/arail/activity.py:243-247 | stripped, the trace has neither key and says so, and no other field of the event, its data or its trace is touched, added or lost |
| `PurgeCallers.RecorderStripped` | src/arail/agent_trace.py:608-614 | stripped, `bodies` is null and the record says so, and no other field is touched, added or lost |
| `PurgeCallers.PurgeLegacyBodies` | src/arail/activity.py:250-297 | a success leaves no prompt and no response in any trace, on any line of a listed file or in memory, and counts the events stripped in memory; anything else leaves memory as it was |
| `PurgeCallers.PurgeRecorderBodies` | src/arail/agent_trace.py:617-657 | and the same of `bodies` in the flight recorder |

## Left out

- Filesystem details: links, descriptors, ownership and mode checks. What is kept is that opening or locking may fail, a replace is atomic or fails, and a death releases the lock.
- File signatures (time, size, inode) are taken to belong to one content only.
- Binary identity, import scanning, channels and pip records of the deep verdict, and the key for a binary that could not be identified.
- StoreCache.Process.NoteFailure: a failure that is not to be saved at all (in a probe child, for an unidentified binary, or by the caller's wish) goes to memory as one whose save failed does, and is not modelled apart.
- Texts for people: details, legends, activity lines, clipping of messages, colour and control cleaning.
- How the interpreter counts its stack: the parser's and the copy's nesting limits are two numbers, the copy's the smaller. Messages and the JSON writer, which recurse too, are assumed to stay within them.
- Two processes running compiled-knowledge steps at once: their read-modify-write takes no lock, and interleavings are not modelled.
- GateFiles.Gate.ApprovePaths: a record keeps who approved it and whether automatically; title, kind, provenance, hash and time, which no later step reads, are not modelled.
- The manifest's older list shape. A corrupt or unreadable file of the gate is a load that fails.
- How a staged world is found and its terms resolved from the catalog: bootstrap takes the result.
- ReviewQueue.ListPending: preview, provenance and hash of a row; the title is a parameter, and the walk order is given.
- Symbolic-link, directory and parent checks of the `.env` editor, its in-process lock, and undecodable `.env` files.
- EnvTextMode.RewriteThenRead: when a line with carriage returns before its newline, or with a lone one as its newline, is rewritten, whether the value comes back; what a read then sees is given by `EnvTextMode.ReadAfterRewrite`, which excludes no line.
- EnvTextMode.OtherNamesStay: a value, or a rewritten line, that holds a carriage return can set another name; what a read then sees is given by `EnvTextMode.ReadAfterRewrite` and `EnvTextMode.ReadAfterAppend`, which exclude none.
- Which errors make the purge's existence test raise: that depends on the interpreter's version, and the outcome is a parameter.
- Lower-casing beyond what can produce an ASCII letter.
- Speculative decoding timings and speedup estimates, and the probabilities stored beside a greedy result. Irrational temperatures.
- SpeculativeSampling.CodeIsExactIff: a draw that divides by a zero sum, on which the program has no number to sample, counts as one that emits nothing.
- Spawning the probe's child, signals, memory checks and the probe lock; how long one turn waits for the pipe; the events on which the supervisor raises: a call event whose number, seconds or words it cannot convert, and a `loaded` event whose seconds it cannot.
- The child's standard-error text after the cut at 8192 bytes: decoding and clipping to 300 characters.
- Floating-point rounding in the cost tracker, its price and power tables and model-name heuristics (parameters here), subscription accrual, and cost files not written by the tracker itself.
- JSON key order and the spelling of values on a purged line; the bounded rings the purge's callers fill.
- The goals, dictionary, router, data-directory, portal, docgen, forge, hardware and doctor code: plumbing or single-branch checks that would add only easy members.
