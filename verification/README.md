# Verified model of telclaude's stateful core

This project models, in Dafny 4.11, the parts of telclaude that keep state over time, and proves what they
promise over every run or every input.

* **Background jobs** (`JobTypes`, `JobTable`, `JobStore`, `BackgroundRunner`, `JobProtocol`, `JobSafety`,
  `JobProvenance`, `JobOccupancy`, `JobNotices`, `JobNoticeRuns`, `JobWaiting`, `JobRefinement`). `Store`
  holds the `background_jobs` table and each exported operation is a method; `Runner` is the polling runner
  with its in-flight set. `JobProtocol` is the whole system as a state machine: any number of relay
  processes, and CLI processes that create, cancel and prune. Each SQL statement or transaction of a relay
  is one step, so the status check, the terminal UPDATE and the read-back of a finishing job are three steps
  and another process may write between any two of them. Crashes may come anywhere. `JobRefinement` shows
  that the methods are the steps. Two calls of the CLI bundle statements into one step, and lose nothing by
  it. A create call makes up to ten INSERT attempts; one that is interrupted between two of them is several
  Create steps with fewer attempts each (`JobRefinement.CreateInPieces`). A cancel call reads its row back
  after the UPDATE; whatever comes in between, it finds the row the UPDATE left or, after a prune, none
  (`JobSafety.ReadBackIsStable`).
* **Internal RPC authentication** (`SignedPayload`, `InternalAuth`, `RequestBinding`, `NonceReplay`, `NonceRestart`). The
  newline-joined payloads and their UTF-8 bytes, the verifier with its lazily pruned nonce cache, and the
  comparison of that cache with a set that never forgets, within one process and over restarts. `RequestBinding` says which request an accepted signature is for.
* **Secret entry** (`SecretInput`, `SecretBytes`). The raw-mode chunk scanner, against a machine that reads
  one UTF-16 code unit at a time, and the data handler, which decodes every buffer on its own before it
  scans it.
* **Configuration overlay** (`ConfigOverlay`, `ProviderConfig`, `OverlayFiles`). The recursive merge, the
  in-place edits of the provider list, and writing the result as the runtime overlay and reading it back.
* **Codex work units** (`CappedCapture`, `GitConfigEnv`). The capped stream collector and the numbered
  environment variables for git settings.
* **Shared** (`Options`, `Text`, `Utf8`). Optional values, trimming and decimal numbers, UTF-8 with the
  decoder's replacement of broken characters.

`dafny verify dfyconfig.toml` checks everything.

## Results worth knowing

* Within one process the nonce cache agrees with a never-pruned set on every run **if and only if** the TTL
  is more than twice the skew, or no request can be early or late at all
  (`NonceReplay.AgreesExactlyWhenSafe`). The shipped defaults, 10 and 5 minutes, sit exactly on the
  boundary: a request that arrives as early as the skew allows can be accepted a second time at the single
  instant at which its entry expires.
* The cache is memory of the process, so a restart forgets every nonce. No nonce is accepted twice over
  restarts **if and only if** the window is safe and the process is silent around each restart for more than
  twice the skew (`NonceRestart.AcceptsOnceExactly`). After a faster restart the same signed request is
  accepted again, whatever the TTL.
* A chunk boundary in decoded secret input is invisible **if and only if** it does not fall inside an escape
  sequence (`SecretInput.SplitsFreelyExactly`). The handler decodes every buffer of bytes on its own, so for
  bytes it must not fall inside a UTF-8 character either, unless the entry is already over
  (`SecretBytes.BytesSplitFreelyExactly`): a character cut in two becomes replacement characters in the
  secret.
* A provider edit is read back exactly as written **if and only if** the existing overlay had not already
  replaced the policy's `security` or `security.network` object by something that hides a key of it; an
  array that it put there is written back as it was (`OverlayFiles.ReadAfterWriteExactly`). The two edited lists are read back as written, so a removed
  provider stays removed whatever the policy declares. In the configuration that the program loads it comes
  back **if and only if** the private file, merged on top, declares it
  (`OverlayFiles.OnlyThePrivateFileRevives`). Where `security` or `security.network` is an array, a new
  endpoint is lost on serialization although the edit succeeds
  (`OverlayFiles.ConfigFiles.ConfigureProvider`).
* Removing a provider undoes configuring it **if and only if** its private endpoint went under the default
  label or had been there, unchanged, before (`ProviderConfig.RemoveUndoesConfigureExactly`). Under a label
  of its own the endpoint stays on the allowlist after its provider is removed
  (`ProviderConfig.OwnLabelSurvives`).
* However many relays share the table, the end of a job is announced at most once as long as no relay starts
  up over a job that another one is running. A start is safe in this sense **if and only if** no other relay
  holds the job with its row running (`JobNoticeRuns.SafeStartExactly`); a concrete run announces a job
  twice.
* Under that condition a claimed job that nothing more will announce was announced **if and only if** it was
  not lost in one of four ways: its relay crashed when the row was no longer running, it was cancelled while
  no relay held it, or its row was pruned before the status check or before the read-back
  (`JobNotices.NotifiedUnlessLost`). Each of the four happens on some run (`JobNoticeRuns`).
* A joined request payload has one reading **if and only if** it holds exactly six line breaks
  (`SignedPayload.ReadsOneWayExactly`).
* `appendCapped` flags a stream exactly when it is longer than the cap, **unless** the stream fills the cap
  to the byte and ends in an empty chunk (`CappedCapture.FlagIsExactUnlessTrailingEmpty`). Node emits no
  empty chunk on a stream of bytes, so this concerns direct calls only.

The comments in the source call the startup interruption synchronous (`src/background/host.ts:5`); the code
awaits it before it starts the runner (`src/telegram/auto-reply.ts:2241`). The model follows the code: Boot
and Launch are two steps and other processes may act between them.

## Model

| member | source | states |
|---|---|---|
| JobStore.Store.CreateJob | src/background/jobs.ts:119-178 | a job is inserted as `queued` with every column as given, title and description without the white space around them and a blank description absent, under the first of ten random short ids that no row uses; otherwise the exact refusal, and the table is untouched |
| JobStore.NormalizedTwice | src/background/jobs.ts:122-149 | the stored title and description are trimmed: submitting them again stores the same |
| JobTable.CreatedExactly | src/background/jobs.ts:123-177 | a job is created exactly when it has a title, a good payload, a new id, and one of the short ids is free; short ids stay unique |
| JobTable.RefusedExactly | src/background/jobs.ts:123-177 | which refusal a create call gets: no title, then a bad payload, then a taken id, then ten colliding short ids |
| JobTable.FirstFreeIsFirst | src/background/jobs.ts:138-175 | the retry loop fails exactly when every candidate collides, and otherwise yields the earliest one that does not |
| JobStore.Store.SelectOldestQueued | src/background/jobs.ts:247-254 | the query answers with min(limit, queued) distinct queued rows in age order, none younger than one left out |
| JobStore.Store.ClaimQueuedJobs | src/background/jobs.ts:243-278 | the claim flips the oldest queued rows, and each returned record is what the store holds afterwards |
| JobTable.ClaimExact | src/background/jobs.ts:243-278 | exactly min(clamped limit, queued) distinct rows leave the queue, in age order and none younger than a row left queued, no other row changes, and the active count stays |
| JobStore.Store.CompleteJob | src/background/jobs.ts:295-314 | only a running row is completed, the flag says whether it was, and the persisted row is returned either way |
| JobStore.Store.CancelJob | src/background/jobs.ts:321-336 | only an active row is cancelled, the flag says whether it was, and the persisted row is returned either way |
| JobStore.Store.MarkInterruptedOnStartup | src/background/jobs.ts:343-376 | every running row becomes `interrupted`, and exactly those rows are returned, as stored |
| JobStore.Store.PruneOldJobs | src/background/jobs.ts:382-392 | old terminal rows are deleted and the result is the number deleted |
| JobTable.PruneExact | src/background/jobs.ts:382-392 | pruning never removes an active row, and on well-shaped rows the COALESCE is always `completed_at` |
| JobTable.CountAfterComplete | src/background/jobs.ts:295-314 | the active count drops by one exactly when a completion reports a transition |
| JobTable.CountAfterCancel | src/background/jobs.ts:321-336 | the active count drops by one exactly when a cancellation reports a transition |
| JobTable.CountAfterInterrupt | src/background/jobs.ts:343-376 | the startup interruption lowers the active count by the number of rows it returns |
| BackgroundRunner.Runner.Tick | src/background/runner.ts:340-359 | a poll does nothing when stopped or full; otherwise it claims into the free capacity, puts exactly the claimed jobs in flight and stays within its maximum |
| BackgroundRunner.Runner.FinishJob | src/background/runner.ts:290-331 | undisturbed, the slot is freed, a job still running gets its outcome, any other row is left alone, and the hook gets the stored record |
| BackgroundRunner.HandleStartupInterruptions | src/background/host.ts:35-58 | every row a previous process left running is interrupted, and exactly these rows are returned, as stored, to be announced |
| JobProtocol.InvStep | src/background/runner.ts:262-377 | every step of every process keeps the system invariant: keys, row shapes, who holds which job, capacities |
| JobProtocol.HookStep | src/background/runner.ts:299-330 | whenever the hook is called the record is terminal and current, the job was held by a relay, and nobody holds it afterwards |
| JobSafety.ClaimedAtMostOnce | src/background/jobs.ts:258-276 | over every interleaving of any number of runners, each job enters `running` at most once |
| JobSafety.ReportedAtMostOnce | src/background/jobs.ts:304-374 | over every run at most one complete, cancel or interrupt call reports a transition for a job |
| JobSafety.TerminalRowsAreFrozen | src/background/jobs.ts:5-7 | after the reported transition the row never changes until it is pruned, and a pruned job never comes back |
| JobSafety.TerminalWasReported | src/background/jobs.ts:288-336 | conversely, a terminal row was reported by an earlier call and has not changed since |
| JobSafety.RowShapeOnRun | src/background/jobs.ts:130-136 | in every reachable table each row carries exactly the timestamps of its status, and a result or error only where an outcome or a restart left one |
| JobSafety.TimesOnRun | src/background/jobs.ts:258-359 | with a monotone clock, created <= started <= completed for every reachable row |
| JobSafety.HookGetsTerminal | src/background/runner.ts:301-330 | every record passed to the completion hook is terminal and is the stored row |
| JobSafety.HookAtMostOnce | src/background/runner.ts:290-330 | the hook fires at most once per job on all paths, including a cancel before the check and one between check and write |
| JobSafety.ClaimedJobIsAccountedFor | src/background/runner.ts:290-330 | its partner: unless the relay crashes, a claimed job is still held, has reached the hook, or was pruned |
| JobSafety.ReleasedStaysReleased | src/background/runner.ts:290-297 | a job that was claimed and released is never held by any relay again |
| JobSafety.CancellationWins | src/background/runner.ts:16-21 | a cancellation that lands first stays, with its time, and no later call reports a transition |
| JobSafety.ReadBackIsStable | src/background/jobs.ts:304-336 | the read-back after a cancelling or completing UPDATE finds the row that UPDATE left, however late it comes, or none after a prune |
| JobSafety.Conservation | src/background/jobs.ts:119-400 | created = active + terminal + pruned in every reachable state |
| JobSafety.CapacityOnRun | src/background/runner.ts:344-350 | no relay ever has more jobs in flight than its `maxJobsPerTick` |
| JobProvenance.CreatedBy | src/background/jobs.ts:130-152 | every row still carries what one create call supplied: its input, its time and one of its short ids |
| JobProvenance.StartedBy | src/background/jobs.ts:258-262 | `started_at` is the time of the poll that claimed the job |
| JobProvenance.StartTimeStays | src/background/jobs.ts:304-359 | from the claim on, completed, cancelled or interrupted, a row keeps the time of the poll that claimed it |
| JobProvenance.TerminalRowExplained | src/background/runner.ts:290-318 | a terminal row stems from one cancellation, one restart, or one terminal write of exactly the outcome with which that relay's executor settled |
| JobOccupancy.RunningAreInFlight | src/background/runner.ts:294-355 | with one relay at a time, at every event-loop boundary every running row is in flight, so at most `maxJobsPerTick` rows run |
| JobOccupancy.NothingRunsAtLaunch | src/background/host.ts:27-37 | after the startup interruption and until the first claim nothing is running |
| JobOccupancy.OrphansNeedACrash | src/background/runner.ts:345-355 | with any number of relays, a running row without an owner exists only after a crash |
| JobNotices.EndsExactly | src/background/runner.ts:290-331 | a step, unless it starts a relay over a job that another one is running, announces or loses a job exactly when an announcement was still to come before it and none is afterwards, and never both |
| JobNotices.AtMostOnceWithSafeStarts | src/background/jobs.ts:9-14 | with any number of relays the operator hears of the end of a job at most once, from the hook or from a startup card, if no relay starts over the job while another is running it |
| JobNotices.NotifiedAtMostOnce | src/background/host.ts:27-37 | in particular with one relay at a time |
| JobNotices.NotifiedUnlessLost | src/background/jobs.ts:9-14 | under the same condition, a claimed job for which nothing is to come any more was announced if and only if none of the four losses struck it |
| JobNoticeRuns.SafeStartExactly | src/background/host.ts:27-37 | a relay may be started without a job ever being announced twice, however the run goes on, if and only if no other relay holds the job with its row running |
| JobNoticeRuns.UnsafeStartAnnouncesTwice | src/background/host.ts:35-58 | a start over a job held by another relay, wherever that relay's event loop stands, leads to a second announcement |
| JobNoticeRuns.ConcreteDoubleAnnouncement | src/background/host.ts:35-58 | one concrete run of six steps on which a job is announced twice |
| JobNoticeRuns.LostToCrashAfterCancel | src/background/runner.ts:299-311 | from any run on which a relay runs a job: cancelled in flight, and the relay crashes before its hook |
| JobNoticeRuns.LostToCancelAfterCrash | src/background/jobs.ts:326-332 | the relay crashes and the job is cancelled before the next one starts |
| JobNoticeRuns.LostToPruneBeforeCheck | src/background/runner.ts:301-311 | cancelled in flight and pruned before the status check |
| JobNoticeRuns.LostToPruneBeforeReread | src/background/runner.ts:313-330 | completed and pruned before the read-back |
| JobNoticeRuns.SomeRelayRunsAJob | src/background/runner.ts:340-359 | a concrete run from which all of these continue |
| JobWaiting.SlotsWhileWaiting | src/background/jobs.ts:247-253 | while a job waits, every slot that any poll offers is used up by a job ahead of it |
| JobWaiting.BoundedWait | src/background/runner.ts:340-359 | a job with k queued jobs not younger is claimed or cancelled once polls have found a free slot k + 1 times |
| JobRefinement.TickIsAStep | src/background/runner.ts:340-359 | the poll of the runner class is a Tick step of the protocol |
| JobRefinement.SettleIsAStep | src/background/runner.ts:290-311 | freeing the slot and checking the status is a Settle step, and a row that is not running goes to the hook as it is |
| JobRefinement.WriteIsAStep | src/background/jobs.ts:304-314 | the terminal UPDATE is a Write step whatever happened to the row since the check, and its flag is the report |
| JobRefinement.RereadIsAStep | src/background/jobs.ts:312-313 | the read-back is a Reread step, and the hook gets the row as it is stored then |
| JobRefinement.FinishIsSteps | src/background/runner.ts:290-331 | an undisturbed finish is the steps Settle, Write, Reread, or Settle alone, with the same hook call |
| JobRefinement.CancelIsAStep | src/background/jobs.ts:321-336 | the `transitioned` flag of a cancellation is the report of the Cancel step |
| JobRefinement.CreateIsAStep | src/background/jobs.ts:119-178 | creating a job, granted or refused, is a Create step |
| JobRefinement.CreateInPieces | src/background/jobs.ts:138-177 | a create call interrupted between two INSERT attempts is a sequence of Create steps with the same end |
| JobRefinement.StartupIsSteps | src/background/host.ts:35-91 | relay startup is Boot then Launch, and the returned rows are those whose interruption is reported |
| JobRefinement.PruneIsAStep | src/background/jobs.ts:382-392 | pruning is a Prune step, and the number returned is the number of rows it removes |
| JobRefinement.StopIsAStep | src/background/runner.ts:371-374 | stopping is a Stop step, and what is in flight stays in flight |
| JobRefinement.ActiveCountOnRun | src/background/jobs.ts:394-400 | on every run the active count is created minus terminal minus pruned |
| SignedPayload.RequestPayloadInjective | src/internal-auth.ts:88-100 | equal bytes of request payloads of one-line fields mean equal fields, the method up to case, and equal bodies |
| SignedPayload.ProofPayloadInjective | src/internal-auth.ts:168-182 | equal bytes of response-proof payloads of one-line fields mean equal fields |
| SignedPayload.RequestIsNoProof | src/internal-auth.ts:9-10 | the bytes of a request payload never equal those of a response-proof payload, whatever the fields contain |
| SignedPayload.RequestSpelled | src/internal-auth.ts:89-100 | the signed text of a request, written out field by field |
| SignedPayload.ProofSpelled | src/internal-auth.ts:169-182 | the signed text of a response proof, written out field by field |
| SignedPayload.UpperExact | src/internal-auth.ts:96 | the method is signed with its letters a..z as A..Z and everything else as it is |
| SignedPayload.ReadsOneWayExactly | src/internal-auth.ts:88-100 | among all inputs a joined payload has one reading, the method up to case, if and only if it holds exactly six line breaks |
| SignedPayload.LineBreakInPathIsAmbiguous | src/internal-auth.ts:91-99 | in the joined text a line break can move between body and path unnoticed (an HTTP request line cannot carry it) |
| InternalAuth.AcceptedExactly | src/internal-auth.ts:498-597 | a request is accepted if and only if it is fresh, complete, not remembered, asymmetric and verified by a configured scope; only acceptance adds a nonce |
| InternalAuth.RefusedEarly | src/internal-auth.ts:504-549 | why a request is refused before its signature is looked at, each reason with its exact condition |
| InternalAuth.AnsweredExactly | src/internal-auth.ts:556-597 | a fresh and new request is granted the scope of the first key that verifies it, or refused for exactly one of three reasons |
| InternalAuth.StatusOfRefusal | src/internal-auth.ts:580-597 | a refusal is a 401, but a 500 when no key is configured at all |
| InternalAuth.CacheAfter | src/internal-auth.ts:541-577 | a request that is not fresh leaves the cache alone, any other may sweep it, and only an accepted one adds its nonce, with its expiry |
| InternalAuth.SweepsAreSpaced | src/internal-auth.ts:231-239 | a sweep drops exactly the expired entries, and within 30 seconds of it no other happens |
| RequestBinding.AcceptedWasSigned | src/internal-auth.ts:551-577 | an accepted request was signed under the granted scope with exactly its timestamp, nonce, method up to case, path and body |
| RequestBinding.AcceptedExactlyOnWire | src/internal-auth.ts:88-143 | a complete request is accepted if and only if it is fresh, new, asymmetric, and some configured key verifies its signature over the written-out text |
| InternalAuth.Verifier.PruneNonces | src/internal-auth.ts:231-239 | within the interval nothing happens; otherwise exactly the expired entries go |
| InternalAuth.Verifier.VerifyInternalAuth | src/internal-auth.ts:498-597 | the staged decision, its status and reason, and the nonce remembered exactly on acceptance |
| NonceReplay.CacheAgreesWithSeenSet | src/internal-auth.ts:532-580 | within one process and with a safe window, the pruned cache decides every request of every run as a set that never forgets |
| NonceReplay.NoDoubleAcceptance | src/internal-auth.ts:542-577 | hence no nonce is accepted twice by one process |
| NonceReplay.AgreesExactlyWhenSafe | src/internal-auth.ts:18-25 | with decimal timestamps, agreement on all runs of one process holds if and only if the TTL exceeds twice the skew or the skew is not positive |
| Text.ParseIntReadsDecimal | src/internal-auth.ts:522 | the timestamp a client prints with `Date.now().toString()` is read back by `Number.parseInt` as the same number |
| Text.ParseIntReads | src/internal-auth.ts:522 | white space before the digits, a sign, and anything but a digit behind them do not matter to the number read |
| Text.ParseIntRefuses | src/internal-auth.ts:522 | a text without a digit in that place is not a number |
| NonceReplay.UnsafeWindowReplays | src/internal-auth.ts:231-239 | for every other configuration a concrete run accepts one signed request twice, in any notation of timestamps that is read back, so in decimal digits |
| NonceReplay.DefaultsAreOnTheBoundary | src/internal-auth.ts:18-21 | the default TTL is exactly twice the default skew, one millisecond short of safe |
| NonceRestart.AcceptsOnceAcrossRestarts | src/internal-auth.ts:24-25 | with a safe window and more than twice the skew of silence around every restart, which empties the cache, no nonce is accepted twice in the whole history |
| NonceRestart.ShortSilenceReplays | src/internal-auth.ts:24-25 | after any shorter silence a restarted process accepts one signed request again, whatever the TTL |
| NonceRestart.AcceptsOnceExactly | src/internal-auth.ts:18-25 | no nonce is accepted twice on any history if and only if the window is safe and the silence around restarts is longer than twice the skew |
| NonceRestart.SignedOnceAcceptedOnce | src/internal-auth.ts:88-143 | end to end over any number of such restarts, with ideal signatures, keys that may sign requests and response proofs alike, and clients that never reuse a nonce, what was signed once is accepted at most once |
| NonceReplay.PruneKeepsRecentOnly | src/internal-auth.ts:231-239 | although most calls skip the sweep, after a prune no entry expired a full interval ago |
| SecretInput.ApplySecretInputChunk | src/commands/cli-prompt.ts:47-102 | the two-index scanner computes what the one-unit-at-a-time machine computes, from any state |
| SecretInput.SkipSequence | src/commands/cli-prompt.ts:63-81 | the generic escape branch always advances and skips exactly one control sequence |
| SecretInput.KeyByKey | src/commands/cli-prompt.ts:84-98 | what each single code unit does to an open entry, by its number: 4, 10, 13 submit, 3 cancels, 8 and 127 erase, other controls do nothing, the rest is appended |
| SecretInput.ShortSequence | src/commands/cli-prompt.ts:76-81 | ESC and a unit other than `[` and `O` are skipped together |
| SecretInput.LongSequence | src/commands/cli-prompt.ts:67-75 | ESC `[` or ESC `O`, any units outside 64..126 and one inside are skipped together, and so is a sequence without its end |
| SecretInput.EndedEntryIsFinal | src/commands/cli-prompt.ts:48 | an ended entry takes nothing more |
| SecretInput.MarkerIsSkipped | src/commands/cli-prompt.ts:54-62 | a paste marker is consumed exactly as the generic branch would |
| SecretInput.SplitsFreelyExactly | src/commands/cli-prompt.ts:47-102 | splitting decoded input after a chunk changes nothing, for every state and continuation, if and only if the chunk does not end inside a sequence |
| SecretInput.AnyCutting | src/commands/cli-prompt.ts:47-102 | any cutting of decoded input between sequences gives the result of one big chunk |
| SecretInput.PasteIsVerbatim | src/commands/cli-prompt.ts:31-43 | printable text is appended verbatim, wrapped in paste markers or not |
| SecretInput.PasteInPieces | src/commands/cli-prompt.ts:31-43 | the same when markers and pieces of the paste arrive as separate chunks |
| SecretInput.StopKeyEndsInput | src/commands/cli-prompt.ts:84-91 | Enter or EOF submits and Ctrl+C cancels what was typed before, and the rest of the chunk is ignored |
| SecretInput.BackspaceUndoesOneUnit | src/commands/cli-prompt.ts:92-95 | a backspace takes back exactly the last unit, and nothing from an empty entry |
| SecretInput.ScanIsFold | src/commands/cli-prompt.ts:50-101 | scanning equals folding key presses over the token list; control sequences are inert |
| SecretInput.TokensCoverChunk | src/commands/cli-prompt.ts:50-101 | the tokens spell the chunk: nothing is skipped or read twice |
| SecretInput.NoDuplication | src/commands/cli-prompt.ts:31-35 | a chunk never adds more units than it holds |
| SecretBytes.HandleData | src/commands/cli-prompt.ts:141-143 | the handler decodes the buffer on its own and scans the result |
| SecretBytes.CharUnitsExact | src/commands/cli-prompt.ts:143 | a character is one UTF-16 unit of its number, or a high and a low surrogate of ten bits each |
| SecretBytes.BytesSplitFreelyExactly | src/commands/cli-prompt.ts:141-143 | splitting the bytes after a buffer changes nothing, for every state and continuation, if and only if the entry is over or the buffer ends inside neither a sequence nor a character |
| SecretBytes.AnyCuttingOfBytes | src/commands/cli-prompt.ts:141-143 | any cutting of the bytes at such places gives the result of one big buffer |
| SecretBytes.PastedTextIsVerbatim | src/commands/cli-prompt.ts:31-43 | printable text in any script, sent as UTF-8, is appended verbatim, wrapped in paste markers or not |
| Utf8.RoundTrip | src/commands/cli-prompt.ts:143 | decoding UTF-8 gives back every text that was encoded, so different texts have different bytes |
| Utf8.EncodeCharExact | src/commands/cli-prompt.ts:143 | the one to four bytes of each character, with their bits, and none longer than needed |
| Utf8.NoLead | src/commands/cli-prompt.ts:143 | a byte that begins no character is one replacement character |
| Utf8.SecondByteExactly | src/commands/cli-prompt.ts:143 | the second bytes that each longer character allows |
| Utf8.BrokenOff | src/commands/cli-prompt.ts:143 | a character that breaks off is one replacement character and the byte that broke it is read afresh |
| Utf8.DecodesFreelyExactly | src/commands/cli-prompt.ts:143 | decoding buffer by buffer is decoding the stream if and only if the buffer ends between characters |
| ConfigOverlay.DeepMerge | src/commands/providers.ts:126-141 | the copying loop computes the recursive merge |
| ConfigOverlay.MergeIsOverlayExactly | src/commands/providers.ts:126-141 | merging leaves the overlay as it is if and only if the overlay has every key of the base, recursively |
| ConfigOverlay.BaseIsAbsorbed | src/commands/providers.ts:126-141 | merge(p, merge(p, r)) = merge(p, r) |
| ConfigOverlay.OverlayIsAbsorbed | src/commands/providers.ts:126-141 | merge(merge(p, r), r) = merge(p, r) |
| ConfigOverlay.SourceWins | src/commands/providers.ts:126-145 | whatever the source holds at a path is in the merge unchanged, unless both sides hold an object there |
| ConfigOverlay.ObjectsJoin | src/commands/providers.ts:132-134 | where both hold an object the merge holds one with the keys of both |
| ConfigOverlay.SourceLeafReadBack | src/commands/providers.ts:126-145 | every non-object value of the source is read back unchanged at its path |
| ConfigOverlay.TargetShowsThrough | src/commands/providers.ts:126-145 | where the source is silent the target's value shows through |
| ProviderConfig.RawConfig.UpsertConfiguredProvider | src/commands/providers.ts:234-251 | the first provider with the id is replaced in place, or the new one appended; it fails exactly when the scan meets null first |
| ProviderConfig.RawConfig.UpsertProviderPrivateEndpoint | src/commands/providers.ts:253-273 | the same for the endpoint with the provider's label, creating missing containers; on an array the list is kept in memory only and no text holds it |
| ProviderConfig.RawConfig.RemoveConfiguredProvider | src/commands/providers.ts:275-294 | all matching providers and endpoints go, and the two flags say whether there were any; a `network` array becomes an object of its indices |
| ProviderConfig.UpsertReadBack | src/commands/providers.ts:245-250 | an upsert changes one position at most and the new entry is the first match afterwards |
| ProviderConfig.FindThrowsExactly | src/commands/providers.ts:245-268 | the scan of a list throws exactly when a null stands before every match |
| ProviderConfig.ProviderEntryFields | src/commands/providers.ts:239-244 | the provider entry, field by field |
| ProviderConfig.EndpointEntryFields | src/commands/providers.ts:259-266 | the allowlist entry, field by field: host and port of the URL, the trimmed label or `provider-` and the id, and the description with its two fallbacks |
| ProviderConfig.DefaultLabelsDiffer | src/commands/providers.ts:195-197 | different providers have different default labels |
| ProviderConfig.EditTouchesOnly | src/commands/providers.ts:147-167 | an edit changes the two lists and creates missing containers, and every other key at all three levels stays as it was |
| ProviderConfig.EditTouchesProvidersOnly | src/commands/providers.ts:154-167 | with an array in the way only the provider list changes |
| ProviderConfig.RemovalCopiesArray | src/commands/providers.ts:288-291 | a removal over a `network` array leaves each element under its index, beside the filtered list |
| ProviderConfig.WithoutKeepsOrder | src/commands/providers.ts:280-287 | filtering works element by element and so keeps the order of what stays |
| ProviderConfig.WithoutKeepsOthers | src/commands/providers.ts:280-287 | filtering for an id that is not there changes nothing |
| ProviderConfig.RemoveUndoesConfigureExactly | src/commands/providers.ts:234-294 | removing a provider after configuring it equals removing it before if and only if its endpoint has the default label, was there already, or hangs on an array and was never kept |
| ProviderConfig.OwnLabelSurvives | src/commands/providers.ts:259-285 | under any other label an endpoint that was kept is still on the list after its provider is removed |
| ProviderConfig.LabelledInputLeavesEndpoint | src/commands/providers.ts:259-285 | such an input, configured and removed on an empty configuration |
| ProviderConfig.ConfigureTwice | src/commands/providers.ts:234-273 | configuring the same provider a second time changes nothing, in either array |
| OverlayFiles.ConfigFiles.ConfigureProvider | src/commands/providers.ts:630-634 | exactly when neither scan meets null first, the overlay is written and the next read shows the new provider, field by field, and so its endpoint, unless `security` or `network` is an array; otherwise nothing is written |
| OverlayFiles.ConfigFiles.RemoveProvider | src/commands/providers.ts:710-712 | exactly when neither array holds null, the next read has lost the provider, even one that the policy file declares, and its default endpoint, and nothing else from the two lists |
| OverlayFiles.ReadConfigExactly | src/commands/providers.ts:96-114 | the overlay is merged over the policy, and a file that is missing does not count |
| OverlayFiles.ArraysReadBack | src/commands/providers.ts:96-141 | both edited arrays are read back as written over any policy, the endpoints unless their container is an array |
| OverlayFiles.RemovalReadBack | src/commands/providers.ts:96-141 | after a removal both lists are read back filtered, whatever the containers are |
| OverlayFiles.ReadAfterWriteExactly | src/commands/providers.ts:96-124 | the edited configuration is read back exactly if and only if no key of the policy's security objects was shadowed, or a container is an array and is written as it was |
| OverlayFiles.WellFormedContainersSuffice | src/commands/providers.ts:154-167 | object-valued containers in the merged configuration are enough for that |
| OverlayFiles.ShadowedKeyReturns | src/commands/providers.ts:154-167 | a concrete overlay for which an edit is not read back as written |
| OverlayFiles.LoadedAfterEdit | src/config/config.ts:1077-1104 | the program sees the edited arrays, each unless the private file merged on top speaks about it |
| OverlayFiles.OnlyThePrivateFileRevives | src/config/config.ts:1077-1104 | a removed provider is back in the loaded configuration if and only if the private file declares it |
| CappedCapture.AppendCapped | src/agent-runtime/codex-work-unit.ts:140-154 | appending keeps the exact capped prefix and flags a chunk that does not fit or comes after the cap |
| CappedCapture.StreamCapture.OnData | src/agent-runtime/codex-work-unit.ts:474-483 | after any sequence of chunks the buffers are the capped prefix of the stream and the sticky flag is exact |
| CappedCapture.StreamCapture.Close | src/agent-runtime/codex-work-unit.ts:485-495 | the output is the first min(total, cap) bytes, and without empty chunks the flag means total > cap |
| CappedCapture.FlagIsExactUnlessTrailingEmpty | src/agent-runtime/codex-work-unit.ts:145-153 | the flag means "longer than the cap" for all streams but those that fill it exactly and end in an empty chunk |
| CappedCapture.EmptyChunkSetsFlag | src/agent-runtime/codex-work-unit.ts:145-148 | a collector with a cap of one byte that gets one byte and an empty chunk returns the byte and the flag |
| GitConfigEnv.RoundTrip | src/agent-runtime/codex-work-unit.ts:256-264 | git reads back any ordered list of settings, repeated keys included |
| GitConfigEnv.VariableSpelled | src/agent-runtime/codex-work-unit.ts:256-264 | the count and each setting stand under the names that git documents |
| GitConfigEnv.NoOtherName | src/agent-runtime/codex-work-unit.ts:256-264 | and there is no other variable |
| GitConfigEnv.SettingsFor | src/agent-runtime/codex-work-unit.ts:311-320 | each of the proxy's settings, written out in its place |
| Text.DecimalRoundTrip | src/agent-runtime/codex-work-unit.ts:258-261 | decimal printing is read back, so numbered names never collide |
| Text.DecimalExact | src/agent-runtime/codex-work-unit.ts:258-261 | the ten digits, and a number as its last digit behind the others |
| Text.TrimStrips | src/background/jobs.ts:122-149 | trimming removes the white space at both ends of a text and nothing else |
| Text.SpacesAre | src/background/jobs.ts:122 | the white space that trimming knows, number by number |
| GitConfigEnv.BuildGitProxyEnv | src/agent-runtime/codex-work-unit.ts:311-322 | the proxy settings arrive in order, with the TLS exception for plain http only and before the credential helper |

## Left out

- JobStore.Store.CreateJob: takes the ten generated short ids as inputs and the payload as the result of its schema check; a new row read back may already have been claimed.
- JobStore.Store.SelectOldestQueued: stands for the query engine; only its contract is used, so any order of equal `created_at` values is covered.
- JobStore.Store.CompleteJob: runs its UPDATE and its SELECT without interruption; JobRefinement.WriteIsAStep and RereadIsAStep take them one at a time, with any other process in between.
- JobStore.Store.CancelJob: the same; JobSafety.ReadBackIsStable says what a later read-back finds.
- BackgroundRunner.Runner.FinishJob: covers the finish that no other process disturbs; the disturbed ones are runs of JobRefinement.SettleIsAStep, WriteIsAStep and RereadIsAStep.
- BackgroundRunner.HandleStartupInterruptions: sending the notifications and its swallowed errors are not modelled.
- JobNotices.NotifiedUnlessLost: an announcement is the call of the hook or the return of the interrupted row; its delivery may still fail, also by a crash. A job cancelled before it was claimed is announced by nobody and is outside the statement.
- JobSafety.TimesOnRun: assumes a clock that never runs backwards across processes, as the timestamps themselves do.
- JobOccupancy.RunningAreInFlight: assumes that a relay boots only when no other one is up; the safety results do not.
- JobWaiting.BoundedWait: assumes that jobs created while one waits are strictly younger.
- InternalAuth.Verifier.VerifyInternalAuth: number parsing and Ed25519 are ideal functions, and the discovered scopes with their keys are an input; the exact results fix the parser to Text.ParseInt, which does not round long numbers to doubles.
- NonceReplay.PruneKeepsRecentOnly: assumes a clock that starts at or after the epoch, the initial time of the last sweep.
- SignedPayload.RequestPayloadInjective: upper-cases ASCII letters only, which is all an HTTP method has, and texts are sequences of Unicode scalar values, so lone surrogates are not covered.
- ProviderConfig.RawConfig.UpsertConfiguredProvider: takes the normalized URL and services as inputs.
- SecretBytes.HandleData: UTF-8 decoding follows section 3.9 of the Unicode Standard (one replacement character per maximal subpart), which is what Node's `Buffer.toString` does; the trimming of the finished secret is not modelled.
- OverlayFiles.LoadedAfterEdit: stops before the schema validation of the loaded configuration and its cache.
- OverlayFiles.ReadAfterWriteExactly: covers removals too, except that of a `network` array turned into an object, for which OverlayFiles.RemovalReadBack speaks of the two lists only.
- NonceRestart.AcceptsOnceExactly: one process verifies at a time; several at once, each with a cache of its own, are not modelled.
- ConfigOverlay.DeepMerge: objects are maps, so key order and the special key `__proto__` are not modelled.
- Row decoding (`rowToJob`), `getJobByShortId`, `listJobs` and their filters.
- Executors, timers, abort signals and the failure of a hook: an executor is a nondeterministic outcome that arrives at any time; a hard timeout is one of them, and an executor that throws at once settles right after its dispatch.
- Real SQLite, UUID generation (ids are assumed fresh), and writes that fail.
- GitConfigEnv.BuildGitProxyEnv: starts when the proxy URL is normalized and the token is minted; the refusal of writable sandboxes and the token policy come before.
- Session tokens, response-proof freshness and key loading in the internal RPC.
- The asterisk echo of the secret prompt and the other prompts.
- Provider network validation, URL parsing, the relay RPC path and schema fetching.
- The rest of the Codex executor: paths, sandbox choice, token minting, text truncation.
