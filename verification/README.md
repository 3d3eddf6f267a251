# Stateful cores of the locked npm environment builder, in Dafny

The repository builds locked npm environments inside an owned subprocess and publishes the result
under an identity derived from its content. This project models the parts of it that keep state across
arbitrary splits, threads, failures and crashes, and proves what each of them promises.

* **Text pipeline** (`Utf8`, `Controls`, `Neutralizer`, `Framing`, `Framer`, `Redaction`,
  `RedactionAgreement`, `LastCharacter`, `RedactingStream`, `Tail`): pipe bytes are decoded (RFC 3629 section 4, with the
  maximal-subpart replacement of section 3.9 of the Unicode Standard), terminal control sequences and
  strings (ECMA-48 sections 5.4 and 5.6) are neutralized, lines are bounded, secrets are redacted and a
  tail is kept. Every stage is a class whose methods refine a function of the whole input; lemmas prove
  that the function does not depend on splits and what it means.
* **Dispatcher** (`SinkDispatcher`): submitters, one worker and finish callers around one bounded queue,
  as a state machine in which any enabled step may come next.
* **Failures** (`Failures`, `FailureLedgers`): the accumulator that decides which failure is raised, and
  the ledger that orders the failures of a process run.
* **Owned process** (`ProcessLifecycle`, `LifecycleRuns`, `ProcessCollection`, `CollectionRuns`): launcher, readers, cleanup continuation,
  shutdown callers and collector as atomic steps with nondeterministic outcomes and a monotone clock.
* **Lock graph** (`LockPaths`, `LockGraph`, `LockClosure`, `LockInstall`, `LockPlacement`): placement
  paths, edges, the two worklists, and the second resolver that reads the installed tree.
* **Ranges** (`SemVer`, `NpmRange`, `NpmMeaning`): precedence of Semantic Versioning 2.0.0 section 11,
  the rewriting of npm range syntax into primitive bounds, and a declarative meaning of that syntax by
  prefixes of version components, against which the rewriting is compared.
* **Evidence and publication** (`Sorting`, `Evidence`, `ContentAddress`, `Identities`, `OutputVerification`,
  `Publication`): records as JSON values, digests through a hash parameter, verification of a published
  output, and crash-safe publication with a log of unsynced directory changes.
* **Descriptors** (`Descriptors`, `Removal`): ownership of file descriptors along secure walks and
  recursive removal, over a system in which every call may fail and every open and close is logged.

`Common`, `Text` and `SlashPaths` hold what several modules share. `dafny verify dfyconfig.toml` checks everything.

## Where the code and its documentation differ

The model follows the code. These differences are stated as lemmas.

* A redacted stream is documented never to emit part of a secret. The text before a match that is found
  but not yet committed is emitted at once, so a secret that lies strictly inside another can spoil the
  longer match (`RedactionAgreement.InnerSecretLeaks`). `RedactionAgreement.AgreesIffGuarded` gives the
  exact condition on the list of secrets. A stream whose bytes stop inside a UTF-8 sequence right after an
  ESC redacts its last character apart (`RedactingStream.SplitSecretLeaks`);
  `RedactingStream.Redactor.OutputOfBytes` says exactly when that matters.
* Inside a control string that still fits the limit, an ESC after an ESC is content, so ESC ESC backslash
  does not end it; once the string is too large it does. `Controls.StringEndedByEscSt` is exact for every
  string and limit.
* A `finish` call that finds acceptance already closed may return no notice although chunks are
  undelivered (`SinkDispatcher.LateFinishCanAnswerEarly`). With the worker no longer alive nothing is missing
  (`SinkDispatcher.LateFinishPromise`).
* The supervision deadline can release a pipe while `on_launched` runs, before the setup barrier
  (`ProcessLifecycle.DeadlineReleasesBeforeBarrier`); nothing else can (`ProcessLifecycle.ReleasedAfterBarrier`).
* The bound `>=0.0.0` is dropped, which admits prereleases of 0.0.0 when another bound of the branch
  invites them (`NpmMeaning.DepartsExactly`, `NpmMeaning.ZeroEndIsDropped`). The documentation of the range
  module says that exclusive upper bounds carry no `-0`; the code writes them with `-0`, and the model too.
* The lock path `node_modules`, and no other, ends in an index error (`LockPlacement.BareNodeModulesCrashes`), and a
  trailing `/node_modules` is accepted unless a link leads there (`LockPlacement.ParseAcceptsPlaced`,
  `LockPlacement.ReachableIsCanonical`). The pattern for names ends in `$`, which lets a final newline
  pass; `LockPlacement.NameRe` does the same.
* When a name is both a dependency and an optional dependency, the lock check follows the optional
  declaration and the check of the installed tree both (`LockInstall.OverlappingNamesCanFail`).
* A reused output is reported as published although its name need not be durable
  (`Publication.ReuseMayNotBeDurable`): exactly while a failed sync of the outputs directory is outstanding
  (`Publication.SurvivesExactlyWhenSynced`).
* The comparison of a live tree with a manifest looks at digests only for regular files and at targets only for
  links, so `OutputVerification.Matches` does the same.

## Model

| member | source | states |
|---|---|---|
| `RedactionAgreement.AgreesIffGuarded` | docker/npm_environment/streaming.py:682-727 | streaming redaction with a clean end equals `redact_text` of the whole for every cut of every text if and only if the secrets are guarded: whenever a proper prefix of a secret contains an occurrence of a secret, one occurs at its start |
| `RedactionAgreement.StreamAgrees` | docker/npm_environment/streaming.py:653-727 | for guarded secrets every cut of a text, ended cleanly or by an abort, emits what the batch meaning `Final` of the joined text says |
| `RedactionAgreement.InnerSecretLeaks` | docker/npm_environment/streaming.py:714-724 | with secrets `abcd` and `b`, cutting `abcd` after two characters emits something else than batch redaction |
| `RedactionAgreement.NoInnerGuarded` | docker/npm_environment/streaming.py:682-692 | secrets none of which occurs inside another at a positive offset are guarded, whatever prefixes they share |
| `RedactionAgreement.FeedHeldBound` | docker/npm_environment/streaming.py:682-727 | after every feed before the end at most longest - 1 characters are held, for every list of secrets |
| `RedactionAgreement.AbortCutIs` | docker/npm_environment/streaming.py:729-742 | that beginning starts where the cut is, and no earlier position behind the last match starts one |
| `RedactionAgreement.AbortCutsPartialSecret` | docker/npm_environment/streaming.py:694-742 | an aborted end gives batch redaction of the text up to the longest trailing proper beginning of a secret, then exactly one marker if there is such a beginning; the rest would have been emitted as it is by a clean end |
| `Redaction.MatchLenIs` | docker/npm_environment/streaming.py:115-121 | the match at a position is a secret that occurs there, and no longer secret occurs there |
| `Redaction.OccurrenceHidden` | docker/npm_environment/streaming.py:104-129 | every occurrence of every secret, even inside another match, starts inside one of the matches that redaction replaces |
| `Redaction.RedactIsSpliced` | docker/npm_environment/streaming.py:104-129 | redaction is the text with each of its matches, which are in order and do not overlap, replaced by one marker and the rest copied |
| `Redaction.MatchesAreSecrets` | docker/npm_environment/streaming.py:104-129 | everything redaction replaces is a secret |
| `Redaction.OrderIndependent` | docker/npm_environment/streaming.py:88-129 | neither the order nor the repetition of secrets changes the streamed or the batch result |
| `Redaction.FirstOccurrencesIs` | docker/npm_environment/streaming.py:88-96 | deduplication keeps exactly the non-empty secrets, each once |
| `Redaction.DedupeSecrets` | docker/npm_environment/streaming.py:88-96 | the loop keeps the first occurrence of every non-empty secret, in order |
| `Redaction.LongestIs` | docker/npm_environment/streaming.py:99-101 | no secret is longer than the computed length, and some secret has it |
| `Redaction.RedactText` | docker/npm_environment/streaming.py:104-129 | the index loop refines leftmost-longest redaction |
| `RedactingStream.LeftmostLongest` | docker/npm_environment/streaming.py:744-752 | finds the first position where a secret occurs and the longest secret there |
| `RedactingStream.PartialSecretSuffixLen` | docker/npm_environment/streaming.py:729-742 | returns the length of the longest suffix that is a proper beginning of a secret |
| `RedactingStream.EmittedIs` | docker/npm_environment/streaming.py:653-669 | for guarded secrets, what a finished stream emits: the held overlap and the first end piece are redacted together, every further end piece alone |
| `RedactingStream.EmittedWhole` | docker/npm_environment/streaming.py:653-669 | when the end adds at most one piece, everything emitted is the batch meaning of the whole text |
| `RedactingStream.Redactor.FeedText` | docker/npm_environment/streaming.py:682-727 | returns and appends to the tail exactly the committed redaction of the held overlap and the new text, and holds the rest |
| `RedactingStream.Redactor.AppendTail` | docker/npm_environment/streaming.py:754-760 | after appending, the tail is still the longest fitting suffix of everything emitted |
| `RedactingStream.Redactor.FeedBytes` | docker/npm_environment/streaming.py:644-651 | keeps the stream determined by the concatenation of all bytes fed; after the end it refuses, and the bytes, what was emitted and the tail stay |
| `RedactingStream.Redactor.Finish` | docker/npm_environment/streaming.py:653-669 | ends the stream once with the given mode; a second call emits nothing |
| `RedactingStream.Redactor.OutputOfBytes` | docker/npm_environment/streaming.py:616-760 | after any feeds and one finish, everything emitted is the redaction of the framed, neutralized, decoded byte string however it was cut, unless the bytes stop inside a UTF-8 sequence right after an ESC; there the last replacement character is redacted apart, and after a clean end the result differs if and only if a secret takes in that character; the tail is the longest fitting suffix |
| `RedactingStream.EmittedApart` | docker/npm_environment/streaming.py:653-669 | a stream that ends in a shown ESC and a replacement character emits the redaction of the text before that character, and then that of the character |
| `RedactingStream.SplitSecretLeaks` | docker/npm_environment/streaming.py:653-669 | for the bytes 1B C3 and the secret made of a shown ESC and a replacement character, guarded as it is, that difference occurs |
| `LastCharacter.LastApart` | docker/npm_environment/streaming.py:661-668 | redacting the last character of a text apart from the rest makes a difference if and only if a secret of two or more characters ends the text where redaction of the text before arrives |
| `Tail.FitIsLongest` | docker/npm_environment/streaming.py:754-760 | the retained tail is a suffix of at most the limit, and every longer suffix exceeds the limit |
| `Tail.FitAppend` | docker/npm_environment/streaming.py:754-760 | trimming after every append gives the tail of the whole text |
| `Utf8.NextIsMaximalSubpart` | docker/npm_environment/streaming.py:168-219 | a complete encoding decodes to its character; the decoder waits exactly when the bytes are a proper beginning of some encoding; otherwise one U+FFFD stands for one byte or for the maximal beginning of an encoding |
| `Utf8.DecodeConserves` | docker/npm_environment/streaming.py:168-225 | emitted widths and held bytes add up to the bytes fed, at most three are held, and every width is 1 to 4 |
| `Utf8.DecodeSplit` | docker/npm_environment/streaming.py:168-219 | decoding is independent of how the bytes are cut |
| `Utf8.DecodeEncoded` | docker/npm_environment/streaming.py:168-219 | the encoding of any scalar sequence decodes back to it, in front of any further bytes |
| `Utf8.RoundTrip` | docker/npm_environment/streaming.py:168-225 | decoding an encoded text to its end gives the text |
| `Utf8.ByteDecoder.Scan` | docker/npm_environment/streaming.py:172-216 | the branches and the continuation loop find the next item as RFC 3629 section 4 has it, or ask for more bytes |
| `Utf8.ByteDecoder.Feed` | docker/npm_environment/streaming.py:168-219 | the loop over held and new bytes refines the batch decoder |
| `Utf8.ByteDecoder.Finish` | docker/npm_environment/streaming.py:221-225 | the end replaces the held bytes as one item and holds nothing |
| `Controls.NeutralizeInert` | docker/npm_environment/streaming.py:247-501 | for every input the output holds only newlines, tabs and characters from 20 to 7E and from A0 on, hexadecimal |
| `Controls.VisibleControl` | docker/npm_environment/streaming.py:132-139 | a shown control is a backslash, an `x` and two hexadecimal digits whose value is its code point |
| `Controls.VisibleReadsBack` | docker/npm_environment/streaming.py:132-139 | text without a backslash of its own can be read back from what is shown |
| `Controls.BackslashIsAmbiguous` | docker/npm_environment/streaming.py:132-139 | a carriage return and the four characters that spell it are shown alike |
| `Controls.IntroducersAgree` | docker/npm_environment/streaming.py:228-246 | ESC with a character stands for the C1 control 64 code points higher, for all introducers and ST (ECMA-48 section 5.3) |
| `Controls.RunIdentity` | docker/npm_environment/streaming.py:473-501 | text free of such characters passes unchanged and leaves nothing pending |
| `Controls.NeutralizeIdempotent` | docker/npm_environment/streaming.py:247-501 | neutralizing twice is neutralizing once |
| `Controls.RunSplit` | docker/npm_environment/streaming.py:364-471 | neutralization is independent of how the characters are cut |
| `Controls.RunBounded` | docker/npm_environment/streaming.py:316-349 | the pending sequence never holds more bytes than the limit |
| `Controls.CsiSequence` | docker/npm_environment/streaming.py:364-471 | a whole CSI sequence (ECMA-48 section 5.4), with either introducer, is shown once if it fits the limit and otherwise replaced by exactly one marker |
| `Controls.StringEndedByOne` | docker/npm_environment/streaming.py:358-471 | a whole control string (ECMA-48 section 5.6) ended by one character is shown once if it fits and otherwise replaced by exactly one marker |
| `Controls.StringEndedByEscSt` | docker/npm_environment/streaming.py:364-471 | a control string followed by ESC and a backslash ends there, shown once or replaced by one marker, if and only if an even number of ESC characters precede or the string was already too large; otherwise the pair is content that is collected, or dropped after one marker |
| `Controls.StringThenEsc` | docker/npm_environment/streaming.py:405-471 | an ESC inside a control string pairs with an ESC before it while the string fits; where it crosses the limit the state it leaves is given in every case |
| `Neutralizer.ControlNeutralizer.FeedOne` | docker/npm_environment/streaming.py:364-471 | one character moves the state and the output as the specification step does |
| `Neutralizer.ControlNeutralizer.HandleNormal` | docker/npm_environment/streaming.py:473-501 | one character outside any sequence is passed, shown or starts a sequence |
| `Neutralizer.ControlNeutralizer.FeedAll` | docker/npm_environment/streaming.py:364-471 | the loop refines the run over all characters |
| `Neutralizer.ControlNeutralizer.FeedBytes` | docker/npm_environment/streaming.py:276-281 | bytes go through the decoder and the run; refused after the end with nothing changed |
| `Neutralizer.ControlNeutralizer.FeedCharacters` | docker/npm_environment/streaming.py:283-287 | decoded characters go through the run; refused after the end with nothing changed |
| `Neutralizer.ControlNeutralizer.Finish` | docker/npm_environment/streaming.py:289-301 | ends once: flushes the decoder and adds one marker exactly when a sequence was incomplete |
| `Framing.FrameIsLinewise` | docker/npm_environment/streaming.py:504-613 | framing is a line homomorphism: the frame of lines joined by newlines is the frames of the lines joined by newlines |
| `Framing.OneLine` | docker/npm_environment/streaming.py:556-609 | a line is neutralized in full if its source bytes fit the limit, and otherwise it is the longest fitting beginning neutralized without an end, then exactly one overflow marker |
| `Framing.FittingLongest` | docker/npm_environment/streaming.py:595-607 | the kept beginning of a line fits, every longer one does not, and it is the whole line exactly if the line fits |
| `Framing.RunSplit` | docker/npm_environment/streaming.py:578-609 | framing is independent of how the characters are cut |
| `Framer.LineFramer.FeedAll` | docker/npm_environment/streaming.py:578-609 | the loop with its batch of pending characters refines the run of the framer |
| `Framer.LineFramer.FeedBytes` | docker/npm_environment/streaming.py:539-545 | bytes go through the decoder and the framer; refused after the end with nothing changed |
| `Framer.LineFramer.FeedText` | docker/npm_environment/streaming.py:547-554 | text is counted by the size of its UTF-8 form; refused after the end with nothing changed |
| `Framer.LineFramer.Finish` | docker/npm_environment/streaming.py:556-571 | ends once with the rest of the last line, in at most one piece, except that a replacement character for withheld bytes after an ESC makes two: the shown ESC and that character |
| `SinkDispatcher.NoSilentLoss` | docker/npm_environment/streaming.py:1223-1352 | in every interleaving, if the finish call that closes acceptance returns no notice then the sink has received exactly the submitted chunks, all accepted, once each and in order, and the worker has exited |
| `SinkDispatcher.SinkSeesPrefix` | docker/npm_environment/streaming.py:1223-1352 | at every moment the sink has received a prefix of the accepted chunks, and while there is no notice every submitted chunk was accepted and is delivered, in flight or queued |
| `SinkDispatcher.NoticeIsPermanent` | docker/npm_environment/streaming.py:1343-1352 | over every run the notice and the failure are write-once and what was accepted and delivered only grows |
| `SinkDispatcher.NoticeMeans` | docker/npm_environment/streaming.py:1223-1352 | over every run there is a truncation notice exactly if a submit was turned away or a failure recorded, and as long as there is none every submit was accepted |
| `SinkDispatcher.SubmitIsAccepted` | docker/npm_environment/streaming.py:1223-1242 | a submit is accepted at the end of the queue exactly if acceptance is open, no failure is recorded and there is room; otherwise nothing changes but the notice |
| `SinkDispatcher.DrainsOnceClosed` | docker/npm_environment/streaming.py:1246-1322 | the drain budget applies exactly from the closing finish call on |
| `SinkDispatcher.WorkerIsTold` | docker/npm_environment/streaming.py:1246-1341 | behind the put of the sentinel the worker will meet it, has exited, or a failure is recorded; an exited worker leaves no chunk in the queue |
| `SinkDispatcher.CompliantSinkDrainsAll` | docker/npm_environment/streaming.py:1302-1322 | with no failing event, a worker that has exited has delivered every accepted chunk |
| `SinkDispatcher.LateFinishPromise` | docker/npm_environment/streaming.py:1246-1286 | after a finish call behind the closing one that returns no notice, everything submitted was accepted, and delivered if the worker is no longer alive; with a live worker it is delivered exactly when that worker is between two items and at most the sentinel is queued |
| `SinkDispatcher.LateFinishCanAnswerEarly` | docker/npm_environment/streaming.py:1246-1286 | such a call can return no notice in a reachable state with undelivered chunks |
| `SinkDispatcher.StepKeepsInvariant` | docker/npm_environment/streaming.py:1223-1352 | every atomic step of submitters, worker and finish keeps the protocol and the account of chunks |
| `Failures.AttachSecondary` | docker/filesystem/cleanup.py:91-118 | gives every other failure to the own `add_secondary` of an error that brings one; otherwise adds each distinct one after those its attribute holds, or counts it in bounded notes when it takes no attribute |
| `Failures.NotesAreCapped` | docker/filesystem/cleanup.py:45-67 | over any number of attachments to one error the notes stop at 32 in all, none being dropped before and none ever taken away |
| `Failures.CleanupFailures.Run` | docker/filesystem/cleanup.py:210-237 | appends the raised failure to the group its kind decides; refused after completion |
| `Failures.CleanupFailures.Complete` | docker/filesystem/cleanup.py:240-282 | raises or returns the head in the order interruption, unexpected, primary, ordinary and attaches all others to it; a second call changes nothing |
| `Failures.CompletionLosesNothing` | docker/filesystem/cleanup.py:240-282 | the failure acted on is the first of the distinct failures in authority order; with an attribute it keeps what it held and has every other failure, and one that held nothing makes with its attachments exactly that list; with its own `add_secondary` it was given every other failure |
| `Failures.DistinctTail` | docker/filesystem/cleanup.py:85-88 | keeping first occurrences commutes with removing the head from the rest |
| `Failures.ExtendIs` | docker/filesystem/cleanup.py:85-88 | unique appending keeps what was there, adds exactly what is new and never repeats |
| `FailureLedgers.FailureLedger.Add` | docker/process.py:316-330 | classifies the failure into its group and records its context at that rank |
| `FailureLedgers.FailureLedger.Record` | docker/process.py:332-349 | an observed error becomes a failure of the kind the policy decides, with the phase and stream given |
| `FailureLedgers.FailureLedger.Primary` | docker/process.py:351-371 | promotes an error to primary by replaying all groups, unless it already is primary or more authoritative |
| `FailureLedgers.FailureLedger.Result` | docker/process.py:373-387 | total: lists every distinct error once in authority order, each with a recorded context at its rank |
| `FailureLedgers.ApplyIs` | docker/process.py:286-387 | one add or primary keeps every listed error in possession of a context, never loses an error and never lowers the authority of the head |
| `FailureLedgers.HistoryIs` | docker/process.py:286-387 | over any sequence of operations exactly the errors mentioned are listed, without repetition, and the head only rises in authority |
| `ProcessLifecycle.StepKeepsInvariant` | docker/process.py:442-1268 | every step of launcher, readers, continuation, shutdown callers and clock keeps tracking, pipe, action and deadline invariants |
| `ProcessLifecycle.ReleasedAfterBarrier` | docker/process.py:778-846 | in every reachable state a released descriptor-backed pipe has no active reader and no read of it can happen; no release precedes a request or the end of the last reader start, and one before the setup barrier was requested by the supervision deadline with `on_launched` running or just over |
| `ProcessLifecycle.DeadlineReleasesBeforeBarrier` | docker/process.py:1091-1101 | that deadline case occurs: a reachable state has a released pipe and no setup barrier yet |
| `ProcessLifecycle.SafeMeansIdle` | docker/process.py:805-808 | once a shutdown has been requested, the safety test says exactly that the reader is not active |
| `ProcessLifecycle.UntrackedReaderLooksSafe` | docker/process.py:681-688 | before the setup barrier a running, not yet tracked reader passes the safety test, so that barrier is needed |
| `ProcessLifecycle.OnceOnly` | docker/process.py:826-870 | terminate and kill happen at most once, each pipe is closed exactly when released, each action is cancelled at most once |
| `LifecycleRuns.EscalationIs` | docker/process.py:852-870 | over every run the child is terminated, once, exactly if a poll before a terminate saw it alive, and killed, once, exactly if the wait after the terminate failed; behind that point it is reaped or was killed |
| `LifecycleRuns.ReapedAndSettledAre` | docker/process.py:848-963 | over every run the child counts as reaped exactly if a wait for it succeeded or the launch failed before there was one, and an action as settled exactly if it reported so itself |
| `LifecycleRuns.EveryStageGetsItsTurn` | docker/process.py:988-1059 | once the readers are stopped every stage has begun, unless the launch failed early, the stage is not for a natural end, or an exception, the time or a delivered result cut the policy short |
| `LifecycleRuns.StageLasts` | docker/process.py:1013-1059 | a stage ends only when its action is observed done, could not be started, or the time of the stage is up |
| `LifecycleRuns.StageCancelsBeforeNext` | docker/process.py:965-1059 | the prepared action of a stage that has begun is cancelled before the policy goes on to a later stage |
| `LifecycleRuns.FirstStatusWaits` | docker/process.py:1123-1151 | before the shutdown time is up the first status is published only when every prepared action has settled and every stream closed to wake its reader has that reader stopped |
| `LifecycleRuns.DescriptorlessIsClosed` | docker/process.py:826-846 | when a status is published every acquired stream without a descriptor has been closed |
| `LifecycleRuns.DeadlineIs` | docker/process.py:1192-1208 | the shutdown deadline is the time of the first request in the run and the grace, whatever is requested later |
| `LifecycleRuns.FailedLaunchIsShutDown` | docker/process.py:555-649 | a launch in which any step failed does not return without a shutdown request |
| `LifecycleRuns.NoReaderAfterFailedTransfer` | docker/process.py:614-640 | no reader is started for either stream when the transfer of one has failed |
| `LifecycleRuns.DeliveredAfterRequest` | docker/process.py:1192-1236 | no result is handed out before a shutdown request |
| `ProcessLifecycle.CancelledBeforePublication` | docker/process.py:965-986 | when a status has been published every action whose prepare was attempted was cancelled exactly once, and no other |
| `ProcessLifecycle.PublishedCompleteness` | docker/process.py:1066-1083 | published completeness implies a reaped child, inactive readers, every acquired pipe released by one close and every prepared action settled and cancelled once |
| `ProcessLifecycle.RequestAndCompletenessAreFinal` | docker/process.py:1079-1236 | over every run the deadline fixed by the first request and published completeness never change |
| `ProcessLifecycle.StageDeadlineKeepsReserve` | docker/process.py:988-1001 | whenever an action may start, its stage deadline leaves the local reserve |
| `ProcessLifecycle.PunctualStageGetsItsCap` | docker/process.py:189-231 | under a validated policy a stage that starts within the caps before it gets its whole cap and ends within its share |
| `ProcessLifecycle.OneLateRoundSuffices` | docker/process.py:1150-1177 | from the start of any late cleanup round, whatever has failed before, some continuation of the run publishes completeness; once the readers are past their barriers the cleanup continuation does so alone, in one round |
| `ProcessCollection.StepKeepsInvariant` | docker/process.py:722-1482 | every step of readers, collector and shutdown keeps the account of chunks, outcomes and announcements |
| `ProcessCollection.EndIsLast` | docker/process.py:1375-1396 | no callback of a stream, chunk or end, follows its end callback |
| `ProcessCollection.EveryAcquiredStreamEnds` | docker/process.py:1367-1482 | a finished collection has called the end callback of exactly the acquired streams, with their decided outcome |
| `ProcessCollection.ChunksInReadOrder` | docker/process.py:722-776 | the chunks delivered of a stream are strictly increasing in read order, a prefix of those queued, and were read |
| `ProcessCollection.NaturalEndDeliversAll` | docker/process.py:1398-1446 | when the collector leaves its loop with no stop requested, every chunk read of every stream has been delivered |
| `CollectionRuns.AnnouncedOutcomeIs` | docker/process.py:722-798 | over every run an end callback announces a clean end exactly if the reader read the end of the file uncancelled, a failure exactly if a read raised, either before anything else was decided, and an abort otherwise |
| `CollectionRuns.RoundAnnounces` | docker/process.py:1375-1396 | every round announces a stream that has ended, has nothing left to hand over and, if aborted, has its reader stopped |
| `CollectionRuns.FirstReadIsMade` | docker/process.py:722-735 | a started reader makes a first read however soon shutdown comes, unless a result was delivered |
| `CollectionRuns.NoReadForADeliveredResult` | docker/process.py:722-735 | once readers are cancelled and a result is delivered no read begins |
| `CollectionRuns.CancelledIs` | docker/process.py:1085-1089 | readers are cancelled exactly by a first stop that does not drain or by the continuation, and then every acquired stream has an outcome |
| `CollectionRuns.BlockedChunkIsGivenUp` | docker/process.py:752-765 | a chunk that finds the queue full is never queued once a stop is requested |
| `CollectionRuns.FailedIs` | docker/process.py:1323-1356 | a collection counts as failed exactly if control flow escaped from a callback it invoked or it met a defect |
| `CollectionRuns.NoChunkAfterFailure` | docker/process.py:1412-1470 | a failed collection invokes no further chunk callback |
| `CollectionRuns.NothingIsQueuedWhileFlushing` | docker/process.py:1446-1470 | while the collector flushes and ever after no reader queues another chunk |
| `LockPaths.AncestorDirs` | docker/npm_environment/lockfile.py:753-763 | the loop lists the placement directories from the declaring path up to the root |
| `LockPaths.DependencyCandidatePaths` | docker/npm_environment/validation.py:98-121 | the install-time loop searches, for every declaring path, the same candidates in the same order as the lock resolver |
| `LockPaths.LastSepIs` | docker/npm_environment/lockfile.py:753-763 | finds the last `/node_modules/` of a path |
| `LockGraph.ResolveEdge` | docker/npm_environment/lockfile.py:766-811 | regular, dev and optional edges resolve from the declaring path, peers from its parent directory, to the first candidate in the lock |
| `LockPlacement.PeerIsOutside` | docker/npm_environment/lockfile.py:784-802 | a peer of a canonically placed package is never resolved inside that package |
| `LockGraph.EdgesIs` | docker/npm_environment/lockfile.py:814-846 | exactly which edges a node has: the optional declaration wins over a regular one of the same name, dev edges only at the root, peers never there |
| `LockGraph.FirstPresentSubset` | docker/npm_environment/lockfile.py:766-775 | resolution is unchanged when nodes other than the one found are absent |
| `LockGraph.LeastFixedPoint` | docker/npm_environment/lockfile.py:849-869 | a set that holds the root, is closed under following edges and holds only reachable paths is exactly the reachable set, whatever order built it |
| `LockGraph.GraphMembershipPaths` | docker/npm_environment/lockfile.py:849-869 | the worklist terminates and returns exactly the paths reachable from the root by declared edges |
| `LockClosure.CloseEdge` | docker/npm_environment/lockfile.py:961-1010 | one edge is skipped, omitted, followed or rejected as its verdict says, with the reason |
| `LockClosure.ValidateClosure` | docker/npm_environment/lockfile.py:961-1033 | succeeds exactly for acceptable locks; then it returns exactly the paths reachable through applicable targets and exactly their omissions; a failure names a fault that some installed edge has |
| `LockInstall.RejectDisconnected` | docker/npm_environment/lockfile.py:872-890 | succeeds exactly if every node is reachable from the root |
| `LockInstall.InstalledOrOmitted` | docker/npm_environment/lockfile.py:872-1033 | every route from the root to a node that is not installed leaves the installed nodes by a recorded omission |
| `LockInstall.ResolveDependency` | docker/npm_environment/validation.py:124-156 | finds the nearest installed candidate and says whether its version satisfies the range |
| `LockInstall.CheckDependencies` | docker/npm_environment/validation.py:295-306 | passes exactly if every declared dependency and every optional one not recorded as omitted resolves |
| `LockInstall.LockToInstall` | docker/npm_environment/validation.py:295-306 | for an accepted lock and the tree that mirrors it, the install-time loop passes a package if and only if the lock also meets each dependency overridden by an optional declaration: its nearest installed candidate exists and has a version in the range |
| `LockInstall.DisjointNamesNeverFail` | docker/npm_environment/validation.py:295-306 | with disjoint dependency and optional names the install-time loop never raises on an accepted lock |
| `LockInstall.OverlappingNamesCanFail` | docker/npm_environment/lockfile.py:826-830 | a concrete lock with overlapping names is accepted and its mirrored tree is rejected |
| `LockPlacement.ParsePath` | docker/npm_environment/lockfile.py:213-254 | the loop over path segments refines the parser, including its error cases |
| `LockPlacement.ParseAcceptsPlaced` | docker/npm_environment/lockfile.py:213-254 | a path is accepted exactly if it is a nesting of valid names, optionally followed by one more `/node_modules` |
| `LockPlacement.BareNodeModulesCrashes` | docker/npm_environment/lockfile.py:229-246 | a key ends in an index error if and only if it is `node_modules`; every other key is the root, a node, an unsafe path or an invalid name |
| `LockPlacement.AncestorsOfPath` | docker/npm_environment/lockfile.py:753-763 | the ancestor directories of a canonical path are its nestings, longest first, and the root |
| `LockPlacement.ReachableIsCanonical` | docker/npm_environment/lockfile.py:849-890 | every path reachable in a parsed lock is a canonical nesting of valid names |
| `LockPlacement.NodePathLeadsDown` | docker/npm_environment/lockfile.py:213-254 | a key accepted as a node never turns up when followed component by component |
| `SemVer.ComparePrerelease` | docker/versioning/semver.py:182-221 | the loop computes section 11 precedence of prerelease identifiers, in all three directions |
| `SemVer.LessTotal` | docker/versioning/semver.py:133-171 | precedence is total and irreflexive on versions without build metadata |
| `SemVer.LessTransitive` | docker/versioning/semver.py:133-171 | precedence is transitive |
| `SemVer.LeastOfCore` | docker/versioning/semver.py:133-171 | below X.Y.Z-0 lie exactly the versions with a smaller core |
| `SemVer.CorePrecedence` | docker/versioning/semver.py:133-150 | major, minor and patch decide numerically, and a prerelease precedes its release (section 11.2 and 11.3) |
| `SemVer.PrereleasePrecedence` | docker/versioning/semver.py:182-221 | prereleases of one core are ordered by their first different identifiers: numbers numerically and before texts, texts by their first different character, and a shorter list first when all agree (section 11.4) |
| `NpmRange.Matches` | docker/npm_environment/semver_range.py:88-119 | accepts exactly if some branch is met, with the prerelease opt-in taken from the bounds of that branch |
| `NpmRange.ParseRange` | docker/npm_environment/semver_range.py:390-410 | succeeds exactly if every branch does, with the bounds of every branch in order |
| `NpmRange.ParseBranch` | docker/npm_environment/semver_range.py:310-410 | the appending loop over the tokens of a branch refines its desugaring, including failure |
| `NpmMeaning.TokenMeaning` | docker/npm_environment/semver_range.py:183-272 | the bounds of a caret, tilde, X-range, partial or compared token accept exactly the declared interval |
| `NpmMeaning.HyphenMeaning` | docker/npm_environment/semver_range.py:275-307 | a hyphen range accepts exactly the versions between its ends, a partial upper end including all that agree with it |
| `NpmMeaning.BranchMeaning` | docker/npm_environment/semver_range.py:310-384 | a branch accepts a version exactly if it meets every token and, for a prerelease, some operand of the same core invites it, where `>=0.0.0` is waived |
| `NpmMeaning.RangeMeaning` | docker/npm_environment/semver_range.py:390-410 | a whole range accepts exactly the versions one of its branches means |
| `NpmMeaning.DepartsExactly` | docker/npm_environment/semver_range.py:354-361 | the code differs from the declared meaning exactly for prereleases of 0.0.0 in branches that both end at zero and invite them |
| `NpmMeaning.MeaningPreserved` | docker/npm_environment/semver_range.py:183-361 | outside those branches desugaring preserves meaning for every version |
| `NpmMeaning.ZeroEndIsDropped` | docker/npm_environment/semver_range.py:354-361 | `0.0.0 - 0.0.0-beta` accepts 0.0.0-alpha although it lies below its lower end |
| `NpmMeaning.ParsesExactly` | docker/npm_environment/semver_range.py:367-410 | a branch is refused exactly for an operator that no operand follows |
| `Sorting.SortPermutes` | docker/npm_environment/evidence.py:317-331 | sorting neither loses, adds nor repeats |
| `Sorting.SortSorts` | docker/npm_environment/evidence.py:317-331 | sorting by a total order sorts |
| `Sorting.SortOfSorted` | docker/npm_environment/evidence.py:268-281 | sorted input is unchanged |
| `Evidence.InputTrip` | docker/npm_environment/evidence.py:443-507 | parsing undoes serialization of an input identity |
| `Evidence.PackageTrip` | docker/npm_environment/evidence.py:342-395 | parsing undoes serialization of a package record, with its optional fields |
| `Evidence.BodyTrip` | docker/npm_environment/evidence.py:510-564 | parsing undoes serialization of an evidence body |
| `Evidence.EnvelopeTrip` | docker/npm_environment/evidence.py:51-77 | reading the serialized form of an envelope gives back every field |
| `ContentAddress.BuildIsBuilt` | docker/npm_environment/publication.py:780-796 | every envelope publication builds has all its digests in place and all lists in canonical order |
| `ContentAddress.ParseSerialized` | docker/npm_environment/evidence.py:567-613 | parsing with verification undoes serialization of every envelope publication builds |
| `ContentAddress.AcceptedIsBuilt` | docker/npm_environment/evidence.py:567-613 | whatever JSON the parser accepts, the envelope returned is of the built kind and parses again to itself |
| `ContentAddress.IdentityFixesEnvelope` | docker/npm_environment/identity.py:41-160 | for a collision-free hash two accepted envelopes with the same output identity are equal in every field |
| `ContentAddress.AcceptanceMeans` | docker/npm_environment/evidence.py:567-613 | in an accepted envelope every digest is the hash of what it stands for, the entries are sorted without repetition, envelope and body name one input, and the policy flags are the current ones |
| `ContentAddress.OutputIdentityInjective` | docker/npm_environment/evidence.py:150-167 | equal output identities mean equal input, tree and evidence digests |
| `Identities.AssemblerDigestFixes` | docker/npm_environment/identity.py:41-61 | assembler digests are equal exactly if all six components are |
| `Identities.InputDigestFixes` | docker/npm_environment/identity.py:135-160 | input identities are equal exactly if roots in canonical order, lockfile digest, assembler digest and package digest are; the roots are then the same whatever their order |
| `Identities.InputIdentityFixes` | docker/npm_environment/identity.py:135-160 | verified input identities with one digest agree in assembler, lockfile, package and roots |
| `Identities.TreeDigestFixes` | docker/npm_environment/tree.py:146-160 | tree digests are equal exactly if path, kind, digest and target of every entry are |
| `OutputVerification.ManifestTrip` | docker/npm_environment/tree.py:211-265 | parsing undoes serialization of a manifest with its digest in place |
| `OutputVerification.VerifyTree` | docker/npm_environment/tree.py:448-535 | passes exactly if the live entries and the manifest match in both directions, and every live link is contained |
| `OutputVerification.MatchesIsEquality` | docker/npm_environment/tree.py:448-535 | a walked tree matches a manifest of plain entries exactly if it has the same entries and no link leads out of it |
| `SlashPaths.ContainedIs` | docker/npm_environment/tree.py:90-95 | a link target is accepted exactly if it is relative, free of backslashes, and never leaves the tree when followed component by component from the directory of the link |
| `OutputVerification.VerifyOutput` | docker/npm_environment/publication.py:681-724 | returns the envelope exactly if evidence, manifest, identity and tree all check |
| `OutputVerification.VerifiedIs` | docker/npm_environment/publication.py:681-724 | a verified output has built evidence for that identity and input, the tree it describes, and no link that leads out of that tree |
| `OutputVerification.PublishedVerifies` | docker/npm_environment/publication.py:681-724 | what publication writes verifies |
| `OutputVerification.IdentityFixesOutput` | docker/npm_environment/publication.py:681-724 | for a collision-free hash two verified outputs of one identity carry the same envelope, the same input and the same tree |
| `OutputVerification.FindCached` | docker/npm_environment/publication.py:727-742 | whatever the index contains, a hit is the first listed output that verifies for this input, and a miss means none does |
| `Publication.StepKeepsInvariant` | docker/npm_environment/publication.py:435-549 | every step, failure or crash keeps every directory state since the last sync safe |
| `Publication.AbsentOrComplete` | docker/npm_environment/publication.py:471-549 | at every moment, after any failures and crashes, the output is absent, inherited from before, or complete, sealed, durable and verifying |
| `Publication.NeverEditedInPlace` | docker/npm_environment/publication.py:435-468 | no step changes a committed directory; the output name only gains one or has it moved whole to quarantine |
| `Publication.NamesAreNotRebound` | docker/npm_environment/publication.py:435-549 | no step binds an existing name to something else or removes a quarantined entry |
| `Publication.NoResidue` | docker/npm_environment/publication.py:471-549 | in a run without a crash in which cleanups succeed, an ended publication leaves no temporary entry of its own |
| `Publication.OneQuarantine` | docker/npm_environment/publication.py:798-848 | after a quarantine the publication goes on without moving any other output aside |
| `Publication.OwnPublicationSurvives` | docker/npm_environment/publication.py:521-549 | once publication has reported its own success the complete output survives every crash |
| `Publication.FinishedVerifies` | docker/npm_environment/publication.py:798-848 | a finished publication, own or reused, leaves an output that verifies |
| `Publication.ReuseMayNotBeDurable` | docker/npm_environment/publication.py:798-848 | a reachable state answers with a reused output whose name a crash forgets |
| `Publication.SurvivesExactlyWhenSynced` | docker/npm_environment/publication.py:435-549 | over every run, the answer of a finished publication, own or reused, survives every crash with a verifying output if and only if no failed sync of the outputs directory is outstanding, that is, none has happened since the last crash or successful sync |
| `Descriptors.AuditIs` | docker/filesystem/descriptors.py:98-190 | a sound log opens each descriptor at most once and closes it at most once, and the live ones are those opened and not closed |
| `Descriptors.System.Close` | docker/filesystem/descriptors.py:179-190 | a close attempt ends the life of a live descriptor whatever its outcome |
| `Descriptors.OwnedDescriptor.Close` | docker/filesystem/descriptors.py:138-146 | one close attempt while live, none afterwards |
| `Descriptors.OwnedDescriptor.Detach` | docker/filesystem/descriptors.py:148-155 | hands a live descriptor out once and refuses afterwards |
| `Descriptors.Adopt` | docker/filesystem/descriptors.py:317-337 | the descriptor is owned by the result exactly if validation went well, and otherwise closed once |
| `Descriptors.SecureAndAdopt` | docker/filesystem/descriptors.py:397-434 | the same, through securing and validation that may fail at every call |
| `Descriptors.OpenOrCreateDirectory` | docker/filesystem/descriptors.py:504-537 | opens at most one descriptor at a time and leaves exactly the returned one open |
| `Descriptors.Descend` | docker/filesystem/descriptors.py:275-289 | one component: at most two descriptors are live, exactly the retained one and the capability remain, and it fails exactly if some call does |
| `Descriptors.ReleaseWalk` | docker/filesystem/descriptors.py:293-314 | the end of a walk closes what is retained, and returns the capability exactly if the walk and that close went well, closing it otherwise |
| `Descriptors.OpenSecurePath` | docker/filesystem/descriptors.py:240-314 | at any depth and for any outcomes at most two descriptors are live, none is closed twice, exactly the returned one remains, and one is returned exactly if nothing failed, after one open for the root and one per component |
| `Removal.RemoveEntry` | docker/npm_environment/storage.py:387-408 | succeeds exactly if no call fails, and then the whole subtree is gone; touches nothing outside it, follows no link, and leaves no descriptor open in any case |
| `Removal.RemoveChildren` | docker/npm_environment/storage.py:387-408 | empties a directory exactly if no call fails; keeps the directory itself and everything outside, and leaves no descriptor open |

## Left out

- RedactingStream.Redactor.OutputOfBytes: for an aborted stream whose bytes stop inside a UTF-8 sequence right after an ESC, the emitted text is given and not compared with the redaction of the whole.
- RedactingStream.Redactor.FeedBytes: pieces returned are determined up to their concatenation; where one returned chunk ends and the next begins is not specified.
- Neutralizer.ControlNeutralizer.FeedAll: the same holds for its chunks, and the separate string kind field is part of the mode.
- ProcessLifecycle.OneLateRoundSuffices: liveness is stated as the existence of a completing continuation of the run, because the operating system may refuse forever.
- ProcessLifecycle.StepKeepsInvariant: supervisor deadlines expire at any moment while it supervises; interrupts between bytecodes, a continuation thread that never becomes ready and the text of failed action observations are not steps of the model.
- ProcessCollection.StepKeepsInvariant: shutdown is an environment that may stop, cancel and deliver at any moment; the lifecycle is the subject of the other state machine.
- NpmMeaning.TokenMeaning: ranges are parsed parts, so splitting text into comparators, `v` prefixes, build metadata and the syntax errors of the regular expressions are not modelled; prerelease identifiers are taken as valid, and an operator before the end of a hyphen range as refused.
- SemVer.ComparePrerelease: identifiers are numeric or text values, not characters to be classified.
- LockClosure.ValidateClosure: the order in which omissions are returned is left out, and range satisfaction is a parameter.
- LockPlacement.ParsePath: error texts are not modelled.
- ContentAddress.ParseSerialized: the hash is a parameter over JSON values; JSON text and SHA-256 are not modelled, so canonical bytes are the canonical value.
- OutputVerification.VerifyTree: the reading of file bytes and of directories is left out; the live tree is given as entries.
- OutputVerification.FindCached: reading and writing the index file is left out; the index is any list of identities.
- Publication.AbsentOrComplete: one identity at a time under its lock; foreign writes to a committed directory and a rename over an empty directory are not events.
- Descriptors.OpenSecurePath: errors carry no identity beyond fine, ordinary or severe, and label and basename checks are left out; which failure is raised is the subject of Failures.CleanupFailures.Complete.
- Removal.RemoveEntry: nothing else changes the tree during the removal.
- Failures.AttachSecondary: what an error makes of the calls of its own `add_secondary`, and the words of notes, are left out; calls and notes are recorded and counted.
- Utf8.RoundTrip: lone surrogates are not characters of a Dafny string; they cannot come out of the decoder, but a secret could contain one in the source.
- Thread startup inside the dispatcher and its failure before the first chunk: it depends on interpreter internals.
- Real clocks and budgets: a callback or drain budget that expires is a nondeterministic outcome.
- `parse_result`, the result record: the same reading of fields as for evidence, with easier claims.
- Licence, engines, bin, funding and root-specification checks of the lockfile, tarball addresses and integrity strings: single-branch checks.
- Namespace and staging preparation, the identity lock and advisory files: compositions of the descriptor operations modelled here.
- `OwnedStream` binding and preparation: of a stream the model keeps only that it is closed at most once.
- Command line, user interface, containers, networking and the runtime installer: no property beyond single bodies.
