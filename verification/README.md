# OpenWhisper in Dafny

A model of the stateful core of OpenWhisper, and proofs about it. Every operation that the
program performs by changing fields is a class with those fields, and each of its methods is
proved equal to a function on values; the properties are then lemmas about runs of those
functions, over every input and every interleaving.

| file | what it models |
|---|---|
| `Prelude.dfy` | optional values, bytes, concatenation and line ends shared by the others |
| `Words.dfy`, `TextProcessing.dfy` | whitespace splitting and joining, word comparison, batch text processing |
| `Stabilizer.dfy` | `TranscriptStabilizer`: words are committed once two hypotheses agree |
| `StreamingText.dfy` | `StreamingTextProcessor`: the incremental form of batch processing |
| `LiveInsertion.dfy` | the live insertion ledger of the daemon, on top of the two |
| `AudioWindow.dfy`, `AudioPipeline.dfy` | the rolling window, `AudioCoalescer`, and writer, daemon and worker together |
| `Subscription.dfy` | event numbering, floors, lag and snapshots |
| `WorkerChannel.dfy` | the worker's command loop and the request/reply pairing of its supervisor |
| `Supervisor.dfy` | the engine supervisor: generations, restarts, fatal latch, pending requests |
| `Download.dfy` | the resumable model download against an arbitrary HTTP server |
| `Capture.dfy` | `CaptureCoordinator`: the capture lifecycle and its generations |
| `OnlineAsr.dfy` | the archived Python streaming policy |
| `Distance.dfy` | the benchmark's edit distance |
| `Frames.dfy`, `Lines.dfy` | length-prefixed frames and bounded line reading |
| `Resampler.dfy` | conversion to 16 kHz mono PCM, in exact arithmetic |

`dafny verify dfyconfig.toml` checks everything.

## Where the code and its promises differ

The model follows the code in each of these. Every deviation is proved, with a run that shows it
and with the exact condition under which the promise holds.

- The comment above `StreamingTextProcessor` promises output identical to batch processing.
  A pattern containing a space can straddle the guard (`GuardCanSplitAPattern`), and since
  `finish` uses the same prefix check it then stays silent. `FinishReachesBatchIff` gives the
  exact condition for all configurations. `CleanRunEqualsBatch` proves the identity for every run
  in which no match covers a cut, and `StreamEqualsBatch` for every run when no pattern contains
  a space. Empty patterns need not be excluded.
- `append_unique_words` removes overlaps that the stabilizer has already removed, so a word
  dictated twice in a row is committed twice but typed once (`RepeatedWordIsTypedOnce`).
  `TypedWordsAreCommittedIff` says exactly which dictations lose words, and
  `TypedTextIsFinalTextIff` that in exactly these the text typed differs from the `final_text` the
  daemon reports. The daemon reads the replacements again for that text; they are taken to be
  the same.
- `distance` starts its first row at 1 and is not the edit distance: `Distance.Distance` is proved
  to return a closed form in true edit distances, `DistanceCorrectIff` says when that is right.
- An event numbered before another and sent after it can be lost (`RacingEmissionLosesAnEvent`).
  `LostIff` says exactly which received events are lost, and `LostUntilSnapshot` that only a later
  snapshot makes up for it.
- Which messages the client routes can depend on how the bytes arrived
  (`MalformedFrameMakesChunkingVisible`), exactly when a well-formed message follows a malformed
  one (`ChunkingIsInvisibleIff`).
- Three callers of `capture.fail` do not compare generations: the failed start of a stream, the
  recording deadline and the partial-failure path (crates/openwhisperd/src/lib.rs:491-493,
  523-525 and 1169-1171). `UnguardedFailHitsAnotherIff` says exactly when such a call ends another
  capture, `UnguardedFailHitsNewerCapture` shows one, and `GuardedFailIsSafe` that the comparison
  its sibling makes is enough.
- A fatal report takes an event number from whichever engine process is recorded by then.
  `FatalReportsSwallowEvents` says exactly which events are dropped for it, and
  `FatalReportCanSwallowFirstEvent` shows a first event that is.
- Aborting the stream task between `push` and the recorded outcome loses or miscounts the delta
  in the air (`AbortLosesTheDeltaInTheAir`, an exact condition; `AbortedDictationLosesAWord`).
- A worker request can be given another one's reply exactly when its generation is 0
  (`MispairedIffGenerationZero`). No caller sends one: every request carries the generation of
  a capture, which is at least 1, and 0 is only used to wait for the ready message of a new worker.
- A line that is not UTF-8 ends the worker without a reply. `EveryLineAnsweredIff` says exactly
  which inputs are answered line by line, and `NonUtf8LineSilencesWorker` shows one that is not.
- A crash between storing a new ETag and truncating the partial file leaves a pair that does not
  belong together (`CrashMixesTwoModels`); the next call then glues two representations and
  refuses the result (`ResumeOnTornDisk`). `TornPointConsistentIff` says exactly which calls pass
  through such a state. A response without an ETag is the other way to get there
  (`MissingEtagConsistentIff`, shown by `ResponseWithoutEtagMixesModels`). `HistoryConsistentIff`
  says which histories of crashes keep the pair together.
- The writer does not keep reads whole samples. A stream dies exactly when a snapshot with an odd
  byte total is sent (`CrashReplayIsTransparent`, shown by `OddReadEndsStream`), and the window
  theorem needs no assumption.
- A cut of the archived policy may lie past the audio there is, and then moves the clock further
  than it removes audio (`CutPastTheAudioMovesTheClock`); `ClockDriftIsBounded` accounts for such
  cuts exactly.

## Model

| member | source | states |
|---|---|---|
| Words.SplitJoin | crates/openwhisper-core/src/streaming.rs:104-106 | splitting on whitespace undoes joining words with single spaces, so committed text and committed words determine each other |
| Words.SplitOfSpaced | crates/openwhisper-core/src/streaming.rs:104-106 | however words are set apart by white space, splitting the text gives exactly these words |
| Words.EveryTextIsSpaced | crates/openwhisper-core/src/streaming.rs:104-106 | every text is its words with white space around and between them |
| Words.TrimSpec | crates/openwhisper-core/src/processing.rs:13-23 | trimming takes off exactly the white space at both ends |
| Words.SharedSpec | crates/openwhisper-core/src/streaming.rs:68-73 | the shared prefix is the longest one of pairwise equivalent words |
| Words.OverlapSpec | crates/openwhisper-core/src/streaming.rs:74-82 | the overlap found is the largest number of last words of one text equivalent to the first words of the other |
| Stabilizer.TranscriptStabilizer.constructor | crates/openwhisper-core/src/streaming.rs:14-20 | nothing is committed and nothing unstable |
| Stabilizer.TranscriptStabilizer.Update | crates/openwhisper-core/src/streaming.rs:23-35 | the new state of one update, and that the reported delta is exactly what the committed words gained |
| Stabilizer.TranscriptStabilizer.Finish | crates/openwhisper-core/src/streaming.rs:37-44 | everything unstable, or what the last hypothesis adds, is committed and reported |
| Stabilizer.TranscriptStabilizer.ResetUnstable | crates/openwhisper-core/src/streaming.rs:54-56 | only the unstable words are forgotten |
| Stabilizer.DroppedOfExtension | crates/openwhisper-core/src/streaming.rs:66-82 | of a hypothesis that continues the committed words, exactly those words are taken as known |
| Stabilizer.KeptIsShortestBridge | crates/openwhisper-core/src/streaming.rs:66-102 | a hypothesis sharing no first word is appended so that the result is the shortest text starting with the committed words and ending in the hypothesis |
| Stabilizer.KeptInEveryCase | crates/openwhisper-core/src/streaming.rs:66-102 | what any hypothesis adds, revisions included: if it starts like the committed words and is at least as long, the words beyond their number, at the same positions; if shorter, nothing when its start is the longer match and otherwise the shortest bridge; if it shares no first word, the shortest bridge |
| Stabilizer.UpdateCommitsAgreement | crates/openwhisper-core/src/streaming.rs:23-35 | an update commits the longest common prefix of what the hypothesis adds and the unstable words, in the words of the hypothesis, and keeps the rest as unstable |
| Stabilizer.DroppedAfterCommit | crates/openwhisper-core/src/streaming.rs:66-102 | committing a part of what a hypothesis adds leaves exactly the rest to add, under all three interpretations of the hypothesis |
| Stabilizer.ReplayNeverDuplicates | crates/openwhisper-core/src/streaming.rs:23-44 | a hypothesis seen twice is committed once and replaying it or finishing with it changes nothing, from every state |
| Stabilizer.AgreementIsCommonPrefix | crates/openwhisper-core/src/streaming.rs:23-35 | when two hypotheses continue the committed words, the committed words become their longest common prefix modulo equivalence |
| Stabilizer.GrowingHypothesesLagOneStep | crates/openwhisper-core/src/streaming.rs:23-35 | hypotheses that only grow are committed with exactly one step of lag, for any number of them |
| Stabilizer.CommitsAreTheDeltas | crates/openwhisper-core/src/streaming.rs:23-64 | over every sequence of operations committed words are append-only and equal the concatenated deltas |
| Stabilizer.RevisionsKeepPositions | crates/openwhisper-core/src/streaming.rs:84-97 | in every run, two hypotheses that revise committed words but start like them commit, beyond the committed words, exactly the positions they agree on |
| Stabilizer.CommittedOnlyIfSeenTwice | crates/openwhisper-core/src/streaming.rs:23-35 | in every run, what an update commits is a block of its hypothesis that the hypothesis just before also contained, word for word |
| Stabilizer.FinishCompletesTheHypothesis | crates/openwhisper-core/src/streaming.rs:37-44 | finishing with a hypothesis that continues the committed words leaves them equivalent to it |
| Stabilizer.FinishCommitsThePreview | crates/openwhisper-core/src/streaming.rs:37-44 | finishing without a hypothesis commits exactly the unstable words |
| Stabilizer.NothingAgreesAfterReset | crates/openwhisper-core/src/streaming.rs:54-56 | after a reset the next hypothesis commits nothing |
| TextProcessing.NormalizeCanonical | crates/openwhisper-core/src/processing.rs:13-38 | single-spaced text is a fixed point of normalisation in every mode |
| TextProcessing.NormalizeRaw | crates/openwhisper-core/src/processing.rs:13-23 | in raw mode only the white space at both ends is taken off |
| TextProcessing.NormalizeClean | crates/openwhisper-core/src/processing.rs:26-28 | in clean mode the words of any text are joined by single spaces |
| TextProcessing.NormalizeCode | crates/openwhisper-core/src/processing.rs:30-38 | in code mode every line keeps its indentation and loses the white space at its end, and the whole is trimmed |
| TextProcessing.ReplaceSubstitutesMatches | crates/openwhisper-core/src/processing.rs:18-23 | every text is cut at the leftmost matches of a pattern, and replacing puts the new text in their places and changes nothing else |
| TextProcessing.ReplaceEmptyPattern | crates/openwhisper-core/src/processing.rs:18-23 | an empty pattern is replaced before every character and at the end |
| TextProcessing.ReplaceAllInOrder | crates/openwhisper-core/src/processing.rs:18-23 | with one more replacement at the end of the list, that one is applied to the result of all before |
| TextProcessing.ProcessInOrder | crates/openwhisper-core/src/processing.rs:13-23 | the same for whole texts, which are normalised once and first |
| TextProcessing.ReplaceDistributes | crates/openwhisper-core/src/processing.rs:13-38 | replacing a pattern distributes over a space that no match covers |
| TextProcessing.ReplaceAllDistributes | crates/openwhisper-core/src/processing.rs:13-38 | so does the whole list of replacements, each applied to the result of those before |
| TextProcessing.SpaceFreeNoStraddle | crates/openwhisper-core/src/processing.rs:13-38 | no match of a pattern without a space ever covers one |
| StreamingText.StreamingTextProcessor.constructor | crates/openwhisper-core/src/streaming.rs:178-192 | the guard is twice the largest pattern word count |
| StreamingText.StreamingTextProcessor.Push | crates/openwhisper-core/src/streaming.rs:194-202 | the new raw and emitted text and the delta returned |
| StreamingText.StreamingTextProcessor.Finish | crates/openwhisper-core/src/streaming.rs:204-207 | the new raw and emitted text and the delta returned |
| StreamingText.StreamingTextProcessor.EmitProcessed | crates/openwhisper-core/src/streaming.rs:213-226 | emitted text is only ever extended, by the returned delta, and reaches the processed text unless that does not begin with it |
| StreamingText.AppendUniqueWords | crates/openwhisper-core/src/streaming.rs:229-265 | the words of the raw text stay a prefix and are followed by the delta's words less those skipped; the text stays single-spaced |
| StreamingText.AppendKeepsDeltaIff | crates/openwhisper-core/src/streaming.rs:229-265 | a delta is taken over word for word exactly when no beginning of it ends the existing words and it does not repeat two or more of the first ones |
| StreamingText.AppendInEveryCase | crates/openwhisper-core/src/streaming.rs:229-265 | what any delta adds to the raw words: its end beyond their number if it repeats two or more of the first ones at full length, and otherwise what makes the shortest bridge |
| StreamingText.RunIsConsistent | crates/openwhisper-core/src/streaming.rs:178-226 | in every run the deltas concatenate to the emitted text, which is the batch form of some leading words of the raw text |
| StreamingText.OutputIsAppendOnly | crates/openwhisper-core/src/streaming.rs:213-226 | for every configuration output is append-only and is what the processor holds as final text |
| StreamingText.FinishReachesBatchIff | crates/openwhisper-core/src/streaming.rs:204-226 | a run ends in the batch text exactly when what was emitted before the end is a prefix of it, and otherwise finish emits nothing |
| StreamingText.CutIsPrefixOfBatch | crates/openwhisper-core/src/streaming.rs:194-202 | when no match covers the cut, the batch form of leading words is a prefix of the batch form of all |
| StreamingText.CleanRunEqualsBatch | crates/openwhisper-core/src/streaming.rs:165-207 | every run in every mode in which no match covers a cut its own pushes made produces exactly the batch text of the raw transcript |
| StreamingText.StreamEqualsBatch | crates/openwhisper-core/src/streaming.rs:165-207 | without spaces in patterns, every run in every mode produces exactly the batch text of the raw transcript |
| StreamingText.EmitsAllButTheGuard | crates/openwhisper-core/src/streaming.rs:194-202 | nothing more is held back than the guard: without spaces in patterns, after every run exactly the batch form of all words but the guarded ones has been emitted |
| StreamingText.GuardSpec | crates/openwhisper-core/src/streaming.rs:178-192 | the guard is twice the number of words of some pattern and of no fewer than any, and at least two |
| StreamingText.GuardCanSplitAPattern | crates/openwhisper-core/src/streaming.rs:194-207 | with a two-word pattern the cut can fall inside a match; the run then ends short of the batch text |
| LiveInsertion.LiveTranscript.OnHypothesis | crates/openwhisperd/src/lib.rs:711-797 | the new transcript state and ledger after one hypothesis, for a paste that works and one that fails |
| LiveInsertion.LiveTranscript.OnFinish | crates/openwhisperd/src/lib.rs:1302-1383 | the same for the end of a stream, and the error for an empty transcript |
| LiveInsertion.LedgerIsHonest | crates/openwhisperd/src/lib.rs:745-797 | in every dictation delivered text is a prefix of emitted text, the byte count is its UTF-8 length, suspension is final, complete means everything emitted was delivered, and a requested insertion has delivered the emitted text exactly when it was never suspended |
| LiveInsertion.SuspendedIff | crates/openwhisperd/src/lib.rs:745-797 | in every dictation a requested insertion is suspended exactly when some text that was emitted failed to be pasted, and otherwise active |
| LiveInsertion.CompleteIff | crates/openwhisperd/src/lib.rs:1302-1383 | it ends complete exactly when it was requested, nothing failed, the transcript is not blank and the last text, if any, was pasted |
| LiveInsertion.Utf8LengthIs | crates/openwhisperd/src/lib.rs:771-774 | the inserted bytes are counted as in the UTF-8 encoding of the text |
| LiveInsertion.CompletedInsertionIsBatchText | crates/openwhisperd/src/lib.rs:1302-1383 | without spaces in patterns a completed insertion typed exactly the batch form of the processor's own raw text |
| LiveInsertion.TypedWordsAreCommittedIff | crates/openwhisperd/src/lib.rs:711-760 | after every dictation the words in the processor's raw text are the committed words exactly when no step committed words that read like a repetition of those before |
| LiveInsertion.TypedTextIsFinalTextIff | crates/openwhisperd/src/lib.rs:1433 | without spaces in patterns a completed insertion typed exactly the final text reported from the committed words when, and only when, no step repeated anything |
| LiveInsertion.AbortLosesTheDeltaInTheAir | crates/openwhisperd/src/lib.rs:745-797 | exactly when an aborted stream task makes a completed insertion lose or miscount text |
| LiveInsertion.AbortedDictationLosesAWord | crates/openwhisperd/src/lib.rs:745-797 | a dictation of any three words that ends complete with its first word lost |
| LiveInsertion.RepeatedWordIsTypedOnce | crates/openwhisper-core/src/streaming.rs:229-265 | in a dictation of one word twice in a row, both are committed and one is in the raw text that is typed, for every configuration |
| AudioWindow.WindowAppend | crates/openwhisper-core/src/streaming.rs:129-137 | trimming after each append equals taking the window of everything appended |
| AudioWindow.WindowIsTheEnd | crates/openwhisper-core/src/streaming.rs:129-137 | the window is the end of what was appended: everything up to fifteen seconds, then fifteen seconds less the odd byte |
| Coalescer.AudioCoalescer.Append | crates/openwhisper-core/src/streaming.rs:129-143 | the new buffer and flags, and the window handed out |
| Coalescer.AudioCoalescer.CompleteInference | crates/openwhisper-core/src/streaming.rs:145-153 | the new flags, and the window handed out |
| Coalescer.AudioCoalescer.Finish | crates/openwhisper-core/src/streaming.rs:155-158 | the pending bytes are returned and cleared |
| Coalescer.CoalescerKeepsTheWindow | crates/openwhisper-core/src/streaming.rs:128-163 | in every run the buffer is the closed-form window of all bytes since the last finish, at most one window is outstanding, and nothing ready is left waiting |
| Coalescer.WindowHandedOutIff | crates/openwhisper-core/src/streaming.rs:128-163 | in every run an append hands out a window exactly when none is outstanding and 300 ms have been appended, and a completion exactly when some audio was appended since the last window |
| AudioPipeline.CaptureWriter.Accept | crates/openwhisper-core/src/audio.rs:226-254 | the snapshot published after one read, or the end of the capture |
| AudioPipeline.CaptureIsWhatWasRead | crates/openwhisper-core/src/audio.rs:226-254 | in every run the capture is everything read, up to the first empty read or the first that would exceed the maximum, and goes on exactly until then |
| AudioPipeline.StreamTask.NextChunk | crates/openwhisperd/src/lib.rs:635-653 | which bytes of a snapshot are sent, and the new positions |
| AudioPipeline.DeliveredIffDue | crates/openwhisperd/src/lib.rs:635-700 | in every run an observation sends exactly when the stream is alive and at least 300 ms of captured audio lie past the last total sent; nothing is unsent then, and the worker holds the last fifteen seconds unless an odd total, a second crash or another failure ended the stream |
| AudioPipeline.NothingIsSentTwice | crates/openwhisperd/src/lib.rs:640-645 | a second observation without a read between sends nothing |
| AudioPipeline.StreamSession.Append | crates/openwhisper-worker-native/src/main.rs:229-267 | the new sample buffer, or the rejection of an odd chunk with the buffer unchanged |
| AudioPipeline.DecodeAppend | crates/openwhisper-worker-native/src/main.rs:259-262 | decoding samples distributes over an even split |
| AudioPipeline.DecodeAt | crates/openwhisper-worker-native/src/main.rs:258-261 | each sample is the two's complement value of its two bytes, low byte first |
| AudioPipeline.LastSamplesAreTheEnd | crates/openwhisper-worker-native/src/main.rs:262-266 | the buffer is the end of the decoded capture, at most 240000 samples |
| AudioPipeline.ChunkAdvancesBuffer | crates/openwhisperd/src/lib.rs:645-653 | the chunk selected brings the buffer for the last total to the buffer for the new one, even more than a window later |
| AudioPipeline.ReplayRestoresBuffer | crates/openwhisperd/src/lib.rs:668-695 | a fresh worker given the whole snapshot holds the last fifteen seconds |
| AudioPipeline.WorkerHoldsLastWindow | crates/openwhisperd/src/lib.rs:635-695 | for reads of any length and any snapshots seen, a live worker holds exactly the last fifteen seconds up to the last snapshot sent |
| AudioPipeline.CrashReplayIsTransparent | crates/openwhisperd/src/lib.rs:668-695 | a crash and replay leaves the buffer of a run without the crash; a sent snapshot ends the stream exactly when its total is odd |
| AudioPipeline.OddReadEndsStream | crates/openwhisper-worker-native/src/main.rs:241-257 | one odd read of at least a batch, observed once, ends the stream |
| Subscription.ClientLoop.OnSubscribe | crates/openwhisperd/src/main.rs:105-157 | a snapshot is written and becomes the floor |
| Subscription.ClientLoop.OnEvent | crates/openwhisperd/src/main.rs:105-157 | an event above the floor is written and becomes the floor |
| Subscription.ClientLoop.OnLagged | crates/openwhisperd/src/main.rs:105-157 | a lagged subscriber is given a snapshot |
| Subscription.FramesAreOrdered | crates/openwhisperd/src/main.rs:105-157 | in every interleaving frame numbers never go down and event numbers strictly rise above all earlier frames |
| Subscription.ConnectionIsOrdered | crates/openwhisperd/src/lib.rs:2715-2722 | the same from the moment of connection, with any numbers taken and not yet sent |
| Subscription.StepWrites | crates/openwhisperd/src/main.rs:105-157 | in every reachable state which frame a step writes, if any: the current number on subscribing and when a subscriber is more than 128 behind, and otherwise the next event if all frames so far are below it |
| Subscription.SilentUntilSubscribed | crates/openwhisperd/src/main.rs:138-153 | nothing is written before a subscription, even to a client that lags |
| Subscription.EveryNumberIsSentOrWaiting | crates/openwhisperd/src/lib.rs:2715-2722 | every number taken is on the channel once or still waiting to be sent, and nothing else is |
| Subscription.DroppedIffOvertaken | crates/openwhisperd/src/main.rs:105-157 | a received event is dropped exactly when a frame with its number or a higher one is already written |
| Subscription.LostIff | crates/openwhisperd/src/main.rs:105-157 | for every run of a connection, a received event is neither written nor covered exactly when a higher event was written and no snapshot at or above its number was |
| Subscription.LostUntilSnapshot | crates/openwhisperd/src/main.rs:105-157 | a lost event stays lost through any further steps until the next snapshot, which covers it |
| Subscription.InOrderMeansNothingLost | crates/openwhisperd/src/main.rs:105-157 | when numbers are sent in order, frames after a snapshot have no gap and every later number is still unread or unsent |
| Subscription.AtomicEmissionLosesNothing | crates/openwhisperd/src/lib.rs:2715-2722 | with numbering and sending in one step, a client that has read everything is up to the last event |
| Subscription.RacingEmissionLosesAnEvent | crates/openwhisperd/src/lib.rs:2715-2722 | with the two steps as they are, two racing emitters can lose an event for good |
| WorkerChannel.Worker.Serve | crates/openwhisper-worker-native/src/main.rs:75-336 | the reply written for one line, the new stream and whether the worker goes on, for every command and error |
| WorkerChannel.OneReplyPerLine | crates/openwhisper-worker-native/src/main.rs:75-336 | for every input, one reply per line in order up to the first shutdown or line that is not UTF-8, each with its line's id and generation, and none after |
| WorkerChannel.EveryLineAnsweredIff | crates/openwhisper-worker-native/src/main.rs:75-336 | every line is answered exactly when none is a shutdown and all are UTF-8 |
| WorkerChannel.NonUtf8LineSilencesWorker | crates/openwhisper-worker-native/src/main.rs:54-56 | a line that is not UTF-8 and everything after it go unanswered |
| WorkerChannel.RepliesFollowTheHistory | crates/openwhisper-worker-native/src/main.rs:75-336 | for every input, what each reply says follows from the lines before: a stream is active exactly when one was started and not cancelled or finished since, finish returns the last text inferred since then, an append answers with its own inference, and each error code appears exactly under its condition |
| WorkerChannel.ReadResponse | crates/openwhisperd/src/worker.rs:106-128 | only unacceptable replies are skipped; the first acceptable reply, oversized or unreadable line, closed pipe or deadline decides, and the rest stays |
| WorkerChannel.ReadReplySpec | crates/openwhisperd/src/worker.rs:106-128 | for every pipe what waiting comes to: after the lines that do not match, if the deadline allows, the next line decides, and a matching reply is returned |
| WorkerChannel.RunKeepsPairing | crates/openwhisperd/src/worker.rs:77-98 | what every step of sending, serving, delivering, timing out and restarting keeps |
| WorkerChannel.RequestsGetTheirOwnReply | crates/openwhisperd/src/worker.rs:77-128 | after any timeouts, crashes, restarts and requests sent again under their own id, a request of a positive generation that returns was sent in the same life of the worker that wrote the reply, which is the one to that very request |
| WorkerChannel.ReturnsArePresent | crates/openwhisperd/src/worker.rs:77-98 | whatever a step returns was written since the last restart |
| WorkerChannel.RetriedRequestIsAnswered | crates/openwhisperd/src/lib.rs:1271-1277 | a request whose worker crashed, sent again under the same id after the restart, returns the new worker's reply |
| WorkerChannel.PipesCarryTheDialogue | crates/openwhisperd/src/worker.rs:77-128 | in every run the lines the present worker has read and those still in its pipe are the requests sent to it in order, its replies are one for each line and say what the lines before call for, and those unread are the last of them |
| WorkerChannel.OneRequestAtATime | crates/openwhisperd/src/worker.rs:77-98 | in every run each request sent is the one waited for, or was returned a reply, or was given up |
| WorkerChannel.GenerationZeroTakesStaleReply | crates/openwhisperd/src/worker.rs:106-128 | any request of generation 0 is returned any other request's late reply in some run |
| WorkerChannel.MispairedIffGenerationZero | crates/openwhisperd/src/worker.rs:106-128 | some run returns another one's reply for a request exactly when its generation is 0 |
| Supervisor.EngineSupervisor.EnsureStarted | src-tauri/src/engine.rs:259-287 | who may start a process, and the generation allotted |
| Supervisor.EngineSupervisor.RecordStarted | src-tauri/src/engine.rs:289-304 | the lifecycle after a spawn that worked or failed |
| Supervisor.EngineSupervisor.BeginRestart | src-tauri/src/engine.rs:194-223 | when a manual restart may begin |
| Supervisor.EngineSupervisor.FinishRestart | src-tauri/src/engine.rs:236-249 | the lifecycle after the old process is gone |
| Supervisor.EngineSupervisor.Exited | src-tauri/src/engine.rs:485-526 | what an exit means: ignored, quiet, fatal or an automatic restart |
| Supervisor.EngineSupervisor.AcceptEventFrame | src-tauri/src/engine.rs:421-483 | only newer events of the recorded process are forwarded |
| Supervisor.EngineSupervisor.AcceptResponseFrame | src-tauri/src/engine.rs:421-460 | a response of the recorded process answers its pending request once |
| Supervisor.EngineSupervisor.FailPending | src-tauri/src/engine.rs:601-606 | every pending request is answered and none stays pending |
| Supervisor.EngineSupervisor.TerminateGeneration | src-tauri/src/engine.rs:543-559 | only the process of that generation is dropped |
| Supervisor.EngineSupervisor.BeginShutdown | src-tauri/src/engine.rs:561-574 | shutdown is recorded, and only the first call goes on |
| Supervisor.EngineSupervisor.Bootstrap | src-tauri/src/engine.rs:175-181 | a bootstrap request clears the fatal latch and re-arms the automatic restart |
| Supervisor.RunKeepsInvariants | src-tauri/src/engine.rs:194-329 | the invariants of every interleaving |
| Supervisor.DecisionsIff | src-tauri/src/engine.rs:194-287 | every decision on a start, a restart and an exit exactly under its condition |
| Supervisor.ProcessAfter | src-tauri/src/engine.rs:194-329 | the generation, the flags and the recorded process after every step, by what happened to each |
| Supervisor.LatchAfter | src-tauri/src/engine.rs:485-526 | the latch is set exactly when a process dies in an active state or for the second time since re-arming, or a restart fails, and opened only by re-arming |
| Supervisor.EventsAfter | src-tauri/src/engine.rs:462-541 | the event cursor, the dictation state and what is forwarded after every step |
| Supervisor.DeathIsFatalIff | src-tauri/src/engine.rs:485-526 | a run for every state: the death of a process is fatal in exactly four of them and leads to a restart in all others |
| Supervisor.ProcessIsCurrent | src-tauri/src/engine.rs:259-329 | a recorded process carries the current generation and nothing is starting; starting and restarting exclude each other; at most one automatic restart between re-arms |
| Supervisor.AnsweredAtMostOnce | src-tauri/src/engine.rs:366-460 | each request is answered at most once and never while pending |
| Supervisor.NoRequestIsLost | src-tauri/src/engine.rs:366-460 | in every interleaving each registered request is pending, answered once, or abandoned by its caller, and only one of these |
| Supervisor.AnsweredIff | src-tauri/src/engine.rs:421-460 | a pending request is answered by a response of the recorded process or when all are failed, and by nothing else |
| Supervisor.ForwardedNumbersIncrease | src-tauri/src/engine.rs:462-483 | events forwarded from one process carry strictly increasing numbers |
| Supervisor.FatalIsLeftOnlyByRearming | src-tauri/src/engine.rs:175-249 | the fatal latch opens only on a bootstrap request or at the end of a manual restart |
| Supervisor.NothingStartsWhileFatal | src-tauri/src/engine.rs:259-287 | while the latch is set and nothing re-arms it, no generation is allotted and no process recorded but one already starting |
| Supervisor.NoStartAfterShutdown | src-tauri/src/engine.rs:259-287 | after shutdown no generation is allotted and no new process recorded but the one already starting |
| Supervisor.EventForwardedIff | src-tauri/src/engine.rs:462-541 | in every run from a point where a process is recorded, its event is forwarded exactly when it is still recorded and the number exceeds its own largest one, raised by every fatal report since |
| Supervisor.FatalReportsSwallowEvents | src-tauri/src/engine.rs:528-541 | the next event of a recorded process is forwarded exactly when its number exceeds the last by more than the fatal reports since |
| Supervisor.FatalReportCanSwallowFirstEvent | src-tauri/src/engine.rs:528-541 | a run in which a fatal report uses up a new process's first event number, whose event is then dropped |
| Download.ModelDirectory.Download | crates/openwhisper-core/src/models.rs:287-471 | the result, the disk, every disk state on the way, the progress and the request count of a whole call |
| Download.ModelDirectory.RequestOnce | crates/openwhisper-core/src/models.rs:342-390 | one turn of the request loop |
| Download.ModelDirectory.HandleResponse | crates/openwhisper-core/src/models.rs:364-418 | how status, Content-Range, ETag and Content-Length decide between refusing, starting over, resuming and replacing |
| Download.ModelDirectory.ReceiveChunks | crates/openwhisper-core/src/models.rs:436-447 | the chunk loop: what is appended and when it overflows |
| Download.ModelDirectory.FinishDownload | crates/openwhisper-core/src/models.rs:448-469 | size and hash checks, quarantine and installation |
| Download.ArbitraryServerIsSafe | crates/openwhisper-core/src/models.rs:287-471 | for any server and any disk: at most two requests, no partial file grown past the pinned size and no unverified destination in any state a crash could leave, non-decreasing progress, and Ok only with a verified destination |
| Download.EveryStateIsRecorded | crates/openwhisper-core/src/models.rs:287-471 | the states these results speak of leave none out: they lead from the first disk to the last, one file operation at a time |
| Download.OneRequestOutcome | crates/openwhisper-core/src/models.rs:341-471 | for every disk without a good destination and every server whose first answer is not of a changed representation: success and every error exactly under its condition on what is on disk and what was received, and the disk that leaves |
| Download.TwoRequestOutcome | crates/openwhisper-core/src/models.rs:389-398 | the same after the representation has changed: the partial file is dropped and everything asked for again |
| Download.OrdinaryDownloadSucceeds | crates/openwhisper-core/src/models.rs:287-471 | for all verified content, every disk, enough space and a server that serves it, whole or from the position asked for, with exact or no Content-Length: the call succeeds in one request, resuming where it can, and what was in the way is set aside |
| Download.ChangedDownloadSucceeds | crates/openwhisper-core/src/models.rs:389-398 | and in two requests when the representation has changed |
| Download.OrdinaryDownloadReports | crates/openwhisper-core/src/models.rs:430-447 | an ordinary download reports where it resumes, then the total after every chunk, up to the whole size |
| Download.GoodDestinationIsReused | crates/openwhisper-core/src/models.rs:299-315 | a destination is reused, without a request, exactly when it has the pinned size and hash |
| Download.CallStaysConsistent | crates/openwhisper-core/src/models.rs:341-471 | with a conforming server every state of a call but the torn one keeps the partial file a prefix of the representation its ETag names |
| Download.HistoryConsistentIff | crates/openwhisper-core/src/models.rs:341-471 | across any history of interrupted calls against conforming servers the disk stays consistent from crash to crash exactly when no crash falls between the two writes of a call that replaces the partial file by a representation it does not begin |
| Download.HistoryStaysConsistent | crates/openwhisper-core/src/models.rs:341-471 | after any such history what the next call installs is one representation whole |
| Download.TornPointConsistentIff | crates/openwhisper-core/src/models.rs:341-471 | for every call against a conforming server, a state it passes through is inconsistent exactly when it lies between the two writes and the server answered a resume with another representation that the partial file does not begin; such calls do pass through one |
| Download.ReachTornDisk | crates/openwhisper-core/src/models.rs:419-422 | a call from a consistent disk passes through an inconsistent state when the server has replaced the representation |
| Download.ResumeOnTornDisk | crates/openwhisper-core/src/models.rs:364-457 | the call after a crash there glues the new tail onto the old head, fails the hash and sets the result aside |
| Download.CrashMixesTwoModels | crates/openwhisper-core/src/models.rs:341-471 | a literal disk, server and crash for which that happens |
| Download.MissingEtagConsistentIff | crates/openwhisper-core/src/models.rs:417-457 | for every disk without a good destination and every whole response without an ETag, broken off or not, the call ends consistent exactly when its content does not stop short beside a stored ETag that it does not fit |
| Download.ResponseWithoutEtagMixesModels | crates/openwhisper-core/src/models.rs:417-450 | a literal disk and response, broken off or ending short, that end inconsistent |
| Capture.CaptureCoordinator.Start | crates/openwhisper-core/src/state.rs:126-144 | a capture starts only when idle or failed, under a new generation |
| Capture.CaptureCoordinator.Stop | crates/openwhisper-core/src/state.rs:146-164 | a capturing session moves on to transcription with everything it carries |
| Capture.CaptureCoordinator.Toggle | crates/openwhisper-core/src/state.rs:166-176 | starts, stops or refuses |
| Capture.CaptureCoordinator.BeginDelivery | crates/openwhisper-core/src/state.rs:178-203 | delivery begins only from processing of the same generation |
| Capture.CaptureCoordinator.BeginProcessing | crates/openwhisper-core/src/state.rs:205-231 | processing begins only from transcription of the same generation |
| Capture.CaptureCoordinator.Complete | crates/openwhisper-core/src/state.rs:233-244 | only the current generation's work completes |
| Capture.CaptureCoordinator.Cancel | crates/openwhisper-core/src/state.rs:246-253 | the capture is abandoned and the generation raised |
| Capture.CaptureCoordinator.Fail | crates/openwhisper-core/src/state.rs:255-269 | whatever is active fails, keeping its session |
| Capture.LifecycleOnlyMovesForward | crates/openwhisper-core/src/state.rs:106-269 | in every run each state carries the coordinator's generation and follows every earlier state, with session, mode and target preserved |
| Capture.AcceptedIff | crates/openwhisper-core/src/state.rs:126-253 | in every reachable state each command is accepted exactly in its own phase and for the coordinator's generation, and what it leaves |
| Capture.DictationRunsThrough | crates/openwhisper-core/src/state.rs:126-244 | from every state with no active capture a whole dictation runs through, with its session, mode and target, and completes once |
| Capture.StaleWorkIsHarmless | crates/openwhisper-core/src/state.rs:178-244 | work of a past generation is refused and changes nothing, for ever after |
| Capture.AbandonedWorkIsHarmless | crates/openwhisper-core/src/state.rs:246-253 | in particular after a cancellation or a later start |
| Capture.CompletedAtMostOnce | crates/openwhisperd/src/lib.rs:1522-1544 | each generation completes at most once, so delivery caches at most one result for it |
| Capture.UnguardedFailHitsAnotherIff | crates/openwhisperd/src/lib.rs:1169-1171 | for every run and every generation a caller was given in it, failing without comparing generations ends another capture exactly when one is active and the generation has moved on |
| Capture.DeadlineFailHitsWhateverIsActive | crates/openwhisperd/src/lib.rs:518-526 | once the deadline has cancelled its own capture, its failure ends another one exactly when one is active |
| Capture.GuardedFailIsSafe | crates/openwhisperd/src/lib.rs:1194-1198 | after comparing generations a failure never ends another capture and always its own |
| Capture.FailureKeepsTheSession | crates/openwhisper-core/src/state.rs:255-269 | a failure keeps the session that failed, however often it is reported |
| Capture.UnguardedFailHitsNewerCapture | crates/openwhisperd/src/lib.rs:1169-1171 | a run in which a failure reported for an abandoned capture ends the one that replaced it |
| OnlineAsr.HypothesisBuffer.Insert | whisper_online.py:408-435 | the new words, less the shortest n-gram of up to five words repeated from the committed ones |
| OnlineAsr.HypothesisBuffer.RepeatedWords | whisper_online.py:415-435 | the search for that n-gram |
| OnlineAsr.InsertSpec | whisper_online.py:408-435 | for every buffer and transcription, which words an insert keeps and when it drops the shortest repeated n-gram of up to five words |
| OnlineAsr.StartingAfterAppend | whisper_online.py:411-412 | words are selected by their start one by one, in order |
| OnlineAsr.HypothesisBuffer.Flush | whisper_online.py:437-458 | the words confirmed and the new buffers |
| OnlineAsr.HypothesisBuffer.PopCommitted | whisper_online.py:460-462 | committed words that ended by then leave the buffer |
| OnlineAsr.DropEndedSpec | whisper_online.py:460-462 | exactly the leading words that ended by the time are dropped |
| OnlineAsr.OnlineASRProcessor.ProcessIter | whisper_online.py:528-586 | the state and the text returned by one iteration, whatever the recogniser says |
| OnlineAsr.OnlineASRProcessor.ChunkCompletedSegment | whisper_online.py:605-624 | where the audio is cut, if anywhere |
| OnlineAsr.OnlineASRProcessor.LastCompletedEnd | whisper_online.py:613-617 | the loop that looks for the cut finds the latest segment end but the final one that is not too late, or none |
| OnlineAsr.OnlineASRProcessor.ChunkAt | whisper_online.py:626-631 | the audio, the offset and the committed words left after a cut |
| OnlineAsr.OnlineASRProcessor.Finish | whisper_online.py:659-667 | the uncommitted rest is returned |
| OnlineAsr.FlushConfirmsAgreement | whisper_online.py:437-458 | a flush confirms the longest run of words agreeing with the previous insert and keeps the others |
| OnlineAsr.RunIsConsistent | whisper_online.py:528-586 | in every run committed words in the buffer are a suffix of all committed words, audio a suffix of all audio, and returned words are exactly the committed ones |
| OnlineAsr.ReturnedInterval | whisper_online.py:528-586 | in every run an iteration returns nothing if it confirmed nothing, and otherwise the interval from its first to its last confirmed word, whose end is the new last committed time |
| OnlineAsr.TrimsOnlyLongAudio | whisper_online.py:565-571 | audio is trimmed exactly when there is more of it than the limit |
| OnlineAsr.ReturnedTextIsComplete | whisper_online.py:659-690 | returned texts join to the text of all committed words, and finish adds exactly the uncommitted rest |
| OnlineAsr.TrimCutsAtLatestCommittedEnd | whisper_online.py:605-624 | a trim happens exactly when some non-final segment end is not past the last committed word, never cuts past it, and with sorted ends cuts at the latest |
| OnlineAsr.ClockDriftIsBounded | whisper_online.py:626-631 | for every run, offset and buffer together run ahead of the audio received by the overshoot of the cuts outside the audio, and by less than one sample more for each cut inside it |
| OnlineAsr.CutPastTheAudioMovesTheClock | whisper_online.py:626-631 | a run whose cut lies past the audio and moves the clock almost a second ahead |
| Distance.LevIsMinimumScriptCost | benchmarks/score.ts:21-31 | the reference: Levenshtein distance is the least cost of an edit script, and some script has it |
| Distance.CellRecurrence | benchmarks/score.ts:21-31 | a closed form of every table entry satisfies the loop's recurrence, missing cells included |
| Distance.Distance | benchmarks/score.ts:21-31 | what the program returns, in terms of true edit distances |
| Distance.DistanceBounds | benchmarks/score.ts:21-31 | it lies between the edit distance and one above it, each cut off at the length of the reference |
| Distance.DistanceCorrectIff | benchmarks/score.ts:21-31 | exactly when it equals the edit distance |
| Distance.DistanceOfEqualTexts | benchmarks/score.ts:21-31 | equal non-empty texts are one error apart, and an empty reference has none |
| Frames.IpcClient.Receive | cli/src/ipc.ts:132-151 | the messages routed, the tail kept and whether the connection closes after one chunk |
| Frames.HeaderIsBigEndian | crates/openwhisper-protocol/src/lib.rs:379-416 | a frame starts with its length in four bytes, most significant first |
| Frames.ReadFrameIff | crates/openwhisper-protocol/src/lib.rs:379-416 | for every stream, a payload is read exactly when the stream begins with its frame, and each failure exactly under its condition |
| Frames.FramesRoundTrip | crates/openwhisper-protocol/src/lib.rs:379-416 | writing is refused exactly when a message is oversized; otherwise reading what was written gives the messages in order and then a clean end |
| Frames.DecodersAgree | cli/src/ipc.ts:132-151 | the incremental and the blocking decoder take the same frames from the same bytes |
| Frames.DrainMore | cli/src/ipc.ts:132-151 | decoding a prefix, and then its tail with the bytes that follow, is decoding the whole |
| Frames.DecodingIgnoresChunking | cli/src/ipc.ts:132-151 | unless a well-formed message follows a malformed one, messages and closing do not depend on how the stream is cut |
| Frames.ChunkingIsInvisibleIff | cli/src/ipc.ts:132-151 | all ways to cut a stream route the same messages exactly when no well-formed message in it follows a malformed one |
| Frames.ChunkedMessagesArriveIntact | cli/src/ipc.ts:122-151 | for every split, exactly the encoded messages are routed in order and the incomplete tail retained |
| Frames.MalformedFrameMakesChunkingVisible | cli/src/ipc.ts:132-151 | two cuts of a malformed and a good frame that route differently |
| Lines.ReadBoundedLine | crates/openwhisper-worker-native/src/main.rs:26-57 | however the input is buffered, the next line of the stream is consumed, one that is over-long or not UTF-8 reported as such |
| Lines.ReportIs | crates/openwhisper-worker-native/src/main.rs:26-57 | every line of up to 1 MiB is returned as it is exactly when it encodes Unicode scalar values; longer ones are reported as over-long |
| Lines.LinesAreReadBack | crates/openwhisper-worker-native/src/main.rs:26-57 | a stream of lines reads back one report per line, the lines after an over-long one intact, up to the first that is not UTF-8 |
| Lines.AllLinesReportedIff | crates/openwhisper-worker-native/src/main.rs:54-56 | every line is reported exactly when none but the last is short enough and not UTF-8 |
| Lines.ReadEngineLine | src-tauri/src/engine.rs:734-755 | the engine host's reader returns the next line with its newline, or fails exactly when it is over the limit |
| Lines.EngineLineIs | src-tauri/src/engine.rs:734-755 | a line of up to 8 MiB comes back with its newline, a longer one fails |
| Resampler.MonoLength | crates/openwhisper-core/src/audio.rs:448-452 | one mono sample per whole frame |
| Resampler.MonoAt | crates/openwhisper-core/src/audio.rs:448-452 | each mono sample is the mean of its own frame |
| Resampler.MeanSpec | crates/openwhisper-core/src/audio.rs:448-452 | the mean of a frame times its channels is their sum, and lies between any bounds of theirs |
| Resampler.SumAppend | crates/openwhisper-core/src/audio.rs:448-452 | that sum may be taken in any grouping |
| Resampler.SourceInBounds | crates/openwhisper-core/src/audio.rs:456-463 | for every rate, every output frame reads inside the input |
| Resampler.InterpolatesBetweenNeighbours | crates/openwhisper-core/src/audio.rs:461-465 | every sample before clamping lies between its two neighbours |
| Resampler.SampleIs | crates/openwhisper-core/src/audio.rs:456-466 | every output sample in integers: index * rate / 16000 is the input frame it starts from and the remainder how far it goes towards the next; the last frame is held |
| Resampler.QuantizeSpec | crates/openwhisper-core/src/audio.rs:466 | quantisation is monotone, odd, within the signed peak and exact on PCM values |
| Resampler.QuantizeNearest | crates/openwhisper-core/src/audio.rs:466 | quantisation takes the nearest PCM value, halves away from zero, and clamps at the peak |
| Resampler.NormalizeIsBounded | crates/openwhisper-core/src/audio.rs:440-470 | which inputs are refused; otherwise floor(frames * 16000 / rate) samples, each between its quantised neighbours |
| Resampler.OutputFits | crates/openwhisper-core/src/audio.rs:456-458 | as many output samples as fit into the duration of the input |
| Resampler.WholeFactorPicksFrames | crates/openwhisper-core/src/audio.rs:456-468 | at a multiple of 16 kHz every output sample is an input frame, clamped and rounded |
| Resampler.InternalFormatIsKept | crates/openwhisper-core/src/audio.rs:440-470 | 16 kHz mono input is only clamped and rounded |
| Resampler.LinesAreReproduced | crates/openwhisper-core/src/audio.rs:456-468 | a straight line is reproduced exactly at every rate |

## Left out

- Word normalisation: words are compared through an arbitrary key function; the Unicode tables behind lower-casing and the alphanumeric test are not modelled.
- Integer width: counters and totals are unbounded; saturation and wrap-around at 64 bits are not modelled.
- Floating point: times in the streaming policy and samples in the resampler are exact reals, so rounding is not modelled.
- Supervisor.EngineSupervisor.AcceptEventFrame: the generation check and the update happen under two separate locks in the source and are one step here; the order of two sink calls is not modelled.
- Supervisor.EngineSupervisor.AcceptResponseFrame: one step for the same reason, and the content of replies is left out.
- WorkerChannel.ReadResponse: the deadline is a number of lines read.
- WorkerChannel.Worker.Serve: model paths, languages, latencies and backend reports are left out of requests and replies; inference is an arbitrary outcome.
- Download.ModelDirectory.Download: URL scheme checks, manifest validation, file permissions, fsync and local I/O errors are left out; hashing is an arbitrary function compared with the pinned lower-case digest, and writing the ETag file is one step.
- Offline import, the catalogue and manifest signatures of the model store.
- Distance.Distance: normalisation of the texts and the statistics around the score are left out.
- Frames.IpcClient.Receive: payloads are bytes with a validity predicate; JSON, UTF-8 and routing to waiting calls are left out.
- OnlineAsr.OnlineASRProcessor.ProcessIter: the sentence-based trimming mode, the prompt and logging are left out; the recogniser's output is an arbitrary input.
- LiveInsertion.LiveTranscript.OnHypothesis: pasting is an outcome chosen by the environment; target checks, the clipboard and the events emitted on the way are left out.
- LiveInsertion.LedgerIsHonest: covers runs whose stream task is not aborted between `push` and the recorded outcome; the aborted runs are the subject of AbortLosesTheDeltaInTheAir.
- AudioPipeline.CaptureWriter.Accept: the WAV file, level metering and read errors are left out.
- LiveInsertion.TypedTextIsFinalTextIff: the replacements read again for the final text are taken to be those of the stream.
- AudioPipeline.WorkerHoldsLastWindow: the replayed `stream_start` and its failure are part of the outcome that ends the stream.
- Subscription.ClientLoop.OnEvent: event payloads, status contents and the other requests a client can send are left out.
- Capture.CaptureCoordinator.Start: the start time is left out.
- Liveness: waits, sleeps and timeouts are steps that may or may not happen.
- Result cache expiry, history, settings, configuration migration, the command line, the desktop interface and the Python desktop runtime.
