# hootty: a verified model of its byte streams and protocols

hootty supervises a terminal session. A single dispatcher owns the pseudo-terminal: it tees every chunk of
output to a recorder, to a terminal emulator, to a mirror that sees the primary screen only, and to the attached
clients, each behind a filter that removes terminal queries. Clients negotiate a common window size, watch their
keyboard input for a detach chord, and restore the user's terminal when they leave. This project models those
components and proves what they promise over all inputs and all runs.

| module | models | main results |
|---|---|---|
| `HootLog` | the `hootty.log v1` format, the frame decoder, the windowed query | `CrashTruncation`, `TimesExactIffInRange`, `WindowQueryExact` |
| `Recording` | the recorder: 33 ms buckets, chained frames, idle spacers | `RunKeeps`, `RoundTrip`, `CrashMidRun`, `BridgeCount` |
| `LogBytes` | the format byte by byte, and how much is written when | `ReadsAnySpacer`, `BodyIff`, `ChunksCount` |
| `VtTokens` | a whole-string reading of control sequences (section 5.4 of ECMA-48) and control strings (section 5.6 of ECMA-48), and a streaming reader | `LexRefines`, `BoundedMemory` |
| `QueryStripper` | the streaming terminal-query stripper | `StreamingRefines`, `Conservation`, `OscFormIndependent`, `CsiFormIndependent` |
| `QueryTable` | the queries written out as texts | `CsiDroppedIff`, `OscDroppedIff` |
| `StrippedOutput` | the stripper's output read again | `ReadsBackIff`, `QueryIffFusedTail`, `FusedByEnq`, `FusedByQuery` |
| `PrimaryFilter` | the primary-screen filter | `StreamingRefines`, `SwitchIff`, `AltEpisodeInvisible` |
| `Dispatcher` | the PTY dispatcher as a step system and as an object | `ReachableSafe`, `SubscriberSeesEverything`, `SessionRecorded` |
| `Subscriptions` | what a client gets, told from the actions alone | `SnapshotLives`, `ClientSeesEverything`, `LostIffShort` |
| `KeyEvents`, `ChordFsm` | the key lexer and the detach-chord machine | `ReportRoundTrip`, `KeysPartition`, `UnchangedIffNoPrefix`, `QuoteDelivers` |
| `ChordTable` | prefix presses, chords, prefix texts and keys, told from bytes and written reports | `ReportPrefixIff`, `ReportFollowUp`, `HexSpec` |
| `AttachSizes` | the min-wins size negotiator | `RunKeeps`, `MembersAreDeclared`, `DeclaredMinWins` |
| `CsiScan`, `CsiSteps` | the restorer's byte loop, a terminal's own reading of control sequences, and the two in lock step | `ScanRefines`, `RestorerSees`, `JointHolds`, `Followed` |
| `KittyRestorer` | the kitty-keyboard stack tracker | `StackRestored`, `NeverDeeperIffRoom` |
| `KittySequences` | what a terminal takes for a push, a pop and a mode switch; the clean-up written out | `ObeysIsDoes`, `PopNoted`, `ResetsAreCatalogue` |
| `KittyTerminal` | the tracker at a terminal with its own reading | `InStepIff`, `StackRestoredAtTerminal`, `NeverDeeperAtTerminal` |
| `AttachWire` | the attach frames on the wire | `RoundTrip`, `StreamIsFrames`, `CleanEndIff` |
| `Bytes` | machine integers, little-endian fields, sequences | shared helpers |

The pattern is the same throughout. A reference definition reads a whole string, list or run. Where the source
keeps state, a class with the source's fields has methods with the source's loops and branches, each proved equal
to a step function on the object's abstract value (`View()`). Lemmas over all inputs then connect the step
function with the reference. Classifications that a step and its specification share, such as which
sequences are queries or which keys are a prefix press, are stated once more from literal texts and bytes and proved
equal for all inputs (`QueryTable`, `LogBytes`, `ChordTable`, `KittySequences`).

The parts compose: `Dispatcher.SessionRecorded` joins the dispatcher's steps, the recorder's invariant, the frame
encoding and the decoder into one statement about the file a session leaves behind, and
`Subscriptions.ClientSeesEverything` joins the dispatcher's invariant with the stripper's refinement of the token
reading.

`dafny verify dfyconfig.toml` checks the whole project.

## Conventions

- A clock is an input of every call that reads it. `Recording.Clocked` says that it never goes back and fits an
  int64 count of nanoseconds, which is what a monotonic `time.Since` delivers.
- An emulator is the list of chunks it has been fed; a snapshot is that list at the moment it is taken.
- A Go channel is its capacity, everything a send was accepted for, how much of that was received, and whether it
  is closed; a send to, or a close of, a closed channel sets `panicked`.
- A reader or writer is the bytes still to be delivered or written so far.
- Map iteration picks an arbitrary member each time, so results hold for every iteration order.
- The recorder documents the invariant "pending time not behind the last emitted time" (recorder.go:79-85), and
  `Recording.RunKeeps` proves it for every reachable state. `Recording.Inv` adds that a held bucket is the last
  emitted time or a multiple of 33, which is what makes it inductive.
- Unsigned and signed wrap-around is written out (`U64`, `U16`, `Int64`, `Int32`).

## Where the code and its promise part

- The decoder shows a uint64 of milliseconds as an int64 of nanoseconds (recorder.go:431). From 292 years of
  recorded idle time on, reachable by 2148 full spacers, times wrap and the windowed query can be wrong.
  `LongIdleOverflows` is the family of files, `TimesExactIffInRange` and `WindowQueryExact` say exactly when times
  and windows are right. No recording made under a `Clocked` clock is affected.
- `ReadFrame` documents `io.EOF` for a close at a frame boundary (internal/attachwire/wire.go:105-106). It also
  returns it when the stream ends right after the header of a frame with a payload: `HeaderThenClose`, and
  `CleanEndIff` for exactly when.
- The kitty tracker counts in 32 bits. `HugePopLeaks` shows two sequences after which the user's terminal keeps a
  frame; `NeverDeeperIffRoom` says exactly when no detach point leaves the stack too deep, `StackRestored` when it
  is restored, and `CountExactIffFits` exactly when the count is right throughout. Fewer than 2^31 - 1 pushes and
  pop counts below 2^31 are enough (`OrdinaryFits`, `FitsHasRoom`).
- The kitty tracker recognises sequences by its own byte loop: at most 32 bytes, and an ESC, CAN or SUB inside a
  sequence neither starts over nor gives it up (cmd/hoot/attach_restorer.go:121-152). It errs in both directions.
  It can miss what a terminal acts on: after `ESC [ 1 ESC [ > u` a frame stays on the user's stack
  (`BrokenOffLeaks`). And it can note what no terminal acts on: after `ESC [ > CAN u`, cleaning up takes a frame of
  the user's own (`SpuriousTakes`). `InStepIff` says for every output exactly when both see the same events at every
  point, and `OrdinaryInStep` gives an easy sufficient condition. `StackRestoredAtTerminal` and
  `NeverDeeperAtTerminal` prove the promise, under that condition, at a terminal with its own reading of the whole
  stream.
- `ParsePrefixKey` documents control characters (internal/attachwire/wire.go:128-132) and accepts every byte outside
  printable ASCII, DEL and 0x80 to 0xff included: `AcceptedIffNotPrintable`.
- The stripper's output, read again, can contain a query that the input did not (vtquery_stripper.go:91-227), from
  two causes. An ESC that has lost its ENQ starts a sequence with the text after it: `ESC ENQ [ c` comes out as
  `ESC [ c` (`EnqExample`, and `FusedByEnq` for every query). And a control string broken off by a query that is
  dropped is completed by the text after it: `ESC ] 11; ESC [ c ? BEL` comes out as `ESC ] 11;? BEL`
  (`QueryExample`, and `FusedByQuery` for every colour query cut in two by any other query). `ReadsBackIff` says
  exactly when the output reads back as the pieces that passed; then it holds no ENQ and no query
  (`CleanWhenUnfused`). Otherwise it holds one exactly when the output from the first fused piece on does
  (`QueryIffFusedTail`).

## Model

| member | source | states |
|---|---|---|
| HootLog.ScanEncoded | recorder.go:381-434 | scanning any encoded list of frames gives back exactly that list with spacer time folded into the next frame, then end of file |
| HootLog.TimesExactIffInRange | recorder.go:413-432 | for any byte stream, decoded times equal unbounded running totals if and only if the last total fits an int64 duration, and then they never fall |
| HootLog.LongIdleOverflows | recorder.go:420-432 | every file of a preamble, at least 2148 full spacers and one output frame decodes without error to a wrong time |
| HootLog.DecodeRecorded | recorder.go:381-475 | preamble plus any encoded list decodes to that list at its true times, then end of file |
| HootLog.FramesOnPrefix | recorder.go:381-434 | any stream cut anywhere decodes to a prefix of its frames with the same times, then to end of file or the stream's own error |
| HootLog.CrashTruncation | recorder.go:357-434 | a recording cut anywhere after its preamble decodes to a prefix of its frames with the same times, then end of file, never an error |
| HootLog.BodyAfterPreamble | recorder.go:436-471 | the preamble the recorder writes is accepted and leaves exactly the frames |
| HootLog.WindowIsFilter | recorder.go:521-534 | over non-falling times the drop-leading-events loop is the filter "at or after last minus window" |
| HootLog.WindowQueryExact | recorder.go:501-534 | every positive window is answered exactly if and only if there is no output or the last time fits an int64 duration |
| HootLog.OutOfRangeWindow | recorder.go:521-534 | whenever the last time does not fit, some window is answered wrongly |
| HootLog.FrameDecoder.constructor | recorder.go:371-373 | a fresh decoder has the whole decoding of the file ahead of it |
| HootLog.FrameDecoder.Next | recorder.go:381-434 | each call takes the first pending frame off, or returns the error the decoding ends in; after the end of the file it returns that again, and after another error it reads on behind the bytes consumed |
| HootLog.FrameDecoder.NextPastPreamble | recorder.go:389-434 | header, payload and the spacer recursion do what the scan does, with 64-bit time accumulation; the recursion ends |
| HootLog.FrameDecoder.ParsePreamble | recorder.go:436-471 | accepts exactly a magic first line and a blank line within 4097 bytes, and consumes just that |
| HootLog.ReadOutputEvents | recorder.go:488-534 | nothing for a missing path or file, the decoding's error, or the window of its output events |
| HootLog.CollectOutputs | recorder.go:501-520 | the loop gathers exactly the output events, the latest time and the stop reason |
| HootLog.FromCutoff | recorder.go:528-534 | drops exactly the leading events before the cutoff |
| LogBytes.PreambleOnDisk | recorder.go:27-33 | the preamble is "# hootty.log v1" and two newlines |
| LogBytes.OutputOnDisk | recorder.go:288-306 | an output frame is type 1, delta and length low byte first, and the chunk |
| LogBytes.ResizeOnDisk | recorder.go:324-339 | a resize frame is type 2, delta, length 4, columns, rows |
| LogBytes.SpacerOnDisk | recorder.go:251-260 | a spacer is type 3, no delta, length 4, milliseconds |
| LogBytes.ReadsAnyFrame | recorder.go:389-432 | any complete frame of a type other than 3 is returned as it stands |
| LogBytes.ReadsAnySpacer | recorder.go:413-423 | a spacer adds its milliseconds to the next frame, and its own delta is ignored |
| LogBytes.RefusesSpacer | recorder.go:417-419 | a complete spacer of a length other than 4 is an error |
| LogBytes.EndsShort | recorder.go:389-411 | anything shorter than its header says ends the file |
| LogBytes.BodyIff | recorder.go:436-471 | a file is accepted exactly if its first blank line ends within 4097 bytes and its first line is the magic text; the frames are what follows |
| LogBytes.NoBlankLine | recorder.go:441-461 | a file without a blank line is refused |
| Recording.BridgeSpec | recorder.go:238-265 | spacers move the clock to within a u16 of the target, never past it, and show nothing |
| Recording.BridgeCount | recorder.go:238-265 | exactly gap div (2^32 - 1) spacers, plus one if the remainder exceeds 65535, none for gaps up to 65535 |
| Recording.ChunksSpec | recorder.go:283-316 | chained frames carry the whole bucket at one time, however long it is |
| LogBytes.ChunksCount | recorder.go:283-316 | one frame for a bucket of up to 65535 bytes, and one for every further 65535 or part of them |
| LogBytes.SameWindowHeld | recorder.go:146-168 | a write in the window of the held bucket writes nothing and is held with it |
| LogBytes.NewWindowFlushes | recorder.go:146-168 | a write in another window writes out exactly the held bucket and is held |
| Recording.FlushSpec | recorder.go:270-318 | flushing changes nothing visible: the held bytes appear at the bucket's time and the clock stands there |
| Recording.BucketNear | recorder.go:146-157 | a bucket is a window boundary or the last emitted time, and less than 33 ms before the clock |
| Recording.BucketAhead | recorder.go:147-157 | no later bucket falls behind a held one |
| Recording.WriteKeeps | recorder.go:137-169 | a write keeps the invariant and adds its bytes, each less than 33 ms before its clock |
| Recording.ResizeKeeps | recorder.go:173-192 | a resize keeps the invariant and adds one resize at exactly its clock, after all earlier output |
| Recording.RunKeeps | recorder.go:79-93 | after every run: last emitted time <= held bucket <= clock, no subtraction wraps, and everything handed over is present in order |
| Recording.RoundTrip | recorder.go:105-220 | after any run and Close the file decodes without error to the prelude, every resize at its clock and every byte within 33 ms before its clock, in order, nothing lost or added |
| Recording.CrashMidRun | recorder.go:357-434 | a file cut anywhere in the middle of any run decodes to a faithful beginning of what was handed over; uncut it lacks only the held bucket |
| Recording.Recorder.constructor | recorder.go:105-132 | preamble and prelude resize, with 80 by 24 for zero sizes |
| Recording.Recorder.Emit | recorder.go:324-339 | header and payload of one frame are appended to the file |
| Recording.Recorder.BridgeIdle | recorder.go:238-265 | the spacer loop appends the specified spacers and ends, also for a regressed time |
| Recording.Recorder.EmitSpacer | recorder.go:243-262 | one spacer carries as much of the gap as a u32 holds, with no wrap |
| Recording.Recorder.FlushPending | recorder.go:270-318 | the chunking loop appends the bucket's chained frames |
| Recording.Recorder.Write | recorder.go:137-169 | bucket floor, flush on bucket change, append; the file stays the encoding of the frames |
| Recording.Recorder.RecordResize | recorder.go:173-192 | flush, bridge, one resize frame |
| Recording.Recorder.Close | recorder.go:204-220 | flush once; later calls do nothing |
| VtTokens.TokensSpell | vtquery_stripper.go:91-227 | tokens and the incomplete rest spell the input back |
| VtTokens.LexAppend | vtquery_stripper.go:70-76 | reading two strings in turn is reading their concatenation |
| VtTokens.LexRefines | vtquery_stripper.go:91-227 | for every input the streaming reader, re-entrant case included, completes exactly the tokens of the whole string and holds back exactly the incomplete rest |
| VtTokens.BoundedMemory | vtquery_stripper.go:137-200 | after any input at most 256 bytes are pending in a control sequence and 1024 in a control string |
| VtTokens.CsiIsToken | vtquery_stripper.go:137-161 | introducer, parameters without a final byte and a final byte are one token, in both introducer forms |
| VtTokens.OscIsToken | vtquery_stripper.go:163-215 | introducer, body and terminator are one token, in all six forms |
| QueryStripper.ChunkingIrrelevant | vtquery_stripper.go:70-76 | from any state, cutting the input into chunks does not change the bytes that pass |
| QueryStripper.StreamingRefines | vtquery_stripper.go:70-227 | for every input and chunking the output is the whole input's tokens with ENQs and queries removed |
| QueryStripper.Conservation | vtquery_stripper.go:91-227 | input is the pieces in order plus the bytes in flight; each piece passes whole or is an ENQ or a query; in-flight bytes are bounded |
| QueryStripper.OscFormIndependent | vtquery_stripper.go:351-428 | a control string is dropped if and only if its selector is 4, 10, 11 or 12 and a later field is exactly "?", for either introducer and all three terminators; otherwise it passes byte for byte |
| QueryStripper.CsiFormIndependent | vtquery_stripper.go:232-344 | the verdict on a control sequence depends on parameters and final byte only, for both introducers; non-queries pass byte for byte |
| QueryTable.CsiDroppedIff | vtquery_stripper.go:232-344 | for every control sequence in either introducer form exactly the listed queries are dropped, every other passes byte for byte |
| QueryTable.OscDroppedIff | vtquery_stripper.go:351-428 | for every control string in all six forms exactly those with selector 4, 10, 11 or 12 and a later "?" between separators are dropped |
| QueryTable.ByteRuns | vtquery_stripper.go:93-110 | a byte that starts nothing passes, unless it is ENQ |
| QueryTable.EscapeRuns | vtquery_stripper.go:112-135 | ESC and a byte that opens nothing pass; ENQ loses its own byte only |
| QueryTable.CsiCutOff | vtquery_stripper.go:138-161 | a control sequence is held up to its 256th byte, and the 257th lets it go as it is |
| QueryTable.OscCutOff | vtquery_stripper.go:193-200 | a control string is held up to its 1024th byte, and the 1025th lets it go as it is |
| QueryStripper.OscPayloadIsQuery | vtquery_stripper.go:384-401 | true if and only if some field is exactly "?" |
| QueryStripper.JudgeOsc | vtquery_stripper.go:351-379 | the selector split and payload walk decide the verdict |
| QueryStripper.VtQueryStripper.constructor | vtquery_stripper.go:50-56 | starts in the ground state |
| QueryStripper.VtQueryStripper.Filter | vtquery_stripper.go:70-76 | one call is one run of the specified filter, and memory stays bounded |
| QueryStripper.VtQueryStripper.Feed | vtquery_stripper.go:91-227 | one byte, re-entrant calls included, terminates and outputs exactly the tokens it completes |
| QueryStripper.VtQueryStripper.FeedEsc | vtquery_stripper.go:112-135 | the state after ESC |
| QueryStripper.VtQueryStripper.FeedCsi | vtquery_stripper.go:137-161 | the control-sequence state with its cut-off |
| QueryStripper.VtQueryStripper.FeedOsc | vtquery_stripper.go:163-200 | the control-string state with its cut-off |
| QueryStripper.VtQueryStripper.FinishOsc | vtquery_stripper.go:166-176 | a terminated control string is dropped if it is a query and passed otherwise |
| StrippedOutput.FirstMonotone | vtquery_stripper.go:91-227 | a token complete in a string stays its first token whatever follows |
| StrippedOutput.BrokenOffIff | vtquery_stripper.go:205-224 | an open control string ends at this point if and only if what follows starts with ESC and not with ESC \ |
| StrippedOutput.ReadsBackIff | vtquery_stripper.go:91-227 | for every input the output reads back as exactly the kept tokens, up to a control string open at its end, if and only if no ESC has lost its ENQ and each broken-off control string is last or followed by a kept piece that starts a new escape sequence |
| StrippedOutput.CleanWhenUnfused | vtquery_stripper.go:1-49 | then no token of the output is an ENQ or a query, and stripping it again passes all of it |
| StrippedOutput.UnfusedIffNoneFuses | vtquery_stripper.go:91-227 | the condition on the kept tokens holds if and only if no piece fuses with the output that follows it |
| StrippedOutput.QueryIffFusedTail | vtquery_stripper.go:91-227 | for every input the output reads as the kept pieces before the first fused one and then as the rest of the output reads; it holds an ENQ or a query if and only if some piece fuses and the output from the first such piece on holds one |
| StrippedOutput.FusedByEnq | vtquery_stripper.go:122-127 | for every query, an ENQ between its ESC and the rest makes it come out as that query |
| StrippedOutput.FusedByQuery | vtquery_stripper.go:216-224 | for every colour query cut in two by any dropped control sequence, the colour query comes out whole, in all introducer and terminator forms |
| StrippedOutput.EnqExample | vtquery_stripper.go:122-127 | ESC ENQ [ c comes out as ESC [ c, which the stripper would drop |
| StrippedOutput.QueryExample | vtquery_stripper.go:216-224 | ESC ] 11; ESC [ c ? BEL comes out as ESC ] 11;? BEL, which the stripper would drop |
| PrimaryFilter.ChunkingIrrelevant | vtprimary_filter.go:25-31 | cutting the input into chunks does not change what the mirror is fed |
| PrimaryFilter.StreamingRefines | vtprimary_filter.go:25-94 | the mirror gets exactly the non-switch tokens seen off the alternate screen, and the flag is the direction of the last complete switch |
| PrimaryFilter.AltEpisodeInvisible | vtprimary_filter.go:3-10 | cutting out enter, any complete switch-free content and exit changes neither the mirror's input nor the state |
| PrimaryFilter.PlainSwitch | vtprimary_filter.go:96-127 | the plain forms of 47, 1047 and 1049, set or reset, in both introducer forms are switches |
| PrimaryFilter.SwitchIff | vtprimary_filter.go:57-127 | every control sequence switches if and only if it sets or resets a private mode 47, 1047 or 1049 among its parameters; any other is fed byte for byte on the primary screen and not at all on the alternate one |
| PrimaryFilter.SwitchFreePasses | vtprimary_filter.go:33-94 | complete output without a switch reaches the mirror of a primary screen unchanged |
| PrimaryFilter.CsiAltScreenMode | vtprimary_filter.go:96-127 | recognises exactly the private set and reset of an alternate-screen mode, with its direction |
| PrimaryFilter.FindAltMode | vtprimary_filter.go:108-126 | the shrinking loop finds a mode if and only if some field is one |
| PrimaryFilter.VtPrimaryScreenFilter.constructor | vtprimary_filter.go:11-15 | starts on the primary screen in the ground state |
| PrimaryFilter.VtPrimaryScreenFilter.Filter | vtprimary_filter.go:25-31 | one call is one run of the specified filter |
| PrimaryFilter.VtPrimaryScreenFilter.Feed | vtprimary_filter.go:33-94 | one byte in each of the three states |
| Dispatcher.StripperStreams | pty_libghostty.go:277-281 | a per-subscriber stripper is a streaming filter |
| Dispatcher.PassedIsOneRun | pty_libghostty.go:277-281 | the per-chunk outputs join up to one fresh stripper run over all raw bytes |
| Dispatcher.StepKeeps | pty_libghostty.go:211-247 | every action keeps the invariant from every state that has it |
| Dispatcher.ReachableSafe | pty_libghostty.go:177-299 | in every reachable state: no channel closed twice or sent to after close, snapshot plus live chunks is the emulator's history, delivery is complete or a subsequence, the mirror has the filtered stream |
| Dispatcher.SubscriberSeesEverything | pty_libghostty.go:643-682 | for a live lossless subscriber made with its snapshot: snapshot bytes followed by raw bytes are all the emulator's bytes, and what was delivered is those raw bytes with ENQs and queries removed |
| Subscriptions.SnapshotLives | pty_libghostty.go:647-665 | a successful snapshot subscription is registered and open until it is cancelled or all is torn down; its snapshot is everything fed before it and its chunks exactly those since |
| Subscriptions.PlainLives | pty_libghostty.go:607-612 | so is a plain one, at any time, without a snapshot |
| Bytes.SubsequencePicks | pty_libghostty.go:282-288 | what is delivered when chunks are lost stands, in order, among the filtered chunks |
| Subscriptions.NothingLost | pty_libghostty.go:277-288 | a client whose channel has room whenever a chunk comes loses nothing |
| Subscriptions.LostIffShort | pty_libghostty.go:277-288 | something was lost if and only if what was sent is not every non-empty output of a fresh stripper |
| Subscriptions.ClientSeesEverything | pty_libghostty.go:643-682 | a client that subscribes with a snapshot and keeps up, or gets at most 256 chunks, has the emulator's whole history and is sent its chunks' bytes with ENQs and queries removed |
| Subscriptions.EndedStays | pty_libghostty.go:177-184 | cancelling and tearing down close a subscription for good, and nothing more is sent |
| Subscriptions.FailedStays | pty_libghostty.go:658-664 | a failed snapshot leaves a closed channel that is never served |
| Subscriptions.SkippedStays | pty_libghostty.go:666-669 | an action that never ran registers nothing; its caller closes the channel or leaves it open |
| Subscriptions.LateStays | pty_libghostty.go:654-657 | after teardown a snapshot subscription registers nothing |
| Dispatcher.EmulatorTracks | pty_libghostty.go:252-264 | before teardown the emulator has been fed every chunk in order |
| Dispatcher.RecorderTracks | pty_libghostty.go:258-264 | before teardown the recorder has been given the same chunks and the accepted resizes |
| Dispatcher.WantedBytes | pty_libghostty.go:252-264 | the bytes handed to the recorder are the bytes fed to the emulator |
| Dispatcher.DrainedAfter | pty_libghostty.go:211-223 | whatever is still queued at teardown leaves the recording as it was closed |
| Dispatcher.SessionRecorded | pty_libghostty.go:173-223 | end to end: after any run, teardown and any actions drained afterwards the log decodes to the prelude, every resize and every emulator byte, in order and within the timing bound |
| Dispatcher.LibghosttyPty.constructor | pty_libghostty.go:119-171 | a fresh dispatcher with optional recorder |
| Dispatcher.LibghosttyPty.OnChunk | pty_libghostty.go:258-290 | the chunk action: recorder, emulator, filtered mirror, fan-out |
| Dispatcher.LibghosttyPty.FanOutChunk | pty_libghostty.go:277-289 | every subscriber is served once, in any map order |
| Dispatcher.LibghosttyPty.ServeOne | pty_libghostty.go:278-288 | filter, skip empty output, send without blocking |
| Dispatcher.LibghosttyPty.OnResize | pty_libghostty.go:407-455 | a resize is recorded only if the emulator is up and both terminals took it |
| Dispatcher.LibghosttyPty.DoSubscribe | pty_libghostty.go:607-638 | a plain subscription starts with a fresh stripper; if the action never ran, the channel stays open and unregistered |
| Dispatcher.LibghosttyPty.SubscribeWithSnapshot | pty_libghostty.go:647-724 | registering and snapshotting are one step; if the action never ran, the caller closes the channel |
| Dispatcher.LibghosttyPty.JoinWithSnapshot | pty_libghostty.go:653-665 | after teardown nothing is registered; a failed snapshot is taken back and closes the channel |
| Dispatcher.LibghosttyPty.DoCancel | pty_libghostty.go:613-621 | cancelling removes and closes once; cancelling again does nothing |
| Dispatcher.LibghosttyPty.Close | pty_libghostty.go:177-206 | the first call tears down if the action queue had room and does nothing otherwise; later calls do nothing |
| Dispatcher.LibghosttyPty.CloseSubscribers | pty_libghostty.go:181-184 | every remaining subscriber is removed and closed, in any map order |
| Dispatcher.LibghosttyPty.CloseChannel | pty_libghostty.go:617-618 | closing marks the channel closed and records a double close |
| Dispatcher.LibghosttyPty.MakeChannel | pty_libghostty.go:648-649 | a new channel is distinct from all others and empty |
| KeyEvents.KeysPartition | cmd/hoot/attach_fsm.go:49-92 | the raw bytes of the keys concatenate back to the input |
| KeyEvents.SingleKeys | cmd/hoot/attach_fsm.go:55-62 | without ESC every byte is a key of its own |
| ChordTable.EscapeKey | cmd/hoot/attach_fsm.go:60-72 | ESC and a byte other than "[" are one key, and so is a lone ESC at the end |
| ChordTable.SequenceKey | cmd/hoot/attach_fsm.go:73-92 | a control sequence up to its first final byte is one key, a report exactly if it ends in "u" |
| ChordTable.UnfinishedKey | cmd/hoot/attach_fsm.go:77-81 | a control sequence cut off by the end of the input is one key |
| ChordTable.NumbersRead | cmd/hoot/attach_fsm.go:129-138 | any number is read modulo 2^64; anything with a non-digit, and nothing, is 0 |
| ChordTable.TextIgnored | cmd/hoot/attach_fsm.go:94-114 | what follows the second ";" of a report does not matter |
| KeyEvents.DecimalRoundTrip | cmd/hoot/attach_fsm.go:129-138 | printing and parsing a 64-bit number is the identity |
| KeyEvents.ReportRoundTrip | cmd/hoot/attach_fsm.go:55-138 | for all 64-bit numbers, in full or with alternate code point, modifiers or event left out, reading a printed report consumes exactly its bytes and returns the same numbers, whatever follows |
| KeyEvents.SplitByte | cmd/hoot/attach_fsm.go:116-127 | the loop returns the fields between separators |
| KeyEvents.ParseDigits | cmd/hoot/attach_fsm.go:129-138 | the loop returns the spelled number modulo 2^64, or 0 if there is a non-digit |
| KeyEvents.ReadKeyEvent | cmd/hoot/attach_fsm.go:55-92 | one call returns the first key and leaves exactly the rest, and fails only on empty input |
| KeyEvents.ReadParams | cmd/hoot/attach_fsm.go:97-114 | the two groups and their sub-fields |
| ChordFsm.ForwardsAll | cmd/hoot/attach_fsm.go:304-310 | keys without a prefix press are forwarded whole |
| ChordFsm.NeverMore | cmd/hoot/attach_fsm.go:293-336 | never more bytes are sent than typed, and strictly fewer once the prefix is pressed |
| ChordFsm.UnchangedIffNoPrefix | cmd/hoot/attach_fsm.go:293-336 | input is forwarded unchanged if and only if it contains no prefix press |
| ChordFsm.AcceptedIffNotPrintable | internal/attachwire/wire.go:126-191 | exactly the bytes outside printable ASCII can be chosen as prefix |
| ChordFsm.PrintableForwarded | internal/attachwire/wire.go:133-135 | under every accepted prefix, printable text is forwarded unchanged |
| ChordFsm.QuoteDelivers | cmd/hoot/attach_fsm.go:293-336 | for any ESC-free string and accepted prefix other than ESC, sending each prefix byte as prefix and "^" delivers exactly the string |
| ChordFsm.ActsLikePrefix | cmd/hoot/attach_fsm.go:205-223 | any key classified as a prefix press leaves the machine where the raw byte does |
| ChordFsm.ReportActsLikePrefix | cmd/hoot/attach_fsm.go:171-223 | for every prefix, a printed press report, with any fields left out, of a code point or alternate code point that ctrl turns into the prefix, pressed with ctrl, acts exactly like the raw byte |
| ChordTable.ReportPrefixIff | cmd/hoot/attach_fsm.go:171-223 | for every prefix and printed report: swallowed as a prefix press if and only if it is pressed, its modifier is 1 plus a mask that holds 4, and it names a key that ctrl turns into the prefix; forwarded otherwise |
| ChordTable.BytePrefixIff | cmd/hoot/attach_fsm.go:205-208 | a byte other than ESC is a prefix press if it is the prefix and forwarded otherwise |
| ChordTable.ByteFollowUp | cmd/hoot/attach_fsm.go:228-243 | after the prefix "." detaches, "^" sends the prefix, Ctrl-Z suspends, "c" clones, and any other byte but ESC is swallowed |
| ChordTable.ReportFollowUp | cmd/hoot/attach_fsm.go:244-334 | after the prefix, for every printed report: a repeat or release changes nothing, a press does what its key and ctrl say, anything else is swallowed |
| ChordTable.SequenceSwallowed | cmd/hoot/attach_fsm.go:228-232 | a sequence that is no report is swallowed after the prefix and forwarded before it |
| ChordTable.ControlSpec | internal/attachwire/wire.go:140-169 | "C-x", "c-x" and "^x" name the control byte of x for every x, or nothing |
| ChordTable.HexSpec | internal/attachwire/wire.go:170-181 | "0x" and the two digits of a byte in either case, after any zeros, name that byte unless it is printable |
| ChordTable.OtherSpec | internal/attachwire/wire.go:136-191 | any other text names nothing |
| ChordTable.BadHexSpec | internal/attachwire/wire.go:170-175 | "0x" with no digit, a byte that is no hexadecimal digit or a number above 255 names nothing |
| ChordTable.ByteSpec | internal/attachwire/wire.go:183-190 | one byte names itself unless it is printable, and the empty text names nothing |
| ChordFsm.RunChordFSM | cmd/hoot/attach_fsm.go:293-336 | the loop performs exactly the actions of the key list and ends |
| ChordFsm.OnKey | cmd/hoot/attach_fsm.go:304-334 | one turn of the two-state machine |
| AttachSizes.MinSize | attach.go:166-191 | a non-empty set has a size that is the least in both dimensions and attained in both |
| AttachSizes.MinUnique | attach.go:166-191 | that size is unique, so map order cannot matter |
| AttachSizes.StepKeeps | attach.go:72-153 | every whole operation keeps: current is the minimum, everyone was told it, the PTY was given it |
| AttachSizes.RunKeeps | attach.go:72-153 | the same after every run, whatever the sizes |
| AttachSizes.MinWins | attach.go:26-36 | with positive sizes the size in force is the positive minimum, last applied and last told to every member |
| AttachSizes.MembersAreDeclared | attach.go:72-151 | after any run a client is a member if and only if it was added and not removed since, with the size of its last Add or Update |
| AttachSizes.DeclaredMinWins | attach.go:26-36 | with positive sizes the size in force is the minimum of the sizes the clients present declared last, it is the last one pushed to the PTY, and all of them were told it |
| AttachSizes.NumbersDrawn | attach.go:62-65 | every Add draws a new number |
| AttachSizes.AddNeverGrows | attach.go:72-95 | a newcomer to a non-empty set never grows either dimension |
| AttachSizes.RemoveNeverShrinks | attach.go:124-153 | a departure never shrinks either dimension, and emptying the set keeps size and PTY |
| AttachSizes.AttachSet.constructor | attach.go:51-58 | starts empty with a zero size |
| AttachSizes.AttachSet.Recompute | attach.go:166-191 | the effective size of the members, and whether it changed |
| AttachSizes.AttachSet.SmallestOf | attach.go:171-185 | the fold finds the minimum in any order |
| AttachSizes.AttachSet.Broadcast | attach.go:90-92 | each receiver is told the size, nobody else is |
| AttachSizes.AttachSet.DoAdd | attach.go:72-95 | the step for a newcomer, told by the result |
| AttachSizes.AttachSet.DoUpdate | attach.go:99-122 | the step for a changed size; unknown members change nothing |
| AttachSizes.AttachSet.DoRemove | attach.go:131-151 | the step for a departure; unknown members change nothing |
| CsiScan.ScanRefines | cmd/hoot/attach_restorer.go:121-152 | the byte loop finds exactly the control sequences of the whole string and holds the unfinished one, at most 32 bytes |
| CsiScan.BodiesAppend | cmd/hoot/attach_restorer.go:121-152 | strings that end between sequences can be read one after the other |
| CsiScan.RestorerSees | cmd/hoot/attach_restorer.go:121-152 | of output without broken-off sequences the byte loop finds exactly the terminal's sequences of at most 32 bytes |
| CsiSteps.JointHolds | cmd/hoot/attach_restorer.go:121-152 | at every point of every output, tracker and terminal hold the same, or the tracker is stuck in a sequence the terminal has given up, or the terminal is in one the tracker does not follow |
| CsiSteps.Followed | cmd/hoot/attach_restorer.go:121-152 | while the terminal is in a sequence the tracker holds exactly it if it was in none when the sequence began and it has at most 32 bytes, and nothing otherwise |
| KittyRestorer.ChunkingIrrelevant | cmd/hoot/attach_restorer.go:121-152 | how the output is cut into payloads does not matter |
| KittyRestorer.CountExactIffFits | cmd/hoot/attach_restorer.go:154-198 | the 32-bit count equals the unbounded count after every event if and only if every push has room and every pop fits or lands at zero |
| KittyRestorer.OrdinaryFits | cmd/hoot/attach_restorer.go:154-198 | fewer than 2^31 - 1 pushes and pop counts below 2^31 always fit |
| KittyRestorer.FitsHasRoom | cmd/hoot/attach_restorer.go:154-198 | where the count is right throughout, no push finds it at its maximum |
| KittyRestorer.OwedAtLeast | cmd/hoot/attach_restorer.go:163-198 | while no push wraps, at least what is outstanding is owed, however large a pop's count |
| KittyRestorer.StackRestored | cmd/hoot/attach_restorer.go:107-232 | after attach, any output in any chunking in which no push finds the count at its maximum, and clean-up, the terminal's stack is never deeper than before, and equally deep if and only if it was empty or no pop exceeded what was outstanding |
| KittyRestorer.NeverDeeperIffRoom | cmd/hoot/attach_restorer.go:163-232 | for all observed bytes: detaching after any of them leaves no terminal deeper than before if and only if no push finds the count at its maximum |
| KittyRestorer.HugePopLeaks | cmd/hoot/attach_restorer.go:184-198 | a pop of 2^31 + 2 and a push leave one frame on the user's terminal |
| KittySequences.ObeysIsDoes | cmd/hoot/attach_restorer.go:154-182 | what the tracker takes any sequence for is exactly what the sequence, by a terminal's own definitions of push, pop and mode, does to it |
| KittySequences.PushNoted | cmd/hoot/attach_restorer.go:163-164 | a push with any flags that fits the buffer adds one to what is owed |
| KittySequences.PopNoted | cmd/hoot/attach_restorer.go:165-198 | a pop takes its count off, down to zero |
| KittySequences.Counts | cmd/hoot/attach_restorer.go:371-383 | a printed count is itself; nothing, zero, a negative, a malformed and an oversized count are 1 |
| KittySequences.ModeNoted | cmd/hoot/attach_restorer.go:172-182 | value 2 of resource 4 switches the mode on, any other value of 4, 4 alone and nothing switch it off, any other resource leaves it |
| KittySequences.ModeExamples | cmd/hoot/attach_restorer.go:172-182 | resource 4 with any one value is on exactly for value 2, and 4 alone and nothing are off |
| KittySequences.OthersIgnored | cmd/hoot/attach_restorer.go:154-170 | any other leading or final byte changes nothing |
| KittySequences.BareIgnored | cmd/hoot/attach_restorer.go:155-157 | a final byte alone changes nothing |
| KittySequences.LongIgnored | cmd/hoot/attach_restorer.go:142-146 | a sequence of more than 32 bytes is passed over |
| KittySequences.AttachAndPopText | cmd/hoot/attach_restorer.go:205-312 | the texts of the push, of the pop for every count, and of the mode reset |
| KittySequences.PushPoppedOff | cmd/hoot/attach_restorer.go:107-217 | attach, a push with any flags and clean-up print two pops |
| KittySequences.ResetsAreCatalogue | cmd/hoot/attach_restorer.go:241-371 | clean-up writes exactly the texts of the catalogue, in order |
| KittyRestorer.OtherKeysRestored | cmd/hoot/attach_restorer.go:172-222 | modifyOtherKeys is on afterwards if and only if it was on before and the output never touched it |
| KittyTerminal.InStepIff | cmd/hoot/attach_restorer.go:121-170 | for every output, tracker and terminal see the same events at every point, if and only if no sequence noted as an event holds an ESC, CAN or SUB, and each event of the terminal has at most 32 bytes and began when the tracker was in no sequence |
| KittyTerminal.OrdinaryInStep | cmd/hoot/attach_restorer.go:121-170 | output without broken-off sequences in which no sequence over 32 bytes is an event is read in step |
| KittyTerminal.StackRestoredAtTerminal | cmd/hoot/attach_restorer.go:107-232 | the same promise, for every output read in step, at a terminal that reads the whole stream by itself, attach bytes, output and clean-up, finished or not |
| KittyTerminal.NeverDeeperAtTerminal | cmd/hoot/attach_restorer.go:163-232 | for every output read in step, detaching after any of its bytes leaves no such terminal deeper than before if and only if no push finds the count at its maximum |
| KittyTerminal.BrokenOffLeaks | cmd/hoot/attach_restorer.go:129-151 | a push that breaks off another sequence is missed and stays on the user's terminal |
| KittyTerminal.SpuriousTakes | cmd/hoot/attach_restorer.go:142-151 | a push that the terminal gives up is noted, and cleaning up takes a frame that was there before |
| KittyTerminal.ResetsProper | cmd/hoot/attach_restorer.go:241-297 | the fixed resets push, pop and switch nothing that is tracked, and begin with ESC, so the results for all such resets hold for them |
| KittyRestorer.PopReadsBack | cmd/hoot/attach_restorer.go:205-217 | the printed pop reads back as exactly the count owed, for tracker and terminal alike |
| KittyRestorer.HootRestorer.constructor | cmd/hoot/attach_restorer.go:96-103 | nothing owed, nothing held |
| KittyRestorer.HootRestorer.Attach | cmd/hoot/attach_restorer.go:107-119 | one pop is owed only if the push was written |
| KittyRestorer.HootRestorer.Observe | cmd/hoot/attach_restorer.go:121-152 | one payload is one run of the specified tracker; the buffer never exceeds 32 bytes |
| KittyRestorer.HootRestorer.ObserveByte | cmd/hoot/attach_restorer.go:122-151 | one byte in each buffer state |
| KittyRestorer.HootRestorer.ObserveCsi | cmd/hoot/attach_restorer.go:154-170 | a sequence is noted as the event it is |
| KittyRestorer.HootRestorer.ObserveModifyOtherKeys | cmd/hoot/attach_restorer.go:172-182 | the modifyOtherKeys parameters |
| KittyRestorer.HootRestorer.RemoveKittyKbdPop | cmd/hoot/attach_restorer.go:184-198 | 32-bit subtraction clamped at zero |
| KittyRestorer.HootRestorer.Cleanup | cmd/hoot/attach_restorer.go:200-232 | the pops owed, the mode off, and the fixed resets in order |
| KittyRestorer.HootRestorer.WriteResets | cmd/hoot/attach_restorer.go:226-230 | the loop writes every reset in order |
| AttachWire.FrameOnWire | internal/attachwire/wire.go:87-103 | a frame of up to 2^24 bytes is its type, its length low byte first, and the payload |
| AttachWire.TooLongIff | internal/attachwire/wire.go:112-115 | a header is refused as too long exactly if its length exceeds 2^24 |
| AttachWire.ReadsEncoded | internal/attachwire/wire.go:87-125 | an encoded frame reads back as itself, whatever follows |
| AttachWire.EncodesRead | internal/attachwire/wire.go:107-125 | whatever was read is what a writer would have written |
| AttachWire.RoundTrip | internal/attachwire/wire.go:87-125 | every list of frames with payloads up to 2^24 bytes is read back, then end of stream |
| AttachWire.StreamIsFrames | internal/attachwire/wire.go:107-125 | any stream is the encoding of the frames read followed by a leftover that holds no frame |
| AttachWire.PrefixReads | internal/attachwire/wire.go:107-125 | any stream cut anywhere reads to a prefix of its frames |
| AttachWire.CutStream | internal/attachwire/wire.go:87-125 | a written stream cut anywhere reads to a prefix of its frames and then an end-of-stream error |
| AttachWire.CleanEndIff | internal/attachwire/wire.go:105-125 | the plain end-of-stream error comes exactly at a frame boundary or right after the header of a frame with a payload |
| AttachWire.HeaderThenClose | internal/attachwire/wire.go:105-125 | a header whose payload never arrives reads as a plain end of stream |
| AttachWire.Stream.ReadFull | internal/attachwire/wire.go:109-121 | fills the buffer, or consumes everything and says whether anything was there |
| AttachWire.PutUint32 | internal/attachwire/wire.go:91-93 | fills the length bytes of the header |
| AttachWire.WriteFrame | internal/attachwire/wire.go:87-103 | appends the encoded frame, or refuses an oversized payload and writes nothing |
| AttachWire.ReadFrame | internal/attachwire/wire.go:107-125 | returns the first frame and consumes exactly it, or the specified error |
| AttachWire.ReadFrames | internal/attachwire/wire.go:107-125 | repeated reading returns all frames up to the first error |

## Left out

- libghostty terminals, formatters and snapshot bytes: foreign code, abstracted to the chunks fed.
- Write and read failures: a failed recorder write is modelled as truncation of the file; a failed attach write is the `writeOk` input of `Attach`; failing clean-up writes, and stream errors other than the end of the stream, are not modelled.
- Dispatcher queueing and liveness: each queued action is one step; whether `do` ran an action and whether `Close` found room in the queue are inputs of the methods, not derived from a model of the queue.
- Components inside the dispatcher: the recorder, the filter and the strippers are held as values with the step functions their own classes are proved against, so object identity and aliasing between them are not captured. Channels are values for the same reason.
- HootLog.ReadOutputEvents: errors in opening the file other than its absence are not modelled.
- StrippedOutput.CleanWhenUnfused: sufficient but not necessary for an output free of queries, since fused pieces need not spell one; `ReadsBackIff` and `QueryIffFusedTail` are the exact statements.
- KittyRestorer.StackRestored: gives the terminal the tracker's own reading; `KittyTerminal.StackRestoredAtTerminal` gives it its own recognition of sequences and its own definitions of push, pop and mode. Both let the stack grow without bound.
- KittyTerminal.StackRestoredAtTerminal: a terminal in which ESC, CAN and SUB give up a sequence and C1 bytes are text is assumed; for output not read in step the depth is not stated beyond `BrokenOffLeaks` and `SpuriousTakes`.
- KittyRestorer.HootRestorer.RemoveKittyKbdPop: the compare-and-swap retry is not modelled; one goroutine observes.
- AttachSizes.MinWins: positive sizes, which the attach handler checks for (attach_handler.go:132, attach_handler.go:296); overlapping calls, whose size frames are sent after the lock is released, are not modelled.
- ChordFsm.RunChordFSM: actions are listed, not performed; the message for a failed clone is not modelled.
- The prefix-key text forms are covered through `ParsePrefixKey`; its error texts are not.
- Asciicast export, state.json, the HTTP, WebSocket and ssh plumbing, the picker, heartbeats, reconnects and the TypeScript packages: input and output around the components modelled here.
