# ffmpeg tools: timestamps, filtergraph protocol and command line

A Dafny model of the parts of the ffmpeg command-line program that keep small hidden state over unbounded runs, with
proofs about whole runs: the main theorems are about all inputs, all runs or all reachable states, and the failures
they leave room for are shown at concrete inputs.

| module | models |
|---|---|
| `Common`, `AvMath` | shared types; rescaling, comparison and clipping of timestamps |
| `VideoSync` | frame-rate conversion: how often each frame is repeated or dropped |
| `PictureTimes`, `PictureCounts` | when each picture is shown, and what the duplicate and drop counters mean |
| `OutputProtocol` | what a filtering thread sends on its outputs when sends may be refused |
| `FilterBinding` | dry run, pruning and commit of filtergraph bindings |
| `DemuxTimestamps` | discontinuity repair, dts prediction, looping |
| `DtsPrediction` | how far dts estimates move over packets without dts |
| `AudioTimeline` | the decoder's exact audio time base |
| `Subtitles` | delayed subtitles with 32-bit durations |
| `MuxTimestamps` | the muxer's dts repair |
| `CondVar` | condition variables built from event semaphores, as interleaved steps of any number of threads |
| `CondVarCalls` | what whole calls of signal, wait and broadcast do |
| `CondVarStalls` | any number of signallers at once: when signals get stuck |
| `GetOpt` | the resumable option scanner |
| `CommandLine`, `CommandGroups` | the splitter and the locator of options: their agreement, and what the splitter collects |
| `OptionNames` | which table entry an option stands for, and what every piece of a command line is |
| `Report` | quoting of arguments in the report file, and a decoder |
| `SpecifierMatch`, `SpecifierParse`, `SpecifierPrint` | stream specifiers: meaning, grammar, canonical text |
| `SpecifierForms` | other spellings of specifiers: number bases, escapes and quotes, remainders, refusals |

Code that updates state in place is modelled by classes whose methods are proved against functions on values; the
run-level theorems are lemmas about these functions. Times in `VideoSync` are reals and `llrint` rounds halves to
even; timestamps elsewhere are unbounded integers with the source's rounding. A missing timestamp is `NoPts`.

## Findings

Places where a promise fails, each with a concrete input and the exact condition:

- The frame ledger. The flush counts a pending drop twice when the median of the history is 0
  (`VideoSync.PendingDropCountedTwice`), and an oversized skip leaves a pending drop to be counted again
  (`VideoSync.SkippedDropCountedTwice`). `VideoSync.Ledger` and `VideoSync.LedgerAtEnd` are exact.
- The first picture. When it is repeated through a gap by as many copies as are sent, a drop stays pending although it
  was shown, and all its copies count as duplicates (`PictureCounts.FirstPictureMiscounted`); otherwise the counters
  mean what they say (`PictureCounts.CountersMean`).
- Ending the outputs. When no frame was ever seen and a dummy frame is refused with EOF, the thread succeeds without
  ending its outputs (`OutputProtocol.RefusedDummyLeavesOpen`), and only then (`OutputProtocol.LeavesOpenIff`).
- Pruning. A user's output label that imitates the label of an internal graph hides the internal graph, which is then
  removed although it is needed (`FilterBinding.ImitatedLabelHidesAGraph`). A needed graph fails the check exactly when
  every input that could take one of its outputs takes an earlier one (`FilterBinding.NeededIsRemovedIff`).
- Monotone dts. A packet without dts makes the muxer forget the last dts (`MuxTimestamps.MissingDtsForgets`); over
  whole runs the dts increase exactly when each series of packets with a dts starts above the peaks of the earlier
  ones (`MuxTimestamps.IncreasingIff`).
- Several signallers at once. When two posts merge, some signaller always waits from then on
  (`CondVarStalls.TwoSignallersMerge`), though not always the same one (`CondVarStalls.AnotherIsHeldUp`). A signaller
  that holds the mutex can also wait for ever without any merged post (`CondVarStalls.HolderIsStranded`).
  `CondVarStalls.StuckIff` says exactly when signals get stuck.
- The two command-line scanners disagree exactly on the clashes of `CommandLine.ScannersAgreeIff`
  (`CommandLine.DoubleMarkerDisagrees`, `CommandLine.ExitFlagDisagrees`). A third kind of clash needs an option called
  `-` (`CommandLine.DashOptionDisagrees`), which no options table of the program has.
- A subtitle whose successor lies 2^32 ms back is sent with a positive duration (`Subtitles.WrappedDurationIsSent`);
  one that is sent is still shown half a millisecond after its successor's start exactly when that is not later
  (`Subtitles.EndsBySuccessor`). A successor more than 2^32 ms ahead can cut a subtitle to a few milliseconds
  (`Subtitles.LongGapCutsShort`); `Subtitles.StaysUntilSuccessor` says exactly when none is cut short.
- The audio fallback time base cannot represent every rate (`AudioTimeline.FallbackIsReachable`), although the comment
  in the source speaks of common rates only; `AudioTimeline.FallbackExactIff` says when nothing is lost.

## Model

| member | source | states |
|---|---|---|
| `VideoSync.DriftBound` | fftools/ffmpeg_filter.c:2673-2721 | over any constant-rate run with non-decreasing frame ends, first end at least -2.1 and no oversized skip: after every frame the end lies between 2.1 before and `Lag` after the output position; `Lag` is 0.5 for CFR without a drop threshold, 1.0 for VSCFR (its first jump rounds), the threshold when that is larger |
| `VideoSync.DriftStep` | fftools/ffmpeg_filter.c:2679-2721 | one constant-rate frame that ends no earlier than 2.1 before the output position leaves the drift inside the same bounds |
| `VideoSync.Ledger` | fftools/ffmpeg_filter.c:2688-2768 | in all four sync modes, after any run: frames sent + dropped + pending drop = frames received + duplicated + the skips that counted a pending drop without clearing it; without oversized skips that last term is 0 |
| `VideoSync.LedgerStep` | fftools/ffmpeg_filter.c:2743-2766 | each input frame moves the ledger by exactly one, and by one more exactly at a skip that recounts a pending drop |
| `VideoSync.LedgerAtEnd` | fftools/ffmpeg_filter.c:2845-2846 | at the end of the stream the ledger holds unchanged when the graph never sent a frame; after a flush it is off by one exactly when a pending drop meets a zero median or the median is cut as oversized |
| `VideoSync.LedgerFlush` | fftools/ffmpeg_filter.c:2660-2768 | the flush itself keeps the ledger, except for those two cases |
| `VideoSync.PendingDropCountedTwice` | fftools/ffmpeg_filter.c:2665-2667 | a CFR run of three frames after whose flush four are accounted for beyond the duplicates |
| `VideoSync.SkippedDropCountedTwice` | fftools/ffmpeg_filter.c:2743-2755 | a CFR run of four frames whose last one is skipped as oversized, after which five are accounted for beyond the duplicates |
| `VideoSync.PrevAtMostNb` | fftools/ffmpeg_filter.c:2715-2719 | copies of the previous frame are between 0 and the number of copies sent, for any non-negative duration |
| `VideoSync.ConstantRateIsGapless` | fftools/ffmpeg_filter.c:2848-2900 | CFR and VSCFR: all timestamps of a run, flush included, are consecutive integers, whatever the input timestamps; in CFR the next one is the number of frames sent |
| `VideoSync.StepConsecutive` | fftools/ffmpeg_filter.c:2700-2721 | one input frame continues the consecutive timestamps, also through the initial jump of VSCFR |
| `VideoSync.VariableRateIncreases` | fftools/ffmpeg_filter.c:2722-2728 | VFR: timestamps strictly increase even for non-monotone input, no previous frame is ever repeated and the flush sends nothing |
| `VideoSync.StepIncreases` | fftools/ffmpeg_filter.c:2722-2728 | one VFR frame keeps the sent timestamps strictly increasing and below the output position |
| `VideoSync.FramesInOrder` | fftools/ffmpeg_filter.c:2848-2911 | in every mode the pictures shown never go back to an earlier input frame, across repeats of the previous frame and the flush |
| `VideoSync.MedianIsMiddle` | fftools/ffmpeg_filter.c:2632-2646 | the median is one of the three values and two of them lie on either side of it |
| `VideoSync.Llrint` | fftools/ffmpeg_filter.c:2706-2730 | rounding moves a value by at most a half, and by a half only to an even number |
| `VideoSync.CopiesAre` | fftools/ffmpeg_filter.c:2848-2863 | the k-th copy of a frame carries the k-th next timestamp and shows the previous frame exactly for the first copies |
| `VideoSync.OutputFilter.VideoSyncProcess` | fftools/ffmpeg_filter.c:2653-2768 | the counters, history, pending drop, output position and both copy counts after a frame or at the end of the stream |
| `VideoSync.OutputFilter.CountCopies` | fftools/ffmpeg_filter.c:2673-2735 | clipping, the four sync modes, the initial jump and the thresholds choose the copies |
| `VideoSync.OutputFilter.Finish` | fftools/ffmpeg_filter.c:2737-2766 | the history shift, the drop and duplicate counters, and the skip that leaves the pending drop alone |
| `VideoSync.OutputFilter.SendCopies` | fftools/ffmpeg_filter.c:2848-2906 | the copy loop sends exactly the chosen copies; without a frame and without a previous one it sends nothing |
| `VideoSync.OutputFilter.OutputFrame` | fftools/ffmpeg_filter.c:2836-2911 | a frame takes the whole step and is remembered; the end of the stream flushes only when the graph ever sent a frame |
| `PictureTimes.GapRepeatsPrevious` | fftools/ffmpeg_filter.c:2703-2720 | constant rate: when a frame starts more than 1.1 after the output position, the previous picture is repeated up to a timestamp within half a unit of the frame position minus 0.6, and the new picture is shown from there on |
| `PictureTimes.NoGapShowsNew` | fftools/ffmpeg_filter.c:2703-2720 | constant rate: when a frame starts at most 1.1 after the output position, every copy shows the new picture |
| `PictureTimes.NeverShownEarly` | fftools/ffmpeg_filter.c:2688-2721 | over any constant-rate run without oversized skip, flush included: no copy of a picture after the first has a timestamp more than 1.1, or the drop threshold when that is larger, before the position of that picture |
| `PictureTimes.NeverShownLate` | fftools/ffmpeg_filter.c:2688-2721 | with non-decreasing frame ends, a picture that is shown at all first appears at most 2.1 after its end |
| `PictureTimes.DroppedIff` | fftools/ffmpeg_filter.c:2700-2709 | constant rate: a frame adds no copy exactly when it ends more than 1.1 before the output position, or below the drop threshold when there is one |
| `PictureTimes.VariableRateStep` | fftools/ffmpeg_filter.c:2722-2728 | VFR: a frame that ends at most 0.6 before the output position or earlier adds nothing; any other is sent once, not before the output position, between its start minus 0.6 and its end plus 0.6 |
| `PictureTimes.PassthroughSendsEach` | fftools/ffmpeg_filter.c:2729-2732 | passthrough: over any run the k-th frame sent is the k-th received, within half a unit of its position |
| `PictureTimes.FlushRepeats` | fftools/ffmpeg_filter.c:2660-2669 | at the end of the stream the last picture is repeated as often as the middle one of the last three counts says, unless that is oversized |
| `PictureTimes.HistoryIs` | fftools/ffmpeg_filter.c:2737-2741 | the history always holds the repeats of the previous picture of the last three frames |
| `PictureCounts.CountersMean` | fftools/ffmpeg_filter.c:2743-2766 | over any run in any mode without oversized skip: duplicates are the copies beyond the first of each picture, drops are the pictures never shown without a pending one, and a drop is pending exactly while the last picture has not been shown; the first frame must not ask for as many repeats of a previous picture as copies |
| `PictureCounts.FirstPictureMiscounted` | fftools/ffmpeg_filter.c:2757-2766 | without that condition: a first frame at 5.2 is shown five times, yet a drop is pending and all five copies count as duplicates |
| `OutputProtocol.FilterThread.Run` | fftools/ffmpeg_filter.c:3493-3607 | on every run, whatever the sends answer: each output carries frames then at most one NULL and nothing after it or after a refused frame; on success all outputs are ended exactly when no dummy frame was refused with EOF, so always when a frame was seen; when none was, status and flags are those of `EndAll` from the flags and the answer number at the end of the inputs |
| `OutputProtocol.FilterThread.EndOutputs` | fftools/ffmpeg_filter.c:3598-3607 | on success all outputs are ended exactly when no dummy frame was refused with EOF; always when a frame was seen before; otherwise status and flags are those of `EndAll` |
| `OutputProtocol.LeavesOpenIff` | fftools/ffmpeg_filter.c:3598-3607 | without a frame, for any answers: success with an output left open happens if and only if a dummy frame of an open output is refused with EOF and every send before it goes through |
| `OutputProtocol.RefusedDummyLeavesOpen` | fftools/ffmpeg_filter.c:2823-2827 | two outputs and a first dummy frame refused with EOF: success with both left open |
| `OutputProtocol.FilterThread.FilterInputs` | fftools/ffmpeg_filter.c:3517-3596 | any inputs, configuring or not, and their drains keep every trace well formed |
| `OutputProtocol.FilterThread.SendEnd` | fftools/ffmpeg_filter.c:2830-2832 | the flag is set, and NULL is sent, right after a dummy frame exactly when no frame was ever accepted |
| `OutputProtocol.FilterThread.CloseOutput` | fftools/ffmpeg_filter.c:2780-2834 | sends the dummy frame only if no frame was ever seen, sets the flag before the NULL and never sends on another output; the flag stays clear exactly when the dummy frame is refused |
| `OutputProtocol.FilterThread.SendCopy` | fftools/ffmpeg_filter.c:2884-2905 | a refused frame sets the flag and counts the output as done once, an accepted one leaves it open |
| `OutputProtocol.FilterThread.OutputFrame` | fftools/ffmpeg_filter.c:2836-2917 | an open output stays well formed through any number of copies, and the end of the stream closes it |
| `OutputProtocol.FilterThread.OutputStep` | fftools/ffmpeg_filter.c:2919-2945 | reading a sink sends nothing on a finished output and touches no other |
| `OutputProtocol.FilterThread.ReadFrames` | fftools/ffmpeg_filter.c:3021-3060 | draining keeps every trace well formed, and on success every sink was read until it had nothing more |
| `OutputProtocol.FilterThread.Finish` | fftools/ffmpeg_filter.c:2889-2892 | sets the flag of the output alone and counts it as done, never above the number of set flags |
| `OutputProtocol.CountAfterSet` | fftools/ffmpeg_filter.c:2889-2892 | setting a clear flag raises the number of set flags by exactly one |
| `OutputProtocol.FilterThread.DrainSink` | fftools/ffmpeg_filter.c:3021-3060 | reads a sink until an answer other than success, which is recorded and returned |
| `FilterBinding.Bindings.FinaliseBindings` | fftools/ffmpeg_filter.c:1603-1660 | the retry loop ends; on success every pad of every surviving graph is bound, no output feeds two inputs, links join different graphs with equal media type and label, only internal graphs were removed, and every surviving output is wanted or taken first by a surviving input; with one output per internal graph the survivors are the largest such set, for any labels; with labelled inputs and unique output labels they are the largest set in which every internal graph is needed |
| `FilterBinding.Bindings.BindAll` | fftools/ffmpeg_filter.c:1653-1657 | everything the dry run marked is bound by the commit pass although the bound set grows on the way, and all inputs are |
| `FilterBinding.Bindings.BindGraph` | fftools/ffmpeg_filter.c:1585-1601 | on the commit each input of a graph is bound and the choice it had in the dry run is taken |
| `FilterBinding.Bindings.MarkAll` | fftools/ffmpeg_filter.c:1607-1620 | the dry run marks exactly the choices of the unbound inputs and binds nothing but decoders |
| `FilterBinding.Bindings.MarkGraph` | fftools/ffmpeg_filter.c:1585-1601 | the same for the inputs of one graph |
| `FilterBinding.Bindings.BindInput` | fftools/ffmpeg_filter.c:1412-1583 | decoder labels bind in both passes; otherwise the first free acceptable output is marked or bound, or the input goes to a stream |
| `FilterBinding.Bindings.FindUnbound` | fftools/ffmpeg_filter.c:1450-1481 | the nested scan returns the choice that `UnlabelledSearch` and `LabelledSearch` describe |
| `FilterBinding.Bindings.BindToOutput` | fftools/ffmpeg_filter.c:1041-1098 | a link is made only between equal media types, and it marks both pads bound |
| `FilterBinding.Bindings.BindToEncoder` | fftools/ffmpeg_filter.c:914-928 | an output bound to an encoder is explicitly needed and bound, which is the state the passes start from |
| `FilterBinding.Bindings.FindUnneeded` | fftools/ffmpeg_filter.c:1622-1629 | finds an unneeded output, or none exists |
| `FilterBinding.Bindings.RemoveGraph` | fftools/ffmpeg_filter.c:1642-1648 | removal shifts the array down, drops no external graph and no member of any consistent set |
| `FilterBinding.FindStays` | fftools/ffmpeg_filter.c:1450-1481 | while outputs only get bound, the first choice of an input stays its choice until it is taken: the key to both passes agreeing |
| `FilterBinding.FindSuits` | fftools/ffmpeg_filter.c:1450-1556 | a search fails exactly when nothing suits, and what it returns suits |
| `FilterBinding.UnlabelledSearch` | fftools/ffmpeg_filter.c:1508-1529 | an input without label: the search returns the first free output of another graph and fails exactly when every output of every other graph is bound |
| `FilterBinding.LabelledSearch` | fftools/ffmpeg_filter.c:1461-1475 | an input with a label: the search returns the first free output of another graph that carries exactly this label and fails exactly when none does |
| `FilterBinding.MarkedIffTakesFirst` | fftools/ffmpeg_filter.c:1450-1556 | in terms of labels alone: an output is marked exactly when it is free and, for some unbound input of another graph, the first free one at all (input without label) or the first free one that carries the label |
| `FilterBinding.MarkedIff` | fftools/ffmpeg_filter.c:1615-1619 | an output is marked exactly when some unbound input chooses it |
| `FilterBinding.MarkedIffLinked` | fftools/ffmpeg_filter.c:1615-1629 | with labelled inputs and unique labels an output is marked exactly when it is free and an input of another graph names it |
| `FilterBinding.RemovalIsForced` | fftools/ffmpeg_filter.c:1628-1649 | no consistent set of graphs contains the graph a retry removes |
| `FilterBinding.PruningKeepsConsistent` | fftools/ffmpeg_filter.c:1622-1651 | whatever the order of removals, no graph of a consistent set is ever lost |
| `FilterBinding.PruningOrderIrrelevant` | fftools/ffmpeg_filter.c:1622-1651 | any removal order that ends consistent ends in the largest consistent set |
| `FilterBinding.LargestIsUnique` | fftools/ffmpeg_filter.c:1622-1651 | there is only one such set, so the survivors do not depend on the order |
| `FilterBinding.AllMarkedIsConsistent` | fftools/ffmpeg_filter.c:1622-1629 | when the check passes, every internal graph is needed among the survivors |
| `FilterBinding.NeededIsRemovedIff` | fftools/ffmpeg_filter.c:1622-1651 | for any labels, a retry may remove a needed graph exactly when some output of it that no encoder wants is free and named, but every input that could take it takes an earlier one |
| `FilterBinding.MarkedIffFirst` | fftools/ffmpeg_filter.c:1450-1556 | for any labels, an output is marked exactly when some seeking input could take it and no earlier one |
| `FilterBinding.OverlookedSharesLabel` | fftools/ffmpeg_filter.c:1461-1475 | a needed output that is overlooked shares its label with an earlier free output |
| `FilterBinding.ImitatedLabelHidesAGraph` | fftools/ffmpeg_filter.c:1461-1475 | a user graph that offers the label of an internal graph and another that asks for it: all three graphs are the largest set, but the internal one is overlooked and unmarked, so it is removed although it is needed |
| `FilterBinding.SurvivorsAreLargest` | fftools/ffmpeg_filter.c:1622-1651 | for any labels, with one output per internal graph: once every output left is wanted or marked, the graphs left are the largest set in which every output of an internal graph is wanted or taken first |
| `FilterBinding.RemovalTracks` | fftools/ffmpeg_filter.c:1633-1651 | a retry changes no choice of the inputs left and loses no graph of a set that sustains itself, for any labels |
| `FilterBinding.FindWithout` | fftools/ffmpeg_filter.c:1450-1556 | removing a graph that a search does not end in leaves what it finds |
| `FilterBinding.AllMarkedIsSettled` | fftools/ffmpeg_filter.c:1622-1629 | when the check passes, every output left is wanted or taken first by an input that is left |
| `DemuxTimestamps.EveryDtsIsRepaired` | fftools/ffmpeg_demux.c:242-328 | over whole runs of any number of streams of a discontinuous format: the offset changes exactly for a packet that is astray of its prediction (on a new stream: far from the last timestamp), which is put on it; each microsecond audio or video packet leaves with exactly the accumulated offset, within the threshold of its prediction, at most 0.1 s below the previous dts |
| `DemuxTimestamps.ProcessRepairs` | fftools/ffmpeg_demux.c:261-308 | the same for one packet in any state whose prediction is not before its dts |
| `DemuxTimestamps.EveryDtsIsRepairedUpTo` | fftools/ffmpeg_demux.c:242-328 | the same over whole runs for audio and video streams of any time base: the offset is met to a tick, the other bounds up to half a tick and a microsecond of rounding |
| `DemuxTimestamps.ProcessRepairsUpTo` | fftools/ffmpeg_demux.c:261-308 | the same for one packet of any time base |
| `DemuxTimestamps.MoveRounds` | fftools/ffmpeg_demux.c:271 | taking a jump off in ticks moves the value in microseconds by the jump, up to half a tick and a microsecond |
| `DemuxTimestamps.PartsRound` | fftools/ffmpeg_demux.c:310-321 | the accumulated offset and a new jump, rescaled apart, differ from the new offset rescaled by at most one tick |
| `DemuxTimestamps.TracksForward` | fftools/ffmpeg_demux.c:330-388 | predictions never lie before the dts they were made from, along every run |
| `DemuxTimestamps.PredictForward` | fftools/ffmpeg_demux.c:351-383 | each of the five ways to predict the next dts moves forward |
| `DemuxTimestamps.FrameForward` | fftools/ffmpeg_demux.c:363-367 | rounding to frame numbers and back and adding one frame never goes back in time |
| `DemuxTimestamps.SeamlessLoop` | fftools/ffmpeg_demux.c:442-466 | re-reading the same packets, pass k shifts every packet by exactly k times the largest end minus the smallest pts, so each pass starts where the one before it ended |
| `DemuxTimestamps.CopiedJump` | fftools/ffmpeg_demux.c:251-281 | with copied timestamps a packet is put on its prediction exactly when it is astray and a clock wrap explains it ten times better; otherwise the offset stays |
| `DemuxTimestamps.WildIsDropped` | fftools/ffmpeg_demux.c:282-292 | formats without discontinuities: the offset never changes, and exactly the stamps are dropped that lie farther from the prediction than the error threshold |
| `DemuxTimestamps.OthersAreShifted` | fftools/ffmpeg_demux.c:310-328 | packets without dts and other streams get the accumulated offset and nothing else |
| `DemuxTimestamps.UnwrappedIs` | fftools/ffmpeg_demux.c:414-430 | a stamp at most half a clock period past the start stays, a later one moves back by exactly one period |
| `DemuxTimestamps.ScaledIs` | fftools/ffmpeg_demux.c:436-440 | scaling truncates toward zero; by 1 it changes nothing |
| `DemuxTimestamps.AudioLoop` | fftools/ffmpeg_demux.c:442-448 | with an audio decoder a packet widens the extent by its pts alone |
| `DemuxTimestamps.WidenCovers` | fftools/ffmpeg_demux.c:449-462 | for bounds in any time bases, the widened extent covers in time what it covered before and the packet |
| `DemuxTimestamps.SeekSpans` | fftools/ffmpeg_demux.c:215-240 | the looped segment reaches from the smallest pts to the later of the largest end and the end of decoded audio |
| `DtsPrediction.EstimateIs` | fftools/ffmpeg_demux.c:330-349 | a packet with dts is estimated at it within half a microsecond, one without at the prediction, and the first one of a stream at its pts behind the start of the codec |
| `DtsPrediction.AudioAdvances` | fftools/ffmpeg_demux.c:351-357 | with a sample rate the prediction lies the length of a frame ahead, rounded down to a microsecond |
| `DtsPrediction.DurationAdvances` | fftools/ffmpeg_demux.c:358-383 | the branches by packet duration and by fields predict that length ahead within half a microsecond, and the others nothing |
| `DtsPrediction.FrameAdvances` | fftools/ffmpeg_demux.c:363-367 | with a frame rate the prediction is the frame behind the one nearest to the estimate, within half a microsecond |
| `DtsPrediction.AudioRunAdvances` | fftools/ffmpeg_demux.c:351-357 | n audio packets without dts move the prediction by n frame lengths, within a microsecond each |
| `DtsPrediction.DurationRunAdvances` | fftools/ffmpeg_demux.c:358-369 | packets without dts move the prediction by the sum of their durations, within half a microsecond each |
| `DtsPrediction.FrameRunAdvances` | fftools/ffmpeg_demux.c:363-367 | over video packets without dts the prediction stays within half a microsecond of the frame grid and moves exactly one frame per packet, for frames longer than a microsecond |
| `DemuxTimestamps.PassCount` | fftools/ffmpeg_demux.c:215-240 | when pass k starts the accumulated duration is k times the length of the file |
| `DemuxTimestamps.PassExtent` | fftools/ffmpeg_demux.c:449-462 | a pass widens the recorded extent to exactly the shifted packets it has seen |
| `DemuxTimestamps.PassMinMax` | fftools/ffmpeg_demux.c:449-462 | after a full pass the extent is the earlier extent joined with the shifted file |
| `DemuxTimestamps.ShiftedSpan` | fftools/ffmpeg_demux.c:442-466 | shifting all packets shifts the span they cover |
| `DemuxTimestamps.Demuxer.DiscontinuityDetect` | fftools/ffmpeg_demux.c:242-308 | jump repair, the removal of wild timestamps, the wrap test with copied timestamps, the jump between streams, and the rescaled sentinel kept after a removal |
| `DemuxTimestamps.LastTsIsUnread` | fftools/ffmpeg_demux.c:293-307 | in a format without discontinuities the last timestamp, sentinel or not, never influences a packet |
| `DemuxTimestamps.Demuxer.DiscontinuityProcess` | fftools/ffmpeg_demux.c:310-328 | the accumulated offset goes onto every stream, detection runs on audio and video only |
| `DemuxTimestamps.Demuxer.TakeOff` | fftools/ffmpeg_demux.c:266-273 | a jump comes off both timestamps and off the offset for the packets to come |
| `DemuxTimestamps.DemuxStream.DtsUpdate` | fftools/ffmpeg_demux.c:330-388 | the dts estimate and the next prediction |
| `DemuxTimestamps.Demuxer.CorrectWrap` | fftools/ffmpeg_demux.c:414-430 | early timestamps past half a clock period move back one period, and the correction ends at the first packet that needs none |
| `DemuxTimestamps.Demuxer.OffsetAndScale` | fftools/ffmpeg_demux.c:432-440 | file offset and timestamp scale apply to the stamps that are present |
| `DemuxTimestamps.Demuxer.ShiftByLoop` | fftools/ffmpeg_demux.c:442-466 | the loop shift and the widening of the extent |
| `DemuxTimestamps.Demuxer.TsFixup` | fftools/ffmpeg_demux.c:390-479 | the stages of the fixup in their order, with the whole new state |
| `DemuxTimestamps.Demuxer.SeekToStart` | fftools/ffmpeg_demux.c:215-240 | the length of the looped segment, taking the end of decoded audio when it is later |
| `AudioTimeline.TimeBaseIsCommonMultiple` | fftools/ffmpeg_dec.c:205-246 | while the fallback is not taken the time base stays 1/den, den at most INT_MAX, a multiple of every earlier den and of every sample rate seen |
| `AudioTimeline.RateChangeIsExact` | fftools/ffmpeg_dec.c:229-242 | a sample-rate change loses nothing of the last timestamp, the last duration and the prediction |
| `AudioTimeline.NewBaseGood` | fftools/ffmpeg_dec.c:217-233 | the new denominator fits an int and both the old one and the sample rate divide it |
| `AudioTimeline.Lcm` | fftools/ffmpeg_dec.c:217-227 | the product taken without overflow is a common multiple of both |
| `AudioTimeline.GcdDivides` | fftools/ffmpeg_dec.c:217 | the greatest common divisor divides both |
| `AudioTimeline.GcdIsGreatest` | fftools/ffmpeg_dec.c:217 | every common divisor divides it |
| `AudioTimeline.OverflowIsTight` | fftools/ffmpeg_dec.c:217-225 | the fallback is taken only where the least common multiple lies within one sample rate of INT_MAX or beyond |
| `AudioTimeline.FinerStampsAreExact` | fftools/ffmpeg_dec.c:229-242 | a frame time base that refines the new one is kept, and the stamps in it are then taken over unchanged |
| `AudioTimeline.StampedFrameIsClose` | fftools/ffmpeg_dec.c:257-273 | a frame with a timestamp starts within half a tick of its own and one tick of the internal time base of it |
| `AudioTimeline.GapIs` | fftools/ffmpeg_dec.c:262-269 | a gap is a timestamp at least one of its ticks past the predicted end, and a frame behind a gap starts at its own timestamp |
| `AudioTimeline.ProcessStep` | fftools/ffmpeg_dec.c:248-283 | a frame ends exactly nb_samples/sample_rate after it starts, and one without timestamp starts at the predicted end |
| `AudioTimeline.FramesLieEndToEnd` | fftools/ffmpeg_dec.c:257-277 | a frame without timestamp starts exactly where the frame before it ended, after any history |
| `AudioTimeline.StartIsExactSum` | fftools/ffmpeg_dec.c:257-277 | frames without timestamps start at the exact sum of all lengths before them, across rate changes |
| `AudioTimeline.SingleRateCountsSamples` | fftools/ffmpeg_dec.c:279-282 | at one sample rate the filters get exactly the number of samples decoded before |
| `AudioTimeline.RateChangeExactIff` | fftools/ffmpeg_dec.c:229-242 | any rate change, with or without the fallback, keeps the last timestamp and the last duration exactly if and only if the old denominator divides their products with the new one |
| `AudioTimeline.FallbackExactIff` | fftools/ffmpeg_dec.c:219-242 | under the fallback the new denominator is 28224000 or a finer frame time base that is a multiple of it, with the same exact condition for timestamp and duration |
| `AudioTimeline.FallbackIsReachable` | fftools/ffmpeg_dec.c:219-225 | 48000 Hz then 48001 Hz takes the fallback, which cannot represent a sample at 48001 Hz |
| `AudioTimeline.Decoder.SampleRateUpdate` | fftools/ffmpeg_dec.c:205-246 | the whole new state, with the better frame time base kept |
| `AudioTimeline.Decoder.TsProcess` | fftools/ffmpeg_dec.c:248-283 | the whole new state and the timestamp handed to the filters in samples |
| `Subtitles.SentExactlyOnce` | fftools/ffmpeg_dec.c:569-632 | after any decoded subtitles and heartbeats the last one entered is held and each earlier one was sent exactly once, in order, shortened to its successor, or dropped for a non-positive duration |
| `Subtitles.PassThrough` | fftools/ffmpeg_dec.c:602-609 | without duration fixing every subtitle passes unchanged, once, and heartbeats do nothing |
| `Subtitles.EndsBySuccessor` | fftools/ffmpeg_dec.c:578-587 | a sent subtitle keeps or loses display time, and it ends within half a millisecond of its successor exactly when the successor starts later |
| `Subtitles.StaysUntilSuccessor` | fftools/ffmpeg_dec.c:578-587 | a subtitle sent before a later one stays until its own end or the start of the later one, to half a millisecond, exactly when the time between them fits an int or wraps to no less than its own duration |
| `Subtitles.LongGapCutsShort` | fftools/ffmpeg_dec.c:579-587 | a successor 2^32 ms and 5 more away: the subtitle is cut to 5 ms |
| `Subtitles.DurationIs` | fftools/ffmpeg_dec.c:579-582 | the time to a later successor is rounded to milliseconds, and taken as it is exactly when that fits an int |
| `Subtitles.NoOverlap` | fftools/ffmpeg_dec.c:578-605 | for subtitles entering at increasing times every one sent ends within half a millisecond of a successor |
| `Subtitles.WrappedDurationIsSent` | fftools/ffmpeg_dec.c:579-598 | a jump back by 2^32 ms wraps to a positive duration: the subtitle is sent and outlives its successor |
| `Subtitles.Decoder.ProcessSubtitle` | fftools/ffmpeg_dec.c:569-610 | the two-slot swap holds the new subtitle, sends or drops the old one, and keeps the slots distinct |
| `Subtitles.Decoder.FixSubDurationHeartbeat` | fftools/ffmpeg_dec.c:612-632 | a heartbeat splits a held subtitle that shows something and started earlier |
| `MuxTimestamps.ClosedForm` | fftools/ffmpeg_mux.c:162-195 | strict format, valid stamps, no exit on error: the k-th dts written is the maximum over j <= k of min(pts_j, dts_j) + (k - j), attained, and the k-th pts is lifted to it |
| `MuxTimestamps.WrittenIsClean` | fftools/ffmpeg_mux.c:171-192 | the written dts strictly increase and never exceed their pts |
| `MuxTimestamps.UnchangedIffClean` | fftools/ffmpeg_mux.c:162-195 | a stream is left alone exactly when it is clean, so repairing twice repairs once |
| `MuxTimestamps.WrittenIsLeast` | fftools/ffmpeg_mux.c:174-191 | no strictly increasing dts sequence above the incoming stamps is anywhere smaller |
| `MuxTimestamps.NonStrictIsMonotone` | fftools/ffmpeg_mux.c:174-191 | formats that allow equal stamps get non-decreasing dts, at most their pts |
| `MuxTimestamps.NonStrictForm` | fftools/ffmpeg_mux.c:162-195 | closed form for such formats: the k-th dts is the highest of the climbs that start at the lower stamp of some packet and rise by one at each later packet whose dts lies above, attained, and the k-th pts is lifted to it |
| `MuxTimestamps.SegmentForm` | fftools/ffmpeg_mux.c:162-195 | strict format, any packets: a missing dts stays missing, and a dts is the closed-form maximum over the unbroken series of packets with a dts that it ends, attained |
| `MuxTimestamps.IncreasingIff` | fftools/ffmpeg_mux.c:171-195 | for any packets, the written dts strictly increase over the whole run if and only if the first packet of every series asks for more than the peak that ended each earlier series |
| `MuxTimestamps.NeighboursIncrease` | fftools/ffmpeg_mux.c:171-195 | for any packets, two neighbours that carry a dts are written strictly increasing |
| `MuxTimestamps.MissingDtsForgets` | fftools/ffmpeg_mux.c:195 | a packet without dts resets the carried state, after which a smaller dts passes unchanged |
| `MuxTimestamps.RepairStep` | fftools/ffmpeg_mux.c:162-193 | guess and guard together make one maximum over the earlier stamp and the successor of the last dts |
| `MuxTimestamps.WrittenPrefix` | fftools/ffmpeg_mux.c:195 | what is written for a packet depends on earlier packets only |
| `MuxTimestamps.StrictIff` | fftools/ffmpeg_mux.c:162-191 | the strict theorems cover audio, video and subtitles of formats with timestamps |
| `MuxTimestamps.NoTimestampsUntouched` | fftools/ffmpeg_mux.c:162 | formats without timestamps get every packet as it is |
| `MuxTimestamps.UnguardedRepair` | fftools/ffmpeg_mux.c:162-172 | data and attachments change only where dts exceeds pts: both become the middle one of pts, dts and the successor of the last dts |
| `MuxTimestamps.RefusedIff` | fftools/ffmpeg_mux.c:174-184 | the only error: under exit on error, a dts of audio, video or subtitles that does not follow the last one |
| `MuxTimestamps.CopiedAudioIs` | fftools/ffmpeg_mux.c:143-156 | streamcopied audio: both stamps are one, whose position in samples is within half a tick and a sample of the dts of the packet |
| `MuxTimestamps.RescaledIs` | fftools/ffmpeg_mux.c:157-160 | other streams: each stamp lands within half a unit of the packet |
| `MuxTimestamps.MuxStream.FixupTs` | fftools/ffmpeg_mux.c:139-200 | repaired stamps, rescaled duration and the carried state, or the error with the state untouched |
| `MuxTimestamps.MuxStream.RescaleToStream` | fftools/ffmpeg_mux.c:143-160 | stamps and duration in the stream time base, streamcopied audio through the delta conversion |
| `CondVar.StepKeepsInv` | compat/os2threads.h:158-214 | with one signaller at a time, every step of every thread keeps: wait_count counts the threads between increment and decrement, and a waiting signaller stands against exactly one token |
| `CondVar.WaitCountIsExact` | compat/os2threads.h:198-207 | in every reachable state of any number of threads wait_count is the number of threads between increment and decrement |
| `CondVar.SignalReleasesOne` | compat/os2threads.h:158-166 | a signal that saw a waiter returns only after exactly one waiter was released since its check, with both semaphores clear and no waiter halfway |
| `CondVarCalls.SignalCall` | compat/os2threads.h:158-166 | a whole call of signal from entry to return, among any steps of other threads: it releases exactly one waiter if its check saw one and nobody otherwise, posts the event as often, at most once, and leaves both semaphores clear |
| `CondVarCalls.AckReturns` | compat/os2threads.h:158-174 | the step that takes the ack of a plain signal returns, that of a broadcast goes back to its loop, and no other thread moves |
| `CondVarCalls.WaitCall` | compat/os2threads.h:198-214 | a whole call of wait, with any number of signallers, takes the event exactly once and returns with the mutex |
| `CondVarCalls.BroadcastCall` | compat/os2threads.h:168-174 | a whole call of broadcast by the holder of the mutex releases exactly the threads that were waiting at its entry |
| `CondVarCalls.ServedStays` | compat/os2threads.h:158-214 | every step of a broadcast keeps the sum of the threads released and those still to be released |
| `CondVar.SignalNeverStalls` | compat/os2threads.h:158-166 | while a signal waits for its ack, it or a waiter on the way to the ack can move |
| `CondVar.BroadcastTerminates` | compat/os2threads.h:168-174 | a broadcast holding the mutex: every run of n steps, of any threads in any order, has exactly n fewer steps to go, at most 7 per waiter plus 3 in all, and then wait_count is 0 and both semaphores are clear |
| `CondVar.BroadcastStep` | compat/os2threads.h:168-174 | each step of any thread during a broadcast brings its end exactly one step nearer |
| `CondVar.BroadcastProgress` | compat/os2threads.h:168-174 | a broadcast that is not over can always go on |
| `CondVar.BroadcastBound` | compat/os2threads.h:168-174 | at least one and at most 7 per waiter plus 3 steps are left |
| `CondVar.OnlyBroadcaster` | compat/os2threads.h:168-174 | during a broadcast no other thread stands in a signal |
| `CondVar.TwoPlaces` | compat/os2threads.h:158-166 | no second thread stands at a signalling place while one is past its check |
| `CondVar.InitialInv` | compat/os2threads.h:139-148 | the initialised condition variable satisfies the invariant |
| `CondVar.MoveCensus` | compat/os2threads.h:198-214 | a step of one thread takes it from the count of its old place to that of its new one |
| `CondVarStalls.StuckIff` | compat/os2threads.h:158-214 | any number of threads signalling at once: from a reachable state some signaller waits in every later state if and only if a post has merged or the event is stranded: posted after the last waiter left, with no thread able to come and wait |
| `CondVarStalls.DeficitStep` | compat/os2threads.h:158-214 | waiting signallers minus tokens under way grows by one exactly when a signaller posts a set event or a waiter a set ack, and never changes otherwise |
| `CondVarStalls.DeficitAlongRun` | compat/os2threads.h:158-214 | over every run the deficit grows by the number of merged posts |
| `CondVarStalls.MergedPostHoldsUp` | compat/os2threads.h:158-166 | from the initial state, once a post has merged some signaller waits in every later state |
| `CondVarStalls.AloneNothingMerges` | compat/os2threads.h:158-166 | with one signaller at a time no post merges |
| `CondVarStalls.StuckStays` | compat/os2threads.h:158-214 | no step of any thread leads out of the stuck states |
| `CondVarStalls.SomeStepHelps` | compat/os2threads.h:158-214 | in every other state in which a signaller waits, some step brings the threads nearer to one in which none does |
| `CondVarStalls.Clear` | compat/os2threads.h:158-214 | from every state that is not stuck the threads can go on until no signaller waits |
| `CondVarStalls.TwoSignallersSee` | compat/os2threads.h:158-166 | a run in which two signallers both see the one waiter |
| `CondVarStalls.TwoSignallersMerge` | compat/os2threads.h:158-166 | continued, their posts merge, the waiter acknowledges once, and from then on some signaller always waits |
| `CondVarStalls.AnotherIsHeldUp` | compat/os2threads.h:158-166 | continued, the signaller held up returns with the ack of a later signal, which is held up in its place |
| `CondVarStalls.HolderIsStranded` | compat/os2threads.h:158-166 | a run without a merged post after which a signaller that holds the mutex waits for ever |
| `GetOpt.Scanner.Drain` | compat/getopt.c:41-84 | repeated calls end and report exactly the options, arguments and `?` results of a pure left-to-right scan, and leave optind at the arguments the scan leaves |
| `GetOpt.Scanner.Next` | compat/getopt.c:41-84 | one call reports the first result of what is pending and leaves the rest; sp stays inside the current argument; (arguments left, characters left) falls lexicographically |
| `GetOpt.Scanner.PassOne` | compat/getopt.c:59-79 | passing a character, also out of the end of its argument |
| `GetOpt.Scanner.TakeOne` | compat/getopt.c:65-74 | the option argument is the rest of the argument or the next one, and a missing one is an error that ends the scan |
| `GetOpt.Scanner.Lookup` | compat/getopt.c:57-65 | the option string search, with `:` never an option |
| `GetOpt.PassCharacter` | compat/getopt.c:59-79 | the pending scan is the reported character followed by the scan from the new position |
| `GetOpt.TakeArgument` | compat/getopt.c:65-74 | the same where an argument is taken |
| `GetOpt.ScanLeavesSuffix` | compat/getopt.c:47-55 | scanning leaves a suffix of the arguments, which starts at a non-option or follows `--` |
| `GetOpt.KindAt` | compat/getopt.c:57-65 | a letter takes an argument exactly when a colon follows its first place in the option string |
| `GetOpt.KindIs` | compat/getopt.c:57-65 | a letter is no option exactly when it is the colon or not in the option string |
| `GetOpt.WrittenIsRead` | compat/getopt.c:41-84 | whatever options are written, in clusters, with attached or separate arguments, are read back in order, up to `--` or the first operand |
| `GetOpt.ErrorsAreReported` | compat/getopt.c:57-74 | an unknown letter and an argument missing at the end are reported as errors |
| `GetOpt.OperandStops` | compat/getopt.c:47-55 | a lone dash and anything without a leading dash stop the scan |
| `GetOpt.SplitCluster` | compat/getopt.c:75-79 | `-ab` scans as `-a -b` for a letter without argument |
| `CommandLine.ScannersAgree` | fftools/cmdutils.c:487-512 | accepted command lines without exiting option and without two adjacent `--`, no flag being called `-`: the locator visits exactly the option slots of the splitter, and the pieces consume each slot once |
| `CommandLine.ScannersAgreeIff` | fftools/cmdutils.c:790-911 | for every accepted command line with disjoint names the two scanners agree if and only if there is no clash: a marker read right after a marker (where a flag is called `-`: a dashed slot read as a file right after a marker), or an exiting flag handed what looks like an option |
| `CommandLine.PlainIsHarmless` | fftools/cmdutils.c:854-856 | the simple conditions on the command line exclude all clashes |
| `CommandLine.DoubleMarkerDisagrees` | fftools/cmdutils.c:814-825 | `-- -- -x`: the splitter sees a file where the locator sees an option |
| `CommandLine.ExitFlagDisagrees` | fftools/cmdutils.c:854-856 | `-h -h`: the splitter hands the second slot to the first option, the locator looks at it |
| `CommandLine.DashOptionDisagrees` | fftools/cmdutils.c:814-825 | `-- -x` with a flag called `-`, which no options table of the program has: the splitter sees a file where the locator sees an option |
| `CommandLine.FoundIffRecorded` | fftools/cmdutils.c:500-506 | the locator finds an option of the table exactly when the splitter recorded it or its negation, on lines without exiting option and adjacent markers, no option being called `-` |
| `CommandLine.PieceMatches` | fftools/cmdutils.c:500-506 | slot by slot, the locator matches a name exactly when the splitter records it there |
| `CommandLine.SameWidth` | fftools/cmdutils.c:508-509 | an option takes the same number of slots for both scanners, unless it is a flag that exits |
| `CommandLine.SplitTiles` | fftools/cmdutils.c:807-809 | the pieces tile the command line without gap or overlap |
| `CommandLine.LocateOption` | fftools/cmdutils.c:487-512 | returns the first visited slot that matches, 0 exactly when none does |
| `OptionNames.FindOptionIs` | fftools/cmdutils.c:151-163 | the table search returns the first entry whose name is the text up to its first colon, after one leading slash, and nothing exactly when no entry has that name |
| `OptionNames.PieceReads` | fftools/cmdutils.c:807-901 | every piece is what the tables say of its text: the first separator of that name, the first entry of that name, a library option, a negated flag whose name follows `no`, a file or a marker, with its width |
| `OptionNames.AllRead` | fftools/cmdutils.c:807-901 | the same for all pieces of an accepted command line, each in the light of the piece before it |
| `OptionNames.RefusedIff` | fftools/cmdutils.c:822-901 | an option is refused exactly for a missing argument, a rejected library option, or a text that neither a separator, an entry, the libraries nor a negated flag knows |
| `OptionNames.MatchesIff` | fftools/cmdutils.c:487-506 | the locator takes a slot for the entry it names, else for the entry it negates, else for its own text |
| `OptionNames.StrideIff` | fftools/cmdutils.c:500-509 | the locator skips the slot behind an option exactly when its entry takes an argument or it has none |
| `CommandLine.OptionParseContext.SplitCommandline` | fftools/cmdutils.c:790-911 | accepts exactly when the piecewise reading does, and the groups and global options are what the pieces add up to |
| `CommandGroups.SplitHolds` | fftools/cmdutils.c:691-741 | of every accepted command line: the global options are all those recorded, in order; each piece that ends a group makes the next instance of it, named after it, of exactly the per-file options recorded since the last group ended; the rest is pending; and each piece is what the tables say of its text, so a recorded entry is the first with the name of its key up to the colon, or of its key without `no` |
| `CommandGroups.GroupHolds` | fftools/cmdutils.c:691-720 | the same for one piece that ends a group, from any sequence of pieces |
| `CommandGroups.OptionsAfter` | fftools/cmdutils.c:725-741 | after any number of pieces: the global options, the pending ones since the last group ended and the number of instances of each group |
| `CommandGroups.PiecesFit` | fftools/cmdutils.c:807-847 | every piece lies within the command line and every separator names a group that exists |
| `CommandLine.OptionParseContext.ReadItem` | fftools/cmdutils.c:807-901 | one turn of the loop: separators, exiting options, options with and without argument, library options, negated flags, and the errors |
| `CommandLine.OptionParseContext.MatchGroupSeparator` | fftools/cmdutils.c:671-683 | the first group with the separator, none exactly when no group has it |
| `CommandLine.OptionParseContext.Finish` | fftools/cmdutils.c:691-720 | the pending options become a group and the pending list is empty |
| `CommandLine.OptionParseContext.Add` | fftools/cmdutils.c:725-741 | per-file options go to the pending group, others to the global one |
| `Report.RoundTrip` | fftools/cmdutils.c:573-579 | an explicit decoder recovers every list of NUL-free arguments from its dumped line, empty ones and bytes outside printable ASCII included |
| `Report.LineIsInjective` | fftools/cmdutils.c:573-579 | different argument lists never print alike |
| `Report.DecodeDumped` | fftools/cmdutils.c:514-536 | a dumped argument followed by a separator decodes to itself and stops there |
| `Report.UnquoteEscaped` | fftools/cmdutils.c:526-535 | unquoting undoes the escapes of every byte string |
| `Report.UnquotedPlain` | fftools/cmdutils.c:518-525 | an argument dumped bare is read back up to the separator |
| `Report.DumpedIsPrintable` | fftools/cmdutils.c:527-534 | what is dumped is printable ASCII |
| `Report.BareIff` | fftools/cmdutils.c:516-524 | an argument is dumped as it is exactly when it holds letters, digits and eight other characters only |
| `Report.EscapeIs` | fftools/cmdutils.c:526-534 | inside quotes exactly the backslash, the quote, the dollar and the backquote get a backslash; other printables stay, the rest becomes a byte in hexadecimal |
| `Report.ReportFile.DumpArgument` | fftools/cmdutils.c:514-536 | appends exactly the dumped form, bare or quoted |
| `Report.ReportFile.DumpQuoted` | fftools/cmdutils.c:526-535 | appends the quoted form |
| `Report.ReportFile.DumpCommandLine` | fftools/cmdutils.c:575-579 | appends the whole line |
| `SpecifierMatch.Match` | fftools/cmdutils.c:1226-1339 | the matcher holds exactly when the stream is a satisfying entry of the designated list and, with an index, the one whose first place among them is the index |
| `SpecifierMatch.MatchMeaning` | fftools/cmdutils.c:1235-1338 | with distinct entries, as the libraries build them, that is: it satisfies the constraints and, with an index, is the idx-th satisfying entry |
| `SpecifierMatch.Scan` | fftools/cmdutils.c:1288-1338 | the counting loop decides it although it stops at the stream itself |
| `SpecifierMatch.DesignatesIff` | fftools/cmdutils.c:1235-1292 | the streams looked at are all, those with the ID, or those of the first program or group designated, none when there is none |
| `SpecifierMatch.SatisfiesIff` | fftools/cmdutils.c:1294-1330 | the constraints one by one: media type without attached pictures, the first tag with the key and its value, usable parameters, all dispositions |
| `SpecifierMatch.LookupIs` | fftools/cmdutils.c:1299-1305 | the tag found is the first with the key, none exactly when none has it |
| `SpecifierMatch.SameKeyIff` | fftools/cmdutils.c:1300-1301 | keys agree up to the case of ASCII letters |
| `SpecifierMatch.IndexSelectsOne` | fftools/cmdutils.c:1332-1335 | an index selects at most one stream, from any list |
| `SpecifierMatch.SelectsByIndex` | fftools/cmdutils.c:1332-1335 | without repeated candidates an index picks the candidate at that place |
| `SpecifierMatch.EveryIndexSelects` | fftools/cmdutils.c:1332-1335 | every index below the number of candidates selects its candidate if and only if no candidate is repeated |
| `SpecifierMatch.RepeatsLoseAnIndex` | fftools/cmdutils.c:1249-1261 | a program that listed a stream twice would make an index select nothing; libavformat/avformat.c refuses to add a stream twice |
| `SpecifierMatch.CandidatesDistinct` | fftools/cmdutils.c:1288-1292 | distinct entries give distinct candidates |
| `SpecifierParse.StreamSpecifier.ParseSpecifier` | fftools/cmdutils.c:1011-1224 | accepts exactly what the grammar does and fills the fields with its reading; after a failure all fields are zero |
| `SpecifierParse.StreamSpecifier.ReadComponent` | fftools/cmdutils.c:1026-1188 | one turn of the parsing loop, every branch and error |
| `SpecifierParse.ComponentShrinks` | fftools/cmdutils.c:1025-1192 | every component that does not end the specifier consumes text |
| `SpecifierPrint.RoundTrip` | fftools/cmdutils.c:1011-1224 | parsing the canonical text of any well-formed specifier with plain metadata tokens returns it |
| `SpecifierPrint.PrintIsInjective` | fftools/cmdutils.c:1011-1224 | different specifiers never share a canonical text |
| `SpecifierPrint.ParsedIsWellFormed` | fftools/cmdutils.c:1135-1188 | no parse yields a stream-ID list with an index, nor any two of index, stream ID, metadata and usable |
| `SpecifierPrint.ComponentsWellFormed` | fftools/cmdutils.c:1025-1192 | the same for a parse from any state without ender |
| `SpecifierPrint.NumberStrtol` | fftools/cmdutils.c:1027-1030 | strtol with base 0 reads back every decimal long, negative ones included, and stops behind it |
| `SpecifierPrint.TokenReads` | fftools/cmdutils.c:1160-1167 | a plain token is read back up to the colon |
| `SpecifierPrint.ListReads` | fftools/cmdutils.c:1059-1097 | program and group designators are read back |
| `SpecifierPrint.EndReads` | fftools/cmdutils.c:1135-1188 | index, stream ID, metadata and usable are read back and end the specifier |
| `SpecifierForms.BasesRead` | fftools/cmdutils.c:1027-1030 | hexadecimal and octal numbers are read like decimal ones and end before a colon |
| `SpecifierForms.BigNumbersClamp` | fftools/cmdutils.c:1027-1030 | numbers beyond a long become the greatest or least long |
| `SpecifierForms.IdSpellings` | fftools/cmdutils.c:1059-1088 | `i:` and `#` announce an ID alike |
| `SpecifierForms.EscapedReads` | fftools/cmdutils.c:1160-1167 | any token at all is read back when each of its characters is escaped |
| `SpecifierForms.QuotedReads` | fftools/cmdutils.c:1160-1167 | a token without quotes is read back when it is quoted, blanks and colons included |
| `SpecifierForms.AnyMetadataReads` | fftools/cmdutils.c:1157-1176 | metadata with any key and value is read back when both are escaped |
| `SpecifierForms.RepeatsAreRefused` | fftools/cmdutils.c:1036-1133 | a second media type, a second list and a second disposition are refused |
| `SpecifierForms.IndexWithRemainder` | fftools/cmdutils.c:1193-1210 | what follows an index behind a colon is the remainder, and is refused where none is allowed |
| `AvMath.RescaleNearest` | fftools/ffmpeg_mux.c:157 | rescaling lands within half a unit of the exact value |
| `AvMath.RescaleExact` | fftools/ffmpeg_dec.c:236 | where the exact value is an integer, rescaling returns it |
| `AvMath.RescaleTies` | fftools/ffmpeg_mux.c:157 | halves are rounded away from zero |
| `AvMath.RescaleBrackets` | fftools/ffmpeg_demux.c:249 | rounding down and up bracket the exact value within one unit |
| `AvMath.CompareIs` | fftools/ffmpeg_demux.c:452 | comparing timestamps of any time bases compares the times they stand for |
| `AvMath.ClipIs` | fftools/ffmpeg_dec.c:271-273 | clipping leaves what lies in the range and otherwise takes the nearer end |
| `AvMath.DeltaIs` | fftools/ffmpeg_mux.c:152-155 | the delta conversion keeps the carried position while it lies within half a tick of the timestamp, and never leaves a timestamp by more than half a tick and a sample |
| `AvMath.RescaleDeltaIdentity` | fftools/ffmpeg_dec.c:271-273 | equal time bases make the delta conversion the identity |
| `AvMath.CompareSameBase` | fftools/ffmpeg_demux.c:452 | comparing stamps of one time base compares the numbers |

## Left out

- Overflow of 64-bit timestamps and counters: integers are unbounded, except for the 32-bit subtitle durations, the
  int denominator of the audio time base, the clamping of `strtol` and the int index of a specifier.
- Rounding of floats and doubles and the 2^-17 nudge of frame timestamps: `VideoSync` takes the frame position and
  duration as given reals.
- The scheduler, codecs, filters, option library and file access: their results are arbitrary values or parameters.
- Non-video frames in `VideoSync`: the audio branch of `fg_output_frame` computes timestamps by two rescalings.
- Key-frame flags, the duration field of sent frames and the growing duplicate warning of `video_sync_process`.
- `pthread_cond_timedwait`: a timed-out waiter still posts the ack. Wrap-around of `wait_count` is out of reach, since
  it never exceeds the number of threads.
- Parsing of decoder indices, file indices and view specifiers in filtergraph labels: binding to a decoder or an input
  stream may succeed or fail in any way. An output's label, freed when it is bound, is kept, since only free outputs
  are searched.
- The first dts guessed from the codec delay and the number of repeated fields are parameters of a stream.
- Packet durations are rescaled whatever their sign.
- The dictionaries that `opt_default` fills; it is a fixed function of name and argument. Memory exhaustion, Windows
  argument conversion, logging.
- Disposition names are evaluated by a function that is a parameter; metadata keys compare without ASCII case.
- The fan-out loop of `packet_decode` and the copying of frame data in `frame_data_ensure`; option tables, help texts,
  hardware devices, statistics and the Python front ends.
- VideoSync.DriftBound: excludes runs with an oversized skip, because the skip drops all copies and the drift may then
  be of any size.
- CommandLine.FoundIffRecorded: covers command lines without exiting options and adjacent markers, and no option called
  `-`, because on a clash the locator looks at slots that the splitter has consumed as arguments or files.
- FilterBinding.Bindings.FinaliseBindings: states nothing about the bindings after a failure, where the program exits.
- PictureTimes.NeverShownEarly: covers constant rate without oversized skips, and no copy of the first picture, which
  has no previous picture to stand for it.
- DtsPrediction.FrameRunAdvances: covers frames longer than a microsecond; shorter ones do not have a number each.
- OptionNames.FindOptionIs: covers tables in which no name holds a colon, as all tables of the program are.
- OutputProtocol.FilterThread.OutputFrame: takes the number of copies as arbitrary; `VideoSync` states which it is.
