# Verified model of the subtitle server core

This project models the parts of the subtitle server that keep state and follow a protocol, and
proves what they guarantee over all inputs, runs and interleavings:

- the scheduler of stream subtitle pictures (SPUs): a waiting list ordered by pts, a fading slot,
  a video clock that jumps, and comparisons in wrapping 64-bit arithmetic (`StreamSpec`,
  `StreamProps`, `StreamLedger`, `StreamProgress`, `StreamFading`, `StreamPresenter`, with `Clock` and
  `SpuList`);
- the scan for external cues (`ExternalCues`);
- the reorder list for closed-caption user data on heap nodes (`CaptionSpec`, `CaptionProps`,
  `CaptionReorder`, `CaptionPackets`, `CaptionQueue`), the SCTE 20 converter (`Scte`, `ScteBits`),
  and the packet ring (`PacketRing`);
- the demux filter device as a state machine over its threads' steps, and its locked sections
  (`DemuxProtocol`, `DemuxPass`, `DemuxDevice`);
- the path of a client's report: encoder (`SubtitleReport`), frames and incremental decoder
  (`Framing`, `FmqReceiver`), external data source (`SourceSpec`, `ExternalSource`);
- the bounded JSON writer for CEA-708 captions (`Json`, `JsonGrammar`, `JsonOutput`, `CaptionRow`,
  `CaptionJson`, `CaptionService`, `CaptionReadBack`, `CaptionLegal`) and the growing print buffer (`Bprint`);
- the registry of display clients (`Registry`).

Each component has a specification on values, about which the properties are proved, and, where the
source updates objects in place, methods on heap objects that are proved to compute exactly that
specification. Fields called `id` stand for the identity of an object. Clock readings, driver
results, the choices of other threads and the characters that `dtvcc_unicode` gives are parameters,
and hold for all values. Where arithmetic wraps or truncates in the source, it does so here.

Facts about the source that the proofs brought out, each with its exact condition:

- After an ordinary run, a clock more than 33 ms below zero makes the scheduler show an SPU that it
  has just purged as too far ahead, and pop another one in its place, which is then lost
  (`NegativeClockLosesAnSpu`); every clock from -33 ms on is safe (`PopFrontIsRightIff`).
- The branch that discards an SPU because the pts difference is too large is never taken
  (`DiscardBranchIsDead`).
- The MPEG drain does not lower the payload count; when the count has leaked to 64, the next frame
  that must be queued reads through an empty list (`StepUndefinedIff`, `MpegPathCanFail`).
- The decoder skips junk in front of a frame only when the session id is not the magic flag, and a
  frame without payload is delivered only when a byte behind it has arrived (`JunkIsSkippedIff`,
  `DrainPrefix`).
- An SCTE 20 section with more than 19 complete records on a caption line is written behind the end
  of the 64-byte buffer, and no other section is (`Convert`).
- A control character other than LF and CR in a listed window makes the JSON text illegal, and
  nothing else does (`ServiceIsLegalIff`).
- A frame header whose length is below -20 blocks the receiver for good (`BadLengthBlocks`).
- The early exit of the cue scan loses cues exactly when cues overlap (`ScanIsExactIff`).
- A superscript pen is written with the name of a subscript (`OffsetName`).
- An empty packet alone in the ring is not taken before another one arrives (`ReadyIff`).

Run `dafny verify dfyconfig.toml` to check everything.

## Model

| member | source | states |
|---|---|---|
| `StreamProps.RunKeepsInv` | subtitleserver/subtitle/Presentation.cpp:684-1006 | over every run of arrivals, ticks, clock jumps and resets the waiting list is ordered by pts, the fading list has at most one SPU, and that one ends at least a second after its pts |
| `StreamProps.PreparedFront` | subtitleserver/subtitle/Presentation.cpp:808-843 | raising a null pts or cutting it to 32 bits never moves a waiting front behind the next SPU: either it is shown in the same step or its pts only went down |
| `StreamProps.AnchoredIsShown` | subtitleserver/subtitle/Presentation.cpp:813-836 | an SPU given the clock's own time is shown in that step, at every clock reading |
| `StreamProps.FixedEnd` | subtitleserver/subtitle/Presentation.cpp:888-897 | what enters the fading slot ends at least one second after its pts |
| `StreamProps.ShowTestMeaning` | subtitleserver/subtitle/Presentation.cpp:827-836 | the unsigned show tests together mean "starts at most 33 ms after the clock", except that any start time passes when the clock is more than 33 ms below zero |
| `StreamProps.DiscardBranchIsDead` | subtitleserver/subtitle/Presentation.cpp:834-916 | the branch for a too large difference cannot be reached for any SPU and clock |
| `StreamProps.WakeAtStart` | subtitleserver/subtitle/Presentation.cpp:834-919 | with the clock at or above -33 ms an SPU is shown if it starts within 33 ms, and else the loop is woken after exactly the time that is left |
| `StreamProps.FadeTestMeaning` | subtitleserver/subtitle/Presentation.cpp:931-956 | the two wrapping fade tests as one signed condition, at every clock reading |
| `StreamProps.FadesIffEnded` | subtitleserver/subtitle/Presentation.cpp:931-956 | with the clock above zero an SPU fades if and only if its end has passed or lies beyond the ahead tolerance |
| `StreamFading.QuietTick` | subtitleserver/subtitle/Presentation.cpp:926-991 | with nothing waiting, a tick at any clock empties the slot, hides and retires its SPU as faded out, if and only if it is not to be kept and its end was reached or is more than 100 s ahead, 5 s for an external one; otherwise it hides nothing and, unless the SPU is to be kept, asks for another tick |
| `StreamFading.StaysUntilItEnds` | subtitleserver/subtitle/Presentation.cpp:926-991 | through any sequence of clock readings, backwards ones too, an SPU that nothing replaces is on the screen as long as it has not ended at one of them, and no longer |
| `StreamFading.AnyTick` | subtitleserver/subtitle/Presentation.cpp:686-994 | the same rule holds for the slot at every tick, after what the tick itself has shown; a tick that drops all that waited leaves the slot alone |
| `StreamFading.FadesOnlyWhenEnded` | subtitleserver/subtitle/Presentation.cpp:686-1002 | over every run, an SPU is retired as faded out exactly as often as a tick finds it on the screen, not to be kept, and ended |
| `StreamFading.ShownFillsTheSlot` | subtitleserver/subtitle/Presentation.cpp:837-905 | the SPU displayed enters the slot with its own end whenever that is a second or more after its start, else for 5 s, and without times for 4 s from now; the one before it is removed; without a picture the display is cleared, unless a PGS successor of the same time replaces the object |
| `StreamFading.NotDueWaits` | subtitleserver/subtitle/Presentation.cpp:809-919 | a front SPU more than 33 ms before its start stays in front, nothing is shown, and a tick is asked for exactly when it starts, or in 100 ms for an external one |
| `StreamFading.PreparedTimes` | subtitleserver/subtitle/Presentation.cpp:809-828 | the times of the front SPU: now and two seconds without a pts, cut to 32 bits when only the SPU needs more, four seconds without an end |
| `StreamFading.StaleAreDropped` | subtitleserver/subtitle/Presentation.cpp:775-785 | exactly the leading external SPUs whose end has passed are dropped; a tick in 100 ms is asked for if and only if nothing is left |
| `StreamFading.NothingLeft` | subtitleserver/subtitle/Presentation.cpp:788-805 | when everything waiting is too far ahead, all of it is dropped and the tick does nothing else |
| `StreamFading.ResetClearsAll` | subtitleserver/subtitle/Presentation.cpp:996-1002 | a reset leaves nothing waiting and nothing on the screen, resets the screen, and gives up each SPU once |
| `StreamLedger.RunConserves` | subtitleserver/subtitle/Presentation.cpp:696-1001 | over every run, with clocks from -33 ms on, SPUs taken = waiting + fading + retired, for each SPU separately, and only departed ones were displayed |
| `StreamLedger.EachSpuInOnePlace` | subtitleserver/subtitle/Presentation.cpp:696-1001 | an SPU handed out once is in exactly one place, and was sent to the display at most once and never while it waits |
| `StreamLedger.PurgedIsNotShown` | subtitleserver/subtitle/Presentation.cpp:788-837 | the SPU that `remove_if` took away while the local pointer still holds it does not pass the show tests, so `pop_front` removes the SPU that is shown |
| `StreamLedger.NegativeClockLosesAnSpu` | subtitleserver/subtitle/Presentation.cpp:788-837 | for every clock below -33 ms: two SPUs arrive at a clock of 500 s and both wait; after a tick at that clock one of them is neither waiting, nor fading, nor retired |
| `StreamLedger.PopFrontIsRightIff` | subtitleserver/subtitle/Presentation.cpp:788-837 | a tick at some clock keeps account of every SPU after every run with clocks from -33 ms on, if and only if that clock is at least -33 ms |
| `StreamProgress.ArrivalIsNearClock` | subtitleserver/subtitle/Presentation.cpp:701-714 | after arrival a stream SPU starts less than 200 s from the clock; a moved one starts a second from now and lasts two |
| `StreamProgress.MovedIffFar` | subtitleserver/subtitle/Presentation.cpp:701-714 | an arrival is moved if and only if it is not external and 200 s or more away from the clock |
| `StreamProgress.HalfGoesIffFull` | subtitleserver/subtitle/Presentation.cpp:735-755 | the arrival is put in its place, and then the earlier half goes if and only if the bytes that waited and twice those of the arrival reach the limit |
| `StreamProgress.NotQueuedIsRetired` | subtitleserver/subtitle/Presentation.cpp:735-755 | an arrival is not queued if and only if the clock is zero, its pts is not, and it is no caption |
| `StreamProgress.EvictionDropsTheEarlier` | subtitleserver/subtitle/Presentation.cpp:749-755 | under memory pressure at most half of the list goes, and nothing dropped starts later than anything kept |
| `StreamProgress.TickShowsTheFront` | subtitleserver/subtitle/Presentation.cpp:760-842 | when everything waiting is due, one tick displays the prepared front SPU and takes it off the list; the next one leaves with it exactly when both can be combined, and then the joined text is displayed |
| `StreamProgress.EverythingDueIsShown` | subtitleserver/subtitle/Presentation.cpp:760-905 | when everything waiting is due, as many ticks as SPUs empty the list, and every SPU with something to show was displayed, or joined to one that was |
| `StreamProgress.JoinsMeaning` | subtitleserver/subtitle/Presentation.cpp:284-327 | two SPUs are joined if and only if both are plain texts of the stream and start at the same time |
| `StreamPresenter.Presenter.CheckSpu` | subtitleserver/subtitle/Presentation.cpp:686-994 | the handler on shared SPU objects, rewritten in place, does exactly the specified step, about which the properties above are proved, and keeps the invariant |
| `StreamPresenter.Presenter.ResetQueue` | subtitleserver/subtitle/Presentation.cpp:996-1002 | a reset clears both lists and the screen, and retires everything |
| `StreamPresenter.Presenter.PushSorted` | subtitleserver/subtitle/Presentation.cpp:735-739 | one `push_back` and `sort` on the list of objects equals the specified queueing |
| `StreamPresenter.Presenter.DropStale` | subtitleserver/subtitle/Presentation.cpp:775-785 | out-of-date external SPUs are popped until the front is current or the list is empty |
| `StreamPresenter.Presenter.RemoveTooFarAhead` | subtitleserver/subtitle/Presentation.cpp:788-802 | `remove_if` keeps, in order, exactly the objects that are not ten minutes ahead |
| `StreamPresenter.Presenter.Present` | subtitleserver/subtitle/Presentation.cpp:837-905 | pop, combine, display, fix the end, and replace the fading SPU, as specified |
| `StreamPresenter.Presenter.FadePhase` | subtitleserver/subtitle/Presentation.cpp:926-991 | the fading slot on objects, as specified; what that is says `StreamFading.QuietTick` |
| `StreamPresenter.SpuObject.CompareBitAndSyncPts` | subtitleserver/subtitle/Presentation.cpp:340-354 | cuts both times of the object to 32 bits exactly when only the SPU's pts needs more |
| `StreamPresenter.SpuObject.CombineSamePts` | subtitleserver/subtitle/Presentation.cpp:284-327 | joins the second text to the first exactly when both are plain stream texts of one pts |
| `SpuList.SortSorts` | subtitleserver/subtitle/Presentation.cpp:91-94 | sorting by `cmpSpu` gives an ordered permutation |
| `SpuList.SortAfterPush` | subtitleserver/subtitle/Presentation.cpp:735-739 | sorting after each arrival is one stable insertion behind equal times |
| `SpuList.InsertKeepsOrder` | subtitleserver/subtitle/Presentation.cpp:735-739 | the insertion keeps the order and adds exactly the arrival |
| `SpuList.InsertAddsMemory` | subtitleserver/subtitle/Presentation.cpp:79-89 | queueing an SPU adds exactly its bytes to the sum that is compared with the limit |
| `SpuList.PurgeKeepsOrder` | subtitleserver/subtitle/Presentation.cpp:788-802 | purging keeps the order |
| `SpuList.CombinedTextReadsBack` | subtitleserver/subtitle/Presentation.cpp:307-324 | the combined buffer, read as a C string, is both texts with a newline between them |
| `Clock.DvbToNsMonotone` | subtitleserver/subtitle/Presentation.cpp:70-73 | the truncating conversion from ticks to nanoseconds is monotone |
| `Clock.NsRoundTrip` | subtitleserver/subtitle/Presentation.cpp:70-77 | converting nanoseconds to ticks and back loses less than a millisecond |
| `ExternalCues.FixSpuDelay` | subtitleserver/subtitle/Presentation.cpp:96-103 | every queued cue lasts more than half a second, and an end that already does is kept |
| `ExternalCues.ComputeShowing` | subtitleserver/subtitle/Presentation.cpp:593-614 | the scan returns the active cues up to its early exit, and only active cues |
| `ExternalCues.NonOverlappingIsExact` | subtitleserver/subtitle/Presentation.cpp:593-614 | on cues that do not overlap the early exit loses nothing: the result is the full filter |
| `ExternalCues.CueIsShown` | subtitleserver/subtitle/Presentation.cpp:593-614 | without overlap each cue is on the screen from its start to its end, both included, and at no other time |
| `ExternalCues.ScanIsExactIff` | subtitleserver/subtitle/Presentation.cpp:593-614 | for cues with an end not before their start, the scan is the full filter at all times if and only if no two cues overlap |
| `ExternalCues.OverlapIsMissed` | subtitleserver/subtitle/Presentation.cpp:600-609 | a cue that starts while an earlier one lasts is missed at its own start |
| `ExternalCues.TicksSuffice` | subtitleserver/subtitle/Presentation.cpp:70-73 | cues that do not overlap in ticks do not overlap in nanoseconds |
| `CaptionProps.H264RunKeepsOrder` | subtitleserver/io/Userdata.c:400-492 | over every run of H.264 or AVS frames and any clock, the list is ordered by (pts, poc) and the count is its length, at most 64 |
| `CaptionProps.ReleaseAtFixedClock` | subtitleserver/io/Userdata.c:730-753 | with a fixed clock the release loop writes exactly the entries before it, in order, and keeps exactly the others |
| `CaptionProps.EarlierIsPrefix` | subtitleserver/io/Userdata.c:730-753 | on an ordered list those are the first entries |
| `CaptionReorder.AddKeepsPending` | subtitleserver/io/Userdata.c:400-492 | below the cap, a frame that is not more than 30 pictures behind the first one pending is put in its place by (pts, poc), and nothing is written or changed besides |
| `CaptionReorder.AddFlushesOnJump` | subtitleserver/io/Userdata.c:436-439 | a frame more than 30 pictures behind has everything pending written in order first, and then waits alone |
| `CaptionReorder.AddAtTheCap` | subtitleserver/io/Userdata.c:408-421 | with 64 pending exactly the first one is written, and the frame is added as below the cap |
| `CaptionReorder.RunWritesForAReason` | subtitleserver/io/Userdata.c:400-492 | over every H.264 or AVS run, each payload written was released at a clock past its pts, or was the first of 64 pending, or was flushed by a picture order of 0 or a jump back of more than 30; and each one left pending was found not to be due |
| `CaptionReorder.GroupWaits` | subtitleserver/io/Userdata.c:400-492 | up to 64 frames of one group that are not due are all kept, sorted, in whatever order they arrive, and nothing is written |
| `CaptionReorder.GroupComesOutInOrder` | subtitleserver/io/Userdata.c:718-754 | when such a group becomes due, exactly the payloads before the clock are written, in the order of (pts, poc) |
| `CaptionReorder.MpegWritesForAReason` | subtitleserver/io/Userdata.c:494-525 | an MPEG frame that continues the references is sent at once, and then what continues it up to the first gap; any other frame waits; an I frame has everything pending written first; nothing is written for another reason but the cap and the jump back |
| `CaptionReorder.ScteWritesForAReason` | subtitleserver/io/Userdata.c:548-656 | a converted packet waits, after the same flush by an I frame, and is never written directly |
| `CaptionProps.RunConserves` | subtitleserver/io/Userdata.c:356-525 | over every run on any mix of paths and any choice of payloads, those taken in are pending or were written, each once |
| `CaptionProps.RunKeepsCount` | subtitleserver/io/Userdata.c:400-525 | over every run the list never has more payloads than the count says, and never more than 64 |
| `CaptionProps.MpegRunIsConsecutive` | subtitleserver/io/Userdata.c:494-525 | over every run of MPEG and SCTE frames the references written since the last flush, apart from evictions, go up from 0 by 0 or 1 |
| `CaptionProps.StepUndefinedIff` | subtitleserver/io/Userdata.c:400-440 | a frame makes the source read through an empty list if and only if the count says full, the list is empty, and the frame has to be queued without a flush |
| `CaptionProps.SwappedPairLeaks` | subtitleserver/io/Userdata.c:509-524 | each pair of frames that comes swapped leaves the list empty and the count one too high |
| `CaptionProps.MpegPathCanFail` | subtitleserver/io/Userdata.c:494-525 | after 64 swapped pairs one more early frame reaches that undefined read |
| `CaptionSpec.InsertPlace` | subtitleserver/io/Userdata.c:440-475 | the place where the list walk stops is the place of ordered insertion |
| `CaptionPackets.RunStamps` | subtitleserver/io/Userdata.c:356-525 | over every run on any mix of paths, every packet is the low 32-bit word of a pts and the payload; the pts is the payload's own, or, without one, the end of the payload sent before it |
| `CaptionPackets.RunDelivers` | subtitleserver/io/Userdata.c:356-525 | over every run, for all payload bytes: as many frames were taken in with them as packets with them were written and payloads with them are pending |
| `CaptionPackets.PacketReadsBack` | subtitleserver/io/Userdata.c:356-367 | a packet fits its buffer and splits into the pts, modulo 2^32, and the payload |
| `CaptionQueue.Assemble` | subtitleserver/io/Userdata.c:357-364 | storing eight bytes of pts and copying the payload over the upper four gives the low word of the pts and the payload |
| `CaptionQueue.Queue.WriteUserdata` | subtitleserver/io/Userdata.c:356-367 | appends one packet, as `Assemble` builds it, under the payload's pts or the running one, and moves that on |
| `CaptionQueue.Queue.Flush` | subtitleserver/io/Userdata.c:369-398 | flushing writes all entries in order and moves every node to the free chain |
| `CaptionQueue.Queue.AddCcData` | subtitleserver/io/Userdata.c:400-492 | on heap nodes, with the two chains kept: the list afterwards is the specified insertion, after an eviction or a flush where, and only where, `CaptionReorder` says one is due |
| `CaptionQueue.Queue.ChainsHoldAllNodes` | subtitleserver/io/Userdata.c:369-475 | between calls every node allocated so far is on exactly one of the two chains |
| `CaptionQueue.Queue.ReleaseDue` | subtitleserver/io/Userdata.c:730-753 | the mid-list unlinking loop releases what the specification does for any clock readings, and ends |
| `CaptionQueue.Queue.H264Frame` | subtitleserver/io/Userdata.c:718-754 | a whole H.264 or AVS frame as specified; what it writes and why says `CaptionReorder.H264WritesForAReason` |
| `CaptionQueue.Queue.DrainNext` | subtitleserver/io/Userdata.c:509-524 | the drain writes the head while it continues the sequence |
| `CaptionQueue.Queue.MpegFrame` | subtitleserver/io/Userdata.c:494-525 | a whole MPEG frame as specified |
| `Scte.Get` | subtitleserver/io/Userdata.c:586-603 | the shift-and-mask macro reads the bits of the field at any offset, most significant first, or stops at the end |
| `Scte.FieldInOneByte` | subtitleserver/io/Userdata.c:586-595 | a field inside one byte is that byte shifted and masked |
| `Scte.FieldAcrossBytes` | subtitleserver/io/Userdata.c:596-601 | a field over a byte boundary is put together from two masked parts |
| `Scte.CharMap.GetChar` | subtitleserver/io/Userdata.c:295-312 | the lazily filled table always gives the reversed byte |
| `Scte.ReverseMirrors` | subtitleserver/io/Userdata.c:302-308 | reversal puts every bit at the mirrored place |
| `Scte.ReverseTwice` | subtitleserver/io/Userdata.c:296-312 | reversing twice gives the byte back |
| `Scte.Converter.Convert` | subtitleserver/io/Userdata.c:577-656 | the outcome is the specified conversion, whose packet `ScteBits.ConversionMeans` describes bit by bit; the 64-byte buffer is overrun if and only if more than 19 of the records read are on a caption line |
| `Scte.Converter.ConvertRecords` | subtitleserver/io/Userdata.c:605-640 | stops at the first record that is not there or at the triple that leaves the buffer, and else has written the triples of all records, which `ScteBits.ConversionMeans` describes |
| `Scte.Converter.Line` | subtitleserver/io/Userdata.c:614-623 | the line of a record from its field and the top-field flag |
| `Scte.FindHead` | subtitleserver/io/Userdata.c:567-572 | finds the first section header at a multiple of eight bytes |
| `Scte.Converter.ProcessScte` | subtitleserver/io/Userdata.c:548-656 | header search and conversion together, for any user data; no output when fewer than eight bytes are left, else the conversion that `ScteBits.ConversionMeans` describes |
| `ScteBits.ConversionMeans` | subtitleserver/io/Userdata.c:577-656 | in terms of the bits of the user data: the packet counts its captions right and has, for each record whose line bits are 11 and whose field is not 0, a byte 4 or 5 for line 21 or 284 and the eight bits of each of its two characters, lowest first, behind those of the records before it; nothing for a cut section or one without captions; an overrun from 20 captions on |
| `ScteBits.LineOfBits` | subtitleserver/io/Userdata.c:614-623 | a record is on line 21 or 284 exactly for these line and field bits |
| `DemuxProtocol.Quiescence` | subtitleserver/io/DemuxDriver.c:149-232 | over all interleavings: after a successful stop or free and a DemuxSync that returned on another thread than the data thread, the filter's callback does not run and none begins until the filter is started |
| `DemuxProtocol.RunKeepsInv` | subtitleserver/io/DemuxDriver.c:149-232 | over every run the callback flag is set exactly during a pass of the data thread, whose index is in range, and a filter that is not allocated is not enabled |
| `DemuxProtocol.SyncSeesNoPass` | subtitleserver/io/DemuxDriver.c:686-700 | DemuxSync returns on another thread only between two passes of the data thread |
| `DemuxProtocol.StaysDisabled` | subtitleserver/io/DemuxDriver.c:522-578 | nothing but starting enables a filter |
| `DemuxProtocol.StopAndOwnSyncAreNotEnough` | subtitleserver/io/DemuxDriver.c:242-263 | a run in which the filter is stopped, DemuxSync is called in its own callback, and the callback still runs |
| `DemuxProtocol.PassEnds` | subtitleserver/io/DemuxDriver.c:149-232 | from every reachable state the data thread alone ends its pass, after which every waiting DemuxSync can return |
| `DemuxPass.PassServesAll` | subtitleserver/io/DemuxDriver.c:172-224 | over all interleavings, a pass calls every filter of the poll result that is started and has a callback throughout and whose read does not fail |
| `DemuxPass.PassCallsInOrder` | subtitleserver/io/DemuxDriver.c:172-224 | a pass calls each filter at most once, in the order of their numbers, and none for which there was no data |
| `DemuxPass.EveryRunHasStates` | subtitleserver/io/DemuxDriver.c:149-232 | every execution of the device goes through the states about which these two are stated |
| `DemuxDevice.Device.AllocateFilter` | subtitleserver/io/DemuxDriver.c:383-420 | the locked section takes the first free filter, as the protocol step says |
| `DemuxDevice.Device.StartFilter` | subtitleserver/io/DemuxDriver.c:522-551 | the locked section is the protocol step, for every driver result |
| `DemuxDevice.Device.StopFilter` | subtitleserver/io/DemuxDriver.c:553-578 | the locked section is the protocol step, and success means stopped |
| `DemuxDevice.Device.FreeFilter` | subtitleserver/io/DemuxDriver.c:498-520 | the locked section is the protocol step; a filter whose stop fails stays |
| `DemuxDevice.Device.TakeCallback` | subtitleserver/io/DemuxDriver.c:190-222 | the data thread's locked section takes a callback exactly from a used and enabled filter with data |
| `Bytes.PeekAsSocketWord` | subtitleserver/ipc/IpcDataTypes.h:55-61 | the expression over four chars is the little-endian word |
| `Bytes.WordRoundTrip` | subtitleserver/ipc/IpcDataTypes.h:55-61 | a 32-bit value copied to the wire is read back, modulo 2^32 |
| `Bytes.LongWordRoundTrip` | subtitleserver/io/ExternalDataSource.cpp:103-106 | low and high word together give back a 64-bit value |
| `SubtitleReport.SubSource.MakeHeader` | client/SubtitleReportAPI.cpp:95-108 | the five words of the header, and no other byte changed |
| `SubtitleReport.SubSource.SendReport` | client/SubtitleReportAPI.cpp:213-345 | every report but data appends one whole frame with its value |
| `SubtitleReport.SubSource.SendData` | client/SubtitleReportAPI.cpp:348-361 | payload data are appended as one whole frame |
| `Framing.DrainInPieces` | subtitleserver/ipc/FmqReceiver.cpp:109-157 | decoding bytes in pieces delivers and keeps the same as decoding them at once |
| `Framing.DrainFrame` | subtitleserver/ipc/FmqReceiver.cpp:109-157 | a complete frame is delivered as its type word and payload |
| `Framing.IncompleteFrameWaits` | subtitleserver/ipc/FmqReceiver.cpp:109-130 | an incomplete frame delivers nothing and stays whole |
| `Framing.DrainPrefix` | subtitleserver/ipc/FmqReceiver.cpp:109-157 | from any prefix of a stream of frames exactly the complete ones are delivered, in order, and exactly the rest is kept |
| `Framing.CompleteMeansComplete` | subtitleserver/ipc/FmqReceiver.cpp:109-130 | the number of complete frames is right: they fit, and the next one does not |
| `Framing.DrainSkipsJunk` | subtitleserver/ipc/FmqReceiver.cpp:109-119 | a leading run of words that are neither flag is skipped first, for any prefix, if the session id is not the magic flag |
| `Framing.JunkIsSkippedIff` | subtitleserver/ipc/FmqReceiver.cpp:115-119 | one junk word before a frame is skipped if and only if the session id differs from the magic flag |
| `Framing.DecoderRule` | subtitleserver/ipc/FmqReceiver.cpp:109-157 | each pass of the decoder in terms of the words in front: a word is skipped only when neither flag is in its place, a length from -20 to -1 drops the header alone, and any other length is waited for |
| `Framing.BadLengthBlocks` | subtitleserver/ipc/FmqReceiver.cpp:126-130 | a header with a length below -20 is never got past, whatever comes behind it |
| `FmqReceiver.Consume` | subtitleserver/ipc/FmqReceiver.cpp:109-157 | the loop with peeks, the unsigned size test and the failed allocation computes the specified decoder |
| `FmqReceiver.ReadLoop` | subtitleserver/ipc/FmqReceiver.cpp:68-163 | for arrivals that fit the ring, after each pass the packages handed over are those of decoding all bytes at once |
| `FmqReceiver.AnyFragmentation` | subtitleserver/ipc/FmqReceiver.cpp:68-163 | for every cut of junk and frames into arrivals, after each pass exactly the complete packages were handed over |
| `FmqReceiver.FramesFit` | subtitleserver/ipc/FmqReceiver.cpp:77-100 | arrivals of a stream, with or without junk in front, that leave room for the longest frame always fit the ring |
| `SourceSpec.ReportArrives` | subtitleserver/io/ExternalDataSource.cpp:99-152 | every report is read as what was reported; 64-bit values arrive unchanged |
| `SourceSpec.OtherPackages` | subtitleserver/io/ExternalDataSource.cpp:132-150 | a package of an unknown type is queued whole, and the three types without a use are ignored |
| `SourceSpec.InfoIsTheLastReported` | subtitleserver/io/ExternalDataSource.cpp:99-125 | what the source knows is what was reported last |
| `SourceSpec.QueuedIsKeptData` | subtitleserver/io/ExternalDataSource.cpp:127-131 | the queued bytes are exactly the data sent while the last total or the last type was not -1 |
| `SourceSpec.AllDataKept` | subtitleserver/io/ExternalDataSource.cpp:127-131 | once a total or a type was reported, and none is taken back, all data are kept |
| `SourceSpec.StreamArrives` | subtitleserver/io/ExternalDataSource.cpp:99-152 | from client to source: the packages handed over from any prefix of the stream are the first reports, as many as are complete |
| `SourceSpec.StoryEnds` | subtitleserver/io/ExternalDataSource.cpp:99-152 | after hearing some packages, the last state of the recorded history is what these packages tell |
| `ExternalSource.BufferItem.ReadL` | subtitleserver/utils/Segment.h:49-66 | returns the next bytes of the item, as many as asked for or left |
| `ExternalSource.BufferSegment.Push` | subtitleserver/utils/Segment.cpp:56-68 | appends a non-empty buffer, ignores an empty one, and keeps the byte counter right |
| `ExternalSource.BufferSegment.TakeFront` | subtitleserver/utils/Segment.cpp:39-54 | takes the first item and its bytes off the counter |
| `ExternalSource.ExternalDataSource.OnData` | subtitleserver/io/ExternalDataSource.cpp:99-152 | learns and queues what the package says, behind everything queued before |
| `ExternalSource.ExternalDataSource.Read` | subtitleserver/io/ExternalDataSource.cpp:169-205 | under any actions of the other threads between its steps, packages and stops included, the bytes queued come out in their order, none lost or repeated, and what is known and queued follows the packages heard; a read that returns while started has exactly the size asked for |
| `ExternalSource.ExternalDataSource.WaitForItem` | subtitleserver/utils/Segment.cpp:42-47 | waits until there is an item or the segment is shut |
| `ExternalSource.ExternalDataSource.AvailableDataSize` | subtitleserver/io/ExternalDataSource.h:50-55 | until exit, the number of bytes queued and not read |
| `ExternalSource.ExternalDataSource.KnowsWhatItHeard` | subtitleserver/io/ExternalDataSource.cpp:99-152 | at any time the source knows and has queued exactly what the packages heard so far say, and the queued bytes are those returned and those unread |
| `ExternalSource.EndToEnd` | subtitleserver/io/ExternalDataSource.cpp:99-205 | for every cut of the stream and every interleaving of packages with reads: the source knows what the complete reports said last, returned and unread bytes together are the data it had to keep, and what reads returned is a prefix of them |
| `PacketRing.RingBuffer.Read` | subtitleserver/io/UserdataDriver.c:144-157 | takes the oldest bytes out, through any wrap |
| `PacketRing.RingBuffer.Write` | subtitleserver/io/UserdataDriver.c:159-174 | appends bytes, through any wrap |
| `PacketRing.RingBuffer.Free` | subtitleserver/io/UserdataDriver.c:130-135 | free and available places are one fewer than the size |
| `PacketRing.StoredAround` | subtitleserver/io/UserdataDriver.c:159-171 | storing behind the contents keeps them and adds the new bytes |
| `PacketRing.UserdataDevice.PackageWrite` | subtitleserver/io/UserdataDriver.c:186-204 | a packet that fits with its length is queued whole; any other is rejected without change |
| `PacketRing.UserdataDevice.PackageRead` | subtitleserver/io/UserdataDriver.c:206-235 | returns the bytes of the oldest packet when the buffer is large enough, and nothing when it is too small, which drops the packet, or when none waits; the branch that must not happen cannot |
| `PacketRing.EncodingIsInjective` | subtitleserver/io/UserdataDriver.c:194-196 | the bytes in the ring tell the packets apart |
| `PacketRing.RunIsFifo` | subtitleserver/io/UserdataDriver.c:186-235 | over every run the packets taken and waiting are those accepted, in order, and fit the ring |
| `PacketRing.ReaderGetsThePackets` | subtitleserver/io/UserdataDriver.c:186-235 | over every run with large enough buffers, what the reads returned are the packets taken, in order, which are the first of those accepted |
| `PacketRing.AcceptedIffFits` | subtitleserver/io/UserdataDriver.c:188-201 | a packet is accepted if and only if its bytes and four more fit the free places |
| `PacketRing.ReadyIff` | subtitleserver/io/UserdataDriver.c:210-211 | a packet can be taken exactly when one is waiting, unless the only one is empty |
| `Registry.SubtitleServer.Subscript` | subtitleserver/SubtitleServer.cpp:561-561 | looking up a missing key adds an empty entry and changes no registration |
| `Registry.SubtitleServer.SetCallback` | subtitleserver/SubtitleServer.cpp:554-584 | a client gets the first cookie without a live client, and no live registration changes |
| `Registry.Pigeonhole` | subtitleserver/SubtitleServer.cpp:569-572 | if all keys below the size are present there are no others, so the key used next is free |
| `Registry.FirstFreeIsSmall` | subtitleserver/SubtitleServer.cpp:559-572 | the first free cookie is at most the number of live registrations |
| `Registry.SubtitleServer.RemoveCallback` | subtitleserver/SubtitleServer.cpp:593-615 | erases the client's first registration, and clears the fallback when it is the client |
| `Registry.SubtitleServer.HandleServiceDeath` | subtitleserver/SubtitleServer.cpp:948-959 | empties the entry of the dead client only |
| `Registry.SubtitleServer.SendSubtitleDisplayNotify` | subtitleserver/SubtitleServer.cpp:758-781 | ends although it inserts while scanning, and without fallback calls every live client exactly once |
| `Registry.StaysRegistered` | subtitleserver/SubtitleServer.cpp:554-615 | over every run a registration stays under its cookie until its client is removed or dies |
| `Registry.RegistrationsAreConserved` | subtitleserver/SubtitleServer.cpp:554-615 | over every run registrations made = live + taken out by a removal or a death |
| `Json.SerRoundTrip` | subtitleserver/utils/ClosedCaptionJson.c:80-178 | the text of any value reads back as that value: balanced brackets, right commas |
| `Json.UnescapeEscaped` | subtitleserver/utils/ClosedCaptionJson.c:149-172 | escaped text reads back as the text |
| `JsonGrammar.EscapedIsLegalIff` | subtitleserver/utils/ClosedCaptionJson.c:149-172 | escaped text between quotes is a legal string of RFC 8259 section 7 if and only if it has no control characters but LF and CR |
| `JsonGrammar.SerIsLegalIff` | subtitleserver/utils/ClosedCaptionJson.c:80-178 | the text of any value is legal by the whole grammar of RFC 8259 and ends where it was written to, if and only if no string in it has a control character but LF and CR |
| `JsonOutput.Output.OPrintf` | subtitleserver/utils/ClosedCaptionJson.c:80-90 | text is appended and terminated if it fits with its terminator; else nothing is appended |
| `JsonOutput.Output.OPropBegin` | subtitleserver/utils/ClosedCaptionJson.c:92-99 | a comma if needed and the key, exactly when both fit |
| `JsonOutput.Output.OSymbol` | subtitleserver/utils/ClosedCaptionJson.c:106-117 | a bracket, with a comma before an opening one behind a value |
| `JsonOutput.Output.OBoolProp` | subtitleserver/utils/ClosedCaptionJson.c:119-124 | a whole boolean property exactly when it fits; a refusal leaves no more room than the longest piece |
| `JsonOutput.Output.OIntProp` | subtitleserver/utils/ClosedCaptionJson.c:126-131 | a whole integer property exactly when it fits; a refusal leaves no more room than the longest piece |
| `JsonOutput.Output.OStrProp` | subtitleserver/utils/ClosedCaptionJson.c:133-178 | a whole escaped string property exactly when it fits |
| `JsonOutput.Output.CloseObject` | subtitleserver/utils/ClosedCaptionJson.c:106-117 | the closing brace completes the object's text, exactly when it fits |
| `JsonOutput.OutlineIsRight` | subtitleserver/utils/ClosedCaptionJson.c:92-178 | each further property adds a comma if needed, its key and its value to the object's text |
| `CaptionRow.DecodeEncoded` | subtitleserver/utils/ClosedCaptionJson.c:49-65 | the octets of a row decode to its characters in order |
| `CaptionRow.DecodeOne` | subtitleserver/utils/ClosedCaptionJson.c:49-65 | one encoded character decodes to itself, whatever follows |
| `CaptionRow.RunsPaintTheCells` | subtitleserver/utils/ClosedCaptionJson.c:582-604 | the runs give every cell's octets with the cell's own pen, in order |
| `CaptionRow.RunsEncodeTheRow` | subtitleserver/utils/ClosedCaptionJson.c:582-604 | without pens, the runs are the UTF-8 of the row |
| `CaptionRow.RunsAreProper` | subtitleserver/utils/ClosedCaptionJson.c:582-604 | no run is empty or has a NUL, and the pen changes between runs |
| `CaptionRow.RowStart` | subtitleserver/utils/ClosedCaptionJson.c:548-552 | the number of empty cells before the first one that is not |
| `CaptionJson.PutUc` | subtitleserver/utils/ClosedCaptionJson.c:49-65 | appends the encoding of one character |
| `CaptionJson.TextToJson` | subtitleserver/utils/ClosedCaptionJson.c:451-528 | one run as an object, exactly when it fits |
| `CaptionJson.RowCell` | subtitleserver/utils/ClosedCaptionJson.c:581-596 | a cell joins the run in the buffer, or that run is written and a new one begins |
| `CaptionJson.RowToJson` | subtitleserver/utils/ClosedCaptionJson.c:530-612 | a row as an object with its runs and its start, exactly when it fits, whatever pen came in |
| `CaptionService.WriteRollup` | subtitleserver/utils/ClosedCaptionJson.c:669-671 | the two unchecked writes do no harm: if one is refused, the next checked one is refused too |
| `CaptionService.WindowToJson` | subtitleserver/utils/ClosedCaptionJson.c:614-706 | a window as an object, exactly when it fits; settling the counts does not change what is written |
| `CaptionService.VisibleHasAll` | subtitleserver/utils/ClosedCaptionJson.c:713-718 | every visible window is listed, once |
| `CaptionService.SortByPriority` | subtitleserver/utils/ClosedCaptionJson.c:720-729 | the exchange sort gives a permutation in nondecreasing priority |
| `CaptionService.ServiceToJson` | subtitleserver/utils/ClosedCaptionJson.c:708-738 | the visible windows by priority as one object; success if and only if the text fits |
| `CaptionService.TvccToJson` | subtitleserver/utils/ClosedCaptionJson.c:753-770 | success if and only if the text and a terminator fit, and then the buffer begins with them |
| `CaptionReadBack.ServiceShowsItsWindows` | subtitleserver/utils/ClosedCaptionJson.c:614-738 | read back, the text of a service has the listed windows in their order, each with its own values under their names and one object for each of its rows, which decodes to the characters in its columns |
| `CaptionReadBack.WindowReadsBack` | subtitleserver/utils/ClosedCaptionJson.c:632-660 | the counts and the rows written of a window are those declared or, when it is not locked, those of its content if these are more |
| `CaptionReadBack.RowReadsBack` | subtitleserver/utils/ClosedCaptionJson.c:530-612 | read back, the runs of a row decode to its characters, and its start is where they begin |
| `CaptionReadBack.RunReadsBack` | subtitleserver/utils/ClosedCaptionJson.c:451-528 | read back, a run has its octets and each value of its pen under its name |
| `CaptionLegal.ServiceReadsBack` | subtitleserver/utils/ClosedCaptionJson.c:708-738 | the text of a service is one complete JSON object that reads back as the service |
| `CaptionLegal.ServiceIsLegalIff` | subtitleserver/utils/ClosedCaptionJson.c:149-178 | the text of a service is legal JSON if and only if no cell written of a listed window shows a control character but LF and CR |
| `Bprint.PrintBuffer.Print` | subtitleserver/utils/bprint.c:179-200 | after any prints the buffer has a terminated prefix of everything printed; the retry loop ends |
| `Bprint.PrintBuffer.Alloc` | subtitleserver/utils/bprint.c:120-142 | grows to twice the size or what is needed, whichever is more, never beyond the limit, without overflow; refused only at the limit or when cut short |
| `Bprint.PrintBuffer.CompleteIff` | subtitleserver/utils/bprint.c:144-200 | complete if and only if the total is below the limit, and then everything is there |
| `Bprint.GrowingKeepsPrefix` | subtitleserver/utils/bprint.c:144-151 | text put behind the kept part makes a longer prefix |

## Left out

- Start of the video: the message handler that waits for a first video time is not modelled; the steps are those after it.
- `front()` of an empty list is read as a null pointer, which is what the null checks behind it expect.
- The flag `mSubtitlePts32Bit`, AI translation and logging, which no modelled branch reads.
- Multi-line cue combining for external subtitles, which sizes its buffer by the front cue alone.
- The length of a combined text is kept in a 32-bit int in the source; here it is unbounded.
- Times so large that the conversion to nanoseconds overflows signed 64 bits are excluded (`ClockInRange`, `Bounded`).
- StreamLedger.RunConserves: assumes clocks from -33 ms on, because below that the source loses SPUs, which `PopFrontIsRightIff` shows.
- CaptionProps.RunKeepsCount: on the MPEG path only "length at most the count" holds, because the drain omits the decrement.
- Caption frames: the values of `curr_pts` and `curr_duration` that the open call leaves unset are parameters; the user-data thread's buffer loop, AFD and DirecTV packets are not modelled.
- CaptionQueue.Queue.WriteUserdata: payloads that do not fit the packet buffer of 5124 bytes behind the pts are excluded (`CcBytes`); user data are read at most 5124 bytes at a time, in front of which a few bytes may be left over.
- Scte.Converter.ProcessScte: assumes that the driver's buffer is two bytes longer than the user data, because the section starts two bytes behind the header from which its length is counted.
- Scte.Converter.Convert: a write behind the buffer ends the conversion with the outcome `Overrun`; what the source does after it is undefined.
- Demux: opening and closing the device, section and PES parameters, and DemuxStartFilter on a handle that was never allocated, which the source does not check.
- Sending in parts: a send that does not fit the message queue at once starts again from its first byte; sends here fit in one write.
- The library ring buffer of the receiver is a byte queue of its capacity; arrivals must fit what is left of it. Frame sizes from -4 to -1 overflow a small allocation in the source; here, as for sizes down to -20, only the header is dropped.
- FmqReceiver.ReadLoop: does not model the stop flag; the listener is attached throughout.
- Packages shorter than the value that their type announces make the source read behind them; such packages are excluded (`Readable`).
- ExternalSource.ExternalDataSource.Read: the other threads act between its steps, where it holds no lock; a package is handled in one step; listener notification is not modelled.
- PacketRing.UserdataDevice.PackageWrite: packets whose length plus four exceeds a 32-bit int are excluded; polling and opening are not modelled.
- Registry: death notices come only for live registrations; the event fan-out fixes the size before its scan and lacks the coverage of the display path.
- Allocation failure everywhere but for a negative frame size.
- CaptionService.ServiceToJson: the visible windows are listed before the first write; the order of these steps cannot be observed.
- The Korean branch of the row writer, CEA-608 JSON, whose failures are ignored, and the geometry of captions. The comparison of pens by `memcmp` is taken as equality of their fields.
- JsonGrammar.SerIsLegalIff: octets above 0x7F count as characters; that they form UTF-8 is said by `DecodeEncoded` for what is decoded.
- Characters of more than 16 bits, and surrogates, which `dtvcc_unicode` does not give.
- Device polling, sysfs, binder, rendering, and the deprecated socket server.
