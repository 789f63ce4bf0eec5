# Casquinha: a verified model of its audio path and of its small protocols

Casquinha plays an MP3 stream on Mac OS 9. Bytes drained from the socket go into a compressed
ring, from there into a private flat stage, through a gate that only lets confirmed frames reach
the decoder, and as PCM through a second ring to the interrupt that refills the sound hardware.
Three contexts share the two rings: the event loop, a preemptive decode task and the sound
interrupt. Each cursor has one writer and is read, possibly stale, by the others.

This project models that path and proves what it is for, with the exact conditions:

- **Chunking is not heard.** Within the two size limits of the listen, and only within them, no
  chunking of the received bytes stops it; every chunking then plays the same bytes, those from the
  first confirmed frame on (`Chunks.NeverStoppedIff`, `Chunks.HandoffIgnoresChunks`).
- **Interleaving is not heard.** However the three contexts interleave, nothing unread is overwritten
  and every byte is accounted for (`Safety.ThreePartySafety`), and the decoder is given exactly the
  frames of the stream, as in one flat decode, if and only if no decision after the end of the wire
  meets one whole frame with one to three bytes behind it (`Schedule.ScheduleIndependence`).
- **Junk is passed over exactly.** A pass over junk and then a stream lands on the first frame, counts
  the junk, and feeds the decoder exactly the frames, in order, up to the one it holds
  (`Splice.SplicedPass`).
- **Who is heard.** Tuned in to the middle of a stream, a frame is heard if and only if its main data
  reaches back no further than the payload before it that is still unused (`TuneIn.TunedIn`).
- **What is trimmed.** A trim request is applied, exactly once, if and only if the two loads it was
  computed from fit together (`Trim.AppliedIffAhead`), and one made on a backlog that is still queued
  never starves the ear (`Trim.TrimsNeverStarve`).
- **Nothing blocks for good.** Any bytes at all can be brought to rest from every state of every run
  (`Completion.CanAlwaysFinish`). A stream that stops between two frames is then played out; one that
  stops inside a frame loses the frame before it, or is never idle (`StreamEnd.EndOfStream`).
- From received bytes to PCM in one statement: `EndToEnd.WireToPcm`.

Around the path stand the smaller protocols: the transaction that brings the bytes, the header strip
and handoff, the park handshake, the bit reader and reservoir inside the decoder, the tab-separated
codec and the lists read from it, the icns encoder, and the adoption of `/now` replies. How every
transaction ends is told from what Open Transport answered (`Outcome.EveryEnd`), and what is on the
display from the list of replies (`Display.WhatIsShown`).

`dafny verify dfyconfig.toml` checks everything.

## How it is laid out

| files | what they hold |
|---|---|
| `Bytes`, `Arithmetic`, `Memory`, `Cursors`, `Rings` | bytes, `memcpy` and `memmove`, wrapped 32-bit cursors, the bytes between two cursors, the two wrap-aware copies |
| `Mp3`, `Minimp3`, `FrameSelect`, `Search`, `TailGate`, `Decoder` | the two independent header parsers and their agreement, frame selection and what it comes to, the gate, one decoder call, a flat decode |
| `Bits`, `SideInfo`, `SideLayout`, `Reservoir`, `TuneIn` | the bit reader, the side information and where it lies in a frame's bytes, the 511-byte reservoir, which frames are heard |
| `Pump`, `DecRing`, `Splice` | one pass of the decode pipeline on values, the object that does it in arrays with 32-bit cursors, a pass over junk |
| `Sound`, `Trim` | the interrupt, the latency trim, and what becomes of its requests over whole runs |
| `Pipeline`, `Safety`, `Schedule`, `Completion`, `Inline` | the three-party machine, what every interleaving keeps, schedule independence, progress, the single-threaded fallback |
| `StreamEnd`, `PlayedOut`, `HalfFrame` | how a stream ends, the test that ends a listen, streams that stop inside a frame |
| `Transport`, `Outcome`, `Feed`, `Chunks`, `Listener` | the Open Transport transaction and how it ends, one listen on values, when chunking decides, and `ServiceAudio` on its objects |
| `EndToEnd` | from received bytes to PCM |
| `Park` | the park handshake |
| `Codec`, `CodecLaws`, `Numbers`, `Lists`, `ListLaws` | fields, decimal numerals, indexed lists |
| `Rle`; `Adoption`, `Display` | the icns encoder; guard, anchor and interpolation, and what is shown |
| `Samples` | literal texts, sizes and formats |

Code that updates things in place is a class or a method with loops (`DecRing`, `Mp3Dec`,
`SoundOut`, `Transaction`, `Tuner`, `BitReader`, `Store`, `Fields`, `TrackList`, `RefList`,
`Player`, `Walk`, `Sync`, `IcnsRle` and others), proved equal to a function on values; the laws are
then proved about that function. The arithmetic inside one selected frame is a parameter,
`Decoder.Dsp`: any function of the frames decoded since the decoder state was last cleared and of
the new frame. `Reservoir.Layer3` makes its two failure cases concrete for Layer III.

## Where the code does less than its comments say

Each of these is kept as the code has it, with the exact condition and a concrete run.

- **Size limits.** A listen is stopped when more than 8192 bytes are staged without a header end, or
  more than 32768 without a frame; a drain may bring up to 64 KB, so how the wire was chunked decides
  (os9/casquinha.c:1919-1922, 1965, 2002). No chunking of the received bytes is stopped if and only if
  the header ends in the first 8193 of them, when there are so many, and a frame is confirmed in the
  first 32769 after it, when there are so many (`Chunks.NeverStoppedIff`). 9000 zero bytes and a CRLFCRLF
  stop a listen in two slices and not in one (`Chunks.ChunkingDecides`).
- **End of stream.** `eof` relaxes the gate from two frames to one, and `ServiceAudio` declares it right
  after the last socket drain, while the compressed ring may still hold bytes (os9/casquinha.c:1931-1935).
  One decoder call is then exact if and only if another whole frame is staged or the boundary leaves
  none, or at least four, bytes of the next (`StreamEnd.EofCutExact`, `StreamEnd.EofCutLosesFrame`); a
  whole run is a flat decode if and only if no decision after the end meets exactly one whole frame
  followed by one to three bytes (`Schedule.FedIffClean`). `StreamEnd.EofCutRun` is a run of twelve steps
  in the program's order that takes 25 of 48 bytes for nothing and counts no frame.
- **A stream that stops inside a frame.** With the end declared on a drained ring, the bytes left behind
  the last frame decide: none gives every frame and an idle pipeline; one to three lose the last frame,
  after the PCM of those before it; at least four give every frame and a pipeline that is never idle,
  on which the "played out" stop (os9/casquinha.c:2064-2066) waits for good (`StreamEnd.EndOfStream`,
  `StreamEnd.NeverPlaysOut`, `StreamEnd.TailStays`). In sixteen steps `HalfFrame.HalfFrameRun` hears a
  frame and keeps the four bytes behind it for good; in twelve `HalfFrame.LostFrameRun` ends the listen
  on the same frame and one byte without a sound. When the test does answer yes, all has been played
  or trimmed, however far apart its loads are (`PlayedOut.TheTestIsSound`).
- **Trim requests.** The backlog of the latency trim is the difference of two loads, of a cursor the task
  writes and one the interrupt writes (os9/casquinha.c:2056), in an order the language leaves open. If
  the write cursor is loaded first and a firing passes it before the second load, the 32-bit difference
  is just below 2^32 and the request negative (line 2058): the interrupt only applies positive ones
  (line 1632), and until the next listen the pending one bars every other (line 2055,
  `Trim.NegativeBlocks`). It is applied if and only if the read cursor has not passed the write cursor
  loaded, which is when the difference is no more than the ring holds: a test the event loop could make
  first (`Trim.WrThenRd`, `Trim.AppliedIffAhead`). With the read cursor loaded first the request is never
  negative, and fresh if and only if no firing moved that cursor in between (`Trim.RdThenWr`).
  `Trim.TornRun` is the run, five steps from any state in which a frame completes a chunk;
  `Trim.EveryListenCanTear` finds such a state in every listen that queues a chunk before it is fired at.
- **Parking.** An old acknowledgement of PARK satisfies the wait of a later PARK. Parking is safe if
  and only if the last acknowledgement is not PARK while the task still acts on a RUN
  (`Park.ParkExact`, `Park.StaleAckRun`). In what the event loop can see: with a RUN outstanding, it is
  safe wherever the task may be if and only if the acknowledgement reads RUN (`Park.ParkByTheWords`).
- **Last drain.** Bytes that do not fit in the compressed ring when the stream closes are dropped
  with the transport, exactly those (`Feed.CloseLoses`, `Feed.CloseLosesTwo`).
- **NUL in a key.** A put whose key holds a NUL appends a second field under a key that is already
  there, and a lookup finds the old value (`CodecLaws.PutKeepsDistinct`, `CodecLaws.GetAfterPut`; a
  two-line document in `CodecLaws.NulKeyKeepsOldValue`).
- **Long list prefixes.** The reference list forms keys in an 80-byte buffer. With a prefix that
  leaves no room for the index the open-ended scan may meet no gap; it meets one if and only if one
  of the finitely many keys it can form is missing (`Lists.RefScanStopsIff`,
  `Lists.LongPrefixNeverStops`). It then ends only when memory does. The program itself only passes
  "artist", "album" and "item" (os9/casquinha.c:2262-2277), so this is a property of the interface.
- **Unknown timestamps.** A reply without a timestamp between two copies of one document moves the
  progress anchor. The anchor stays if and only if no reply has an unknown or newer timestamp
  (`Adoption.AnchorHoldsIff`); when the document is shown again the bar has not gone back if and only if
  the anchor stayed, or the track was not playing, or the bar is at its end, or not yet at its beginning
  (`Adoption.BarHoldsIff`). `Adoption.UnknownReplyRewinds` is three replies that take it from 2000 ms to 0.
- **Progress of a pass.** `cq_decring_pump` reports no progress for a pass that only resynced or
  flushed. A pass without progress left everything as it was if and only if there was no room for a frame
  of PCM or at most 8192 bytes were staged (`Pump.NoProgressIff`); 9000 zero bytes are thrown away by a
  pass that reports nothing (`Pump.FlushReportsNothing`).

## Model

| member | source | states |
|---|---|---|
| Cursors.WrapExact | src/cq_decring.c:47-51 | the slot of a wrapped 32-bit counter is right for every counter if and only if the ring size divides 2^32 |
| Cursors.NarrowRefinesWide | src/cq_decring.c:40-58 | on every run of puts and takes, however far past 2^32 bytes, wrapped cursors show the same fill and the same two slots as unbounded ones, and fill never exceeds the size |
| Cursors.SlotsDistinct | src/cq_decring.c:161-170 | different counters less than one size apart never share a slot |
| Rings.CopyOut | src/cq_decring.c:88-95 | the two `memcpy` calls read exactly the ring's bytes from the cursor on, across the wrap, and touch nothing else of the destination |
| Rings.CopyIn | src/cq_decring.c:161-168 | the two `memcpy` calls write exactly the data from the cursor on and leave every other slot alone |
| Rings.StoreAppends | src/cq_decring.c:54-58 | data written past the unread bytes, when it fits, leaves them as they were and follows them in order |
| Mp3.FrameBytesRange | src/cq_mp3.c:30-43 | every header that parses predicts between 24 and 1441 bytes |
| Mp3.Walk | src/cq_mp3.c:47-66 | the loop counts whole, agreeing frames from the head, at most the given number, and returns their total length |
| Mp3.WalkCountsFrames | src/cq_mp3.c:47-66 | on k coherent frames followed by anything that does not start with another whole one, the walk returns min(k, max) frames and exactly their length |
| Mp3.Sync | src/cq_mp3.c:68-87 | the loop returns the offset of the search and the header parsed there, or -1 and none |
| Mp3.SyncIsLeast | src/cq_mp3.c:68-87 | the result is r if and only if the header predicted at r parses and agrees and every earlier offset is refuted |
| Mp3.SyncFromMeaning | src/cq_mp3.c:68-87 | a negative result means every offset is refuted, or the first candidate not refuted predicts a header beyond the buffer |
| Mp3.SyncStable | src/cq_mp3.c:68-87 | appending any bytes leaves a sync point that was found where it is |
| Mp3.SyncOnFrames | src/cq_mp3.c:68-87 | two agreeing whole frames at the head, then anything, are already in sync |
| Minimp3.ParseIffValid | src/cq_mp3.c:12-45 | the stream reader accepts a header if and only if the decoder calls it valid, of Layer III and not free-format |
| Minimp3.ParsersAgree | src/minimp3.h:264-314 | for every header both accept, the two parsers compute the same frame length, samples, sample rate, channels and bitrate (section 2.4.2.3 of ISO/IEC 11172-3) |
| Minimp3.CompareIffAgree | src/minimp3.h:273-279 | after a parsed header, `hdr_compare` holds if and only if the second header parses with the same version and rate |
| Samples.LayerLengths | src/minimp3.h:264-314 | lengths, paddings and samples of a frame of each layer |
| FrameSelect.MatchFrame | src/minimp3.h:1657-1669 | the match loop accepts if and only if the chain of predicted headers, ten at most, compares equal as far as it is in reach and at least one was reached |
| FrameSelect.FindFrame | src/minimp3.h:1671-1706 | the scan with its inner free-format loop returns the first offset it may take, its size and the free-format size it leaves |
| FrameSelect.FindFreeFormat | src/minimp3.h:1681-1693 | the inner loop finds the free-format size the three-header rule gives |
| FrameSelect.FoundInside | src/minimp3.h:1671-1706 | whatever the bytes, a frame found lies wholly inside the buffer, and finding none consumes all of it |
| FrameSelect.FoundConfirmed | src/minimp3.h:1657-1706 | whatever the bytes, a frame found by search is the whole buffer or leaves the header it was confirmed by in reach behind it |
| FrameSelect.SelectTakesSome | src/minimp3.h:1720-1741 | whatever the bytes and the state, a nonempty buffer loses between one byte and all of them |
| Search.FirstTaken | src/minimp3.h:1671-1706 | the search takes the first offset it may, with the length it settled on there, and otherwise passes over everything |
| Search.KnownLength | src/minimp3.h:1676-1696 | a header that says its length is matched by exactly that length |
| Search.FreeLength | src/minimp3.h:1681-1693 | a free-format header is matched by the least distance, past its own padding, at which three headers of a kind follow one another, and by none if there is none |
| TailGate.MatchIffCohere | src/minimp3.h:1657-1669 | the decoder's ten-header match at a parsed header holds if and only if the headers at the stream reader's own predicted offsets agree with it |
| TailGate.SearchAtHead | src/minimp3.h:1671-1706 | a search takes the parsed frame at offset 0 if and only if its successors cohere and one is in reach, or the frame is the whole buffer |
| TailGate.GateIsSound | src/cq_decring.c:114-143 | when the walk finds two whole frames at the head of any buffer, a decoder whose saved header compares equal takes exactly the first and keeps its state; any other takes exactly the first if and only if the headers it goes on to check agree, and then from a cleared state |
| TailGate.SelectOnStream | src/minimp3.h:1720-1741 | on a coherent stream cut anywhere the next frame is taken exactly if and only if a second whole frame is there or the cut leaves none, or at least four, bytes of it |
| TailGate.CutTakesAnother | src/minimp3.h:1720-1741 | whatever the decoder's state, on a whole frame and one to three more bytes it never takes exactly the frame |
| Decoder.Mp3Dec.Frame | src/cq_mp3dec.c:15-28 | the call in place equals the decoder call on values: consumed bytes, samples, PCM and new state, with both reset paths |
| Decoder.Mp3Dec.ChooseFrame | src/minimp3.h:1720-1737 | by the saved header if it can be trusted, by a search from cleared state if not |
| Decoder.DecodeConsumes | src/cq_mp3dec.c:15-28 | any bytes, any state: between one byte and all of a nonempty buffer is consumed, and no samples means no PCM |
| Decoder.DecodeNext | src/minimp3.h:1713-1806 | on a stream cut where the gate allows, one call is one step on exactly the next frame |
| Decoder.FlatDecodeIsPerFrame | src/minimp3.h:1713-1806 | a flat decode of whole coherent frames is one step per frame, in order, from any point on |
| TuneIn.CallLeaves | src/minimp3.h:1739-1806 | a frame with good side information, heard or not, leaves its own four bytes as the saved header, the free-format size as it was, and joins the state; one without voids the header and is silent |
| TuneIn.PcmOfFrame | src/minimp3.h:1769-1806 | a heard frame yields 1152 or 576 samples, two bytes for each and each channel, unchanged from the arithmetic |
| TuneIn.ResumesIff | src/minimp3.h:1720-1737 | the saved header is gone by if and only if it compares equal and the announced frame ends the buffer or has another header of the kind behind it; otherwise header and past are cleared |
| Bits.BitReader.GetBits | src/minimp3.h:248-262 | for 1 to 32 bits at any position the byte loop returns the number those bits spell, most significant first; the position always advances; a read past the limit returns 0 |
| Bits.ByteIsValue | src/minimp3.h:255-261 | the eight bits of a byte spell the byte |
| Bits.ValueShift | src/minimp3.h:255-261 | shifting a field right gives its head, masking it gives its tail |
| Bits.BitOfValue | src/minimp3.h:248-262 | the value of a field determines every bit of it |
| Bits.ReadsConcatenate | src/minimp3.h:248-262 | however a stretch of bits is cut into consecutive reads, the results joined spell that stretch |
| Bits.ReadsPastEnd | src/minimp3.h:253-254 | once a read has passed the limit every later one returns 0 |
| SideInfo.ReadGranule | src/minimp3.h:532-598 | 59 bits (63 below MPEG 1) are read on either branch; refused exactly when big_values exceeds 288 or a switched window has block type 0 |
| SideInfo.ReadSideInfo | src/minimp3.h:484-607 | on success the position has moved by exactly 32, 17, 17 or 9 bytes, and the lengths are the 12-bit fields at the standard's offsets |
| SideInfo.SideBytesAdd | src/minimp3.h:518-599 | head and granules add up to 32, 17, 17 or 9 bytes (section 2.4.1.7 of ISO/IEC 11172-3) |
| SideInfo.OpenFrame | src/minimp3.h:1753-1766 | a frame is given up exactly when it is shorter than its side information says, has a bad granule, or has granules longer than its payload and main-data offset allow |
| SideInfo.SideFits | src/minimp3.h:601-606 | main data begins at most 511 bytes back and the granule lengths end within that many bytes plus the payload |
| SideLayout.SideIsLayout | src/minimp3.h:484-607 | what the decoder reads of any frame is what the fields at the standard's bit positions of the whole frame say: refusals, lengths, main data, payload (sections 2.4.1.4 and 2.4.1.7 of ISO/IEC 11172-3) |
| SideLayout.SideInBytes | src/minimp3.h:1753-1766 | payload behind the header, two bytes of checksum exactly when byte 1 is even, and 32, 17, 17 or 9 bytes; main data at the nine or eight bits right behind header and checksum |
| SideLayout.PlainFrame | src/minimp3.h:1754 | a concrete frame without checksum: 257 bytes back, payload from byte 36 |
| SideLayout.CheckedFrame | src/minimp3.h:1754 | the same with one: payload from byte 38 |
| Reservoir.Store.Restore | src/minimp3.h:1228-1236 | the window is the wanted end of the reservoir followed by the payload; success if and only if the reservoir is long enough |
| Reservoir.Store.Save | src/minimp3.h:1212-1226 | what is kept is the unread end of the window, at most 511 bytes |
| Reservoir.Store.Granules | src/minimp3.h:1240-1247 | each granule ends where its length says, never past the window |
| Reservoir.Store.Frame | src/minimp3.h:1753-1777 | of a Layer III frame: reading, restoring, the granules and saving leave exactly the specified reservoir; other layers do not touch it |
| Reservoir.ReservoirRefines | src/minimp3.h:1212-1236 | over every run of frames since a reset, other layers in between or not, the 511-byte buffer is the last 511 bytes of what no frame has used yet of the unbounded stream of Layer III payloads, and a suffix of that stream (section 2.4.2.7 of ISO/IEC 11172-3) |
| Reservoir.OneFrame | src/minimp3.h:1228-1236 | a frame is decodable from the buffer if and only if its main data is unused in the unbounded stream, and its window then starts exactly main_data_begin bytes before its payload |
| Reservoir.StreamIsPayloads | src/minimp3.h:1767-1777 | that stream is the concatenation of the payloads, in order |
| Reservoir.HeardIffReached | src/minimp3.h:1753-1777 | a decoder call on a Layer III frame yields PCM if and only if the side information holds and the main data was not used before; it then decodes from exactly `main_data_begin` bytes before the payload |
| TuneIn.TunedIn | src/minimp3.h:1761-1806 | over every run of coherent frames with good side information from a void decoder: the state is that of exactly the frames so far, heard or not, and a frame is heard, with all its samples, if and only if its main data reaches back no further than the unused payload before it |
| TuneIn.LeftUnused | src/minimp3.h:1212-1226 | what is unused after a frame: the rest of its window if it was heard, all there was and its payload if not |
| TuneIn.HeardFromTheSecond | src/minimp3.h:1767-1777 | the second frame after tuning in is heard by what the silent first one left |
| TuneIn.SecondIsHeard | src/minimp3.h:1767-1777 | two concrete frames reaching 257 bytes back: none, then 1152 samples |
| DecRing.DecRing.constructor | src/cq_decring.c:25-38 | both rings and the stage start empty, every counter at zero |
| DecRing.DecRing.Space | src/cq_decring.c:40-43 | space and queued bytes make up the ring |
| DecRing.DecRing.Claim | src/cq_decring.c:45-52 | the region offered starts at the write slot, fits before the wrap and in the free space |
| DecRing.DecRing.Commit | src/cq_decring.c:54-58 | exactly the bytes already in the array past the queue join it |
| DecRing.DecRing.Put | os9/casquinha.c:1984-1995 | the feeding loop queues the longest prefix that fits, in order, across the wrap |
| DecRing.DecRing.Eof | src/cq_decring.c:60-63 | only the end flag changes |
| DecRing.DecRing.Idle | src/cq_decring.c:65-68 | idle if and only if neither ring nor stage holds a compressed byte |
| DecRing.DecRing.Reset | src/cq_decring.c:70-77 | queue, stage, flag and counters are cleared; the PCM side is left alone |
| DecRing.DecRing.Open | os9/casquinha.c:1821-1845 | both rings, stage, flag and counters start afresh and the decoder's saved header can no longer be trusted |
| DecRing.DecRing.TopUp | src/cq_decring.c:84-101 | the most that fits moves from the queue to the end of the stage, in order |
| DecRing.DecRing.Emit | src/cq_decring.c:160-172 | one frame of PCM joins the output, in order, across the wrap |
| DecRing.DecRing.Compact | src/cq_decring.c:174-177 | exactly the used prefix leaves the stage |
| DecRing.DecRing.Pump | src/cq_decring.c:79-179 | the whole pass in place, with wrapped cursors, equals the pass on values, and returns the same progress flag |
| Pump.TurnAdvances | src/cq_decring.c:106-173 | for arbitrary bytes a turn that goes on uses at least one more staged byte, so every pass ends; it makes at most one frame of PCM, and only with room for it |
| Pump.LoopBounds | src/cq_decring.c:106-173 | a pass never uses more than is staged nor makes more PCM than fits |
| Pump.SyncAtHeadOpensGate | src/cq_decring.c:121-140 | with more than 8192 bytes staged, a sync at offset 0 means the gate is open |
| Pump.DeepStageShrinks | src/cq_decring.c:114-143 | with more than 8192 bytes staged and room for a frame, every pass removes at least one byte, whatever the bytes: the gate cannot deadlock |
| Pump.IdlePassIff | src/cq_decring.c:79-143 | a pass changes nothing and reports nothing if and only if it has nothing to top up with and either no room for a frame of PCM or a shallow stage behind a closed gate |
| Pump.NoProgressIff | src/cq_decring.c:79-179 | a pass that reports no progress left everything as it was if and only if there was no PCM room or at most 8192 bytes were staged |
| Pump.FlushReportsNothing | src/cq_decring.c:126-141 | 9000 bytes that hold no frame are all thrown away by a pass that reports no progress |
| Pump.ResyncIff | src/cq_decring.c:121-136 | a turn resyncs by n bytes if and only if there is PCM room, the gate holds over more than 8192 bytes, and the first confirmed offset, all before it refuted, is n |
| Pump.ResyncLands | src/cq_decring.c:126-136 | it lands on bytes confirmed at once, counts exactly the bytes passed, and changes nothing else |
| Pump.FlushDrops | src/cq_decring.c:137-141 | a flush drops all that is staged, and only when no sync point is in it |
| Splice.SplicedPass | src/cq_decring.c:106-173 | over junk without a frame start and then a stream of two frames or more, whatever decoder it is met with: the pass uses exactly the junk, then feeds the frames in order, all but the last if there is PCM room, and leaves that frame staged |
| Splice.SplicedPump | src/cq_decring.c:79-179 | the same of a call of the pump: stage, PCM, decoder and all counters after it |
| Splice.SplicedTwentyOne | src/cq_decring.c:106-173 | 100 zero bytes and 22 frames of 417: 100 bytes passed over, 21 frames fed |
| Splice.DecodeKeepsValid | src/minimp3.h:1739-1741 | over any bytes a saved header that can be trusted is a valid one |
| Sound.SoundOut.AudioDoubleBack | os9/casquinha.c:1626-1662 | one firing in place: trim on a positive request, then a whole chunk or silence (or the last partial of a dead stream), with both counters; a negative request stays |
| Sound.FireConserves | os9/casquinha.c:1632-1659 | a firing fills the whole buffer; bytes leave the queue only trimmed or served, in order; while the wire is open a buffer is all music or all silence |
| Sound.SoundOut.AskTrim | os9/casquinha.c:2055-2063 | from whatever was loaded of the two cursors: a request is made exactly when music is playing, none is pending and the 32-bit difference exceeds target plus slack; it is the signed difference to the target, and the backlog's own if both loads are current |
| Sound.RequestSign | os9/casquinha.c:2056-2058 | a 32-bit difference makes a request from 768 KB on, and a negative one exactly from 2 GB past the target on |
| Sound.TrimKeepsTarget | os9/casquinha.c:2055-2063 | the firing that applies a request leaves at least 512 KB if and only if the backlog has not shrunk since it was read, and then serves a whole chunk |
| Samples.ChunkSize | os9/casquinha.c:1639-1655 | 32768 bytes are served, 32767 are silence while the wire is open and the last sound when it is not |
| Samples.TrimLimits | os9/casquinha.c:2056-2058 | no request at 768 KB, 262145 bytes one byte past it |
| Trim.OnlyFiringsStale | os9/casquinha.c:2055-2063 | over every run of the other contexts' steps with both loads in it, in either order: if no firing comes in between, the backlog read is still queued and no more than the ring holds |
| Trim.WrThenRd | os9/casquinha.c:2056-2058 | write cursor loaded first: the read cursor has not passed it by the second load if and only if the difference is at most the ring's size, if and only if it is still queued, if and only if the request is not negative |
| Trim.RdThenWr | os9/casquinha.c:2056-2058 | read cursor loaded first: the request is never negative, and the backlog still queued if and only if that cursor has not moved |
| Trim.NegativeBlocks | os9/casquinha.c:1632-1638 | a negative request stays over every continuation, no other is made or applied, and no firing trims again |
| Trim.AppliedIff | os9/casquinha.c:1632-1638 | over every continuation in which the interrupt fires, a request is applied if and only if its reading was not torn |
| Trim.AppliedIffAhead | os9/casquinha.c:2055-2063 | the same in terms of the cursors: if and only if the read cursor has not passed the write cursor loaded first, which the ring's size tells |
| Trim.TornRun | os9/casquinha.c:2055-2063 | load, publish, fire, load, ask: from every state in which the frame being published completes a chunk the request is minus the overshoot minus the target, and nothing is trimmed after it |
| Trim.EveryListenCanTear | os9/casquinha.c:2055-2063 | every run from the start of a listen that queues a chunk before the first firing has a point from which those five steps leave a negative request |
| Trim.TrimsNeverStarve | os9/casquinha.c:1632-1655 | over every run in which requests are made only on a backlog still queued, every firing that trims leaves the 512 KB target and serves a whole chunk, and no reading was torn |
| Trim.ListensNeverStarve | os9/casquinha.c:1632-1655 | the same from the start of every listen; every request made is positive and was applied in order, but for one pending |
| Trim.TrimStarvesIff | os9/casquinha.c:1632-1655 | the firing that applies a request serves only silence if and only if less than one chunk is left behind it |
| Pipeline.WriteKeeps | src/cq_decring.h:13-38 | a write into claimed space leaves every unread and every unpublished byte in place |
| Pipeline.ClaimIsMost | src/cq_decring.c:45-52 | a claim takes all that is free up to the end of the array, and not more |
| Pipeline.LoadShape | src/cq_decring.c:84-101 | what the task copies by a stale view of the write cursor is the next bytes of the committed stream |
| Pipeline.TurnKeeps | src/cq_decring.c:106-173 | a turn by a stale view of the PCM read cursor keeps the whole invariant |
| Pipeline.FireShape | os9/casquinha.c:1626-1662 | the PCM that has left the ring after a firing is the published PCM up to the read cursor |
| Pipeline.StepKeeps | src/cq_decring.h:13-38 | each of the sixteen micro-steps of the three contexts, no step of the loop or the task loading more than one foreign cursor, keeps ring safety and conservation |
| Safety.RequestsLandIff | os9/casquinha.c:1571-1574 | over every run only positive requests are applied, and every request made is positive if and only if none was made on a torn reading |
| Safety.ThreePartySafety | src/cq_decring.h:13-38 | in every interleaving neither ring overflows or underflows, no unread byte is overwritten, decoder input is the committed stream in order, decoded PCM is what left the ring plus what is in it plus what is on its way; trim requests are applied in order, each once but for one pending, and all are such as are ever applied if and only if none was made on a torn reading |
| Schedule.TurnOnStream | src/cq_decring.c:106-173 | on a stream of whole frames and the beginning of one more, a turn that does not cut changes nothing or decodes exactly the next frame; it waits only for PCM room, for a second whole frame, or because no whole frame is left |
| Schedule.TurnOnCut | src/cq_decring.c:121 | asked after the end to decode one whole frame followed by one to three bytes, a turn takes something else than that frame, whatever the decoder's state |
| Schedule.StepKeepsStream | src/cq_decring.c:79-179 | every micro-step of every context but a cut keeps the run on the flat decode's path, without resync or flush; the end may be declared at any time after the last commit |
| Schedule.FedIffClean | src/cq_decring.c:79-179 | over every run on a stream, the end declared at any time after the last commit: the decoder is given exactly the frames, in order, if and only if no decision after the end meets exactly one whole frame followed by one to three bytes |
| Schedule.ScheduleIndependence | src/cq_decring.c:79-179 | for every stream, chunking and interleaving: the decoder gets exactly the frames in order if and only if no decision cuts; then, once ended and settled, PCM, frame count and decoder state equal a flat decode's, the PCM served, trimmed and left is that PCM, nothing was resynced or flushed, the ring is empty and the stage holds only what was left of a frame at the end |
| Schedule.LastFrameHeld | src/cq_decring.c:114-121 | before the end is declared a settled task holds back exactly the last whole frame and what follows it |
| StreamEnd.EofCutExact | src/cq_decring.c:121 | with the end declared a frame is decoded exactly if and only if another whole frame is staged or none, or at least four, bytes of the next are |
| StreamEnd.EofCutLosesFrame | src/cq_decring.c:121 | a 24-byte frame and one more byte: all 25 are consumed, no samples, decoder cleared |
| StreamEnd.EofCutRun | os9/casquinha.c:1931-1935 | a run in the program's order, the task having looked before the last bytes were committed and the end declared: of two whole frames 25 bytes are taken for nothing, no PCM, no frame counted |
| StreamEnd.DrainedRun | src/cq_decring.c:60-68 | when every end is declared on a drained ring, a run is clean, or one to three bytes follow the last frame: that frame is lost, every frame before it was given to the decoder, and the PCM begins with theirs |
| StreamEnd.EndOfStream | src/cq_decring.c:60-68 | ended on a drained ring and settled: one to three bytes behind the last frame lose it, and the PCM begins with a flat decode's of all frames before it; with none, or at least four, every frame is decoded as in a flat decode, and the pipeline is idle exactly with none |
| StreamEnd.NeverPlaysOut | os9/casquinha.c:2064-2066 | with any byte of a further frame left, a run that cuts no frame never has both ring and stage empty, in the middle of a pass or not, so the output is never played out |
| StreamEnd.TailStays | src/cq_decring.c:79-179 | after the end, a pass over what was left of a frame changes nothing and reports no progress |
| PlayedOut.TheTestIsSound | os9/casquinha.c:2064-2066 | the four loads of the test any number of steps apart and in either order: it says yes only when every committed byte was taken and every decoded byte has left the ring, and whenever that was so when it began |
| PlayedOut.OverIsFlat | os9/casquinha.c:2064-2066 | a listen that is over, no decision having cut a frame: its stream stopped between frames, and what the interrupts took out of the ring is exactly the PCM of its flat decode |
| HalfFrame.HaltedForGood | os9/casquinha.c:2064-2066 | ended and drained with the beginning of a frame staged: over every continuation of task and interrupt no PCM is made and the test never says yes |
| HalfFrame.HalfFrameRun | os9/casquinha.c:1931-1935 | a run: a 24-byte frame and four bytes arrive, the wire ends on the drained ring, all PCM is heard, and the listen is never over |
| HalfFrame.LostFrameRun | os9/casquinha.c:1931-1935 | a run: the same frame and one byte; nothing is decoded, and the listen is over |
| Completion.CanAlwaysFinish | src/cq_decring.c:79-179 | for any bytes whatever and from every state of a run on them, mid-pass and mid-write, some continuation commits the rest, ends it on a drained ring and settles, if the PCM ring holds one hardware buffer and one frame |
| Completion.EveryRunCanFinish | src/cq_decring.c:79-179 | so every schedule from a fresh start, on any bytes, can be continued until all is committed, ended and settled |
| Completion.StreamsCanFinish | os9/casquinha.c:2064-2066 | every schedule of a stream can be continued until all the flat decode's PCM has been made and, exactly when the stream stops between frames, the pipeline is idle; with one to three bytes behind the last frame that frame is lost instead, after all the PCM of those before it |
| Inline.PumpIsASchedule | os9/casquinha.c:2012 | the uninterrupted pass of the fallback is one schedule of the three-party machine, with the same result |
| Park.ParkedMeansOutside | os9/casquinha.c:1706-1768 | if PARK is only written after the last RUN was acknowledged, in every interleaving a returned park finds the task outside the pump until the next RUN |
| Park.ParkIsSafe | os9/casquinha.c:1754-1805 | the same from boot: a reset never overlaps a pass |
| Park.ParkExact | os9/casquinha.c:1754-1768 | parking is safe whatever follows if and only if the acknowledgement is not an old PARK while the task acts on a RUN |
| Park.StaleAckRun | os9/casquinha.c:1997-2001 | a seven-step run that parks with the task inside the pump |
| Park.ParkByTheWords | os9/casquinha.c:1754-1768 | with a RUN outstanding, parking is safe for every reachable position of the task if and only if the acknowledgement word reads RUN |
| Park.ParkIsAcked | os9/casquinha.c:1706-1726 | a live task acknowledges PARK within six of its steps |
| Transport.Transaction.Append | src/cq_transport_ot.c:233-247 | the bytes are appended, and the capacity is kept if they fit or else doubled, from one read's worth, until they do |
| Transport.Transaction.DrainInto | src/cq_transport_ot.c:488-497 | up to the capacity moves out in order, the rest is compacted, nothing else of the destination changes |
| Transport.Transaction.Connect | src/cq_transport_ot.c:288-340 | the open and connect slice in place: new state and endpoint events for every combination of results |
| Transport.Transaction.AwaitConnect | src/cq_transport_ot.c:342-364 | the connect slice in place, with the notifier's event used when the look shows none |
| Transport.Transaction.Send | src/cq_transport_ot.c:366-386 | the send loop in place: state and the bytes handed over, for every list of results |
| Transport.Transaction.Receive | src/cq_transport_ot.c:388-441 | the receive loop in place, with back-pressure and every way a connection ends |
| Transport.Transaction.PollOnce | src/cq_transport_ot.c:450-479 | a poll in place, with both deadlines |
| Transport.Transaction.CancelNow | src/cq_transport_ot.c:508-517 | a cancel in place |
| Transport.Lifecycle | src/cq_transport_ot.c:219-231 | for every sequence of polls, drains, cancels and results: opened at most once, closed exactly as often by the time it is over, cancelled or freed; sent bytes are a prefix of selector and CRLF; receiving starts only after all of it (section 2 of RFC 1436); neither happens in async mode |
| Transport.BufferConserves | src/cq_transport_ot.c:388-400 | drained then buffered bytes are the received bytes in order; a streaming buffer stays below the high-water mark plus one read |
| Transport.DeadlinesHold | src/cq_transport_ot.c:466-477 | a transaction still running after a poll is within both deadlines; a stream in the receive state has none, the clock does not matter to it |
| Transport.PollAppends | src/cq_transport_ot.c:450-479 | a poll only adds to the buffered bytes |
| Outcome.ReceiveEnds | src/cq_transport_ot.c:388-441 | a receive slice reads exactly up to the first answer that brings no bytes or up to 64 KB of a stream, keeps all of it, 8 KB a read at most, and ends as that answer says |
| Outcome.SendEnds | src/cq_transport_ot.c:366-386 | a send slice hands over exactly up to the first answer that takes nothing, goes on to receiving if and only if all was taken, and fails only on an error |
| Outcome.PollEnds | src/cq_transport_ot.c:450-479 | a poll: finished if and only if its answers complete the transaction, failed if and only if they fail it or it is late in the stage they lead to, and else in that stage |
| Outcome.EveryEnd | src/cq_transport_ot.c:288-479 | over every sequence of polls, drains and cancels: finished if and only if a poll met an orderly release while receiving, or a broken connection with bytes at hand; failed if and only if one met a refused step, a failed send, a broken connection with nothing received, or a deadline |
| Outcome.GoodReply | src/cq_transport_ot.c:288-441 | four polls with good answers in time end finished, closed, with the request sent whole and the whole reply held, however it was cut into reads |
| Listener.Tuner.DrainStreamToDec | os9/casquinha.c:1889-1905 | the zero-copy loop moves the longest prefix that fits from the transaction to the end of the ring |
| Listener.Tuner.StageFromWire | os9/casquinha.c:1919-1922 | before play the longest prefix that fits joins the staging buffer |
| Listener.Tuner.StripHeader | os9/casquinha.c:1947-1969 | everything up to and with the first CRLFCRLF goes; no end in 8 KB stops the listen |
| Listener.Tuner.SyncAndHandOff | os9/casquinha.c:1972-2005 | everything from the first confirmed frame on is queued in fresh rings before a fresh decoder, and nothing else; no frame in 32 KB stops the listen |
| Listener.Tuner.HangUp | os9/casquinha.c:1928-1943 | the last drain, into whatever room there is by then, and the end of the stream in place, in play and before it |
| Listener.Tuner.ServiceAudio | os9/casquinha.c:1908-2006 | one service slice on the transaction, the staging buffer and the rings, the stream still there or already gone, equals one slice of the listen on values |
| Feed.HandoffExact | os9/casquinha.c:1908-2006 | for any chunking and any room, once playing, the committed, then buffered, then dropped bytes are the received bytes from the first confirmed frame after the first CRLFCRLF on, and nothing is dropped while the stream is open |
| Feed.PlaysIgnoreChunks | os9/casquinha.c:1908-2006 | two listens that play and have received the same bytes play the same bytes, sizes and closings whatever they are |
| Feed.CloseLoses | os9/casquinha.c:1931-1933 | the slice that finds the stream closed loses nothing if and only if what is buffered fits in the room of its two drains, and loses exactly what does not |
| Feed.CloseLosesTwo | os9/casquinha.c:1931-1933 | a closing slice with three bytes buffered and room for one: two are never heard |
| Samples.HeaderLimit | os9/casquinha.c:1965-1968 | 8192 bytes without a header end go on, 8193 stop the listen |
| Samples.SyncLimit | os9/casquinha.c:2002-2005 | 32768 bytes without a frame go on, 32769 stop it |
| Chunks.NeverStoppedIff | os9/casquinha.c:1947-2005 | for all received bytes: no chunking of them is ever stopped if and only if the header ends within 8193 bytes and a frame is then confirmed within 32769, where there are so many |
| Chunks.HeaderEndIsFirst | os9/casquinha.c:1947-1953 | the header ends behind the first CR, LF, CR, LF, and has no end if there is none |
| Chunks.PlaysIffConfirmed | os9/casquinha.c:1908-2006 | within these limits every chunking reaches play exactly when the bytes hold a confirmed frame after the header, and plays the bytes from it on |
| Chunks.HandoffIgnoresChunks | os9/casquinha.c:1908-2006 | within the limits two chunkings of the same bytes both play or both do not, and play the same bytes |
| Chunks.ChunkingDecides | os9/casquinha.c:1965-1968 | beyond them: 9000 zero bytes and CRLFCRLF stop a listen in two slices and go on to sync in one |
| EndToEnd.WireToPcm | os9/casquinha.c:1908-2006 | handoff and pipeline together: however the wire was sliced and the contexts interleaved, if no decision cut, the PCM is that of one flat decode of the whole frames received after the header, from the first confirmed one on |
| Codec.Fields.FieldsPut | src/cq_codec.c:40-72 | the search loop replaces the value under an equal key or appends, with both strings cut at a NUL |
| Codec.Fields.Parse | src/cq_codec.c:74-106 | the index-scanning parser equals: split on LF, drop one CR, split on the first TAB, put |
| Codec.Fields.Get | src/cq_codec.c:108-116 | the first field under the key, or none |
| CodecLaws.ParseInParts | src/cq_codec.c:74-106 | parsing a, LF, b is parsing b into what parsing a left |
| CodecLaws.FieldsAreLastWins | src/cq_codec.c:40-72 | the fields are the keys in first-seen order, each once, each with its last value |
| CodecLaws.GetIsLastValue | src/cq_codec.c:108-116 | on a document without NUL a lookup finds the last value given, and finds every key |
| CodecLaws.RoundTripIffLegal | src/cq_codec.c:74-106 | fields printed as CRLF lines and parsed come back if and only if keys are nonempty, distinct and free of TAB and LF, and values free of LF |
| CodecLaws.PutKeepsDistinct | src/cq_codec.c:40-72 | a put keeps keys distinct if and only if its key has no NUL or its head is not yet a key |
| CodecLaws.GetAfterPut | src/cq_codec.c:40-72 | what every lookup finds after a put, with and without a NUL in the key |
| CodecLaws.NulKeyKeepsOldValue | src/cq_codec.c:40-116 | the document of two lines whose key holds a NUL: two fields under one key, and the lookup finds the first value, not the last |
| Numbers.ParseLongLong | src/cq_codec.c:123-136 | blanks, one sign, digits; the rest ignored; none given is 0 |
| Numbers.LongLongReadsBack | src/cq_codec.c:123-136 | every integer printed in decimal reads back, after any blanks and before anything but a digit |
| Numbers.DecimalInjective | src/cq_track.c:19-25 | different indexes print differently |
| Lists.KeysAreInjective | src/cq_track.c:19-25 | a whole key determines index and suffix |
| Lists.CutKeysAreInjective | src/cq_reflist.c:19-24 | keys cut by the buffer still determine the index while its digits fit |
| Lists.TrackList.FromFields | src/cq_track.c:27-55 | the appending loop returns what the fields hold at 0, 1, 2 and so on, up to a gap or to the point where memory runs out |
| Lists.RefList.FromFields | src/cq_reflist.c:26-51 | the same for references under a prefix |
| Lists.KeysRunOut | src/cq_track.c:33-36 | keys that stay different are found for at most as many indexes as there are fields |
| Lists.TrackScanStops | src/cq_track.c:33-36 | the open-ended scan meets its gap within `count` steps, if memory holds that many items |
| Lists.RefScanStops | src/cq_reflist.c:32-35 | the same for references when the key has room for the digits of the count |
| Lists.RefScanStopsIff | src/cq_reflist.c:32-35 | the reference scan meets a gap at all if and only if one is among the finitely many keys its buffer can hold |
| Lists.LongPrefixNeverStops | src/cq_reflist.c:19-24 | a 79-byte prefix that is itself a key is found at every index |
| ListLaws.TracksRebuilt | src/cq_track.c:27-55 | from fields that present a list of tracks among any others, in any order, the scan rebuilds exactly that list, durations and absent cells included |
| ListLaws.RefsRebuilt | src/cq_reflist.c:26-51 | the same for references under every prefix that leaves room for the whole keys |
| ListLaws.TracksRead | src/cq_track.c:27-55 | whatever the appending loop returns, memory for the list given, is the list presented |
| ListLaws.LaidIsPresented | src/cq_track.c:19-25 | every table can be printed as fields with unrelated ones around it without keys colliding |
| ListLaws.DocumentRebuildsTracks | src/cq_track.c:57-64 | through the codec: printed as a document and parsed, the fields still yield exactly the list |
| Samples.TrackColumns | src/cq_track.c:19-52 | each column of track i is the field `item.i.uri`, `.track`, `.artist`, `.album_id` or `.duration_ms`, in literal text |
| Samples.RefColumns | src/cq_reflist.c:19-48 | each column of reference i is the field `prefix.i.id` or `prefix.i.name` |
| Samples.Numerals | src/cq_codec.c:123-136 | 0 and 12 as printed, -12 as read |
| Samples.SignsAndBlanks | src/cq_codec.c:123-136 | either sign or none, every blank, two signs, no field |
| Rle.IcnsRle | tools/make_icns.py:33-48 | the nested loops produce the greedy encoding, which decodes to the input, is tight and is at most n + n/128 + 1 bytes |
| Rle.EncodeDecodes | tools/make_icns.py:33-48 | from every offset, decoding by the control-byte rule gives the rest of the data back |
| Rle.EncodeIsShort | tools/make_icns.py:33-48 | 128 bytes never cost more than one extra; data that starts with a run owes nothing more |
| Rle.EncodeIsTight | tools/make_icns.py:36-47 | no literal holds three equal bytes in a row, no run could have been longer, a short literal is followed only by a run |
| Rle.DecodeAppend | tools/make_icns.py:50-52 | codes decode independently of what follows |
| Rle.RgbRle | tools/make_icns.py:50-52 | the three planes encoded one after the other decode to the planes |
| Samples.Packets | tools/make_icns.py:33-48 | four equal bytes and two different ones, encoded and decoded |
| Adoption.Player.AcceptTs | src/cq_guard.c:8-14 | verdict and new mark of the guard in place |
| Adoption.Player.AdoptReply | os9/casquinha.c:741-795 | guard, snapshot and anchor of one reply in place |
| Adoption.Player.Render | src/cq_view.c:155-164 | the bar shown is never negative and never past a known duration |
| Adoption.AdoptedNeverDecrease | src/cq_guard.c:8-14 | between resets, replies in any order: the adopted timestamps never decrease, and the mark is the last of them |
| Adoption.DroppedIffStale | src/cq_guard.c:8-14 | a reply is dropped if and only if a later known timestamp was adopted since the reset |
| Adoption.AnchorHoldsIff | os9/casquinha.c:787-795 | the anchor stays if and only if no reply has an unknown or newer timestamp |
| Adoption.ProgressNeverMovesBack | src/cq_view.c:155-164 | under one timestamp, re-serving one document, with ticks that do not wrap, progress between any two moments never moves back and stays within its bounds |
| Adoption.BarHoldsIff | src/cq_view.c:155-164 | when one document is shown again after any replies, the bar has not gone back if and only if none of them was unknown or newer, or it was not playing, or is at its end or not yet at its beginning |
| Adoption.UnknownReplyRewinds | os9/casquinha.c:787-795 | with one unknown reply in between, 2000 ms become 0 |
| Display.WhatIsShown | os9/casquinha.c:741-795 | after any replies and resets: the document shown is that of the last reply accepted, none if there was none; the anchor is the tick of the first of the accepted replies in a row with its known timestamp; the mark is the latest timestamp known since the last reset; accepted being told from the list of timestamps alone |
| Display.RowIsOne | os9/casquinha.c:787-795 | these two replies are determined by the list |
| Display.NewerIsShown | os9/casquinha.c:787-795 | a newer document is shown at once, an older one is not, and is after a reset |
| Samples.Bars | src/cq_view.c:155-164 | the bar of five documents one second after adoption |

## Left out

- The signal arithmetic of a frame (Huffman and scale-factor tables, dequantisation, stereo, IMDCT, synthesis) and Layers I and II: one parameter, `Decoder.Dsp`.
- SideInfo.ReadGranule: the fields only that arithmetic uses (gains, tables, regions, scale-factor selection) are read in the same widths and order but not kept; the reader's position after a refusal, which nothing uses, is not stated.
- Allocation failure, except in the two lists, where it bounds the scan; in the codec, the transport and the audio buffers memory is enough.
- Park: the timeout of `ParkDecTask` (a dead task) and the join at quit; the task is alive.
- Hardware memory order: one processor, accesses in program order, as the source's own barrier comment assumes; an interrupt runs to its end, so a firing is one step.
- Trim.WrThenRd: with more than 2 GB of sound (over three hours) played between the two loads of one expression the counters have turned over, and the difference says nothing; `Trim.AppliedIff` holds there too.
- The Sound Manager's channel start at the prebuffer mark: in `Pipeline` the interrupt may fire from the beginning.
- The decode-time probe, logging, counters for the user interface and 32-bit overflow of the telemetry counters, which are unbounded here.
- Pipeline: cursors are unbounded there; `DecRing`, `SoundOut` and `Cursors.NarrowRefinesWide` carry the 32-bit form.
- Transport: Open Transport itself, name resolution, the datagram log, error texts, and `OTSndOrderlyDisconnect`, which has no effect on the object's state; the clock does not wrap.
- Transport.Lifecycle: the connect and start ticks are one value, as `cq_tx_start` sets them.
- Listener.Tuner.ServiceAudio: part 4 (pump, trim, the played-out test) is in `DecRing`, `Sound`, `Trim` and `PlayedOut`, not in this method, and the channel start nowhere; the cursor effects of stopping are in `DecRing.DecRing.Reset`. Within one slice of the object no other context drains the ring; on values (`Feed`) it may, between the two drains.
- Listener.Tuner.SyncAndHandOff: `OpenAudioOutput` finds its two buffers allocated; starting the task, its park and its RUN command are in `Park`, the cleared sound counters in `Sound`.
- Numbers.ParseLongLong: integers are unbounded; the source's `long long` overflows past 19 digits.
- Lists.TrackScanStops: fewer than 2^32 fields, the range of the count on the machine.
- Adoption: the volume hold, the end-of-track watchdog and the queue kick around the adoption.
- The rest of the program, which the path modelled takes as given or does not use: the one-slot tap coalescer (`cq_debounce`), the doubling poll interval (`cq_backoff`), the cover cache (`cq_cache`), the playlist reader (`cq_pls`), the fields of `/now` (`cq_now`), the status words of `cq_view`, image handling, drawing, the POSIX transport and the other scripts.
