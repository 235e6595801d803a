# Verified models of yunmao's algorithmic cores

yunmao streams live video of pet rooms and lets viewers feed the animals. Most of it is service
wiring; this project models the parts that compute something and proves what they promise.

* **Media packaging.** RTP packetization and its fan-out (`Rtp`, `Sfu`, `SfuRuns`), reading H.264
  parameter sets bit by bit (`BitReader`, `Sps`, `SpsWriter`, `AvcConfig`), AAC set-up data
  (`AacConfig`), FLV tags (`Flv`), the pipe with its group-of-pictures cache (`Pipe`), media segments
  and the byte scan that fills in their data offsets (`Boxes`, `Fmp4`, `TrunScan`, `MediaSegment`, `SegmentReader`),
  and the low-latency HLS packager (`LlHls`, `LlHlsIngest`, `LlHlsRuns`, `LlHlsFrames`,
  `LlHlsCuts`, `LlHlsBytes`, `LlHlsPlaylist`).
* **The outbox relay** as a protocol of any number of workers (`Outbox`) and as the code of one of
  them (`OutboxRelay`).
* **Caches and limiters that must agree with something simple.** Cooldowns over an expiring store
  (`Decimal`, `Cooldown`, `CooldownRefinement`), the idempotency cache (`Idempotent`), the cached
  policy store (`PgStore`).
* **Indexes and schedulers.** The gateway hub (`Hub`, `HubRuns`), the device scheduler and the
  simulated feeder (`Scheduler`, `Simulator`).
* **base64url**, an encoder whose 32-bit buffer overflows (`Base64`).

Code that changes state is modelled by classes and loops, each proved equal to a function on values;
the theorems are about those functions. The other side of each format, which the repository does not
have, is written from its standard: an RTP depacketizer (RFC 3550 section 5.1, RFC 6184 sections 5.6
and 5.8, RFC 3640 section 3.2), an SPS writer (H.264 sections 7.3.2.1.1 and 9.1), emulation
prevention (H.264 section 7.4.1.1), an fMP4 reader (ISO/IEC 14496-12 sections 4.2 and 8.8), an FLV
reader (Adobe Flash Video File Format Specification 10.1, annex E), a base64url decoder (RFC 4648
section 5). Concurrent code is a system of steps, one step for each lock scope, database statement or
channel operation, and its theorems hold for every sequence of steps.

Numbers are mathematical integers; where the source's width matters the wrap-around is written out
(`% TWO32` and the like). `u32` sums wrap, as they do in a release build.

Where code and documentation disagree the model follows the code:

* `ll_hls.rs` describes `independent` as a part that starts with a keyframe. The keyframe *ends* the
  part: it is pushed before the part is closed (`LlHlsFrames.PartsMarked`).
* A keyframe that carries an AVC sequence header resets the group-of-pictures cache as well
  (`Flv.SequenceHeaderIsKeyframe`).
* `Idempotent`'s `Has` and `Insert` disagree at the instant of expiry
  (`Idempotent.KnownVersusRefused`).

Properties that the code does not have without a condition come with the exact one:

| property | holds exactly when |
|---|---|
| a receiver recovers an access unit | no NALU that fits a packet has a type of 24 or more, and no longer one has F = 1 (`Rtp.RoundTrip`) |
| an AAC frame survives RTP | it is shorter than 8192 bytes (`Rtp.AacRoundTrip`) |
| the `trun` scan fills in the right fields | `trun` is spelled neither by the sequence number, nor by a decode time, nor by four bytes in a row of the video sample table (`TrunScan.ScanIsExact`) |
| the parsed picture size is right | both dimensions fit 16 bits (`SpsWriter.SizeIsExact`) |
| an escaped RBSP with its final byte comes back | it ends in an even number of zero bytes (`AvcConfig.UnescapeNalInverts`) |
| mfhd numbers rise | no segment but the last has more than 1000 parts, and no number outgrows 32 bits (`LlHlsRuns.NumbersRise`) |
| the preload hint names the next part | the segment in progress has fewer than 2^32 parts (`LlHlsPlaylist.HintIsNext`) |
| the decode clock is exact | no part's duration wraps around in 32 bits (`LlHlsFrames.ClockIsExact`) |
| a daily limit is kept | no accepted amount overflows the 32-bit total (`CooldownRefinement.LimitHolds`) |
| store and limiter answer alike for certain users and rooms | the keys of both tell the same of these pairs apart, instants are read at most 1 s and 1 ns late, and the day's counter before midnight (`CooldownRefinement.RefinesExactly`) |
| every `Get` begun after `Put` returned sees the row until someone writes it | no read under way holds an old row for a `Get` that began less than a ttl ago (`PgStore.PutBringsUpToDate`) |
| both `base64UrlInt` agree | 1 <= e < 2^32 or e = -2^31 (`Base64.ExponentsAgree`) |
| an FLV tag is read back | it has less than 16 MiB (`Flv.TagRoundTrip`) |

Automatic induction is switched off for every lemma, so that each proof is the one that is written
down. `dafny verify dfyconfig.toml` checks everything.

## Model

| member | source | states |
|---|---|---|
| `Rtp.SerializeRoundTrip` | rust/crates/yunmao-webrtc/src/rtp.rs:45-60 | parsing the 12-byte header of RFC 3550 recovers the packet; only a payload type above 127 is not kept |
| `Rtp.SplitAvcc` | rust/crates/yunmao-webrtc/src/rtp.rs:96-113 | the loop cuts length-prefixed input as `ExtractFrom` says |
| `Rtp.ExtractIsPrefix` | rust/crates/yunmao-webrtc/src/rtp.rs:96-113 | on arbitrary bytes, the frames of what is extracted are a prefix of the input, after which nothing can be extracted |
| `Rtp.ExtractIsLongest` | rust/crates/yunmao-webrtc/src/rtp.rs:96-113 | any way of reading non-empty length-prefixed NALUs off the input yields an initial segment of what is extracted |
| `Rtp.H264Packetizer.NextSeq` | rust/crates/yunmao-webrtc/src/rtp.rs:86-90 | returns the number and advances it modulo 2^16 |
| `Rtp.H264Packetizer.PacketizeAvcc` | rust/crates/yunmao-webrtc/src/rtp.rs:96-115 | packets of the access unit cut from the bytes: consecutive numbers, marker on the last |
| `Rtp.H264Packetizer.PacketizeNalus` | rust/crates/yunmao-webrtc/src/rtp.rs:117-177 | single NALU packets and FU-A fragments, numbered consecutively, marker on the last, `seq` advanced by their count |
| `Rtp.FragmentedNaluReassembles` | rust/crates/yunmao-webrtc/src/rtp.rs:130-170 | a NALU too long for a packet makes at least two fragments, and reassembly by RFC 6184 section 5.8 gives it back with F cleared |
| `Rtp.FragmentShape` | rust/crates/yunmao-webrtc/src/rtp.rs:130-170 | S only on the first fragment, E only on the last, each with 1 to chunk bytes of body |
| `Rtp.WireFitsMtu` | rust/crates/yunmao-webrtc/src/rtp.rs:117-177 | for every MTU of at least 15 no packet is longer than it on the wire |
| `Rtp.FewestPackets` | rust/crates/yunmao-webrtc/src/rtp.rs:117-170 | a NALU that fits is one packet, a longer one as few fragments as the MTU allows, all but the last filling it |
| `Rtp.RoundTrip` | rust/crates/yunmao-webrtc/src/rtp.rs:117-177 | depacketizing returns exactly the NALUs if and only if each is faithful at this MTU |
| `Rtp.AccessUnitRoundTrip` | rust/crates/yunmao-webrtc/src/rtp.rs:96-177 | from length-prefixed bytes to the receiver's NALUs: all valid NALUs, every MTU of at least 15 |
| `Rtp.LoopEndsExactlyWhenItAdvances` | rust/crates/yunmao-webrtc/src/rtp.rs:130-170 | the fragment loop ends exactly when a fragment has room for a byte, which is at MTU 15 and above |
| `Rtp.AacPacketizer.Packetize` | rust/crates/yunmao-webrtc/src/rtp.rs:203-221 | one marked packet with an AU header section, number advanced modulo 2^16 |
| `Rtp.AacRoundTrip` | rust/crates/yunmao-webrtc/src/rtp.rs:203-221 | reading by RFC 3640 recovers the frame if and only if it is shorter than 8192 bytes |
| `Sfu.RoomState.PushVideoAvcc` | rust/crates/yunmao-webrtc/src/sfu.rs:89-101 | packets of the access unit, in order, to every open queue; closed ones are removed, full ones kept |
| `Sfu.RoomState.PushVideoNalus` | rust/crates/yunmao-webrtc/src/sfu.rs:104-117 | the same for NALUs already split |
| `Sfu.RoomState.PushAudioAac` | rust/crates/yunmao-webrtc/src/sfu.rs:120-135 | one audio packet to every open queue |
| `Sfu.RoomState.Subscribe` | rust/crates/yunmao-webrtc/src/sfu.rs:138-159 | a newcomer with an empty queue joins at the end of the list |
| `Sfu.RoomState.Unsubscribe` | rust/crates/yunmao-webrtc/src/sfu.rs:162-167 | exactly the subscribers with that id are removed |
| `SfuRuns.AccessUnit` | rust/crates/yunmao-webrtc/src/rtp.rs:117-177 | packets of one push: consecutive, within the MTU, exactly one marker, on the last, the 90 kHz timestamp and the room's SSRC on each; none only if every NALU is empty |
| `SfuRuns.AccessUnitArrives` | rust/crates/yunmao-webrtc/src/sfu.rs:89-101 | from length-prefixed bytes through the packets' wire form to the NALUs a receiver rebuilds |
| `SfuRuns.AudioArrives` | rust/crates/yunmao-webrtc/src/sfu.rs:120-135 | one marked packet with the next audio number, the timestamp and SSRC given, whose frame arrives if and only if it is shorter than 8192 bytes |
| `SfuRuns.PushEmits` | rust/crates/yunmao-webrtc/src/sfu.rs:89-117 | a video push adds exactly the packets of its access unit to the stream |
| `SfuRuns.VideoNumbered` | rust/crates/yunmao-webrtc/src/sfu.rs:89-135 | over every run the k-th video packet has number s0 + k modulo 2^16 and at most 1200 bytes, and the counter counts |
| `SfuRuns.AudioNumbered` | rust/crates/yunmao-webrtc/src/sfu.rs:120-135 | the same numbering and counter for audio |
| `SfuRuns.SubscribersServed` | rust/crates/yunmao-webrtc/src/sfu.rs:89-167 | a subscriber got a subsequence of the stream since it subscribed, all but what its full queue refused, and the exact suffix if and only if it refused nothing |
| `SfuRuns.VideoPushDelivers` | rust/crates/yunmao-webrtc/src/sfu.rs:95-98 | after a push of at least one packet exactly the subscribers with an open queue are there, in order, each with as many of the packets as its queue had room for |
| `SfuRuns.AudioPushDelivers` | rust/crates/yunmao-webrtc/src/sfu.rs:130-134 | the same for an audio packet |
| `SfuRuns.OtherEnd` | rust/crates/yunmao-webrtc/src/sfu.rs:95-98 | taking a packet makes room for one; whoever drops its end is off the list after the next push, and nobody else |
| `SfuRuns.SubscriberStays` | rust/crates/yunmao-webrtc/src/sfu.rs:138-167 | from its subscription on a subscriber is in the room in every continuation in which its id is not unsubscribed and it does not hang up, full queue or not |
| `SfuRuns.OnlySubscribers` | rust/crates/yunmao-webrtc/src/sfu.rs:138-167 | whoever is in the room subscribed when the stream was as long as recorded, and its id was not unsubscribed since |
| `BitReader.Reader.Ue` | rust/crates/yunmao-media-edge/src/fmp4.rs:416-432 | value and position after the Exp-Golomb loop, or failure at the end of the data |
| `BitReader.ReadUeInverts` | rust/crates/yunmao-media-edge/src/fmp4.rs:416-432 | every v up to 2^32 - 2 coded by H.264 section 9.1 is read back, advancing 2 floor(log2(v + 1)) + 1 bits |
| `BitReader.ReadUeMisreads` | rust/crates/yunmao-media-edge/src/fmp4.rs:416-432 | the next code, 2^32 - 1, reads as 0 |
| `BitReader.ReadUeRefuses` | rust/crates/yunmao-media-edge/src/fmp4.rs:416-432 | a code of 33 or more leading zeros is refused |
| `BitReader.ReadSeInverts` | rust/crates/yunmao-media-edge/src/fmp4.rs:434-441 | signed codes of section 9.1.1 are read back |
| `Sps.SkipScalingList` | rust/crates/yunmao-media-edge/src/fmp4.rs:443-457 | position after a scaling list |
| `Sps.Parse` | rust/crates/yunmao-media-edge/src/fmp4.rs:252-388 | the parser ends on every input and computes `ParseSps` |
| `SpsWriter.ParseInvertsWrite` | rust/crates/yunmao-media-edge/src/fmp4.rs:252-457 | every valid SPS written by section 7.3.2.1.1, its profiles, list sizes and frame rate taken from the standard, with scaling lists, the three POC types, cropping and VUI, parses to its cropped size modulo 2^16 and its frame rate |
| `SpsWriter.SizeIsExact` | rust/crates/yunmao-media-edge/src/fmp4.rs:340-388 | the size is that of section 7.4.2.1.1 if and only if both dimensions fit 16 bits |
| `SpsWriter.SizeNeedsItsBits` | rust/crates/yunmao-media-edge/src/fmp4.rs:252-388 | neither size nor frame rate is made up for missing bits: when the rest follows, the same size is read, and the same rate if one was read |
| `SpsWriter.CutOffSps` | rust/crates/yunmao-media-edge/src/fmp4.rs:252-388 | a written SPS that is cut off is read with its own size and its own rate or none, or refused |
| `SpsWriter.NextScaleOfAny` | rust/crates/yunmao-media-edge/src/fmp4.rs:443-457 | any delta: the next scale in wrapping 32-bit arithmetic, its remainder signed as the sum |
| `AvcConfig.UnescapeEmulationBytes` | rust/crates/yunmao-media-edge/src/fmp4.rs:460-474 | the index loop removes a 0x03 after two zero bytes |
| `AvcConfig.UnescapeInverts` | rust/crates/yunmao-media-edge/src/fmp4.rs:460-474 | it inverts the insertion of section 7.4.1.1 on every byte string |
| `AvcConfig.UnescapeNalInverts` | rust/crates/yunmao-media-edge/src/fmp4.rs:460-474 | with the final 0x03 of section 7.4.1.1, exactly when the RBSP does not end in an odd zero byte |
| `AvcConfig.FromFlvAvcSeq` | rust/crates/yunmao-media-edge/src/fmp4.rs:38-91 | each error on exactly its inputs; otherwise size, profile, level, NALU length size, with defaults for zero values |
| `AvcConfig.NaluInTag` | rust/crates/yunmao-media-edge/src/fmp4.rs:49-65 | where the first SPS NALU lies in the tag, by byte positions, and when its length overruns it |
| `AvcConfig.FallbackIs720p` | rust/crates/yunmao-media-edge/src/fmp4.rs:50-77 | each value that is zero or unknown is that of 1280x720 at 30 frames a second |
| `AvcConfig.ConfigOfWrittenSps` | rust/crates/yunmao-media-edge/src/fmp4.rs:38-91 | from SPS fields through writing, escaping and the configuration record back to size and frame rate |
| `AacConfig.FromFlvAacSeq` | rust/crates/yunmao-media-edge/src/fmp4.rs:107-135 | errors on exactly the malformed headers, else the configuration of the bytes |
| `AacConfig.AscRoundTrip` | rust/crates/yunmao-media-edge/src/fmp4.rs:107-135 | object type, rate and channels written by ISO/IEC 14496-3 are recovered, the rate that of its table 1.18; rate indexes above 12 read as 44.1 kHz |
| `AacConfig.PutDescriptorLen` | rust/crates/yunmao-media-edge/src/fmp4.rs:788-799 | chained seven-bit groups of the value modulo 2^28, as few as needed |
| `AacConfig.SizeRoundTrip` | rust/crates/yunmao-media-edge/src/fmp4.rs:788-799 | reading by ISO/IEC 14496-1 section 8.3.3 returns the size if and only if it is below 2^28 |
| `Boxes.Buffer.EndBox` | rust/crates/yunmao-media-edge/src/fmp4.rs:478-485 | back-patching turns the open box into one whose size field is its length |
| `Fmp4.PatchTruns` | rust/crates/yunmao-media-edge/src/fmp4.rs:917-946 | the scan writes the offsets at the first hits of `trun`, two at most, and fails exactly where the slice would lie outside the buffer |
| `MediaSegment.WriteMoofAv` | rust/crates/yunmao-media-edge/src/fmp4.rs:851-947 | the moof of two trafs, patched by the scan; the slice the scan writes to always lies inside |
| `MediaSegment.WriteMdat` | rust/crates/yunmao-media-edge/src/fmp4.rs:949-958 | NALUs, then AAC frames, in one mdat |
| `MediaSegment.BuildMediaSegmentAv` | rust/crates/yunmao-media-edge/src/fmp4.rs:212-233 | patched moof and mdat |
| `MediaSegment.BuildMediaSegment` | rust/crates/yunmao-media-edge/src/fmp4.rs:184-195 | the video-only segment |
| `TrunScan.MoofIsWords` | rust/crates/yunmao-media-edge/src/fmp4.rs:851-915 | the moof is a sequence of 32-bit words at known places, sizes and counts cut to 32 bits |
| `TrunScan.ScanStaysInside` | rust/crates/yunmao-media-edge/src/fmp4.rs:917-946 | whatever the moof holds, the scan finds room for every offset it writes, so its slice never panics |
| `TrunScan.ScanIsExact` | rust/crates/yunmao-media-edge/src/fmp4.rs:917-946 | the scan produces the moof with the two intended data offsets if and only if none of the sequence number, the two decode times and the video sample table (durations and sizes, across their borders) spells `trun`; the audio table does not matter |
| `TrunScan.SpelledDecodeTime` | rust/crates/yunmao-media-edge/src/fmp4.rs:917-946 | a decode time of 0x7472756e ms spoils the offsets |
| `TrunScan.SpelledDuration` | rust/crates/yunmao-media-edge/src/fmp4.rs:890-896 | so does a NALU that lasts 0x7472756e ms, with sequence number and decode times innocent |
| `SegmentReader.SegmentRoundTrip` | rust/crates/yunmao-media-edge/src/fmp4.rs:212-233 | reading the segment as boxes recovers the sequence number, both decode times, every duration (33 ms where missing), every NALU and every AAC frame, following each data_offset into the mdat |
| `SegmentReader.VideoSegmentRoundTrip` | rust/crates/yunmao-media-edge/src/fmp4.rs:184-195 | read with its samples from the start of the mdat, a video-only segment gives sequence number, decode time, first sample flags, every duration and every NALU; a reader that follows its data offset of 0 finds nothing |
| `LlHls.RoomBuffer.IngestVideoConfig` | rust/crates/yunmao-media-edge/src/ll_hls.rs:228-234 | the room has an init segment |
| `LlHls.RoomBuffer.IngestAudioConfig` | rust/crates/yunmao-media-edge/src/ll_hls.rs:237-245 | the room knows its sample rate |
| `LlHls.RoomBuffer.IngestVideoNalu` | rust/crates/yunmao-media-edge/src/ll_hls.rs:248-284 | the whole new state: frame accepted, part and segment closed as `Step` says |
| `LlHls.RoomBuffer.IngestAudioFrame` | rust/crates/yunmao-media-edge/src/ll_hls.rs:287-315 | frame appended, or pending audio dropped after four part targets without video |
| `LlHls.RoomBuffer.FlushOnePart` | rust/crates/yunmao-media-edge/src/ll_hls.rs:317-348 | a part of all pending frames, clocks advanced |
| `LlHls.RoomBuffer.FlushOneSegment` | rust/crates/yunmao-media-edge/src/ll_hls.rs:350-381 | a segment of all current parts, oldest evicted beyond the window |
| `LlHls.RoomBuffer.FetchOneSegment` | rust/crates/yunmao-media-edge/src/ll_hls.rs:516-523 | the bytes stored under the number, if any |
| `LlHls.RoomBuffer.FetchOnePart` | rust/crates/yunmao-media-edge/src/ll_hls.rs:525-535 | the bytes stored under segment number and index, if any |
| `LlHls.RoomBuffer.RenderManifest` | rust/crates/yunmao-media-edge/src/ll_hls.rs:437-508 | the list of playlist entries |
| `LlHlsIngest.IngestFlvTag` | rust/crates/yunmao-media-edge/src/ll_hls.rs:386-435 | what every FLV tag does to the room: configuration, frame, nothing, or an error on exactly the malformed configurations |
| `LlHlsIngest.VideoTagMeans` | rust/crates/yunmao-media-edge/src/ll_hls.rs:412-434 | a video tag written by the FLV specification is a frame, its payload behind five bytes, a keyframe if its frame type is 1; only an AVC sequence header is configuration |
| `LlHlsIngest.AvcHeaderMeans` | rust/crates/yunmao-media-edge/src/ll_hls.rs:416-420 | that configures the packager unless it is shorter than 12 bytes or its first SPS overruns it |
| `LlHlsIngest.AudioTagMeans` | rust/crates/yunmao-media-edge/src/ll_hls.rs:388-410 | an AAC frame that is not empty is one of 1024 samples; other formats are ignored; a configuration needs two bytes |
| `LlHlsIngest.AudioConfigMeans` | rust/crates/yunmao-media-edge/src/ll_hls.rs:389-391 | an AAC configuration gives the rate of table 1.18 of ISO/IEC 14496-3 |
| `LlHlsIngest.NoMeaning` | rust/crates/yunmao-media-edge/src/ll_hls.rs:408-426 | script data and video tags of less than five bytes mean nothing |
| `LlHlsRuns.StepKeeps` | rust/crates/yunmao-media-edge/src/ll_hls.rs:248-381 | every step keeps numbering, decode times, window, completeness of segments and parts |
| `LlHlsRuns.DecodeTimes` | rust/crates/yunmao-media-edge/src/ll_hls.rs:317-348 | each part's video tfdt is the sum of all earlier part durations, its audio tfdt the sum of all earlier samples |
| `LlHlsBytes.VideoPartReads` | rust/crates/yunmao-media-edge/src/ll_hls.rs:317-338 | in every run the bytes of part k without audio are read back as its number, the sum of all earlier durations, and its NALUs with their durations |
| `LlHlsBytes.AvPartReads` | rust/crates/yunmao-media-edge/src/ll_hls.rs:317-338 | with audio, following the data offsets, both tracks with both sums, unless its numbers spell `trun` |
| `LlHlsRuns.NumbersRise` | rust/crates/yunmao-media-edge/src/ll_hls.rs:320-338 | the 32-bit numbers in the mfhd boxes strictly rise over the run if and only if no segment but the last has more than 1000 parts and no number outgrows 32 bits |
| `LlHlsFrames.FramesConserved` | rust/crates/yunmao-media-edge/src/ll_hls.rs:248-348 | NALUs of all parts, then the pending ones, are the accepted NALUs in order, with the durations their timestamps give |
| `LlHlsFrames.AudioConserved` | rust/crates/yunmao-media-edge/src/ll_hls.rs:287-348 | the accepted audio frames are, in order, batches and then the pending frames; each batch is the audio of a part or was given up, whole, when it had waited four part targets without video; so the parts hold a subsequence |
| `LlHlsFrames.RateIsLatest` | rust/crates/yunmao-media-edge/src/ll_hls.rs:237-245 | the sample rate is that of the latest audio configuration |
| `LlHlsFrames.PartsMarked` | rust/crates/yunmao-media-edge/src/ll_hls.rs:262-275 | a part is marked independent exactly when its last NALU is a keyframe |
| `LlHlsFrames.CompletedSegments` | rust/crates/yunmao-media-edge/src/ll_hls.rs:270-281 | every completed segment lasts at least the target duration and its last NALU is a keyframe |
| `LlHlsCuts.SegmentsAreCut` | rust/crates/yunmao-media-edge/src/ll_hls.rs:270-281 | in every run the segment number rises by one after each part that a keyframe closed, that is not the first of its segment and with which the segment reaches the target, and after no other |
| `LlHlsCuts.PartsAreCut` | rust/crates/yunmao-media-edge/src/ll_hls.rs:262-275 | each part holds the accepted frames from where the last one ended up to the first with which it is long enough or that is a keyframe behind the segment's first part; no pending frame is such a frame |
| `LlHlsFrames.ClockIsExact` | rust/crates/yunmao-media-edge/src/ll_hls.rs:262-266 | decode time plus pending durations equals last timestamp plus the excess of frames whose timestamp did not rise, if and only if no part's duration wrapped |
| `LlHlsFrames.PendingBelowTarget` | rust/crates/yunmao-media-edge/src/ll_hls.rs:267-275 | after every video frame less than a part target is pending |
| `LlHlsFrames.SteadyRuns` | rust/crates/yunmao-media-edge/src/ll_hls.rs:248-348 | with bounded timestamp jumps the clock is exact and the pending time below target, in every run |
| `LlHlsPlaylist.WindowIsLatest` | rust/crates/yunmao-media-edge/src/ll_hls.rs:350-381 | min(window, current) segments with consecutive numbers ending at current - 1, each the concatenation of its parts, all fetchable, and no other number |
| `LlHlsPlaylist.EveryPartIsFetched` | rust/crates/yunmao-media-edge/src/ll_hls.rs:525-535 | a part ever built is fetched with its bytes if and only if its segment is not evicted |
| `LlHlsPlaylist.NothingElseIsFetched` | rust/crates/yunmao-media-edge/src/ll_hls.rs:525-535 | under a name that no part of the run has nothing is fetched |
| `LlHlsPlaylist.PlaylistIsHonest` | rust/crates/yunmao-media-edge/src/ll_hls.rs:437-508 | every listed part and segment can be fetched with the stored bytes and has the listed duration; the media sequence number is that of the oldest segment |
| `LlHlsPlaylist.PlaylistIsComplete` | rust/crates/yunmao-media-edge/src/ll_hls.rs:437-508 | every part still served is listed |
| `LlHlsPlaylist.PlaylistIs` | rust/crates/yunmao-media-edge/src/ll_hls.rs:437-508 | the whole playlist, in order, from the parts produced: per segment of the window its parts, then itself with its total, the parts in progress, the hint; there is one once a video configuration came |
| `LlHlsPlaylist.HintIsNext` | rust/crates/yunmao-media-edge/src/ll_hls.rs:494-502 | in every continuation the first part produced has the name in the PRELOAD-HINT of the playlist rendered before it, if and only if the segment has fewer than 2^32 parts; it is fetchable under its name at once and exactly until its segment is evicted |
| `LlHlsPlaylist.WaitIsMonotone` | rust/crates/yunmao-media-edge/src/ll_hls.rs:537-548 | what a blocking reload waited for is true in every continuation, while the segment in progress has fewer than 2^32 parts |
| `LlHlsPlaylist.WaitMeansFetchable` | rust/crates/yunmao-media-edge/src/ll_hls.rs:537-548 | it is true if and only if a later segment has begun or the part can be fetched |
| `Outbox.FetchIsDetermined` | go/pkg/yunmao/db/outbox.go:79-112 | the rows a fetch locks are determined: the smallest free ones, up to the batch size |
| `Outbox.FetchTakesTheSmallest` | go/pkg/yunmao/db/outbox.go:79-112 | it takes as many free rows as there are, up to the batch size, and leaves none smaller than one it takes |
| `Outbox.FetchExists` | go/pkg/yunmao/db/outbox.go:79-112 | and always has an answer |
| `Outbox.StepKeeps` | go/pkg/yunmao/db/outbox.go:79-136 | every step of every worker keeps the invariant |
| `Outbox.EveryRowInOnePlace` | go/pkg/yunmao/db/outbox.go:115-136 | in every interleaving each committed row is in exactly one of outbox and DLQ, and no two workers hold the same row |
| `Outbox.PublishesAccounted` | go/pkg/yunmao/db/outbox.go:295-334 | successful publishes of a row are one for its mark, one for each rolled-back transaction that had published it, one while such a transaction is open; so a mark implies a publish, exactly one without rollbacks |
| `Outbox.AttemptsBounded` | go/pkg/yunmao/db/outbox.go:336-358 | per transaction 1 to MaxAttempts publish calls for a settled row; giving up earlier only on a stop |
| `Outbox.SettledForGood` | go/pkg/yunmao/db/outbox.go:115-136 | published and dead rows stay so |
| `Outbox.CommitSettles` | go/pkg/yunmao/db/outbox.go:326-333 | a commit leaves no row of the batch pending and no other row changed |
| `Outbox.RowsComeAndReturn` | go/pkg/yunmao/db/outbox.go:295-300 | an inserted row waits and is free; a rollback leaves all rows where they were and its own free |
| `Outbox.CountsAreSteps` | go/pkg/yunmao/db/outbox.go:295-334 | the rows are those inserted, the counted publishes those made |
| `Outbox.Normalised` | go/pkg/yunmao/db/outbox.go:226-248 | configuration values that make no sense are replaced, others kept |
| `OutboxRelay.JudgeOk` | go/pkg/yunmao/db/outbox.go:336-358 | a row is published exactly when an attempt succeeds before the limit and before a stop; attempts are made up to the first success or stop, or all |
| `OutboxRelay.Relay.PublishWithRetry` | go/pkg/yunmao/db/outbox.go:336-358 | the loop takes only steps of the protocol and returns that verdict |
| `OutboxRelay.Relay.ProcessBatch` | go/pkg/yunmao/db/outbox.go:295-334 | on success every fetched row is marked or dead as its attempts went and the count is right; on any error nothing is committed; all by steps of the protocol |
| `OutboxRelay.DefaultBackoff` | go/pkg/yunmao/db/outbox.go:178-187 | 100 ms doubled per attempt, at most 2 s, reached at attempt 5 |
| `Decimal.FormatInt` | go/pkg/yunmao/cache/cache.go:226-246 | decimal digits of every 64-bit number but the smallest, which comes out as a lone minus sign |
| `Decimal.ParseInt` | go/pkg/yunmao/cache/cooldown.go:115-124 | value of the leading digits, wrapped to 64 bits |
| `Decimal.ParseInverts` | go/pkg/yunmao/cache/cache.go:226-246 | parsing a formatted non-negative number returns it |
| `Decimal.FormattedValue` | go/pkg/yunmao/cache/cache.go:226-246 | a negative number is a minus sign and its digits, the smallest one the sign alone |
| `Cooldown.MemoryStore.Gc` | go/pkg/yunmao/cache/cache.go:159-165 | exactly the expired entries are removed |
| `Cooldown.MemoryStore.IncrBy` | go/pkg/yunmao/cache/cache.go:206-224 | counter and its text advanced together; the expiry is set only when the counter is new |
| `Cooldown.EntriesLive` | go/pkg/yunmao/cache/cache.go:159-224 | an entry is found until its ttl is over, for ever without one; a counter starts at 0, keeps the expiry it was made with, and its text is its value |
| `Cooldown.KeyTexts` | go/pkg/yunmao/cache/cooldown.go:73-91 | what the keys look like in the store |
| `Cooldown.CacheCooldown.Consume` | go/pkg/yunmao/cache/cooldown.go:71-113 | entries and outcome after the three checks and the three writes |
| `Cooldown.Limiter.Consume` | go/pkg/yunmao/cooldown/cooldown.go:82-103 | maps and outcome |
| `Cooldown.Limiter.Check` | go/pkg/yunmao/cooldown/cooldown.go:60-79 | the same outcome without a change, and the time that is left to wait |
| `CooldownRefinement.ConsumeAgrees` | go/pkg/yunmao/cache/cooldown.go:71-113 | one prompt call judges the room's cooldown and the daily limit as a limiter that recorded what the store accepted, keeps both in agreement, and for users whose keys are told apart alike gives the same outcome |
| `CooldownRefinement.CacheRefinesLimiter` | go/pkg/yunmao/cache/cooldown.go:71-113 | on every prompt run by users whose keys are told apart alike both implementations give the same outcomes |
| `CooldownRefinement.RefinesExactly` | go/pkg/yunmao/cache/cooldown.go:71-113 | for given users and rooms and bounds on late reads, all runs agree if and only if both kinds of keys tell the same pairs apart, instants are read at most 1 s and 1 ns late and the day's counter before midnight |
| `CooldownRefinement.PlainIdsSeparated` | go/pkg/yunmao/cache/cooldown.go:83-90 | user ids without the two separators are told apart alike |
| `CooldownRefinement.ColonInUserId` | go/pkg/yunmao/cache/cooldown.go:83-90 | a colon in a user id makes the store alone refuse the second of two calls |
| `CooldownRefinement.BarInUserId` | go/pkg/yunmao/cooldown/cooldown.go:84-90 | a bar makes the limiter alone refuse it |
| `CooldownRefinement.SlowRead` | go/pkg/yunmao/cache/cooldown.go:72-80 | if an instant may be read later than 1 s and 1 ns after the call's clock reading, some run differs |
| `CooldownRefinement.CounterGone` | go/pkg/yunmao/cache/cooldown.go:90-101 | if the day's counter may be read after midnight, some run differs |
| `CooldownRefinement.RoomFeedsApart` | go/pkg/yunmao/cooldown/cooldown.go:82-103 | accepted feeds in a room are at least the room cooldown apart |
| `CooldownRefinement.OutcomeExactly` | go/pkg/yunmao/cooldown/cooldown.go:82-103 | the answer to every call of every run, from the accepted calls before it alone: latest feed in the room, latest under the user's key, grams of the UTC day |
| `CooldownRefinement.StoreFeedsApart` | go/pkg/yunmao/cache/cooldown.go:71-113 | over the store too, whatever the user ids |
| `CooldownRefinement.LimitHolds` | go/pkg/yunmao/cooldown/cooldown.go:93-103 | a positive daily limit is kept if and only if no accepted amount overflows the 32-bit total |
| `CooldownRefinement.ModestAmountsWithin` | go/pkg/yunmao/cooldown/cooldown.go:93-103 | amounts below 2^32 less the limit never do |
| `CooldownRefinement.OverflowIsAccepted` | go/pkg/yunmao/cooldown/cooldown.go:93-96 | after 20 g of 50 g an amount of 2^32 - 10 is accepted |
| `CooldownRefinement.StoreWithinLimit` | go/pkg/yunmao/cache/cooldown.go:90-112 | such amounts keep the limit over the store at every moment, whatever the user ids |
| `Idempotent.Cache.Insert` | go/pkg/yunmao/idempotent/idempotent.go:39-65 | answer, list and map afterwards |
| `Idempotent.InsertKeepsLinked` | go/pkg/yunmao/idempotent/idempotent.go:39-65 | list and map hold the same keys, each once, within the capacity |
| `Idempotent.RefusedExactly` | go/pkg/yunmao/idempotent/idempotent.go:43-50 | refused if and only if an unexpired insertion of the key has fewer than capacity insertions after it |
| `Idempotent.AnswersExact` | go/pkg/yunmao/idempotent/idempotent.go:39-65 | that, over every run with a clock that does not go back, in terms of the accepted calls |
| `Idempotent.KnownVersusRefused` | go/pkg/yunmao/idempotent/idempotent.go:68-79 | `Has` agrees with `Insert` except at the instant of expiry and for a negative ttl |
| `PgStore.Store.Get` | go/pkg/yunmao/feedingsafety/pg_store.go:50-91 | cached answer, or the table's answer remembered for the ttl, or the error |
| `PgStore.GetCompletes` | go/pkg/yunmao/feedingsafety/pg_store.go:50-91 | a `Get` that nothing interferes with returns the cached answer while it lasts, else the row, which it remembers for the ttl |
| `PgStore.InvalidateForgets` | go/pkg/yunmao/feedingsafety/pg_store.go:120-125 | the room's cached answer is forgotten and no other |
| `PgStore.KeysSeparate` | go/pkg/yunmao/feedingsafety/pg_store.go:62-66 | rooms have rows of their own; only the global policy shares its row, with the room named `__global__` |
| `PgStore.AnswersAreRecent` | go/pkg/yunmao/feedingsafety/pg_store.go:50-125 | in every interleaving what `Get` returns was in the table later than its clock reading less the ttl |
| `PgStore.PutBringsUpToDate` | go/pkg/yunmao/feedingsafety/pg_store.go:94-118 | in every continuation without writes of the row every `Get` begun after `Put` returned sees it, if and only if no read under way holds an old row for a `Get` that began less than a ttl ago |
| `PgStore.PutIsSeen` | go/pkg/yunmao/feedingsafety/pg_store.go:94-118 | so for a whole `Put(room, row)` with other steps in between: every later `Get` returns `row` under that condition and only then |
| `PgStore.RowsChangeByWrites` | go/pkg/yunmao/feedingsafety/pg_store.go:94-118 | a write stores the row under its key, everything else leaves it |
| `PgStore.Store.Put` | go/pkg/yunmao/feedingsafety/pg_store.go:94-118 | uninterrupted: the cached answer is dropped when the table took the row |
| `PgStore.ReadsSeeTheRow` | go/pkg/yunmao/feedingsafety/pg_store.go:50-125 | once cache and reads under way hold the row, every `Get`, also one under way, returns it until someone writes it |
| `PgStore.OldReadWins` | go/pkg/yunmao/feedingsafety/pg_store.go:76-91 | otherwise the same caller's next `Get` can return the old row |
| `Base64.Base64UrlEncode` | go/pkg/yunmao/authjwt/keyprovider.go:200-219 | both copies (the other is `kms.go`, lines 471 to 490): the encoding of RFC 4648 section 5 without padding, of length (4n + 2) / 3, although the buffer overflows |
| `Base64.DecodeInverts` | go/pkg/yunmao/authjwt/keyprovider.go:200-219 | decoding returns the bytes |
| `Base64.EncodeInverts` | go/pkg/yunmao/authjwt/keyprovider.go:200-219 | a decodable text is the encoding of what it decodes to |
| `Base64.AuthUrlInt` | go/pkg/yunmao/authjwt/keyprovider.go:195-198 | encodes the bytes of the absolute value |
| `Base64.MinimalBytesRead` | go/pkg/yunmao/authjwt/keyprovider.go:195-198 | these bytes read as the value and do not start with zero |
| `Base64.KmsUrlInt` | go/pkg/yunmao/kms/kms.go:458-469 | encodes the low four bytes without leading zeros |
| `Base64.KmsBytesRead` | go/pkg/yunmao/kms/kms.go:458-469 | these bytes read as the exponent modulo 2^32, zero as one byte |
| `Base64.ExponentsAgree` | go/pkg/yunmao/kms/kms.go:458-469 | the two agree exactly for 1 <= e < 2^32 and e = -2^31 |
| `Hub.Hub.Subscribe` | rust/crates/yunmao-gateway/src/hub.rs:76-92 | both indexes after a subscription |
| `Hub.Hub.Unsubscribe` | rust/crates/yunmao-gateway/src/hub.rs:94-109 | both indexes after leaving rooms |
| `Hub.Hub.Deregister` | rust/crates/yunmao-gateway/src/hub.rs:61-74 | the connection is gone from all three maps |
| `Hub.Hub.Broadcast` | rust/crates/yunmao-gateway/src/hub.rs:112-146 | uninterrupted: one copy to exactly the members whose channel takes it, the count of them, the others removed everywhere |
| `Hub.Hub.SendDirect` | rust/crates/yunmao-gateway/src/hub.rs:149-164 | uninterrupted: one copy if the channel takes it, else the connection is dropped |
| `Hub.DeliveredTo` | rust/crates/yunmao-gateway/src/hub.rs:124-138 | one copy more in a channel exactly if it is a connected target's, open and not full |
| `Hub.ReachedExactly` | rust/crates/yunmao-gateway/src/hub.rs:124-138 | the targets reached are those with an open channel that is not full |
| `Hub.Hub.Metrics` | rust/crates/yunmao-gateway/src/hub.rs:166-173 | number of connections and of (connection, room) pairs |
| `Hub.SubscriptionsCounted` | rust/crates/yunmao-gateway/src/hub.rs:166-173 | the sum over connections equals the sum over rooms |
| `HubRuns.StepKeeps` | rust/crates/yunmao-gateway/src/hub.rs:55-164 | every lock scope keeps the indexes consistent and the copies single |
| `HubRuns.IndexesAgree` | rust/crates/yunmao-gateway/src/hub.rs:55-164 | in every interleaving c is in rooms[r] iff r is in conn_rooms[c], no room is empty, the key sets agree, both subscription counts agree |
| `HubRuns.MembersAreListeners` | rust/crates/yunmao-gateway/src/hub.rs:55-109 | in every interleaving: who is connected, with which channel, and who is in which room is what the calls so far say, the latest that names both deciding |
| `HubRuns.PhasesExactly` | rust/crates/yunmao-gateway/src/hub.rs:112-138 | a broadcast collects the members, then puts one copy into each of their channels that is open and not full and marks the others for removal; nothing else changes |
| `HubRuns.RemovesOneByOne` | rust/crates/yunmao-gateway/src/hub.rs:139-143 | then it drops the marked connections one by one |
| `HubRuns.DirectExactly` | rust/crates/yunmao-gateway/src/hub.rs:149-164 | a direct message goes into its channel if that is open and not full |
| `HubRuns.NothingBlocks` | rust/crates/yunmao-gateway/src/hub.rs:55-143 | calls come at any moment and a broadcast always has its next phase |
| `HubRuns.OneCopyEach` | rust/crates/yunmao-gateway/src/hub.rs:112-146 | in every interleaving a broadcast puts at most one copy into any channel |
| `Scheduler.IdempotentSet.Insert` | rust/crates/yunmao-device-edge/src/scheduler.rs:128-139 | answer, set and order afterwards |
| `Scheduler.InsertRemembers` | rust/crates/yunmao-device-edge/src/scheduler.rs:128-139 | the set stays the last `capacity` accepted ids |
| `Scheduler.SeenAreTheLatest` | rust/crates/yunmao-device-edge/src/scheduler.rs:55-63 | that, in every interleaving, for the last 8192 accepted commands |
| `Scheduler.AcceptedExactly` | rust/crates/yunmao-device-edge/src/scheduler.rs:55-97 | in every interleaving a submission is accepted exactly when its id is not among the last 8192 accepted; queues hold what was put into them, in order |
| `Scheduler.AcceptedSpaced` | rust/crates/yunmao-device-edge/src/scheduler.rs:55-63 | an id is accepted again only after 8192 different others |
| `Scheduler.RunWorker` | rust/crates/yunmao-device-edge/src/scheduler.rs:100-110 | the acknowledgements of the queue, in order |
| `Scheduler.DevicesKeepOrderAndFood` | rust/crates/yunmao-device-edge/src/scheduler.rs:55-110 | no accepted command is lost or doubled, each device acknowledges its queue in order, a command succeeds exactly when its device has food enough, remaining and dispensed food add up to 1000 g after each |
| `Simulator.SimulatedDevice.Execute` | rust/crates/yunmao-device-edge/src/simulator.rs:49-105 | status, amount and remainder of one command |
| `Simulator.FoodConserved` | rust/crates/yunmao-device-edge/src/simulator.rs:70-105 | food left plus food dispensed is the initial food after every command |
| `Simulator.SucceedsExactly` | rust/crates/yunmao-device-edge/src/simulator.rs:70-105 | a command succeeds exactly when there is food enough and its roll is not below the failure rate; then it dispenses what it asks for, else nothing |
| `Simulator.DefaultNeverFails` | rust/crates/yunmao-device-edge/src/simulator.rs:20-31 | a default device has 1000 g, never fails, and answers within 800 ms |
| `Simulator.DelayExactly` | rust/crates/yunmao-device-edge/src/simulator.rs:70-105 | 50 ms for a refusal, the shortest time for a failure, a time between shortest and longest by the id for a success |
| `Simulator.TurnedAway` | rust/crates/yunmao-device-edge/src/simulator.rs:71-78 | a command is refused for lack of food exactly when it asks for more than the initial food less what was dispensed |
| `Simulator.Hash` | rust/crates/yunmao-device-edge/src/simulator.rs:115-123 | the hash loop computes 64-bit FNV-1a |
| `Simulator.FnvVectors` | rust/crates/yunmao-device-edge/src/simulator.rs:115-123 | published test vectors of FNV-1a |
| `Flv.EncodeTag` | rust/crates/yunmao-ingest/src/flv.rs:71-90 | header, body and trailing size |
| `Flv.TagRoundTrip` | rust/crates/yunmao-ingest/src/flv.rs:71-90 | reading inverts it exactly for tags of less than 16 MiB |
| `Flv.StreamRoundTrip` | rust/crates/yunmao-ingest/src/flv.rs:71-90 | a stream of tags is read back tag by tag |
| `Flv.SequenceHeaderIsKeyframe` | rust/crates/yunmao-ingest/src/flv.rs:93-126 | an AVC sequence header counts as a keyframe and as no kind of audio |
| `Flv.VideoTagKinds` | rust/crates/yunmao-ingest/src/flv.rs:93-107 | of a video tag written by annex E.4.3 the predicates tell frame type 1, and codec 7 with packet type 0 |
| `Flv.AudioTagKinds` | rust/crates/yunmao-ingest/src/flv.rs:110-126 | of an audio tag written by annex E.4.2 they tell format 10 with packet types 0 and 1 |
| `Flv.OtherTags` | rust/crates/yunmao-ingest/src/flv.rs:93-126 | shorter tags and script data are nothing of the kind |
| `Flv.KindsAreTypes` | rust/crates/yunmao-ingest/src/flv.rs:43-58 | the three tag types of table E.4.1 |
| `Pipe.MediaPipe.Publish` | rust/crates/yunmao-ingest/src/pipe.rs:43-83 | the cache after a tag, and the tag broadcast |
| `Pipe.GopIsExact` | rust/crates/yunmao-ingest/src/pipe.rs:62-76 | the cached GOP is the last 4096 audio and video tags from the latest keyframe on |
| `Pipe.HeadersAreLatest` | rust/crates/yunmao-ingest/src/pipe.rs:45-61 | cached metadata and headers are the latest of their kind |
| `Pipe.NewcomerSeesTheStream` | rust/crates/yunmao-ingest/src/pipe.rs:85-142 | a subscriber made between publishes gets, in order, tags of the latest metadata and headers, the GOP of the latest keyframe, and everything published since; all of them while it never lags |
| `Pipe.TakeGetsTheNext` | rust/crates/yunmao-ingest/src/pipe.rs:128-142 | it gets a tag whenever there is one it neither got nor lost: the next, or the oldest of the last 1024 |
| `Pipe.AacHeaderKinds` | rust/crates/yunmao-ingest/src/pipe.rs:54-60 | the pipe's test for an AAC header wants 44 kHz 16-bit stereo |
| `Pipe.LostByLagging` | rust/crates/yunmao-ingest/src/pipe.rs:128-142 | what it got and lost add up; it loses tags exactly when more than 1024 wait |

## Left out

- TrunScan.ScanIsExact: moofs of 2^27 and more samples are excluded, a moof of more than 1 GiB whose box sizes and counts can begin with a letter of `trun`; that the scan stays inside the moof is proved for any number.
- MediaSegment.BuildMediaSegment: the data offset stays 0, so only a reader that takes the samples from the start of the mdat finds them.
- LlHls.RoomBuffer.RenderManifest: the playlist is a list of entries; floating-point text, target duration and hold-back lines are not modelled.
- CooldownRefinement.CacheRefinesLimiter: the grams asked for add up to less than 2^63, beyond which the store's counter turns negative. Dates are decimal day numbers instead of yyyymmdd, stored instants are kept as such instead of as RFC 3339 text, and durations do not overflow 64 bits.
- OutboxRelay.Relay.ProcessBatch: the contract of the code is about one worker's own steps; what holds when others step in between is proved of the protocol in `Outbox`.
- Idempotent.Cache.Insert: the list element that an entry points to is modelled by its key, which is unique in the list.
- Outbox.StepKeeps: payloads, topics and timestamps of rows, and the order of messages on the bus, which rollbacks can permute.
- PgStore.AnswersAreRecent: a row is one value; its columns, the rounding of durations to seconds and the errors of `Put` are not modelled. A negative ttl, which switches the cache off, is excluded.
- Scheduler.DevicesKeepOrderAndFood: the queues' bound of 64 shows only as a delay between acceptance and queueing; sleeping and clock texts are removed.
- HubRuns.OneCopyEach: each connection has a channel of its own, as the hub's documentation requires.
- Pipe.NewcomerSeesTheStream: a subscription made during a publish may miss or repeat one tag, so nothing is claimed about it.
- `cache.Cooldown.Check`, which skips the daily limit when no counter exists yet, so that only `Consume` refines the limiter.
- Init segments (`ftyp`, `moov`), whose `esds` inner lengths do not match what is written, bitrate estimates and publisher metadata.
- `OpusPacketizer`, a packetizer without any format of its own, and random SSRCs and first sequence numbers, which are parameters here.
- Several rooms side by side in the packager and the forwarding unit: rooms share nothing, so one is modelled.
- Redis, PostgreSQL, Kafka, HTTP and WebSocket handlers, RSA and JWT: libraries and plumbing.
