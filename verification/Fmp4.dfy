/** The boxes of media segments (yunmao-media-edge `fmp4.rs`): moof and mdat for one video and one
audio track, and the scan of the finished moof that fills in the sample data offsets. */
module Fmp4 {
  import opened Bytes
  import opened Options
  import opened Boxes
  import opened Seqs

  datatype AacFrame = AacFrame(data: seq<Byte>, samples: U32)

  /** A sample table entry of a trun box: duration and size. */
  datatype Sample = Sample(duration: U32, size: U32)

  const DEFAULT_DURATION: U32 := 33

  /** The entry of NALU `i`; a missing duration counts as 33 ms. */
  function VideoSample(nalus: seq<seq<Byte>>, durations: seq<U32>, i: nat): Sample
    requires i < |nalus|
  {
    Sample(if i < |durations| then durations[i] else DEFAULT_DURATION, |nalus[i]| % TWO32)
  }

  function VideoSamples(nalus: seq<seq<Byte>>, durations: seq<U32>): seq<Sample>
  {
    seq(|nalus|, (i: int) requires 0 <= i < |nalus| => VideoSample(nalus, durations, i))
  }

  function AudioSamples(frames: seq<AacFrame>): seq<Sample>
  {
    seq(|frames|, (i: int) requires 0 <= i < |frames| => Sample(frames[i].samples, |frames[i].data| % TWO32))
  }

  function Concat(parts: seq<seq<Byte>>): seq<Byte>
  {
    if parts == [] then [] else parts[0] + Concat(parts[1..])
  }

  lemma {:induction false} ConcatSnoc(parts: seq<seq<Byte>>, p: seq<Byte>)
    ensures Concat(parts + [p]) == Concat(parts) + p
  {
    if parts == [] {
      assert [] + [p] == [p] && [p][1..] == [];
    } else {
      ConcatSnoc(parts[1..], p);
      assert (parts + [p])[1..] == parts[1..] + [p];
    }
  }

  function FrameData(frames: seq<AacFrame>): seq<seq<Byte>>
  {
    seq(|frames|, (i: int) requires 0 <= i < |frames| => frames[i].data)
  }

  // ---------- the boxes ----------

  function SampleBytes(samples: seq<Sample>): seq<Byte>
  {
    if samples == [] then [] else Be32(samples[0].duration) + Be32(samples[0].size) + SampleBytes(samples[1..])
  }

  lemma {:induction false} SampleBytesSnoc(samples: seq<Sample>, e: Sample)
    ensures SampleBytes(samples + [e]) == SampleBytes(samples) + (Be32(e.duration) + Be32(e.size))
  {
    if samples == [] {
      assert [] + [e] == [e] && [e][1..] == [];
    } else {
      SampleBytesSnoc(samples[1..], e);
      assert (samples + [e])[1..] == samples[1..] + [e];
      ConcatAssoc(Be32(samples[0].duration) + Be32(samples[0].size), SampleBytes(samples[1..]), Be32(e.duration) + Be32(e.size));
    }
  }

  function Mfhd(sequence: U32): seq<Byte> { Box(MFHD, Be32(0) + Be32(sequence)) }

  function Tfhd(track: U32): seq<Byte> { Box(TFHD, Be32(0x0002_0000) + Be32(track)) }

  function Tfdt(time: U64): seq<Byte> { Box(TFDT, Be32(0x0100_0000) + Be64(time)) }

  const VIDEO_FLAGS: U32 := 0x305
  const AUDIO_FLAGS: U32 := 0x301
  const FIRST_SAMPLE_FLAGS: U32 := 0x0200_0000

  /** The fields before the sample table. */
  function TrunHead(video: bool, count: nat, offset: U32): seq<Byte>
  {
    Be32(if video then VIDEO_FLAGS else AUDIO_FLAGS) + Be32(count % TWO32) + Be32(offset)
    + (if video then Be32(FIRST_SAMPLE_FLAGS) else [])
  }

  function Trun(video: bool, samples: seq<Sample>, offset: U32): seq<Byte>
  {
    Box(TRUN, TrunHead(video, |samples|, offset) + SampleBytes(samples))
  }

  /** Track 1 is the video track, track 2 the audio track. */
  function Traf(video: bool, time: U64, samples: seq<Sample>, offset: U32): seq<Byte>
  {
    Box(TRAF, Tfhd(if video then 1 else 2) + Tfdt(time) + Trun(video, samples, offset))
  }

  /** Everything that goes into the moof of an audio/video segment but the data offsets. */
  datatype Fragment = Fragment(sequence: U32, videoTime: U64, video: seq<Sample>, audioTime: U64, audio: seq<Sample>)

  function MoofAv(f: Fragment, videoOffset: U32, audioOffset: U32): seq<Byte>
  {
    Box(MOOF, Mfhd(f.sequence) + Traf(true, f.videoTime, f.video, videoOffset) + Traf(false, f.audioTime, f.audio, audioOffset))
  }

  function MoofVideo(sequence: U32, time: U64, samples: seq<Sample>): seq<Byte>
  {
    Box(MOOF, Mfhd(sequence) + Traf(true, time, samples, 0))
  }

  function Mdat(payload: seq<Byte>): seq<Byte> { Box(MDAT, payload) }

  // ---------- the scan for `trun` ----------

  /** A box named `trun` seems to start at `i`: the test the scan makes. */
  predicate Hit(data: seq<Byte>, i: nat)
  {
    SaysTrun(data, i + 4)
  }

  /** The bytes at `pos` spell `trun`. */
  predicate SaysTrun(data: seq<Byte>, pos: nat)
  {
    && pos + 4 <= |data|
    && data[pos] == 0x74 && data[pos + 1] == 0x72 && data[pos + 2] == 0x75 && data[pos + 3] == 0x6e
  }

  /** The first hit from position `i` on. */
  function NextHit(data: seq<Byte>, i: nat): Option<nat>
    decreases |data| - i
  {
    if i + 8 > |data| then None
    else if Hit(data, i) then Some(i)
    else NextHit(data, i + 1)
  }

  /** Writes `values[0]`, `values[1]`, ... into the offset fields of the hits from `i` on. `None`
  stands for the slice panic when an offset field would lie past the end. */
  function PatchHits(data: seq<Byte>, i: nat, values: seq<U32>): Option<seq<Byte>>
    decreases |values|
  {
    var hit := NextHit(data, i);
    if hit.None? || values == [] then Some(data)
    else if hit.value + 20 > |data| then None
    else PatchHits(Patched(data, hit.value + 16, values[0]), hit.value + 8, values[1..])
  }

  /** The scan, with the offsets in the order the trun boxes come. */
  method PatchTruns(buf: Buffer, start: nat, values: seq<U32>) returns (ok: bool)
    requires start <= |buf.data|
    modifies buf
    ensures var r := PatchHits(old(buf.data), start, values); ok == r.Some? && (ok ==> buf.data == r.value)
  {
    var i, occurrences := start, 0;
    ghost var goal := PatchHits(buf.data, start, values);
    assert values[0..] == values;
    while i + 8 <= |buf.data|
      invariant |buf.data| == |old(buf.data)| && start <= i && occurrences <= |values|
      invariant PatchHits(buf.data, i, values[occurrences..]) == goal
      decreases |buf.data| - i
    {
      if Hit(buf.data, i) {
        var pos := i + 8 + 4 + 4;
        if occurrences == |values| {
          break;
        }
        if pos + 4 > |buf.data| {
          return false;
        }
        PatchOne(buf.data, i, values[occurrences..]);
        assert values[occurrences..][1..] == values[occurrences + 1..];
        buf.Patch32(pos, values[occurrences]);
        occurrences := occurrences + 1;
        i := i + 8;
      } else {
        PatchNone(buf.data, i, values[occurrences..]);
        i := i + 1;
      }
    }
    ok := true;
  }

  lemma {:induction false} PatchOne(data: seq<Byte>, i: nat, values: seq<U32>)
    requires Hit(data, i) && i + 20 <= |data| && values != []
    ensures PatchHits(data, i, values) == PatchHits(Patched(data, i + 16, values[0]), i + 8, values[1..])
  {
    assert NextHit(data, i) == Some(i);
  }

  lemma {:induction false} PatchNone(data: seq<Byte>, i: nat, values: seq<U32>)
    requires !Hit(data, i) && i + 8 <= |data|
    ensures PatchHits(data, i, values) == PatchHits(data, i + 1, values)
  {
    assert NextHit(data, i) == NextHit(data, i + 1);
  }

  function Offsets(moofSize: nat, videoBytes: nat): seq<U32>
  {
    [(moofSize + 8) % TWO32, (moofSize + 8 + videoBytes) % TWO32]
  }

  /** The moof after the scan; `TrunScan.ScanStaysInside` shows that there always is one. */
  function PatchedMoof(f: Fragment, videoBytes: nat): Option<seq<Byte>>
  {
    var moof := MoofAv(f, 0, 0);
    PatchHits(moof, 0, Offsets(|moof|, videoBytes))
  }

  function FragmentOf(sequence: U32, videoTime: U64, nalus: seq<seq<Byte>>, durations: seq<U32>,
                      audioTime: U64, frames: seq<AacFrame>): Fragment
  {
    Fragment(sequence, videoTime, VideoSamples(nalus, durations), audioTime, AudioSamples(frames))
  }

  /** The video-only segment: one traf, no scan, data offset 0. */
  function SegmentVideo(sequence: U32, time: U64, nalus: seq<seq<Byte>>, durations: seq<U32>): seq<Byte>
  {
    MoofVideo(sequence, time, VideoSamples(nalus, durations)) + Mdat(Concat(nalus))
  }
}
