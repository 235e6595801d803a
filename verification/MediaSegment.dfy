/** The writers of media segments (yunmao-media-edge `fmp4.rs`). */
module MediaSegment {
  import opened Bytes
  import opened Options
  import opened Boxes
  import opened Fmp4
  import opened Seqs
  import opened TrunScan

  /** The bytes of an audio/video media segment. */
  function SegmentAv(f: Fragment, nalus: seq<seq<Byte>>, frames: seq<AacFrame>): seq<Byte>
  {
    ScanStaysInside(f, |Concat(nalus)|);
    PatchedMoof(f, |Concat(nalus)|).value + Mdat(Concat(nalus) + Concat(FrameData(frames)))
  }

  // ---------- the writers ----------

  method WriteMfhd(buf: Buffer, sequence: U32)
    modifies buf
    ensures buf.data == old(buf.data) + Mfhd(sequence)
  {
    hide Be32;
    ghost var before := buf.data;
    var pos := buf.BeginBox(MFHD);
    buf.PutU32(0);
    buf.PutU32(sequence);
    assert buf.data == before + OpenBox(MFHD, Be32(0) + Be32(sequence));
    buf.EndBox(pos, before, MFHD, Be32(0) + Be32(sequence));
  }

  method WriteTfhd(buf: Buffer, track: U32)
    modifies buf
    ensures buf.data == old(buf.data) + Tfhd(track)
  {
    hide Be32;
    ghost var before := buf.data;
    var pos := buf.BeginBox(TFHD);
    buf.PutU32(0x0002_0000);
    buf.PutU32(track);
    assert buf.data == before + OpenBox(TFHD, Be32(0x0002_0000) + Be32(track));
    buf.EndBox(pos, before, TFHD, Be32(0x0002_0000) + Be32(track));
  }

  method WriteTfdt(buf: Buffer, time: U64)
    modifies buf
    ensures buf.data == old(buf.data) + Tfdt(time)
  {
    hide Be32, Be64;
    ghost var before := buf.data;
    var pos := buf.BeginBox(TFDT);
    buf.PutU32(0x0100_0000);
    buf.PutU64(time);
    assert buf.data == before + OpenBox(TFDT, Be32(0x0100_0000) + Be64(time));
    buf.EndBox(pos, before, TFDT, Be32(0x0100_0000) + Be64(time));
  }

  method WriteTrun(buf: Buffer, video: bool, samples: seq<Sample>)
    modifies buf
    ensures buf.data == old(buf.data) + Trun(video, samples, 0)
  {
    ghost var before := buf.data;
    var pos := buf.BeginBox(TRUN);
    WriteTrunHead(buf, video, |samples|);
    ghost var head := TrunHead(video, |samples|, 0);
    GrowBox(before, TRUN, [], head);
    EmptyConcat(head);
    WriteSamples(buf, samples);
    GrowBox(before, TRUN, head, SampleBytes(samples));
    buf.EndBox(pos, before, TRUN, head + SampleBytes(samples));
  }

  method WriteTrunHead(buf: Buffer, video: bool, count: nat)
    modifies buf
    ensures buf.data == old(buf.data) + TrunHead(video, count, 0)
  {
    var flags := if video then VIDEO_FLAGS else AUDIO_FLAGS;
    buf.PutU32(flags);
    buf.PutU32(count % TWO32);
    buf.PutU32(0); // data_offset placeholder
    if video {
      buf.PutU32(FIRST_SAMPLE_FLAGS);
    } else {
      EmptyConcat(buf.data);
    }
    ConcatAssoc4(old(buf.data), Be32(flags), Be32(count % TWO32), Be32(0), if video then Be32(FIRST_SAMPLE_FLAGS) else []);
  }

  method WriteSamples(buf: Buffer, samples: seq<Sample>)
    modifies buf
    ensures buf.data == old(buf.data) + SampleBytes(samples)
  {
    assert samples[..0] == [];
    for i := 0 to |samples|
      invariant buf.data == old(buf.data) + SampleBytes(samples[..i])
    {
      buf.PutU32(samples[i].duration);
      buf.PutU32(samples[i].size);
      SampleBytesSnoc(samples[..i], samples[i]);
      assert samples[..i + 1] == samples[..i] + [samples[i]];
      ConcatAssoc(old(buf.data), SampleBytes(samples[..i]), Be32(samples[i].duration) + Be32(samples[i].size));
      ConcatAssoc(old(buf.data) + SampleBytes(samples[..i]), Be32(samples[i].duration), Be32(samples[i].size));
    }
    assert samples[..|samples|] == samples;
  }

  method WriteTraf(buf: Buffer, video: bool, time: U64, samples: seq<Sample>)
    modifies buf
    ensures buf.data == old(buf.data) + Traf(video, time, samples, 0)
  {
    ghost var before := buf.data;
    var track := if video then 1 else 2;
    var pos := buf.BeginBox(TRAF);
    WriteTfhd(buf, track);
    GrowBox(before, TRAF, [], Tfhd(track));
    assert [] + Tfhd(track) == Tfhd(track);
    WriteTfdt(buf, time);
    GrowBox(before, TRAF, Tfhd(track), Tfdt(time));
    WriteTrun(buf, video, samples);
    GrowBox(before, TRAF, Tfhd(track) + Tfdt(time), Trun(video, samples, 0));
    buf.EndBox(pos, before, TRAF, Tfhd(track) + Tfdt(time) + Trun(video, samples, 0));
  }

  /** The second half of `write_moof_av`: fills the data offsets into the moof that starts at
  `start`. Offsets are relative to the moof, stored as `i32`. */
  method FillOffsets(buf: Buffer, start: nat, videoBytes: nat)
    requires start <= |buf.data|
    requires PatchHits(buf.data, start, Offsets(|buf.data| - start, videoBytes)).Some?
    modifies buf
    ensures PatchHits(old(buf.data), start, Offsets(|old(buf.data)| - start, videoBytes)) == Some(buf.data)
  {
    var moofSize := |buf.data| - start;
    var ok := PatchTruns(buf, start, Offsets(moofSize, videoBytes));
  }

  /** The first half of `write_moof_av`: the moof with zero offsets. */
  method WriteUnpatchedMoof(buf: Buffer, f: Fragment)
    modifies buf
    ensures buf.data == old(buf.data) + MoofAv(f, 0, 0)
  {
    ghost var before, mfhd := buf.data, Mfhd(f.sequence);
    ghost var video, audio := Traf(true, f.videoTime, f.video, 0), Traf(false, f.audioTime, f.audio, 0);
    var pos := buf.BeginBox(MOOF);
    WriteMfhd(buf, f.sequence);
    GrowBox(before, MOOF, [], mfhd);
    assert [] + mfhd == mfhd;
    WriteTraf(buf, true, f.videoTime, f.video);
    GrowBox(before, MOOF, mfhd, video);
    WriteTraf(buf, false, f.audioTime, f.audio);
    GrowBox(before, MOOF, mfhd + video, audio);
    buf.EndBox(pos, before, MOOF, mfhd + video + audio);
  }

  /** `write_moof_av`, whose only caller passes an empty buffer. */
  method WriteMoofAv(buf: Buffer, f: Fragment, videoBytes: nat)
    requires buf.data == []
    modifies buf
    ensures PatchedMoof(f, videoBytes) == Some(buf.data)
  {
    hide MoofAv, PatchHits;
    WriteUnpatchedMoof(buf, f);
    EmptyConcat(MoofAv(f, 0, 0));
    ScanStaysInside(f, videoBytes);
    FillOffsets(buf, 0, videoBytes);
  }

  method WriteMdat(buf: Buffer, nalus: seq<seq<Byte>>, frames: seq<AacFrame>)
    modifies buf
    ensures buf.data == old(buf.data) + Mdat(Concat(nalus) + Concat(FrameData(frames)))
  {
    ghost var before := buf.data;
    var pos := buf.BeginBox(MDAT);
    PutAll(buf, nalus);
    GrowBox(before, MDAT, [], Concat(nalus));
    assert [] + Concat(nalus) == Concat(nalus);
    PutAll(buf, FrameData(frames));
    GrowBox(before, MDAT, Concat(nalus), Concat(FrameData(frames)));
    buf.EndBox(pos, before, MDAT, Concat(nalus) + Concat(FrameData(frames)));
  }

  method PutAll(buf: Buffer, parts: seq<seq<Byte>>)
    modifies buf
    ensures buf.data == old(buf.data) + Concat(parts)
  {
    assert parts[..0] == [];
    for i := 0 to |parts|
      invariant buf.data == old(buf.data) + Concat(parts[..i])
    {
      buf.PutSlice(parts[i]);
      ConcatSnoc(parts[..i], parts[i]);
      assert parts[..i + 1] == parts[..i] + [parts[i]];
      ConcatAssoc(old(buf.data), Concat(parts[..i]), parts[i]);
    }
    assert parts[..|parts|] == parts;
  }

  method TotalBytes(parts: seq<seq<Byte>>) returns (n: nat)
    ensures n == |Concat(parts)|
  {
    n := 0;
    assert parts[..0] == [];
    for i := 0 to |parts|
      invariant n == |Concat(parts[..i])|
    {
      n := n + |parts[i]|;
      ConcatSnoc(parts[..i], parts[i]);
      assert parts[..i + 1] == parts[..i] + [parts[i]];
    }
    assert parts[..|parts|] == parts;
  }

  method BuildMediaSegmentAv(sequence: U32, videoTime: U64, nalus: seq<seq<Byte>>, durations: seq<U32>,
                             audioTime: U64, frames: seq<AacFrame>) returns (r: seq<Byte>)
    ensures r == SegmentAv(FragmentOf(sequence, videoTime, nalus, durations, audioTime, frames), nalus, frames)
  {
    var buf := new Buffer();
    var f := FragmentOf(sequence, videoTime, nalus, durations, audioTime, frames);
    var videoBytes := TotalBytes(nalus);
    WriteMoofAv(buf, f, videoBytes);
    WriteMdat(buf, nalus, frames);
    r := buf.data;
  }

  method BuildMediaSegment(sequence: U32, time: U64, nalus: seq<seq<Byte>>, durations: seq<U32>) returns (r: seq<Byte>)
    ensures r == SegmentVideo(sequence, time, nalus, durations)
  {
    var buf := new Buffer();
    ghost var samples := VideoSamples(nalus, durations);
    var pos := buf.BeginBox(MOOF);
    WriteMfhd(buf, sequence);
    GrowBox([], MOOF, [], Mfhd(sequence));
    assert [] + Mfhd(sequence) == Mfhd(sequence);
    WriteTraf(buf, true, time, VideoSamples(nalus, durations));
    GrowBox([], MOOF, Mfhd(sequence), Traf(true, time, samples, 0));
    buf.EndBox(pos, [], MOOF, Mfhd(sequence) + Traf(true, time, samples, 0));
    assert [] + MoofVideo(sequence, time, samples) == MoofVideo(sequence, time, samples);
    WriteMdat(buf, nalus, []);
    assert FrameData([]) == [] && Concat(nalus) + [] == Concat(nalus);
    r := buf.data;
  }
}
