/** What is in the bytes of the parts that the packager hands out. */
module LlHlsBytes {
  import opened Bytes
  import opened Options
  import opened Fmp4
  import opened MediaSegment
  import opened SegmentReader
  import TrunScan
  import opened LlHls
  import opened LlHlsRuns

  /** The parts are small enough for 32-bit box sizes. */
  predicate Small(f: Flush)
  {
    && |f.nalus| + |f.frames| < 0x800_0000
    && 164 + 8 * (|f.nalus| + |f.frames|) + |Concat(f.nalus)| + |Concat(FrameData(f.frames))| < 0x8000_0000
  }

  /** The numbers of part `f` as a fragment of an audio/video segment. */
  function FragmentOfPart(f: Flush): Fragment
  {
    FragmentOf(SequenceNumber(f), f.videoTime % TWO64, f.nalus, f.durations, f.audioTime % TWO64, f.frames)
  }

  /** In every run the bytes of a part without audio, read as a media segment whose samples begin with the
  mdat, are its number, the time that all earlier parts lasted, and its NALUs with their durations. */
  lemma {:induction false} VideoPartReads(p: Params, events: seq<Event>, k: nat)
    requires k < |Run(p, events).parts| && Run(p, events).parts[k].frames == [] && Small(Run(p, events).parts[k])
    ensures var fl := Run(p, events).parts;
            ReadSegment(FlushBytes(fl[k]), false)
            == Some(Segment((fl[k].msn * 1000 + fl[k].index + 1) % 0x1_0000_0000,
                            [Track(1, VideoTime(fl[..k]) % 0x1_0000_0000_0000_0000,
                                   TrackRun(Some(0x0200_0000), SentVideo(fl[k].nalus, fl[k].durations)))]))
  {
    hide Run, SegmentVideo, ReadSegment, VideoTime, AudioTime, Concat;
    var f := Run(p, events).parts[k];
    DecodeTimes(p, events, k);
    VideoSegmentRoundTrip(SequenceNumber(f), f.videoTime % TWO64, f.nalus, f.durations);
  }

  /** With audio, following the data offsets, both tracks, unless the numbers spell `trun`. */
  lemma {:induction false} AvPartReads(p: Params, events: seq<Event>, k: nat)
    requires k < |Run(p, events).parts| && Run(p, events).parts[k].frames != [] && Small(Run(p, events).parts[k])
    requires TrunScan.Unspelled(FragmentOfPart(Run(p, events).parts[k]))
    ensures var fl := Run(p, events).parts;
            ReadSegment(FlushBytes(fl[k]), true)
            == Some(Segment((fl[k].msn * 1000 + fl[k].index + 1) % 0x1_0000_0000,
                            [Track(1, VideoTime(fl[..k]) % 0x1_0000_0000_0000_0000,
                                   TrackRun(Some(0x0200_0000), SentVideo(fl[k].nalus, fl[k].durations))),
                             Track(2, AudioTime(fl[..k]) % 0x1_0000_0000_0000_0000, TrackRun(None, SentAudio(fl[k].frames)))]))
  {
    hide Run, SegmentAv, ReadSegment, VideoTime, AudioTime, Concat, TrunScan.Unspelled;
    var f := Run(p, events).parts[k];
    DecodeTimes(p, events, k);
    SegmentRoundTrip(SequenceNumber(f), f.videoTime % TWO64, f.nalus, f.durations, f.audioTime % TWO64, f.frames);
  }
}
