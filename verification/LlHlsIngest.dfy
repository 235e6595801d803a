/** Where FLV tags enter the packager (yunmao-media-edge `ll_hls.rs`): configuration, frames, or
nothing, and the errors of malformed configurations. */
module LlHlsIngest {
  import opened Bytes
  import opened Options
  import opened Flv
  import opened LlHls
  import AacConfig
  import AvcConfig
  import Fmp4

  /** What a tag means to the packager. */
  datatype Meaning = Ignored | Malformed | Means(e: Event)

  const AAC_SAMPLES: U32 := 1024

  /** The AVC configuration record overruns the tag. */
  predicate BadAvcHeader(data: seq<Byte>)
  {
    |data| < 12 || AvcConfig.SpsNalu(data[5..]).None?
  }

  function MeaningOf(t: FlvTag): Meaning
  {
    match t.kind
    case ScriptData => Ignored
    case Audio =>
      if IsAacSequenceHeader(t) then
        if |t.data| < 4 then Malformed else Means(AudioConfig(AacConfig.ConfigOf(t.data[2..]).sampleRate))
      else if IsAacRaw(t) && |t.data| > 2 then Means(Event.Audio(Fmp4.AacFrame(t.data[2..], AAC_SAMPLES)))
      else Ignored
    case Video =>
      if IsAvcSequenceHeader(t) then
        if BadAvcHeader(t.data) then Malformed else Means(VideoConfig)
      else if |t.data| < 5 then Ignored
      else Means(Event.Video(t.timestamp, t.data[5..], IsVideoKeyframe(t)))
  }

  /** `ingest_flv_tag`: `failed` when it returns an error. */
  method IngestFlvTag(b: RoomBuffer, t: FlvTag) returns (failed: bool)
    modifies b
    ensures failed == MeaningOf(t).Malformed?
    ensures match MeaningOf(t)
            case Means(e) => b.View() == Step(b.params, old(b.View()), e).room
            case _ => b.View() == old(b.View())
  {
    hide Step;
    failed := false;
    if t.kind.Audio? {
      if IsAacSequenceHeader(t) {
        var aac := AacConfig.FromFlvAacSeq(t.data);
        if aac.None? {
          return true;
        }
        b.IngestAudioConfig(aac.value.sampleRate);
      } else if IsAacRaw(t) {
        if |t.data| > 2 {
          b.IngestAudioFrame(Fmp4.AacFrame(t.data[2..], AAC_SAMPLES));
        }
      }
      return;
    }
    if !t.kind.Video? {
      return;
    }
    if IsAvcSequenceHeader(t) {
      var cfg := AvcConfig.FromFlvAvcSeq(t.data);
      if !cfg.Ok? {
        return true;
      }
      b.IngestVideoConfig();
      return;
    }
    if |t.data| < 5 {
      return;
    }
    b.IngestVideoNalu(t.timestamp, t.data[5..], IsVideoKeyframe(t));
  }

  // ---------- what tags mean ----------

  /** A video tag of the FLV format: an AVC sequence header configures the packager or is refused, and
  everything else is a frame, its payload behind the five bytes of the header, a keyframe if it says so. */
  lemma {:induction false} VideoTagMeans(ts: U32, frameType: nat, codec: nat, packetType: Byte, time: seq<Byte>, payload: seq<Byte>)
    requires frameType < 16 && codec < 16 && |time| == 3
    ensures var m := MeaningOf(FlvTag(TagKind.Video, ts, VideoBody(frameType, codec, packetType, time, payload)));
            if frameType == 1 && codec == 7 && packetType == 0 then m.Malformed? || m == Means(VideoConfig)
            else m == Means(Event.Video(ts, payload, frameType == 1))
  {
    VideoTagKinds(ts, frameType, codec, packetType, time, payload);
    assert VideoBody(frameType, codec, packetType, time, payload)[5..] == payload;
  }

  /** A sequence header is refused exactly when it is too short for a configuration record or the record's
  first SPS overruns it. */
  lemma {:induction false} AvcHeaderMeans(t: FlvTag)
    requires IsAvcSequenceHeader(t)
    ensures MeaningOf(t)
         == if |t.data| < 12 || (t.data[10] % 32 > 0 && (|t.data| < 13 || 13 + ReadBe16(t.data, 11) > |t.data|)) then Malformed
            else Means(VideoConfig)
  {
    if |t.data| >= 12 {
      AvcConfig.NaluInTag(t.data);
    }
  }

  /** An audio tag: an AAC configuration of at least two bytes gives the sample rate of table 1.18 of
  ISO/IEC 14496-3, a frame that is not empty is one of 1024 samples, other formats are ignored. */
  lemma {:induction false} AudioTagMeans(ts: U32, format: nat, rate: nat, size: nat, channels: nat, packetType: Byte, payload: seq<Byte>)
    requires format < 16 && rate < 4 && size < 2 && channels < 2
    ensures var m := MeaningOf(FlvTag(TagKind.Audio, ts, AudioBody(format, rate, size, channels, packetType, payload)));
            if format == 10 && packetType == 0 then (if |payload| < 2 then m.Malformed? else m.Means? && m.e.AudioConfig?)
            else if format == 10 && packetType == 1 && payload != [] then m == Means(Event.Audio(Fmp4.AacFrame(payload, 1024)))
            else m.Ignored?
  {
    AudioTagKinds(ts, format, rate, size, channels, packetType, payload);
    assert AudioBody(format, rate, size, channels, packetType, payload)[2..] == payload;
  }

  lemma {:induction false} AudioConfigMeans(ts: U32, b: Byte, objectType: Byte, index: Byte, channels: Byte, low: Byte, more: seq<Byte>)
    requires objectType < 32 && index < 16 && channels < 16 && low < 8 && b / 16 == 10
    ensures MeaningOf(FlvTag(TagKind.Audio, ts, [b, 0] + AacConfig.WrittenAsc(objectType, index, channels, low, more)))
         == Means(AudioConfig(if index < 13 then AacConfig.TableRate(index) else 44_100))
  {
    var asc := AacConfig.WrittenAsc(objectType, index, channels, low, more);
    AacConfig.AscRoundTrip(objectType, index, channels, low, more);
    assert ([b, 0] + asc)[2..] == asc;
  }

  /** Script data and video tags of less than five bytes mean nothing. */
  lemma {:induction false} NoMeaning(t: FlvTag)
    requires t.kind.ScriptData? || (t.kind.Video? && |t.data| < 5 && !(|t.data| >= 2 && t.data[0] == 0x17 && t.data[1] == 0))
    ensures MeaningOf(t).Ignored?
  {}
}
