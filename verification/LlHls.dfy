/** The low-latency HLS packager of yunmao-media-edge `ll_hls.rs`: NALUs and AAC frames are
collected into parts, parts into segments, and the last few segments are kept for playback. */
module LlHls {
  import opened Bytes
  import opened Division
  import opened Options
  import opened Fmp4
  import opened MediaSegment
  import opened Seqs

  // ---------- data ----------

  /** `LlHlsParams`, durations in milliseconds as the code casts them to `u32`. */
  datatype Params = Params(target: U32, partTarget: U32, window: nat)

  datatype Part = Part(bytes: seq<Byte>, duration: U32, independent: bool, audioSamples: U32)

  datatype SegmentEntry = SegmentEntry(msn: nat, bytes: seq<Byte>, duration: U32, parts: seq<Part>)

  /** What one room accumulates. `configured` says that the init segment exists. */
  datatype Room = Room(
    configured: bool,
    sampleRate: Option<U32>,
    segments: seq<SegmentEntry>,
    currentMsn: nat,
    currentParts: seq<Part>,
    nextDecode: nat,
    nextAudio: nat,
    pendingNalus: seq<seq<Byte>>,
    pendingDurations: seq<U32>,
    pendingAudio: seq<AacFrame>,
    lastTs: U32)

  const EMPTY_ROOM := Room(false, None, [], 0, [], 0, 0, [], [], [], 0)

  datatype Event =
    | VideoConfig
    | AudioConfig(rate: U32)
    | Video(ts: U32, nalu: seq<Byte>, key: bool)
    | Audio(frame: AacFrame)

  /** Everything that goes into a part; `msn` and `index` are its name. */
  datatype Flush = Flush(msn: nat, index: nat, videoTime: nat, nalus: seq<seq<Byte>>, durations: seq<U32>,
                         audioTime: nat, frames: seq<AacFrame>, independent: bool)

  /** A step's new state and the part it produced, if any. */
  datatype Outcome = Outcome(room: Room, parts: seq<Flush>)

  // ---------- arithmetic of durations ----------

  function Sum(s: seq<U32>): nat
  {
    if s == [] then 0 else Sum(s[..|s| - 1]) + s[|s| - 1]
  }

  /** `iter().sum::<u32>()` of a release build wraps around. */
  function SumU32(s: seq<U32>): U32 { Sum(s) % TWO32 }

  lemma {:induction false} SumSnoc(s: seq<U32>, v: U32)
    ensures Sum(s + [v]) == Sum(s) + v
  {
    assert (s + [v])[..|s|] == s;
  }

  lemma {:induction false} SumConcat(s: seq<U32>, t: seq<U32>)
    ensures Sum(s + t) == Sum(s) + Sum(t)
  {
    if t == [] {
      EmptyConcat(s);
    } else {
      var u, v := t[..|t| - 1], t[|t| - 1];
      SumConcat(s, u);
      assert t == u + [v];
      ConcatAssoc(s, u, [v]);
      SumSnoc(s + u, v);
    }
  }

  function PartDurations(parts: seq<Part>): (r: seq<U32>)
    ensures |r| == |parts|
  {
    seq(|parts|, (i: int) requires 0 <= i < |parts| => parts[i].duration)
  }

  function SampleCounts(frames: seq<AacFrame>): (r: seq<U32>)
    ensures |r| == |frames|
  {
    seq(|frames|, (i: int) requires 0 <= i < |frames| => frames[i].samples)
  }

  function FrameMillis(frames: seq<AacFrame>, rate: U32): (r: seq<U32>)
    requires rate > 0
    ensures |r| == |frames|
  {
    seq(|frames|, (i: int) requires 0 <= i < |frames| => frames[i].samples * 1000 / rate % TWO32)
  }

  function PartBytesOf(parts: seq<Part>): (r: seq<seq<Byte>>)
    ensures |r| == |parts|
  {
    seq(|parts|, (i: int) requires 0 <= i < |parts| => parts[i].bytes)
  }

  // ---------- the steps as functions ----------

  const TWO64: int := 0x1_0000_0000_0000_0000

  /** The number of a part before it is cut to 32 bits. */
  function Number(msn: nat, index: nat): nat { msn * 1000 + index + 1 }

  /** The sequence number in the mfhd of a part. */
  function SequenceNumber(f: Flush): U32 { Number(f.msn, f.index) % TWO32 }

  /** The bytes of a part; without audio it has a video track only. */
  function FlushBytes(f: Flush): seq<Byte>
  {
    if f.frames == [] then SegmentVideo(SequenceNumber(f), f.videoTime % TWO64, f.nalus, f.durations)
    else SegmentAv(FragmentOf(SequenceNumber(f), f.videoTime % TWO64, f.nalus, f.durations, f.audioTime % TWO64, f.frames),
                   f.nalus, f.frames)
  }

  function PartOf(f: Flush): Part
  {
    Part(FlushBytes(f), SumU32(f.durations), f.independent, SumU32(SampleCounts(f.frames)))
  }

  function NextFlush(b: Room, independent: bool): Flush
  {
    Flush(b.currentMsn, |b.currentParts|, b.nextDecode, b.pendingNalus, b.pendingDurations,
          b.nextAudio, b.pendingAudio, independent)
  }

  function FlushedRoom(b: Room, part: Part): Room
  {
    b.(nextDecode := b.nextDecode + part.duration, nextAudio := b.nextAudio + part.audioSamples,
       currentParts := b.currentParts + [part], pendingNalus := [], pendingDurations := [], pendingAudio := [])
  }

  /** `flush_part` */
  function FlushPart(b: Room, independent: bool): Outcome
  {
    var f := NextFlush(b, independent);
    Outcome(FlushedRoom(b, PartOf(f)), [f])
  }

  function Evict(window: nat, segments: seq<SegmentEntry>): seq<SegmentEntry>
  {
    if |segments| > window then segments[1..] else segments
  }

  function CurrentSegment(b: Room): SegmentEntry
  {
    SegmentEntry(b.currentMsn, Concat(PartBytesOf(b.currentParts)), SumU32(PartDurations(b.currentParts)), b.currentParts)
  }

  /** `flush_segment` */
  function FlushSegment(p: Params, b: Room): Room
  {
    b.(segments := Evict(p.window, b.segments + [CurrentSegment(b)]), currentMsn := b.currentMsn + 1, currentParts := [])
  }

  /** A NALU lasts since the previous one, but at least 1 ms. */
  function FrameDuration(previous: U32, ts: U32): U32
  {
    Max(if previous <= ts then ts - previous else 0, 1)
  }

  function Accept(b: Room, ts: U32, nalu: seq<Byte>): Room
  {
    b.(lastTs := ts, pendingNalus := b.pendingNalus + [nalu],
       pendingDurations := b.pendingDurations + [FrameDuration(b.lastTs, ts)])
  }

  /** A part is closed when it is long enough, or by a keyframe that follows another part. */
  function ClosePart(p: Params, b: Room, key: bool): Outcome
  {
    if SumU32(b.pendingDurations) >= p.partTarget || (key && b.currentParts != []) then FlushPart(b, key)
    else Outcome(b, [])
  }

  /** `ingest_video_nalu` */
  function IngestVideo(p: Params, b: Room, ts: U32, nalu: seq<Byte>, key: bool): Outcome
  {
    if !b.configured then Outcome(b, [])
    else
      var closeSegment := key && b.currentParts != [];
      var o := ClosePart(p, Accept(b, ts, nalu), key);
      if closeSegment && SumU32(PartDurations(o.room.currentParts)) >= p.target
      then o.(room := FlushSegment(p, o.room))
      else o
  }

  /** `ingest_audio_frame`: audio that waits too long for video is dropped. */
  function IngestAudio(p: Params, b: Room, frame: AacFrame): Room
  {
    if !b.configured || b.sampleRate.None? then b
    else
      var audio := b.pendingAudio + [frame];
      var rate := Max(b.sampleRate.value, 1);
      if b.pendingNalus == [] && SumU32(FrameMillis(audio, rate)) >= p.partTarget * 4 % TWO32
      then b.(pendingAudio := [])
      else b.(pendingAudio := audio)
  }

  function Step(p: Params, b: Room, e: Event): Outcome
  {
    match e
    case VideoConfig => Outcome(b.(configured := true), [])
    case AudioConfig(rate) => Outcome(b.(sampleRate := Some(rate)), [])
    case Video(ts, nalu, key) => IngestVideo(p, b, ts, nalu, key)
    case Audio(frame) => Outcome(IngestAudio(p, b, frame), [])
  }

  // ---------- queries ----------

  /** The first segment of the window with this number. */
  function FindSegment(segments: seq<SegmentEntry>, msn: nat): Option<SegmentEntry>
  {
    if segments == [] then None
    else if segments[0].msn == msn then Some(segments[0])
    else FindSegment(segments[1..], msn)
  }

  function PartAt(parts: seq<Part>, part: nat): Option<seq<Byte>>
  {
    if part < |parts| then Some(parts[part].bytes) else None
  }

  /** `fetch_segment` */
  function FetchSegment(b: Room, msn: nat): Option<seq<Byte>>
  {
    var s :- FindSegment(b.segments, msn);
    Some(s.bytes)
  }

  /** `fetch_part` */
  function FetchPart(b: Room, msn: nat, part: nat): Option<seq<Byte>>
  {
    if msn == b.currentMsn then PartAt(b.currentParts, part)
    else
      var s :- FindSegment(b.segments, msn);
      PartAt(s.parts, part)
  }

  /** The condition `wait_for` waits for; a part count is cut to 32 bits. */
  predicate Have(b: Room, msn: nat, part: U32)
  {
    b.currentMsn > msn || (b.currentMsn == msn && |b.currentParts| % TWO32 > part)
  }

  /** A line of the media playlist that names something to fetch. */
  datatype Entry =
    | PartLine(msn: nat, part: nat, duration: U32, independent: bool)
    | SegmentLine(msn: nat, duration: U32)
    | PreloadHint(msn: nat, part: nat)

  datatype Playlist = Playlist(mediaSequence: nat, entries: seq<Entry>)

  function PartLines(msn: nat, parts: seq<Part>): (r: seq<Entry>)
    ensures |r| == |parts|
  {
    seq(|parts|, (i: int) requires 0 <= i < |parts| => PartLine(msn, i, parts[i].duration, parts[i].independent))
  }

  function SegmentLines(s: SegmentEntry): seq<Entry>
  {
    PartLines(s.msn, s.parts) + [SegmentLine(s.msn, s.duration)]
  }

  function WindowLines(segments: seq<SegmentEntry>): seq<Entry>
  {
    if segments == [] then []
    else WindowLines(segments[..|segments| - 1]) + SegmentLines(segments[|segments| - 1])
  }

  /** `render_manifest`, `None` before there is an init segment. */
  function Manifest(b: Room): Option<Playlist>
  {
    if !b.configured then None
    else Some(Playlist(if b.segments == [] then b.currentMsn else b.segments[0].msn,
                       WindowLines(b.segments) + PartLines(b.currentMsn, b.currentParts)
                       + [PreloadHint(b.currentMsn, |b.currentParts| % TWO32)]))
  }

  // ---------- the room, changed in place ----------

  method WrappingSum(s: seq<U32>) returns (n: U32)
    ensures n == SumU32(s)
  {
    n := 0;
    assert s[..0] == [];
    for i := 0 to |s|
      invariant n == SumU32(s[..i])
    {
      SumSnoc(s[..i], s[i]);
      assert s[..i + 1] == s[..i] + [s[i]];
      ModAdd(Sum(s[..i]), s[i], TWO32);
      n := (n + s[i]) % TWO32;
    }
    assert s[..|s|] == s;
  }

  /** The boxes of a part. */
  method BuildPart(f: Flush) returns (r: seq<Byte>)
    ensures r == FlushBytes(f)
  {
    hide SegmentVideo, SegmentAv, FragmentOf;
    var sequence := (f.msn * 1000 + f.index + 1) % TWO32;
    if f.frames == [] {
      r := BuildMediaSegment(sequence, f.videoTime % TWO64, f.nalus, f.durations);
    } else {
      r := BuildMediaSegmentAv(sequence, f.videoTime % TWO64, f.nalus, f.durations, f.audioTime % TWO64, f.frames);
    }
  }

  class RoomBuffer {
    const params: Params
    var configured: bool
    var sampleRate: Option<U32>
    var segments: seq<SegmentEntry>
    var currentMsn: nat
    var currentParts: seq<Part>
    var nextDecode: nat
    var nextAudio: nat
    var pendingNalus: seq<seq<Byte>>
    var pendingDurations: seq<U32>
    var pendingAudio: seq<AacFrame>
    var lastTs: U32

    function View(): Room
      reads this
    {
      Room(configured, sampleRate, segments, currentMsn, currentParts, nextDecode, nextAudio,
           pendingNalus, pendingDurations, pendingAudio, lastTs)
    }

    constructor (p: Params)
      ensures params == p && View() == EMPTY_ROOM
    {
      params := p;
      configured, sampleRate, segments, currentMsn, currentParts := false, None, [], 0, [];
      nextDecode, nextAudio, pendingNalus, pendingDurations, pendingAudio, lastTs := 0, 0, [], [], [], 0;
    }

    method IngestVideoConfig()
      modifies this
      ensures View() == Step(params, old(View()), VideoConfig).room
    {
      configured := true;
    }

    method IngestAudioConfig(rate: U32)
      modifies this
      ensures View() == Step(params, old(View()), AudioConfig(rate)).room
    {
      sampleRate := Some(rate);
    }

    method IngestVideoNalu(ts: U32, nalu: seq<Byte>, key: bool)
      modifies this
      ensures View() == Step(params, old(View()), Video(ts, nalu, key)).room
    {
      hide FlushPart, FlushSegment, SumU32, Sum;
      if !configured {
        return;
      }
      var duration := Max(if lastTs <= ts then ts - lastTs else 0, 1);
      lastTs := ts;
      pendingNalus := pendingNalus + [nalu];
      pendingDurations := pendingDurations + [duration];
      assert View() == Accept(old(View()), ts, nalu);

      var partDuration := WrappingSum(pendingDurations);
      var closePart := partDuration >= params.partTarget;
      var closeSegment := key && currentParts != [];
      if closePart || closeSegment {
        FlushOnePart(key);
      }
      var total := WrappingSum(PartDurations(currentParts));
      if closeSegment && total >= params.target {
        FlushOneSegment();
      }
    }

    method IngestAudioFrame(frame: AacFrame)
      modifies this
      ensures View() == Step(params, old(View()), Audio(frame)).room
    {
      if !configured || sampleRate.None? {
        return;
      }
      pendingAudio := pendingAudio + [frame];
      var rate := Max(sampleRate.value, 1);
      var millis := WrappingSum(FrameMillis(pendingAudio, rate));
      if pendingNalus == [] && millis >= params.partTarget * 4 % TWO32 {
        pendingAudio := [];
      }
    }

    method FlushOnePart(independent: bool)
      modifies this
      ensures View() == FlushPart(old(View()), independent).room
    {
      hide FlushBytes, Sum;
      var f := NextFlush(View(), independent);
      var duration := WrappingSum(pendingDurations);
      pendingAudio := [];
      var bytes := BuildPart(f);
      var samples := WrappingSum(SampleCounts(f.frames));
      nextDecode := nextDecode + duration;
      nextAudio := nextAudio + samples;
      currentParts := currentParts + [Part(bytes, duration, independent, samples)];
      pendingNalus, pendingDurations := [], [];
    }

    method FlushOneSegment()
      modifies this
      ensures View() == FlushSegment(params, old(View()))
    {
      var total := WrappingSum(PartDurations(currentParts));
      var bytes: seq<Byte> := [];
      ghost var all := PartBytesOf(currentParts);
      assert all[..0] == [];
      for i := 0 to |currentParts|
        invariant View() == old(View()) && bytes == Concat(all[..i])
      {
        bytes := bytes + currentParts[i].bytes;
        ConcatSnoc(all[..i], all[i]);
        assert all[..i + 1] == all[..i] + [all[i]];
      }
      assert all[..|currentParts|] == all;
      segments := segments + [SegmentEntry(currentMsn, bytes, total, currentParts)];
      if |segments| > params.window {
        segments := segments[1..];
      }
      currentMsn := currentMsn + 1;
      currentParts := [];
    }

    method FetchOneSegment(msn: nat) returns (r: Option<seq<Byte>>)
      ensures r == FetchSegment(View(), msn)
    {
      var s := Find(msn);
      r := if s.None? then None else Some(s.value.bytes);
    }

    method FetchOnePart(msn: nat, part: nat) returns (r: Option<seq<Byte>>)
      ensures r == FetchPart(View(), msn, part)
    {
      if msn == currentMsn {
        return PartAt(currentParts, part);
      }
      var s := Find(msn);
      r := if s.None? then None else PartAt(s.value.parts, part);
    }

    method Find(msn: nat) returns (r: Option<SegmentEntry>)
      ensures r == FindSegment(segments, msn)
    {
      assert segments[0..] == segments;
      for i := 0 to |segments|
        invariant FindSegment(segments, msn) == FindSegment(segments[i..], msn)
      {
        assert segments[i..][1..] == segments[i + 1..];
        if segments[i].msn == msn {
          return Some(segments[i]);
        }
      }
      r := None;
    }

    method RenderManifest() returns (r: Option<Playlist>)
      ensures r == Manifest(View())
    {
      if !configured {
        return None;
      }
      var first := if segments == [] then currentMsn else segments[0].msn;
      var lines: seq<Entry> := [];
      assert segments[..0] == [];
      for i := 0 to |segments|
        invariant lines == WindowLines(segments[..i])
      {
        lines := lines + (PartLines(segments[i].msn, segments[i].parts) + [SegmentLine(segments[i].msn, segments[i].duration)]);
        assert segments[..i + 1][..i] == segments[..i];
      }
      assert segments[..|segments|] == segments;
      if currentParts != [] {
        lines := lines + PartLines(currentMsn, currentParts);
      } else {
        EmptyConcat(lines);
        assert PartLines(currentMsn, currentParts) == [];
      }
      lines := lines + [PreloadHint(currentMsn, |currentParts| % TWO32)];
      r := Some(Playlist(first, lines));
    }
  }
}
