/** FLV tags (yunmao-ingest `flv.rs`): what a tag is, and its bytes in an FLV stream, with the reader
written from the Adobe Flash Video File Format Specification (version 10.1, annex E). */
module Flv {
  import opened Bytes
  import opened Division
  import opened Options
  import opened Seqs

  datatype TagKind = Audio | Video | ScriptData

  datatype FlvTag = FlvTag(kind: TagKind, timestamp: U32, data: seq<Byte>)

  // ---------- what a tag is ----------

  predicate IsVideoKeyframe(t: FlvTag) { t.kind.Video? && t.data != [] && t.data[0] / 16 == 1 }

  predicate IsAvcSequenceHeader(t: FlvTag) { t.kind.Video? && |t.data| >= 2 && t.data[0] == 0x17 && t.data[1] == 0 }

  predicate IsAacSequenceHeader(t: FlvTag) { t.kind.Audio? && |t.data| >= 2 && t.data[0] / 16 == 10 && t.data[1] == 0 }

  predicate IsAacRaw(t: FlvTag) { t.kind.Audio? && |t.data| >= 2 && t.data[0] / 16 == 10 && t.data[1] == 1 }

  /** An AVC sequence header also counts as a keyframe, and never as anything audible. */
  lemma {:induction false} SequenceHeaderIsKeyframe(t: FlvTag)
    ensures IsAvcSequenceHeader(t) ==> IsVideoKeyframe(t) && !IsAacSequenceHeader(t) && !IsAacRaw(t)
  {}

  /** The body of a video tag (E.4.3.1): frame type and codec in four bits each, for AVC then the packet type
  and the three bytes of the composition time, of which some may be cut off. */
  function VideoBody(frameType: nat, codec: nat, packetType: Byte, time: seq<Byte>, payload: seq<Byte>): seq<Byte>
    requires frameType < 16 && codec < 16 && |time| <= 3
  {
    [frameType * 16 + codec, packetType] + time + payload
  }

  /** The body of an audio tag (E.4.2.1): format, rate, size and type in four, two, one and one bits, for AAC
  then the packet type. */
  function AudioBody(format: nat, rate: nat, size: nat, channels: nat, packetType: Byte, payload: seq<Byte>): seq<Byte>
    requires format < 16 && rate < 4 && size < 2 && channels < 2
  {
    [format * 16 + rate * 4 + size * 2 + channels, packetType] + payload
  }

  /** Frame type 1 is a keyframe, codec 7 AVC, packet type 0 its sequence header. */
  lemma {:induction false} VideoTagKinds(ts: U32, frameType: nat, codec: nat, packetType: Byte, time: seq<Byte>, payload: seq<Byte>)
    requires frameType < 16 && codec < 16 && |time| <= 3
    ensures var t := FlvTag(Video, ts, VideoBody(frameType, codec, packetType, time, payload));
            && (IsVideoKeyframe(t) <==> frameType == 1)
            && (IsAvcSequenceHeader(t) <==> frameType == 1 && codec == 7 && packetType == 0)
            && !IsAacSequenceHeader(t) && !IsAacRaw(t)
  {
    DivUnique(frameType * 16 + codec, 16, frameType, codec);
  }

  /** Format 10 is AAC, packet type 0 its configuration, 1 a frame. */
  lemma {:induction false} AudioTagKinds(ts: U32, format: nat, rate: nat, size: nat, channels: nat, packetType: Byte, payload: seq<Byte>)
    requires format < 16 && rate < 4 && size < 2 && channels < 2
    ensures var t := FlvTag(Audio, ts, AudioBody(format, rate, size, channels, packetType, payload));
            && (IsAacSequenceHeader(t) <==> format == 10 && packetType == 0)
            && (IsAacRaw(t) <==> format == 10 && packetType == 1)
            && !IsVideoKeyframe(t) && !IsAvcSequenceHeader(t)
  {
    DivUnique(format * 16 + rate * 4 + size * 2 + channels, 16, format, rate * 4 + size * 2 + channels);
  }

  /** Other tags are nothing of the kind; of a video tag's first byte alone the frame type can be told. */
  lemma {:induction false} OtherTags(t: FlvTag)
    requires t.kind.ScriptData? || |t.data| < 2
    ensures !IsAvcSequenceHeader(t) && !IsAacSequenceHeader(t) && !IsAacRaw(t)
    ensures IsVideoKeyframe(t) <==> t.kind.Video? && |t.data| == 1 && 16 <= t.data[0] < 32
  {}

  // ---------- bytes ----------

  function KindByte(k: TagKind): Byte
  {
    match k
    case Audio => 8
    case Video => 9
    case ScriptData => 18
  }

  /** `TagKind::from_u8` */
  function KindOf(b: Byte): Option<TagKind>
  {
    match b
    case 8 => Some(Audio)
    case 9 => Some(Video)
    case 18 => Some(ScriptData)
    case _ => None
  }

  /** The three low bytes of a number. */
  function Low24(n: nat): (r: seq<Byte>)
    ensures |r| == 3
  {
    [n / 0x1_0000 % 0x100, n / 0x100 % 0x100, n % 0x100]
  }

  function ReadLow24(s: seq<Byte>, i: nat): (n: nat)
    requires i + 3 <= |s|
    ensures n < 0x100_0000
  {
    s[i] as int * 0x1_0000 + s[i + 1] as int * 0x100 + s[i + 2] as int
  }

  function Header(t: FlvTag): (r: seq<Byte>)
    ensures |r| == 11
  {
    [KindByte(t.kind)] + Low24(|t.data|) + Low24(t.timestamp) + [t.timestamp / 0x100_0000] + [0, 0, 0]
  }

  /** `FlvTag::encode` */
  function Encode(t: FlvTag): seq<Byte>
  {
    Header(t) + t.data + Be32((11 + |t.data|) % TWO32)
  }

  method EncodeTag(t: FlvTag) returns (buf: seq<Byte>)
    ensures buf == Encode(t)
  {
    var n, ts := |t.data|, t.timestamp;
    buf := [KindByte(t.kind)];
    buf := buf + [n / 0x1_0000 % 0x100];
    buf := buf + [n / 0x100 % 0x100];
    buf := buf + [n % 0x100];
    buf := buf + [ts / 0x1_0000 % 0x100];
    buf := buf + [ts / 0x100 % 0x100];
    buf := buf + [ts % 0x100];
    buf := buf + [ts / 0x100_0000]; // the extension byte
    buf := buf + [0, 0, 0];
    assert buf == Header(t);
    buf := buf + t.data;
    buf := buf + Be32((11 + n) % TWO32);
  }

  /** Table E.4.1: the tag types. */
  function TypeOf(b: Byte): Option<TagKind>
  {
    if b == 8 then Some(Audio) else if b == 9 then Some(Video) else if b == 18 then Some(ScriptData) else None
  }

  lemma {:induction false} KindsAreTypes(b: Byte, k: TagKind)
    ensures KindOf(b) == TypeOf(b) && (KindByte(k) == b <==> TypeOf(b) == Some(k))
  {}

  /** The tag at position `i`, if a whole one stands there whose trailing size agrees. */
  function ReadTag(s: seq<Byte>, i: nat): Option<FlvTag>
  {
    if |s| < i + 11 then None
    else
      var kind :- TypeOf(s[i]);
      var size := ReadLow24(s, i + 1);
      if |s| < i + 11 + size + 4 || ReadBe32(s, i + 11 + size) != 11 + size || s[i + 8..i + 11] != [0, 0, 0] then None
      else Some(FlvTag(kind, ReadLow24(s, i + 4) + s[i + 7] as int * 0x100_0000, s[i + 11..i + 11 + size]))
  }

  function ReadTags(s: seq<Byte>, i: nat): Option<seq<FlvTag>>
    requires i <= |s|
    decreases |s| - i
  {
    if i == |s| then Some([])
    else
      var t :- ReadTag(s, i);
      var rest :- ReadTags(s, i + 11 + |t.data| + 4);
      Some([t] + rest)
  }

  function EncodeAll(ts: seq<FlvTag>): seq<Byte>
  {
    if ts == [] then [] else Encode(ts[0]) + EncodeAll(ts[1..])
  }

  lemma {:induction false} Low24Read(s: seq<Byte>, i: nat, n: nat)
    requires i + 3 <= |s| && s[i..i + 3] == Low24(n)
    ensures ReadLow24(s, i) == n % 0x100_0000
  {
    var r := s[i..i + 3];
    assert r[0] == s[i] && r[1] == s[i + 1] && r[2] == s[i + 2];
    ThreeBytes(n);
  }

  lemma {:induction false} ThreeBytes(n: nat)
    ensures n / 0x1_0000 % 0x100 * 0x1_0000 + n / 0x100 % 0x100 * 0x100 + n % 0x100 == n % 0x100_0000
  {
    var a := n / 0x100;
    var b := a / 0x100;
    DivUnique(n, 0x1_0000, b, a % 0x100 * 0x100 + n % 0x100);
    DivUnique(n, 0x100_0000, b / 0x100, b % 0x100 * 0x1_0000 + a % 0x100 * 0x100 + n % 0x100);
  }

  lemma {:induction false} HeaderSlices(s: seq<Byte>, i: nat, t: FlvTag)
    requires i + 11 <= |s| && s[i..i + 11] == Header(t)
    ensures s[i] == KindByte(t.kind) && s[i + 1..i + 4] == Low24(|t.data|) && s[i + 4..i + 7] == Low24(t.timestamp)
    ensures s[i + 7] == t.timestamp / 0x100_0000 && s[i + 8..i + 11] == [0, 0, 0]
  {
    hide Low24;
    var k, size, ts, ext := [KindByte(t.kind)], Low24(|t.data|), Low24(t.timestamp), [t.timestamp / 0x100_0000];
    SplitSlice(s, i, i + 11, k + size + ts + ext, [0, 0, 0]);
    SplitSlice(s, i, i + 8, k + size + ts, ext);
    SplitSlice(s, i, i + 7, k + size, ts);
    SplitSlice(s, i, i + 4, k, size);
    assert s[i..i + 1][0] == s[i] && s[i + 7..i + 8][0] == s[i + 7];
  }

  lemma {:induction false} TimestampJoins(ts: U32)
    ensures ts % 0x100_0000 + ts / 0x100_0000 * 0x100_0000 == ts
  {}

  /** A tag of less than 16 MiB is read back from wherever it stands in a stream. */
  lemma {:induction false} TagIsRead(s: seq<Byte>, i: nat, t: FlvTag)
    requires i + |Encode(t)| <= |s| && s[i..i + |Encode(t)|] == Encode(t) && |t.data| < 0x100_0000
    ensures ReadTag(s, i) == Some(t) && |Encode(t)| == 11 + |t.data| + 4
  {
    hide Header, Be32, ReadLow24, ReadBe32, Low24;
    var n := |t.data|;
    assert (11 + n) % TWO32 == 11 + n;
    SplitSlice(s, i, i + |Encode(t)|, Header(t) + t.data, Be32(11 + n));
    SplitSlice(s, i, i + 11 + n, Header(t), t.data);
    HeaderSlices(s, i, t);
    Low24Read(s, i + 1, n);
    Low24Read(s, i + 4, t.timestamp);
    TimestampJoins(t.timestamp);
    Be32At(s, i + 11 + n, 11 + n);
  }

  /** `encode` is inverted by reading exactly for tags of less than 16 MiB: the size field has 24 bits. */
  lemma {:induction false} TagRoundTrip(t: FlvTag)
    ensures ReadTag(Encode(t), 0) == Some(t) <==> |t.data| < 0x100_0000
  {
    hide Encode;
    var s := Encode(t);
    assert s[0..|s|] == s;
    if |t.data| < 0x100_0000 {
      TagIsRead(s, 0, t);
    }
  }

  /** A stream of such tags is read back tag by tag. */
  lemma {:induction false} StreamRoundTrip(s: seq<Byte>, i: nat, ts: seq<FlvTag>)
    requires i <= |s| && s[i..] == EncodeAll(ts) && forall k :: 0 <= k < |ts| ==> |ts[k].data| < 0x100_0000
    ensures ReadTags(s, i) == Some(ts)
    decreases |ts|
  {
    if ts == [] {
    } else {
      var t, more := ts[0], EncodeAll(ts[1..]);
      hide Encode, ReadTag, ReadTags, EncodeAll;
      assert s[i..|s|] == s[i..];
      SplitSlice(s, i, |s|, Encode(t), more);
      TagIsRead(s, i, t);
      var j := i + |Encode(t)|;
      assert s[j..|s|] == s[j..];
      StreamRoundTrip(s, j, ts[1..]);
      OneMoreTag(s, i, t, ts[1..]);
      HeadTail(ts);
    }
  }

  lemma {:induction false} OneMoreTag(s: seq<Byte>, i: nat, t: FlvTag, rest: seq<FlvTag>)
    requires i + 15 + |t.data| <= |s| && ReadTag(s, i) == Some(t) && ReadTags(s, i + 15 + |t.data|) == Some(rest)
    ensures ReadTags(s, i) == Some([t] + rest)
  {
    hide ReadTag;
  }
}
