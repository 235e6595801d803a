/** Reading the AVC decoder configuration of an FLV sequence header (yunmao-media-edge
`fmp4.rs`): emulation prevention (sections 7.3.1 and 7.4.1.1 of ITU-T H.264), then the SPS. */
module AvcConfig {
  import opened Bytes
  import opened Seqs
  import opened Options
  import opened BitReader
  import opened Sps
  import opened SpsWriter

  // ---------- emulation prevention ----------

  predicate StartsEscape(s: seq<Byte>)
  {
    |s| >= 3 && s[0] == 0 && s[1] == 0 && s[2] == 3
  }

  function Unescape(s: seq<Byte>): seq<Byte>
  {
    if s == [] then []
    else if StartsEscape(s) then [0, 0] + Unescape(s[3..])
    else [s[0]] + Unescape(s[1..])
  }

  method UnescapeEmulationBytes(input: seq<Byte>) returns (out: seq<Byte>)
    ensures out == Unescape(input)
  {
    out := [];
    var i := 0;
    assert input[0..] == input;
    while i < |input|
      invariant 0 <= i <= |input|
      invariant out + Unescape(input[i..]) == Unescape(input)
    {
      ghost var rest := input[i..];
      if i + 2 < |input| && input[i] == 0 && input[i + 1] == 0 && input[i + 2] == 3 {
        assert StartsEscape(rest) && rest[3..] == input[i + 3..];
        assert out + ([0, 0] + Unescape(input[i + 3..])) == out + [0] + [0] + Unescape(input[i + 3..]);
        out := out + [0];
        out := out + [0];
        i := i + 3;
      } else {
        assert !StartsEscape(rest) && rest[0] == input[i] && rest[1..] == input[i + 1..];
        assert out + ([input[i]] + Unescape(input[i + 1..])) == out + [input[i]] + Unescape(input[i + 1..]);
        out := out + [input[i]];
        i := i + 1;
      }
    }
  }

  /** The insertion of emulation_prevention_three_byte; `zeros` counts the zero bytes just
  written and `tail` is appended at the end. */
  function Escape(x: seq<Byte>, zeros: nat, tail: seq<Byte>): seq<Byte>
  {
    if x == [] then tail
    else if zeros >= 2 && x[0] <= 3 then [3, x[0]] + Escape(x[1..], if x[0] == 0 then 1 else 0, tail)
    else [x[0]] + Escape(x[1..], if x[0] == 0 then zeros + 1 else 0, tail)
  }

  /** The zero count with which `Escape` ends. */
  function ZerosAfter(x: seq<Byte>, zeros: nat): nat
  {
    if x == [] then zeros
    else if zeros >= 2 && x[0] <= 3 then ZerosAfter(x[1..], if x[0] == 0 then 1 else 0)
    else ZerosAfter(x[1..], if x[0] == 0 then zeros + 1 else 0)
  }

  /** The 0x03 that section 7.4.1.1 puts after an RBSP ending in a zero byte. */
  function FinalByte(x: seq<Byte>): seq<Byte>
  {
    if x != [] && x[|x| - 1] == 0 then [3] else []
  }

  /** The bytes of a NAL unit after its header. */
  function EscapeNal(x: seq<Byte>): seq<Byte>
  {
    Escape(x, 0, FinalByte(x))
  }

  function Pending(zeros: nat): seq<Byte>
  {
    if zeros == 0 then [] else if zeros == 1 then [0] else [0, 0]
  }

  /** What is left of the tail once the escape sequences are removed. */
  function Rest(x: seq<Byte>, zeros: nat, tail: seq<Byte>): seq<Byte>
  {
    x + (if ZerosAfter(x, zeros) == 2 then [] else tail)
  }

  lemma {:induction false} UnescapeTriple(s: seq<Byte>)
    ensures Unescape([0, 0, 3] + s) == [0, 0] + Unescape(s)
  {
    assert ([0, 0, 3] + s)[3..] == s;
  }

  lemma {:induction false} UnescapeOther(b: Byte, s: seq<Byte>)
    requires b != 0
    ensures Unescape([b] + s) == [b] + Unescape(s)
  {
    assert ([b] + s)[1..] == s;
  }

  /** A zero byte that cannot start an escape sequence passes through. */
  lemma {:induction false} UnescapeZero(s: seq<Byte>)
    requires |s| < 2 || s[0] != 0 || s[1] != 3
    ensures Unescape([0] + s) == [0] + Unescape(s)
  {
    assert ([0] + s)[1..] == s;
  }

  lemma {:induction false} UnescapePending(zeros: nat, s: seq<Byte>)
    requires zeros <= 2 && (s == [] || (s[0] != 0 && (zeros < 2 || s[0] != 3)))
    ensures Unescape(Pending(zeros) + s) == Pending(zeros) + Unescape(s)
  {
    if zeros == 0 {
      assert Pending(0) + s == s;
    } else if zeros == 1 {
      UnescapeZero(s);
    } else {
      UnescapeZero(s);
      UnescapeZero([0] + s);
      assert [0, 0] + s == [0] + ([0] + s);
      assert [0, 0] + Unescape(s) == [0] + ([0] + Unescape(s));
    }
  }

  lemma {:induction false} UnescapeAtEnd(zeros: nat, tail: seq<Byte>)
    requires zeros <= 2 && (tail == [] || tail == [3])
    ensures Unescape(Pending(zeros) + tail) == Pending(zeros) + Rest([], zeros, tail)
  {
    if zeros == 2 && tail == [3] {
      UnescapeTriple([]);
      assert [0, 0] + [3] == [0, 0, 3] + [];
    } else {
      UnescapePending(zeros, tail);
    }
  }

  /** Unescaping what follows `zeros` pending zero bytes. */
  lemma {:induction false} UnescapeEscape(x: seq<Byte>, zeros: nat, tail: seq<Byte>)
    requires zeros <= 2 && (tail == [] || tail == [3])
    ensures Unescape(Pending(zeros) + Escape(x, zeros, tail)) == Pending(zeros) + Rest(x, zeros, tail)
    ensures ZerosAfter(x, zeros) <= 2
    decreases |x|
  {
    if x == [] {
      UnescapeAtEnd(zeros, tail);
    } else {
      var b, more := x[0], x[1..];
      var z := if b != 0 then 0 else if zeros == 2 then 1 else zeros + 1;
      UnescapeEscape(more, z, tail);
      RestCons(x, zeros, z, tail);
      if zeros == 2 && b <= 3 {
        EscapedStep(b, z, Escape(more, z, tail), Rest(more, z, tail));
      } else if b == 0 {
        ZeroStep(zeros, Escape(more, z, tail), Rest(more, z, tail));
      } else {
        OtherStep(zeros, b, Escape(more, z, tail), Rest(more, z, tail));
      }
    }
  }

  lemma {:induction false} RestCons(x: seq<Byte>, zeros: nat, z: nat, tail: seq<Byte>)
    requires x != [] && zeros <= 2 && z == if x[0] != 0 then 0 else if zeros == 2 then 1 else zeros + 1
    ensures Rest(x, zeros, tail) == [x[0]] + Rest(x[1..], z, tail)
    ensures ZerosAfter(x, zeros) == ZerosAfter(x[1..], z)
  {
    assert x == [x[0]] + x[1..];
  }

  lemma {:induction false} EscapedStep(b: Byte, z: nat, e: seq<Byte>, r: seq<Byte>)
    requires z == (if b == 0 then 1 else 0) && Unescape(Pending(z) + e) == Pending(z) + r
    ensures Unescape([0, 0] + ([3, b] + e)) == [0, 0] + ([b] + r)
  {
    assert [0, 0] + ([3, b] + e) == [0, 0, 3] + ([b] + e);
    UnescapeTriple([b] + e);
    if b != 0 {
      assert Pending(0) + e == e && Pending(0) + r == r;
      UnescapeOther(b, e);
    }
  }

  lemma {:induction false} ZeroStep(zeros: nat, e: seq<Byte>, r: seq<Byte>)
    requires zeros < 2 && Unescape(Pending(zeros + 1) + e) == Pending(zeros + 1) + r
    ensures Unescape(Pending(zeros) + ([0] + e)) == Pending(zeros) + ([0] + r)
  {
    hide Unescape;
    OneMoreZero(zeros, e);
    OneMoreZero(zeros, r);
  }

  lemma {:induction false} OneMoreZero(zeros: nat, s: seq<Byte>)
    requires zeros < 2
    ensures Pending(zeros) + ([0] + s) == Pending(zeros + 1) + s
  {}

  lemma {:induction false} OtherStep(zeros: nat, b: Byte, e: seq<Byte>, r: seq<Byte>)
    requires zeros <= 2 && b != 0 && (zeros == 2 ==> b > 3) && Unescape(Pending(0) + e) == Pending(0) + r
    ensures Unescape(Pending(zeros) + ([b] + e)) == Pending(zeros) + ([b] + r)
  {
    assert Pending(0) + e == e && Pending(0) + r == r;
    UnescapeOther(b, e);
    UnescapePending(zeros, [b] + e);
  }

  /** Removal inverts insertion for every byte string. */
  lemma {:induction false} UnescapeInverts(x: seq<Byte>)
    ensures Unescape(Escape(x, 0, [])) == x
  {
    UnescapeEscape(x, 0, []);
    assert Pending(0) + Escape(x, 0, []) == Escape(x, 0, []) && Pending(0) + Rest(x, 0, []) == x;
  }

  /** The zero bytes at the end. */
  function TrailingZeros(x: seq<Byte>): nat
  {
    if x == [] || x[|x| - 1] != 0 then 0 else 1 + TrailingZeros(x[..|x| - 1])
  }

  lemma {:induction false} ZerosSnoc(x: seq<Byte>, zeros: nat)
    requires x != [] && zeros <= 2
    ensures var before, b := ZerosAfter(x[..|x| - 1], zeros), x[|x| - 1];
            before <= 2 && ZerosAfter(x, zeros) == if b != 0 then 0 else if before == 2 then 1 else before + 1
    decreases |x|
  {
    if |x| > 1 {
      ZerosSnoc(x[1..], if x[0] != 0 then 0 else if zeros == 2 then 1 else zeros + 1);
      assert x[1..][..|x[1..]| - 1] == x[..|x| - 1][1..] && x[..|x| - 1][0] == x[0];
    }
  }

  /** The escaper counts zero bytes in pairs. */
  lemma {:induction false} ZerosInPairs(x: seq<Byte>)
    ensures ZerosAfter(x, 0) == if TrailingZeros(x) == 0 then 0 else if TrailingZeros(x) % 2 == 1 then 1 else 2
  {
    if x != [] {
      hide ZerosAfter;
      ZerosInPairs(x[..|x| - 1]);
      ZerosSnoc(x, 0);
    }
  }

  /** Whole NAL units: the source does not drop a final 0x03 that follows a single zero byte, so
  an RBSP comes back exactly when it ends in an even number of zero bytes (a valid RBSP always
  does: cabac_zero_words are two bytes long). */
  lemma {:induction false} UnescapeNalInverts(x: seq<Byte>)
    ensures Unescape(EscapeNal(x)) == x <==> TrailingZeros(x) % 2 == 0
  {
    UnescapeEscape(x, 0, FinalByte(x));
    assert Pending(0) + EscapeNal(x) == EscapeNal(x) && Pending(0) + Rest(x, 0, FinalByte(x)) == Rest(x, 0, FinalByte(x));
    ZerosInPairs(x);
    assert |x + [3]| == |x| + 1;
  }

  // ---------- bits in bytes ----------

  function FromBits(b: BitString): (v: nat)
    ensures v < Pow2(|b|)
  {
    if b == [] then 0 else 2 * FromBits(b[..|b| - 1]) + BitValue(b[|b| - 1])
  }

  function PackByte(b: BitString): Byte
    requires |b| == 8
  {
    assert Pow2(8) == 0x100;
    FromBits(b)
  }

  /** Bits as bytes, the last byte filled up with zero bits. */
  function Pack(bits: BitString): seq<Byte>
    decreases |bits|
  {
    if bits == [] then []
    else if |bits| < 8 then [PackByte(bits + Zeros(8 - |bits|))]
    else [PackByte(bits[..8])] + Pack(bits[8..])
  }

  lemma {:induction false} HoldsShifted(b: Byte, d: seq<Byte>, pos: nat, bits: BitString)
    requires Holds(d, pos, bits)
    ensures Holds([b] + d, pos + 8, bits)
    decreases |bits|
  {
    if bits != [] {
      assert (pos + 8) / 8 == pos / 8 + 1 && (pos + 8) % 8 == pos % 8;
      HoldsShifted(b, d, pos + 1, bits[1..]);
    }
  }

  lemma {:induction false} BitOfValue(b: BitString, j: nat)
    requires j < |b|
    ensures ByteBit(FromBits(b), j) == BitValue(b[|b| - 1 - j])
  {
    var init := b[..|b| - 1];
    assert FromBits(b) / 2 == FromBits(init) && FromBits(b) % 2 == BitValue(b[|b| - 1]);
    if j > 0 {
      BitOfValue(init, j - 1);
    }
  }

  lemma {:induction false} ByteHolds(b: BitString, d: seq<Byte>, k: nat)
    requires |b| == 8 && k <= 8
    ensures Holds([PackByte(b)] + d, k, b[k..])
    decreases 8 - k
  {
    if k < 8 {
      BitOfValue(b, 7 - k);
      ByteHolds(b, d, k + 1);
      assert b[k..][1..] == b[k + 1..];
      assert ([PackByte(b)] + d)[0] == PackByte(b);
    }
  }

  /** Packed bits are in the bytes, so every SPS has a byte form. */
  lemma {:induction false} PackHolds(bits: BitString)
    ensures Holds(Pack(bits), 0, bits)
    decreases |bits|
  {
    if bits == [] {
    } else if |bits| < 8 {
      var padding := Zeros(8 - |bits|);
      var b := bits + padding;
      ByteHolds(b, [], 0);
      assert [PackByte(b)] + [] == Pack(bits) && b[0..] == b;
      HoldsConcat(Pack(bits), 0, bits, padding);
    } else {
      var head, tail := bits[..8], bits[8..];
      assert bits == head + tail;
      ByteHolds(head, Pack(tail), 0);
      assert head[0..] == head;
      PackHolds(tail);
      HoldsShifted(PackByte(head), Pack(tail), 0, tail);
      HoldsConcat(Pack(bits), 0, head, tail);
    }
  }

  // ---------- the configuration record ----------

  datatype Config = Config(width: U16, height: U16, profileIdc: Byte, levelIdc: Byte, frameRateX1000: U32,
                           avccRaw: seq<Byte>, naluLenSize: Byte)

  datatype Result = Ok(config: Config) | TagTooShort | AvccTooShort | SpsLengthOverflow

  const DEFAULT_SPS := ParsedSps(1280, 720, 30_000)

  /** A parsed value of zero is ignored, field by field. */
  function OrDefault(p: Option<ParsedSps>): ParsedSps
  {
    if p.None? then DEFAULT_SPS
    else ParsedSps(if p.value.width > 0 then p.value.width else DEFAULT_SPS.width,
                   if p.value.height > 0 then p.value.height else DEFAULT_SPS.height,
                   if p.value.fpsX1000 > 0 then p.value.fpsX1000 else DEFAULT_SPS.fpsX1000)
  }

  /** The SPS NALU of the record, header byte included; `None` when its length overruns the record. */
  function SpsNalu(avcc: seq<Byte>): Option<seq<Byte>>
    requires |avcc| >= 7
  {
    if avcc[5] % 0x20 == 0 then Some([])
    else if |avcc| < 8 || 8 + ReadBe16(avcc, 6) > |avcc| then None
    else Some(avcc[8..8 + ReadBe16(avcc, 6)])
  }

  /** The SPS NALU by positions in the tag: byte 10 counts the SPSs, the length of the first follows. */
  lemma {:induction false} NaluInTag(tag: seq<Byte>)
    requires |tag| >= 12
    ensures tag[10] % 32 == 0 ==> SpsNalu(tag[5..]) == Some([])
    ensures tag[10] % 32 > 0 ==>
              SpsNalu(tag[5..]) == if |tag| < 13 || 13 + ReadBe16(tag, 11) > |tag| then None else Some(tag[13..13 + ReadBe16(tag, 11)])
  {
    if |tag| >= 13 && 13 + ReadBe16(tag, 11) <= |tag| {
      assert tag[5..][8..8 + ReadBe16(tag, 11)] == tag[13..13 + ReadBe16(tag, 11)];
    }
  }

  /** What is published: every value of zero, or all if there is no SPS, is that of 720p at 30 frames a
  second. */
  lemma {:induction false} FallbackIs720p(p: Option<ParsedSps>)
    ensures var r := OrDefault(p);
            && r.width == (if p.Some? && p.value.width != 0 then p.value.width else 1280)
            && r.height == (if p.Some? && p.value.height != 0 then p.value.height else 720)
            && r.fpsX1000 == (if p.Some? && p.value.fpsX1000 != 0 then p.value.fpsX1000 else 30_000)
            && DEFAULT_SPS == OrDefault(None)
  {}

  method FromFlvAvcSeq(tag: seq<Byte>) returns (r: Result)
    ensures r.TagTooShort? <==> |tag| < 11
    ensures r.AvccTooShort? <==> |tag| == 11
    ensures r.SpsLengthOverflow? <==> |tag| >= 12 && SpsNalu(tag[5..]).None?
    ensures r.Ok? ==>
              var avcc, nalu := tag[5..], SpsNalu(tag[5..]).value;
              var sps := if |nalu| > 1 then OrDefault(ParseSps(Unescape(nalu[1..]))) else DEFAULT_SPS;
              r.config == Config(sps.width, sps.height, avcc[1], avcc[3], sps.fpsX1000, avcc, avcc[4] % 4 + 1)
  {
    if |tag| < 11 {
      return TagTooShort;
    }
    var avcc := tag[5..];
    if |avcc| < 7 {
      return AvccTooShort;
    }
    var size := DEFAULT_SPS;
    if avcc[5] % 0x20 > 0 {
      if 6 + 2 > |avcc| {
        return SpsLengthOverflow;
      }
      var len := ReadBe16(avcc, 6);
      if 8 + len > |avcc| {
        return SpsLengthOverflow;
      }
      var nalu := avcc[8..8 + len];
      if |nalu| > 1 {
        var rbsp := UnescapeEmulationBytes(nalu[1..]);
        var parsed := Parse(rbsp);
        size := OrDefault(parsed);
      }
    }
    r := Ok(Config(size.width, size.height, avcc[1], avcc[3], size.fpsX1000, avcc, avcc[4] % 4 + 1));
  }

  /** A sequence header around one escaped SPS NALU. */
  function SequenceHeader(prefix: seq<Byte>, header: Byte, rbsp: seq<Byte>, pps: seq<Byte>): seq<Byte>
    requires |prefix| == 10 && |EscapeNal(rbsp)| + 1 < 0x1_0000
  {
    prefix + [0xe1] + Be16(|EscapeNal(rbsp)| + 1) + ([header] + EscapeNal(rbsp)) + pps
  }

  /** End to end: from an SPS through its bytes, their escaping and the configuration record to the
  picture size and frame rate the packager publishes. */
  lemma {:induction false} ConfigOfWrittenSps(s: SpsFields, prefix: seq<Byte>, header: Byte, pps: seq<Byte>)
    requires ValidSps(s) && |prefix| == 10
    requires 0 < CroppedWidth(s) < 0x1_0000 && 0 < CroppedHeight(s) < 0x1_0000
    requires |EscapeNal(Pack(WriteSps(s, [true])))| + 1 < 0x1_0000
    requires TrailingZeros(Pack(WriteSps(s, [true]))) % 2 == 0
    ensures var rbsp := Pack(WriteSps(s, [true]));
            var nalu := SpsNalu(SequenceHeader(prefix, header, rbsp, pps)[5..]);
            && nalu == Some([header] + EscapeNal(rbsp))
            && OrDefault(ParseSps(Unescape(nalu.value[1..])))
               == ParsedSps(CroppedWidth(s), CroppedHeight(s), if FrameRateX1000(s) > 0 then FrameRateX1000(s) else 30_000)
  {
    hide EscapeNal, Unescape, TrailingZeros, Pack;
    var bits := WriteSps(s, [true]);
    PackHolds(bits);
    ParseInvertsWrite(Pack(bits), s, [true]);
    UnescapeNalInverts(Pack(bits));
    ConfigOfRbsp(prefix, header, Pack(bits), pps);
    SmallSize(CroppedWidth(s));
    SmallSize(CroppedHeight(s));
  }

  lemma {:induction false} SmallSize(x: int)
    requires 0 <= x < 0x1_0000
    ensures x % 0x1_0000 == x
  {}

  lemma {:induction false} ConfigOfRbsp(prefix: seq<Byte>, header: Byte, rbsp: seq<Byte>, pps: seq<Byte>)
    requires |prefix| == 10 && |EscapeNal(rbsp)| + 1 < 0x1_0000 && Unescape(EscapeNal(rbsp)) == rbsp
    ensures var nalu := SpsNalu(SequenceHeader(prefix, header, rbsp, pps)[5..]);
            nalu == Some([header] + EscapeNal(rbsp)) && Unescape(nalu.value[1..]) == rbsp
  {
    RecordHoldsSps(prefix, [header] + EscapeNal(rbsp), pps);
    assert ([header] + EscapeNal(rbsp))[1..] == EscapeNal(rbsp);
  }

  lemma {:induction false} RecordHoldsSps(prefix: seq<Byte>, nalu: seq<Byte>, pps: seq<Byte>)
    requires |prefix| == 10 && |nalu| < 0x1_0000
    ensures SpsNalu((prefix + [0xe1] + Be16(|nalu|) + nalu + pps)[5..]) == Some(nalu)
  {
    var n, head := |nalu|, prefix + [0xe1] + Be16(|nalu|);
    var s := head + nalu + pps;
    assert s[0..|s|] == s;
    SplitSlice(s, 0, |s|, head + nalu, pps);
    SplitSlice(s, 0, 13 + n, head, nalu);
    assert s[10] == head[10] && s[11] == head[11] && s[12] == head[12];
    assert s[5..][5] == 0xe1 && ReadBe16(s[5..], 6) == n;
    assert s[5..][8..8 + n] == s[13..13 + n];
  }
}
