/** The writing side of the SPS syntax (sections 7.3.2.1.1, 7.3.2.1.1.1 and E.1.1 of
ITU-T H.264) and the proof that `Sps.Parse` reads every SPS it writes.

Each writer takes the bits that follow as its last argument, so that a reader's
position after a field is the place where the rest of the SPS starts. */
module SpsWriter {
  import opened Bytes
  import opened Options
  import opened Division
  import opened BitReader
  import opened Sps

  datatype ChromaInfo = ChromaInfo(chromaFormatIdc: nat, separateColourPlane: bool, bitDepthLuma: nat,
                                   bitDepthChroma: nat, transformBypass: bool,
                                   scalingLists: Option<seq<Option<seq<int>>>>)

  datatype Poc = PocLsb(log2MaxLsb: nat)
               | PocCycle(alwaysZero: bool, offsetNonRef: int, offsetTopBottom: int, offsets: seq<int>)
               | PocOutputOrder

  datatype Aspect = Aspect(idc: Byte, sarWidth: U16, sarHeight: U16)

  datatype VideoSignal = VideoSignal(format: nat, fullRange: bool, colour: Option<(Byte, Byte, Byte)>)

  datatype Timing = Timing(unitsInTick: U32, timeScale: U32)

  datatype Vui = Vui(aspect: Option<Aspect>, overscan: Option<bool>, signal: Option<VideoSignal>,
                     chromaLoc: Option<(nat, nat)>, timing: Option<Timing>)

  datatype SpsFields = SpsFields(profileIdc: Byte, constraintFlags: Byte, levelIdc: Byte, id: nat,
                                 chroma: Option<ChromaInfo>, log2MaxFrameNum: nat, poc: Poc,
                                 maxRefFrames: nat, gapsAllowed: bool, widthMbsMinus1: nat,
                                 heightUnitsMinus1: nat, mbsOnly: bool, mbAdaptive: bool,
                                 direct8x8: bool, crop: Option<Crop>, vui: Option<Vui>)

  // ---------- valid field values ----------

  predicate UeRange(v: nat) { v < TWO32 - 1 }

  predicate SeRange(k: int) { -0x8000_0000 < k < 0x8000_0000 }

  /** The profiles for which section 7.3.2.1.1 has the chroma format and scaling fields: the High
  profiles, CAVLC 4:4:4 Intra, and the scalable and multiview profiles. */
  predicate CarriesChroma(profileIdc: Byte)
  {
    match profileIdc
    case 100 => true
    case 110 => true
    case 122 => true
    case 244 => true
    case 44 => true
    case 83 => true
    case 86 => true
    case 118 => true
    case 128 => true
    case 138 => true
    case 139 => true
    case 134 => true
    case 135 => true
    case _ => false
  }

  /** Six 4x4 lists come first, then 8x8 lists: two, or six for chroma format 4:4:4. */
  function EntriesOf(i: nat): nat { if i <= 5 then 4 * 4 else 8 * 8 }

  function ListsOf(chromaFormatIdc: nat): nat { 6 + if chromaFormatIdc != 3 then 2 else 6 }

  /** nextScale and lastScale of section 7.3.2.1.1.1 after one delta. */
  function ScaleAfter(last: int, delta: int): int { (last + delta + 256) % 256 }

  function LastAfter(last: int, scale: int): int { if scale != 0 then scale else last }

  /** The deltas a scaling list of `k` more entries carries: none once the next scale is 0. */
  predicate ValidDeltas(deltas: seq<int>, k: nat, last: int, next: int)
    decreases k
  {
    if k == 0 || next == 0 then deltas == []
    else
      && deltas != [] && -128 <= deltas[0] <= 127
      && var scale := ScaleAfter(last, deltas[0]);
         ValidDeltas(deltas[1..], k - 1, LastAfter(last, scale), scale)
  }

  predicate ValidLists(lists: seq<Option<seq<int>>>, i: nat)
    decreases |lists|
  {
    lists == [] || ((lists[0].Some? ==> ValidDeltas(lists[0].value, EntriesOf(i), 8, 8)) && ValidLists(lists[1..], i + 1))
  }

  predicate ValidChroma(c: ChromaInfo)
  {
    && c.chromaFormatIdc <= 3 && UeRange(c.bitDepthLuma) && UeRange(c.bitDepthChroma)
    && (c.scalingLists.Some? ==>
          |c.scalingLists.value| == ListsOf(c.chromaFormatIdc) && ValidLists(c.scalingLists.value, 0))
  }

  predicate ValidPoc(poc: Poc)
  {
    match poc
    case PocLsb(v) => UeRange(v)
    case PocCycle(_, a, b, offsets) =>
      SeRange(a) && SeRange(b) && UeRange(|offsets|) && forall k :: 0 <= k < |offsets| ==> SeRange(offsets[k])
    case PocOutputOrder => true
  }

  predicate ValidVui(v: Vui)
  {
    && (v.signal.Some? ==> v.signal.value.format < 8)
    && (v.chromaLoc.Some? ==> UeRange(v.chromaLoc.value.0) && UeRange(v.chromaLoc.value.1))
  }

  predicate ValidSps(s: SpsFields)
  {
    && (CarriesChroma(s.profileIdc) <==> s.chroma.Some?)
    && UeRange(s.id) && UeRange(s.log2MaxFrameNum) && UeRange(s.maxRefFrames)
    && UeRange(s.widthMbsMinus1) && UeRange(s.heightUnitsMinus1)
    && (s.chroma.Some? ==> ValidChroma(s.chroma.value))
    && ValidPoc(s.poc)
    && (s.crop.Some? ==> var c := s.crop.value; UeRange(c.left) && UeRange(c.right) && UeRange(c.top) && UeRange(c.bottom))
    && (s.vui.Some? ==> ValidVui(s.vui.value))
  }

  // ---------- the writers ----------

  function WriteSes(ks: seq<int>, rest: BitString): BitString
  {
    if ks == [] then rest else Se(ks[0]) + WriteSes(ks[1..], rest)
  }

  function WriteLists(lists: seq<Option<seq<int>>>, rest: BitString): BitString
  {
    if lists == [] then rest
    else Flag(lists[0].Some?) + (if lists[0].Some? then WriteSes(lists[0].value, WriteLists(lists[1..], rest))
                                 else WriteLists(lists[1..], rest))
  }

  function WriteChroma(c: ChromaInfo, rest: BitString): BitString
  {
    Ue(c.chromaFormatIdc) + WritePlane(c, Ue(c.bitDepthLuma) + (Ue(c.bitDepthChroma) + WriteScaling(c, rest)))
  }

  function WriteScaling(c: ChromaInfo, rest: BitString): BitString
  {
    Flag(c.transformBypass) + (Flag(c.scalingLists.Some?)
    + (if c.scalingLists.Some? then WriteLists(c.scalingLists.value, rest) else rest))
  }

  function WritePlane(c: ChromaInfo, rest: BitString): BitString
  {
    if c.chromaFormatIdc == 3 then Flag(c.separateColourPlane) + rest else rest
  }

  function WritePoc(poc: Poc, rest: BitString): BitString
  {
    match poc
    case PocLsb(v) => Ue(0) + (Ue(v) + rest)
    case PocCycle(zero, a, b, offsets) =>
      Ue(1) + (Flag(zero) + (Se(a) + (Se(b) + (Ue(|offsets|) + WriteSes(offsets, rest)))))
    case PocOutputOrder => Ue(2) + rest
  }

  function WriteCrop(crop: Option<Crop>, rest: BitString): BitString
  {
    Flag(crop.Some?) + (if crop.None? then rest
                        else Ue(crop.value.left) + (Ue(crop.value.right) + (Ue(crop.value.top) + (Ue(crop.value.bottom) + rest))))
  }

  function WriteFrame(s: SpsFields, rest: BitString): BitString
  {
    Ue(s.maxRefFrames) + (Flag(s.gapsAllowed) + (Ue(s.widthMbsMinus1) + (Ue(s.heightUnitsMinus1)
    + (Flag(s.mbsOnly) + WriteField(s, Flag(s.direct8x8) + WriteCrop(s.crop, rest))))))
  }

  function WriteField(s: SpsFields, rest: BitString): BitString
  {
    if s.mbsOnly then rest else Flag(s.mbAdaptive) + rest
  }

  function WriteAspect(a: Option<Aspect>, rest: BitString): BitString
  {
    Flag(a.Some?) + (if a.None? then rest
                     else ToBits(a.value.idc, 8) + (if a.value.idc == 255
                                                    then ToBits(a.value.sarWidth, 16) + (ToBits(a.value.sarHeight, 16) + rest)
                                                    else rest))
  }

  function WriteOverscan(o: Option<bool>, rest: BitString): BitString
  {
    Flag(o.Some?) + (if o.Some? then Flag(o.value) + rest else rest)
  }

  function WriteSignal(v: Option<VideoSignal>, rest: BitString): BitString
  {
    Flag(v.Some?) + (if v.None? then rest
                     else ToBits(v.value.format, 3) + (Flag(v.value.fullRange) + WriteColour(v.value.colour, rest)))
  }

  function WriteColour(c: Option<(Byte, Byte, Byte)>, rest: BitString): BitString
  {
    Flag(c.Some?) + (if c.None? then rest
                     else ToBits(c.value.0, 8) + (ToBits(c.value.1, 8) + (ToBits(c.value.2, 8) + rest)))
  }

  function WriteChromaLoc(c: Option<(nat, nat)>, rest: BitString): BitString
  {
    Flag(c.Some?) + (if c.Some? then Ue(c.value.0) + (Ue(c.value.1) + rest) else rest)
  }

  function WriteTiming(t: Option<Timing>, rest: BitString): BitString
  {
    Flag(t.Some?) + (if t.Some? then ToBits(t.value.unitsInTick, 32) + (ToBits(t.value.timeScale, 32) + rest) else rest)
  }

  function WriteVui(v: Option<Vui>, rest: BitString): BitString
  {
    Flag(v.Some?) + (if v.None? then rest
                     else WriteAspect(v.value.aspect, WriteOverscan(v.value.overscan, WriteSignal(v.value.signal,
                          WriteChromaLoc(v.value.chromaLoc, WriteTiming(v.value.timing, rest))))))
  }

  /** A whole SPS; `rest` is whatever follows the fields the parser looks at. */
  function WriteSps(s: SpsFields, rest: BitString): BitString
  {
    ToBits(s.profileIdc, 8) + (ToBits(s.constraintFlags, 8) + (ToBits(s.levelIdc, 8) + (Ue(s.id)
    + WriteChromaOf(s, Ue(s.log2MaxFrameNum) + WritePoc(s.poc, WriteFrame(s, WriteVui(s.vui, rest)))))))
  }

  function WriteChromaOf(s: SpsFields, rest: BitString): BitString
  {
    if s.chroma.Some? then WriteChroma(s.chroma.value, rest) else rest
  }

  // ---------- the size and frame rate of section 7.4.2.1.1 and E.2.1 ----------

  /** ChromaArrayType. */
  function ChromaArrayType(s: SpsFields): nat
  {
    if s.chroma.None? then 1
    else if s.chroma.value.separateColourPlane && s.chroma.value.chromaFormatIdc == 3 then 0
    else s.chroma.value.chromaFormatIdc
  }

  function CropUnitX(s: SpsFields): nat
  {
    if ChromaArrayType(s) in {1, 2} then 2 else 1
  }

  function CropUnitY(s: SpsFields): nat
  {
    (if ChromaArrayType(s) == 1 then 2 else 1) * (if s.mbsOnly then 1 else 2)
  }

  function CropOf(s: SpsFields): Crop
  {
    if s.crop.Some? then s.crop.value else Crop(0, 0, 0, 0)
  }

  /** The width of the cropped picture in luma samples. */
  function CroppedWidth(s: SpsFields): int
  {
    (s.widthMbsMinus1 + 1) * 16 - CropUnitX(s) * (CropOf(s).left + CropOf(s).right)
  }

  /** The height of the cropped frame in luma samples. */
  function CroppedHeight(s: SpsFields): int
  {
    (if s.mbsOnly then 1 else 2) * (s.heightUnitsMinus1 + 1) * 16 - CropUnitY(s) * (CropOf(s).top + CropOf(s).bottom)
  }

  /** Frames per 1000 seconds, a frame being two ticks (section E.2.1), cut to 32 bits; 0 if unknown. */
  function Rate(t: Option<Timing>): U32
  {
    if t.None? || t.value.unitsInTick == 0 then 0 else t.value.timeScale * 500 / t.value.unitsInTick % TWO32
  }

  function FrameRateX1000(s: SpsFields): U32
  {
    if s.vui.Some? then Rate(s.vui.value.timing) else 0
  }

  lemma {:induction false} RateOfTwoTicks(t: Timing)
    ensures FpsX1000(t.unitsInTick, t.timeScale) == Rate(Some(t))
  {
    if t.unitsInTick > 0 {
      var x, u := t.timeScale * 500, t.unitsInTick;
      DivUnique(2 * x, 2 * u, x / u, 2 * (x % u));
    }
  }

  // ---------- one field ----------

  lemma {:induction false} TakeBits(d: seq<Byte>, pos: nat, v: nat, n: nat, rest: BitString)
    requires Holds(d, pos, ToBits(v, n) + rest) && v < Pow2(n)
    ensures var r := ReadBits(d, pos, n); r.Got? && r.value == v && Holds(d, r.pos, rest)
  {
    HoldsConcat(d, pos, ToBits(v, n), rest);
    ReadToBits(d, pos, v, n);
  }

  lemma {:induction false} SmallPowers()
    ensures Pow2(3) == 8 && Pow2(8) == 0x100 && Pow2(16) == 0x1_0000 && Pow2(32) == TWO32
  {
    Pow2Of32();
    assert Pow2(8) == 0x100;
    assert Pow2(16) == 0x1_0000;
  }

  lemma {:induction false} TakeFlag(d: seq<Byte>, pos: nat, b: bool, rest: BitString)
    requires Holds(d, pos, Flag(b) + rest)
    ensures var r := ReadBits(d, pos, 1); r.Got? && (r.value == 1 <==> b) && r.value == BitValue(b) && Holds(d, r.pos, rest)
  {
    HoldsConcat(d, pos, Flag(b), rest);
    ReadFlag(d, pos, b);
  }

  lemma {:induction false} TakeUe(d: seq<Byte>, pos: nat, v: nat, rest: BitString)
    requires Holds(d, pos, Ue(v) + rest) && UeRange(v)
    ensures var r := ReadUe(d, pos); r.Got? && r.value == v && Holds(d, r.pos, rest)
  {
    HoldsConcat(d, pos, Ue(v), rest);
    ReadUeInverts(d, pos, v);
  }

  lemma {:induction false} TakeSe(d: seq<Byte>, pos: nat, k: int, rest: BitString)
    requires Holds(d, pos, Se(k) + rest) && SeRange(k)
    ensures var r := ReadSe(d, pos); r.Got? && r.value == k && Holds(d, r.pos, rest)
  {
    HoldsConcat(d, pos, Se(k), rest);
    ReadSeInverts(d, pos, k);
  }

  // ---------- groups of fields ----------

  lemma {:induction false} NextScaleInRange(last: int, delta: int)
    requires 0 < last < 256 && -128 <= delta <= 127
    ensures NextScale(last, delta) == ScaleAfter(last, delta)
    ensures 0 < LastAfter(last, ScaleAfter(last, delta)) < 256
  {}

  /** Any other delta wraps around in 32 bits, and the remainder has the sign of the sum. */
  lemma {:induction false} NextScaleOfAny(last: int, delta: int)
    ensures var r, x := NextScale(last, delta), AsI32(AsI32(last + delta) + 256);
            && -256 < r < 256 && (x - r) % 256 == 0 && (x >= 0 ==> r >= 0) && (x <= 0 ==> r <= 0)
            && -0x8000_0000 <= x < 0x8000_0000 && (x - last - delta) % 256 == 0
  {
    hide Rem, AsI32;
    var x, y := AsI32(AsI32(last + delta) + 256), AsI32(last + delta);
    WrapsBy256(last + delta);
    WrapsBy256(y + 256);
    MultipleOf256(x - (y + 256), y - (last + delta));
    assert x - (y + 256) + (y - (last + delta)) + 256 == x - last - delta;
    TruncatedRem(x);
  }

  lemma {:induction false} TruncatedRem(x: int)
    ensures var r := Rem(x, 256); -256 < r < 256 && (x - r) % 256 == 0 && (x >= 0 ==> r >= 0) && (x <= 0 ==> r <= 0)
  {}

  lemma {:induction false} WrapsBy256(v: int)
    ensures (AsI32(v) - v) % 256 == 0 && -0x8000_0000 <= AsI32(v) < 0x8000_0000
  {
    var q := (v + 0x8000_0000) / TWO32;
    assert AsI32(v) - v == -q * TWO32;
    assert -q * TWO32 == (-q * 0x100_0000) * 256;
  }

  lemma {:induction false} MultipleOf256(a: int, b: int)
    requires a % 256 == 0 && b % 256 == 0
    ensures (a + b + 256) % 256 == 0
  {}

  lemma {:induction false} TakeDeltas(d: seq<Byte>, pos: nat, deltas: seq<int>, k: nat, last: int, next: int, rest: BitString)
    requires Holds(d, pos, WriteSes(deltas, rest)) && ValidDeltas(deltas, k, last, next) && 0 < last < 256
    ensures var r := ReadScalingList(d, pos, k, last, next); r.Got? && Holds(d, r.pos, rest)
    decreases k
  {
    if k > 0 {
      if next == 0 {
        TakeDeltas(d, pos, deltas, k - 1, last, next, rest);
      } else {
        TakeSe(d, pos, deltas[0], WriteSes(deltas[1..], rest));
        NextScaleInRange(last, deltas[0]);
        var scale := ScaleAfter(last, deltas[0]);
        var p, last' := ReadSe(d, pos).pos, LastAfter(last, scale);
        assert ReadScalingList(d, pos, k, last, next) == ReadScalingList(d, p, k - 1, last', scale);
        TakeDeltas(d, p, deltas[1..], k - 1, last', scale, rest);
      }
    }
  }

  lemma {:induction false} TakeLists(d: seq<Byte>, pos: nat, lists: seq<Option<seq<int>>>, i: nat, rest: BitString)
    requires Holds(d, pos, WriteLists(lists, rest)) && ValidLists(lists, i)
    ensures var r := ReadScalingLists(d, pos, i, i + |lists|); r.Got? && Holds(d, r.pos, rest)
    decreases |lists|
  {
    if lists != [] {
      hide Holds, ReadBits, ReadScalingList, ValidDeltas, WriteSes, Flag;
      var more := WriteLists(lists[1..], rest);
      TakeList(d, pos, lists[0], i, more);
      var p := ReadBits(d, pos, 1).pos;
      TakeLists(d, if lists[0].Some? then ReadScalingList(d, p, ListSize(i), 8, 8).pos else p, lists[1..], i + 1, rest);
    }
  }

  lemma {:induction false} TakeList(d: seq<Byte>, pos: nat, list: Option<seq<int>>, i: nat, more: BitString)
    requires Holds(d, pos, Flag(list.Some?) + (if list.Some? then WriteSes(list.value, more) else more))
    requires list.Some? ==> ValidDeltas(list.value, EntriesOf(i), 8, 8)
    ensures var r := ReadBits(d, pos, 1);
            && r.Got? && (r.value == 1 <==> list.Some?)
            && (list.None? ==> Holds(d, r.pos, more))
            && (list.Some? ==> var q := ReadScalingList(d, r.pos, ListSize(i), 8, 8); q.Got? && Holds(d, q.pos, more))
  {
    hide Holds, ReadBits, ReadScalingList, ValidDeltas, WriteSes, Flag;
    TakeFlag(d, pos, list.Some?, if list.Some? then WriteSes(list.value, more) else more);
    if list.Some? {
      TakeDeltas(d, ReadBits(d, pos, 1).pos, list.value, ListSize(i), 8, 8, more);
    }
  }

  lemma {:induction false} TakeChroma(d: seq<Byte>, pos: nat, c: ChromaInfo, rest: BitString)
    requires Holds(d, pos, WriteChroma(c, rest)) && ValidChroma(c)
    ensures var r := ReadChromaInfo(d, pos); r.Got? && r.value == c.chromaFormatIdc && Holds(d, r.pos, rest)
  {
    var r3 := WriteScaling(c, rest);
    var r2 := Ue(c.bitDepthLuma) + (Ue(c.bitDepthChroma) + r3);
    TakeUe(d, pos, c.chromaFormatIdc, WritePlane(c, r2));
    var p0 := ReadUe(d, pos).pos;
    var p1 := if c.chromaFormatIdc == 3 then ReadBits(d, p0, 1).pos else p0;
    if c.chromaFormatIdc == 3 { TakeFlag(d, p0, c.separateColourPlane, r2); }
    TakeUe(d, p1, c.bitDepthLuma, Ue(c.bitDepthChroma) + r3);
    var p2 := ReadUe(d, p1).pos;
    TakeUe(d, p2, c.bitDepthChroma, r3);
    TakeScaling(d, ReadUe(d, p2).pos, c, rest);
  }

  lemma {:induction false} TakeScaling(d: seq<Byte>, pos: nat, c: ChromaInfo, rest: BitString)
    requires Holds(d, pos, WriteScaling(c, rest)) && ValidChroma(c)
    ensures var r := ReadScaling(d, pos, c.chromaFormatIdc); r.Got? && Holds(d, r.pos, rest)
  {
    hide Holds, ReadBits, ReadScalingLists, WriteLists, ValidLists, Flag;
    var lists := if c.scalingLists.Some? then WriteLists(c.scalingLists.value, rest) else rest;
    TakeFlag(d, pos, c.transformBypass, Flag(c.scalingLists.Some?) + lists);
    var p := ReadBits(d, pos, 1).pos;
    TakeFlag(d, p, c.scalingLists.Some?, lists);
    if c.scalingLists.Some? {
      TakeLists(d, ReadBits(d, p, 1).pos, c.scalingLists.value, 0, rest);
    }
  }

  lemma {:induction false} TakeSes(d: seq<Byte>, pos: nat, ks: seq<int>, rest: BitString)
    requires Holds(d, pos, WriteSes(ks, rest)) && forall i :: 0 <= i < |ks| ==> SeRange(ks[i])
    ensures var r := ReadSes(d, pos, |ks|); r.Got? && Holds(d, r.pos, rest)
    decreases |ks|
  {
    hide ReadSe, Se, Holds, SeRange;
    if ks != [] {
      TakeSe(d, pos, ks[0], WriteSes(ks[1..], rest));
      TakeSes(d, ReadSe(d, pos).pos, ks[1..], rest);
    }
  }

  lemma {:induction false} TakePoc(d: seq<Byte>, pos: nat, poc: Poc, rest: BitString)
    requires Holds(d, pos, WritePoc(poc, rest)) && ValidPoc(poc)
    ensures var r := ReadPoc(d, pos); r.Got? && Holds(d, r.pos, rest)
  {
    match poc
    case PocLsb(v) =>
      TakeUe(d, pos, 0, Ue(v) + rest);
      TakeUe(d, ReadUe(d, pos).pos, v, rest);
    case PocCycle(zero, a, b, offsets) =>
      var r4 := WriteSes(offsets, rest);
      var r3 := Ue(|offsets|) + r4;
      var r2 := Se(b) + r3;
      var r1 := Se(a) + r2;
      TakeUe(d, pos, 1, Flag(zero) + r1);
      var p0 := ReadUe(d, pos).pos;
      TakeFlag(d, p0, zero, r1);
      var p1 := ReadBits(d, p0, 1).pos;
      TakeSe(d, p1, a, r2);
      var p2 := ReadSe(d, p1).pos;
      TakeSe(d, p2, b, r3);
      var p3 := ReadSe(d, p2).pos;
      TakeUe(d, p3, |offsets|, r4);
      TakeSes(d, ReadUe(d, p3).pos, offsets, rest);
    case PocOutputOrder =>
      TakeUe(d, pos, 2, rest);
  }

  /** The reserved types of picture order count are taken to have no fields. */
  lemma {:induction false} ReservedPoc(d: seq<Byte>, pos: nat, kind: nat, rest: BitString)
    requires Holds(d, pos, Ue(kind) + rest) && UeRange(kind) && kind >= 2
    ensures var r := ReadPoc(d, pos); r.Got? && Holds(d, r.pos, rest)
  {
    TakeUe(d, pos, kind, rest);
  }

  lemma {:induction false} TakeCrop(d: seq<Byte>, pos: nat, s: SpsFields, rest: BitString)
    requires Holds(d, pos, WriteCrop(s.crop, rest)) && ValidSps(s)
    ensures var r := ReadCrop(d, pos); r.Got? && r.value == CropOf(s) && Holds(d, r.pos, rest)
  {
    if s.crop.None? {
      TakeFlag(d, pos, false, rest);
    } else {
      var c := s.crop.value;
      var r3 := Ue(c.bottom) + rest;
      var r2 := Ue(c.top) + r3;
      var r1 := Ue(c.right) + r2;
      TakeFlag(d, pos, true, Ue(c.left) + r1);
      var p0 := ReadBits(d, pos, 1).pos;
      TakeUe(d, p0, c.left, r1);
      var p1 := ReadUe(d, p0).pos;
      TakeUe(d, p1, c.right, r2);
      var p2 := ReadUe(d, p1).pos;
      TakeUe(d, p2, c.top, r3);
      TakeUe(d, ReadUe(d, p2).pos, c.bottom, rest);
    }
  }

  lemma {:induction false} TakeFrame(d: seq<Byte>, pos: nat, s: SpsFields, rest: BitString)
    requires Holds(d, pos, WriteFrame(s, rest)) && ValidSps(s)
    ensures var r := ReadFrame(d, pos);
            r.Got? && r.value == FrameOf(s) && Holds(d, r.pos, rest)
  {
    hide ReadUe, ReadBits, Ue, Holds, ReadCrop, WriteCrop;
    var r6 := WriteCrop(s.crop, rest);
    var r5 := Flag(s.direct8x8) + r6;
    var r4 := WriteField(s, r5);
    var r3 := Flag(s.mbsOnly) + r4;
    var r2 := Ue(s.heightUnitsMinus1) + r3;
    var r1 := Ue(s.widthMbsMinus1) + r2;
    TakeUe(d, pos, s.maxRefFrames, Flag(s.gapsAllowed) + r1);
    var p0 := ReadUe(d, pos).pos;
    TakeFlag(d, p0, s.gapsAllowed, r1);
    var p1 := ReadBits(d, p0, 1).pos;
    TakeUe(d, p1, s.widthMbsMinus1, r2);
    var p2 := ReadUe(d, p1).pos;
    TakeUe(d, p2, s.heightUnitsMinus1, r3);
    var p3 := ReadUe(d, p2).pos;
    TakeFlag(d, p3, s.mbsOnly, r4);
    var p4 := ReadBits(d, p3, 1).pos;
    var p5 := if s.mbsOnly then p4 else ReadBits(d, p4, 1).pos;
    if !s.mbsOnly { TakeFlag(d, p4, s.mbAdaptive, r5); }
    TakeFlag(d, p5, s.direct8x8, r6);
    TakeCrop(d, ReadBits(d, p5, 1).pos, s, rest);
  }

  // ---------- the VUI ----------

  lemma {:induction false} TakeAspect(d: seq<Byte>, pos: nat, a: Option<Aspect>, rest: BitString)
    requires Holds(d, pos, WriteAspect(a, rest))
    ensures Holds(d, AfterAspect(d, pos), rest)
  {
    SmallPowers();
    if a.None? {
      TakeFlag(d, pos, false, rest);
    } else {
      var r2 := ToBits(a.value.sarHeight, 16) + rest;
      var r1 := if a.value.idc == 255 then ToBits(a.value.sarWidth, 16) + r2 else rest;
      TakeFlag(d, pos, true, ToBits(a.value.idc, 8) + r1);
      var p0 := ReadBits(d, pos, 1).pos;
      TakeBits(d, p0, a.value.idc, 8, r1);
      if a.value.idc == 255 {
        var p1 := ReadBits(d, p0, 8).pos;
        TakeBits(d, p1, a.value.sarWidth, 16, r2);
        TakeBits(d, ReadBits(d, p1, 16).pos, a.value.sarHeight, 16, rest);
      }
    }
  }

  lemma {:induction false} TakeOverscan(d: seq<Byte>, pos: nat, o: Option<bool>, rest: BitString)
    requires Holds(d, pos, WriteOverscan(o, rest))
    ensures Holds(d, AfterOverscan(d, pos), rest)
  {
    TakeFlag(d, pos, o.Some?, if o.Some? then Flag(o.value) + rest else rest);
    if o.Some? { TakeFlag(d, ReadBits(d, pos, 1).pos, o.value, rest); }
  }

  lemma {:induction false} TakeSignal(d: seq<Byte>, pos: nat, v: Option<VideoSignal>, rest: BitString)
    requires Holds(d, pos, WriteSignal(v, rest)) && (v.Some? ==> v.value.format < 8)
    ensures Holds(d, AfterVideoSignal(d, pos), rest)
  {
    SmallPowers();
    if v.None? {
      TakeFlag(d, pos, false, rest);
    } else {
      var c := v.value.colour;
      var r2 := WriteColour(c, rest);
      var r1 := Flag(v.value.fullRange) + r2;
      TakeFlag(d, pos, true, ToBits(v.value.format, 3) + r1);
      var p0 := ReadBits(d, pos, 1).pos;
      TakeBits(d, p0, v.value.format, 3, r1);
      var p1 := ReadBits(d, p0, 3).pos;
      TakeFlag(d, p1, v.value.fullRange, r2);
      var p2 := ReadBits(d, p1, 1).pos;
      if c.None? {
        TakeFlag(d, p2, false, rest);
      } else {
        var r5 := ToBits(c.value.2, 8) + rest;
        var r4 := ToBits(c.value.1, 8) + r5;
        TakeFlag(d, p2, true, ToBits(c.value.0, 8) + r4);
        var p3 := ReadBits(d, p2, 1).pos;
        TakeBits(d, p3, c.value.0, 8, r4);
        var p4 := ReadBits(d, p3, 8).pos;
        TakeBits(d, p4, c.value.1, 8, r5);
        TakeBits(d, ReadBits(d, p4, 8).pos, c.value.2, 8, rest);
      }
    }
  }

  lemma {:induction false} TakeChromaLoc(d: seq<Byte>, pos: nat, c: Option<(nat, nat)>, rest: BitString)
    requires Holds(d, pos, WriteChromaLoc(c, rest)) && (c.Some? ==> UeRange(c.value.0) && UeRange(c.value.1))
    ensures Holds(d, AfterChromaLoc(d, pos), rest)
  {
    if c.None? {
      TakeFlag(d, pos, false, rest);
    } else {
      var r1 := Ue(c.value.1) + rest;
      TakeFlag(d, pos, true, Ue(c.value.0) + r1);
      var p0 := ReadBits(d, pos, 1).pos;
      TakeUe(d, p0, c.value.0, r1);
      TakeUe(d, ReadUe(d, p0).pos, c.value.1, rest);
    }
  }

  lemma {:induction false} TakeFps(d: seq<Byte>, pos: nat, s: SpsFields, rest: BitString)
    requires Holds(d, pos, WriteVui(s.vui, rest)) && ValidSps(s)
    ensures ReadFps(d, pos) == FrameRateX1000(s)
  {
    if s.vui.None? {
      TakeFlag(d, pos, false, rest);
    } else {
      var v := s.vui.value;
      var r4 := WriteTiming(v.timing, rest);
      var r3 := WriteChromaLoc(v.chromaLoc, r4);
      var r2 := WriteSignal(v.signal, r3);
      var r1 := WriteOverscan(v.overscan, r2);
      TakeFlag(d, pos, true, WriteAspect(v.aspect, r1));
      var p0 := ReadBits(d, pos, 1).pos;
      TakeAspect(d, p0, v.aspect, r1);
      TakeOverscan(d, AfterAspect(d, p0), v.overscan, r2);
      var p1 := AfterOverscan(d, AfterAspect(d, p0));
      TakeSignal(d, p1, v.signal, r3);
      TakeChromaLoc(d, AfterVideoSignal(d, p1), v.chromaLoc, r4);
      var p2 := AfterChromaLoc(d, AfterVideoSignal(d, p1));
      TakeTiming(d, p2, v.timing, rest);
    }
  }

  lemma {:induction false} TakeTiming(d: seq<Byte>, pos: nat, t: Option<Timing>, rest: BitString)
    requires Holds(d, pos, WriteTiming(t, rest))
    ensures ReadTiming(d, pos) == Rate(t)
  {
    SmallPowers();
    if t.None? {
      TakeFlag(d, pos, false, rest);
    } else {
      var r := ToBits(t.value.timeScale, 32) + rest;
      TakeFlag(d, pos, true, ToBits(t.value.unitsInTick, 32) + r);
      var p := ReadBits(d, pos, 1).pos;
      TakeBits(d, p, t.value.unitsInTick, 32, r);
      TakeBits(d, ReadBits(d, p, 32).pos, t.value.timeScale, 32, rest);
      RateOfTwoTicks(t.value);
    }
  }

  // ---------- the whole SPS ----------

  /** Wrapping 32-bit arithmetic followed by `as u16` is exact modulo 2^16. */
  lemma {:induction false} DimensionModulo(exact: nat, units: nat, cropUnit: nat, crop: nat)
    requires cropUnit in {1, 2, 4} && units == exact % TWO32
    ensures Dimension(units, cropUnit, crop) == (exact * 16 - cropUnit * crop) % 0x1_0000
  {
    var a, b := units * 16 % TWO32, cropUnit * (crop % TWO32) % TWO32;
    var q0, q1, q2, q3 := exact / TWO32, units * 16 / TWO32, crop / TWO32, cropUnit * (crop % TWO32) / TWO32;
    assert exact == TWO32 * q0 + units;
    assert crop == TWO32 * q2 + crop % TWO32;
    var q4 := (a - b) / TWO32;
    assert a - b == TWO32 * q4 + (a - b) % TWO32;
    assert a == units * 16 - TWO32 * q1;
    assert b == cropUnit * (crop % TWO32) - TWO32 * q3;
    var q := 16 * q0 + q1 - q3 + q4 - cropUnit * q2;
    assert (a - b) % TWO32 == exact * 16 - cropUnit * crop - TWO32 * q by {
      if cropUnit == 1 {} else if cropUnit == 2 {} else {}
    }
    Low16((a - b) % TWO32, q);
  }

  lemma {:induction false} Low16(x: int, q: int)
    ensures x % 0x1_0000 == (x + TWO32 * q) % 0x1_0000
  {
    assert x + TWO32 * q == x + 0x1_0000 * (0x1_0000 * q);
  }

  function ChromaFormat(s: SpsFields): nat
  {
    if s.chroma.Some? then s.chroma.value.chromaFormatIdc else 1
  }

  function FrameOf(s: SpsFields): Frame
  {
    Frame(s.widthMbsMinus1, s.heightUnitsMinus1, s.mbsOnly, CropOf(s))
  }

  lemma {:induction false} WidthModulo(s: SpsFields)
    requires ValidSps(s)
    ensures Width(ChromaFormat(s), FrameOf(s)) == CroppedWidth(s) % 0x1_0000
  {
    DimensionModulo(s.widthMbsMinus1 + 1, s.widthMbsMinus1 + 1, CropUnitX(s), CropOf(s).left + CropOf(s).right);
  }

  lemma {:induction false} HeightModulo(s: SpsFields)
    requires ValidSps(s)
    ensures Height(ChromaFormat(s), FrameOf(s)) == CroppedHeight(s) % 0x1_0000
  {
    var h, crop := s.heightUnitsMinus1 + 1, CropOf(s).top + CropOf(s).bottom;
    assert h % TWO32 == h;
    if s.mbsOnly {
      DimensionModulo(h, h % TWO32, CropUnitY(s), crop);
      assert CroppedHeight(s) == h * 16 - CropUnitY(s) * crop;
    } else {
      DimensionModulo(2 * h, 2 * h % TWO32, CropUnitY(s), crop);
      assert CroppedHeight(s) == 2 * h * 16 - CropUnitY(s) * crop;
    }
  }

  /** Every valid SPS written by the syntax of section 7.3.2.1.1, whatever follows it, is parsed
  to its cropped size (modulo 2^16) and its frame rate. */
  lemma {:induction false} ParseInvertsWrite(d: seq<Byte>, s: SpsFields, rest: BitString)
    requires ValidSps(s) && Holds(d, 0, WriteSps(s, rest))
    ensures ParseSps(d) == Some(ParsedSps(CroppedWidth(s) % 0x1_0000, CroppedHeight(s) % 0x1_0000, FrameRateX1000(s)))
  {
    SmallPowers();
    var r6 := WriteVui(s.vui, rest);
    var r5 := WriteFrame(s, r6);
    var r4 := WritePoc(s.poc, r5);
    var r3 := Ue(s.log2MaxFrameNum) + r4;
    var r2 := WriteChromaOf(s, r3);
    var r1 := Ue(s.id) + r2;
    TakeBits(d, 0, s.profileIdc, 8, ToBits(s.constraintFlags, 8) + (ToBits(s.levelIdc, 8) + r1));
    var p0 := ReadBits(d, 0, 8).pos;
    TakeBits(d, p0, s.constraintFlags, 8, ToBits(s.levelIdc, 8) + r1);
    var p1 := ReadBits(d, p0, 8).pos;
    TakeBits(d, p1, s.levelIdc, 8, r1);
    var p2 := ReadBits(d, p1, 8).pos;
    TakeUe(d, p2, s.id, r2);
    var p3 := ReadUe(d, p2).pos;
    if s.chroma.Some? { TakeChroma(d, p3, s.chroma.value, r3); }
    var p4 := if s.chroma.Some? then ReadChromaInfo(d, p3).pos else p3;
    TakeUe(d, p4, s.log2MaxFrameNum, r4);
    var p5 := ReadUe(d, p4).pos;
    TakePoc(d, p5, s.poc, r5);
    var p6 := ReadPoc(d, p5).pos;
    TakeFrame(d, p6, s, r6);
    TakeFps(d, ReadFrame(d, p6).pos, s, rest);
    WidthModulo(s);
    HeightModulo(s);
  }

  /** The parsed size is the true one exactly when both dimensions fit 16 bits. */
  lemma {:induction false} SizeIsExact(d: seq<Byte>, s: SpsFields, rest: BitString)
    requires ValidSps(s) && Holds(d, 0, WriteSps(s, rest))
    ensures var r := ParseSps(d);
            r.Some? && ((r.value.width == CroppedWidth(s) && r.value.height == CroppedHeight(s))
                        <==> 0 <= CroppedWidth(s) < 0x1_0000 && 0 <= CroppedHeight(s) < 0x1_0000)
  {
    ParseInvertsWrite(d, s, rest);
    FitsU16(CroppedWidth(s));
    FitsU16(CroppedHeight(s));
  }

  lemma {:induction false} FitsU16(x: int)
    ensures x % 0x1_0000 == x <==> 0 <= x < 0x1_0000
  {}

  // ---------- incomplete data ----------

  /** A read that succeeds gives the same when more bytes follow. */
  lemma {:induction false} BitsLocal(d: seq<Byte>, e: seq<Byte>, pos: nat, n: nat)
    requires d <= e && ReadBits(d, pos, n).Got?
    ensures ReadBits(e, pos, n) == ReadBits(d, pos, n)
  {
    if n > 0 {
      BitsLocal(d, e, pos, n - 1);
    }
  }

  lemma {:induction false} ZerosLocal(d: seq<Byte>, e: seq<Byte>, pos: nat, zeros: nat)
    requires zeros <= 32 && d <= e && ReadZeros(d, pos, zeros).Got?
    ensures ReadZeros(e, pos, zeros) == ReadZeros(d, pos, zeros)
    decreases 33 - zeros
  {
    if ReadBit(d, pos).value != 1 {
      ZerosLocal(d, e, pos + 1, zeros + 1);
    }
  }

  lemma {:induction false} UeLocal(d: seq<Byte>, e: seq<Byte>, pos: nat)
    requires d <= e && ReadUe(d, pos).Got?
    ensures ReadUe(e, pos) == ReadUe(d, pos)
  {
    hide ReadZeros, ReadBits, UeValue;
    ZerosLocal(d, e, pos, 0);
    var z := ReadZeros(d, pos, 0);
    BitsLocal(d, e, z.pos, z.value);
  }

  lemma {:induction false} SeLocal(d: seq<Byte>, e: seq<Byte>, pos: nat)
    requires d <= e && ReadSe(d, pos).Got?
    ensures ReadSe(e, pos) == ReadSe(d, pos)
  {
    hide ReadUe, SeValue;
    UeLocal(d, e, pos);
  }

  lemma {:induction false} SesLocal(d: seq<Byte>, e: seq<Byte>, pos: nat, n: nat)
    requires d <= e && ReadSes(d, pos, n).Got?
    ensures ReadSes(e, pos, n) == ReadSes(d, pos, n)
    decreases n
  {
    hide ReadSe;
    if n > 0 {
      SeLocal(d, e, pos);
      SesLocal(d, e, ReadSe(d, pos).pos, n - 1);
    }
  }

  lemma {:induction false} ListLocal(d: seq<Byte>, e: seq<Byte>, pos: nat, k: nat, last: int, next: int)
    requires d <= e && ReadScalingList(d, pos, k, last, next).Got?
    ensures ReadScalingList(e, pos, k, last, next) == ReadScalingList(d, pos, k, last, next)
    decreases k
  {
    hide ReadSe, NextScale;
    if k > 0 {
      if next == 0 {
        ListLocal(d, e, pos, k - 1, last, next);
      } else {
        SeLocal(d, e, pos);
        var r := ReadSe(d, pos);
        var scale := NextScale(last, r.value);
        ListLocal(d, e, r.pos, k - 1, if scale != 0 then scale else last, scale);
      }
    }
  }

  lemma {:induction false} ListsLocal(d: seq<Byte>, e: seq<Byte>, pos: nat, i: nat, count: nat)
    requires i <= count && d <= e && ReadScalingLists(d, pos, i, count).Got?
    ensures ReadScalingLists(e, pos, i, count) == ReadScalingLists(d, pos, i, count)
    decreases count - i
  {
    hide ReadScalingList, ReadBits;
    if i < count {
      BitsLocal(d, e, pos, 1);
      var r := ReadBits(d, pos, 1);
      if r.value == 1 {
        ListLocal(d, e, r.pos, ListSize(i), 8, 8);
        ListsLocal(d, e, ReadScalingList(d, r.pos, ListSize(i), 8, 8).pos, i + 1, count);
      } else {
        ListsLocal(d, e, r.pos, i + 1, count);
      }
    }
  }

  lemma {:induction false} ScalingLocal(d: seq<Byte>, e: seq<Byte>, pos: nat, chroma: nat)
    requires d <= e && ReadScaling(d, pos, chroma).Got?
    ensures ReadScaling(e, pos, chroma) == ReadScaling(d, pos, chroma)
  {
    hide ReadScalingLists, ReadBits;
    BitsLocal(d, e, pos, 1);
    var p := ReadBits(d, pos, 1).pos;
    BitsLocal(d, e, p, 1);
    var r := ReadBits(d, p, 1);
    if r.value == 1 {
      ListsLocal(d, e, r.pos, 0, ListCount(chroma));
    }
  }

  lemma {:induction false} ChromaLocal(d: seq<Byte>, e: seq<Byte>, pos: nat)
    requires d <= e && ReadChromaInfo(d, pos).Got?
    ensures ReadChromaInfo(e, pos) == ReadChromaInfo(d, pos)
  {
    hide ReadScaling, ReadBits, ReadUe;
    UeLocal(d, e, pos);
    var r := ReadUe(d, pos);
    if r.value == 3 {
      BitsLocal(d, e, r.pos, 1);
    }
    var p1 := if r.value == 3 then ReadBits(d, r.pos, 1).pos else r.pos;
    UeLocal(d, e, p1);
    var p2 := ReadUe(d, p1).pos;
    UeLocal(d, e, p2);
    ScalingLocal(d, e, ReadUe(d, p2).pos, r.value);
  }

  lemma {:induction false} PocLocal(d: seq<Byte>, e: seq<Byte>, pos: nat)
    requires d <= e && ReadPoc(d, pos).Got?
    ensures ReadPoc(e, pos) == ReadPoc(d, pos)
  {
    hide ReadSes, ReadSe, ReadBits, ReadUe;
    UeLocal(d, e, pos);
    var r := ReadUe(d, pos);
    if r.value == 0 {
      UeLocal(d, e, r.pos);
    } else if r.value == 1 {
      BitsLocal(d, e, r.pos, 1);
      var p1 := ReadBits(d, r.pos, 1).pos;
      SeLocal(d, e, p1);
      var p2 := ReadSe(d, p1).pos;
      SeLocal(d, e, p2);
      var p3 := ReadSe(d, p2).pos;
      UeLocal(d, e, p3);
      SesLocal(d, e, ReadUe(d, p3).pos, ReadUe(d, p3).value);
    }
  }

  lemma {:induction false} CropLocal(d: seq<Byte>, e: seq<Byte>, pos: nat)
    requires d <= e && ReadCrop(d, pos).Got?
    ensures ReadCrop(e, pos) == ReadCrop(d, pos)
  {
    hide ReadBits, ReadUe;
    BitsLocal(d, e, pos, 1);
    var r := ReadBits(d, pos, 1);
    if r.value == 1 {
      UeLocal(d, e, r.pos);
      var p1 := ReadUe(d, r.pos).pos;
      UeLocal(d, e, p1);
      var p2 := ReadUe(d, p1).pos;
      UeLocal(d, e, p2);
      UeLocal(d, e, ReadUe(d, p2).pos);
    }
  }

  lemma {:induction false} FrameLocal(d: seq<Byte>, e: seq<Byte>, pos: nat)
    requires d <= e && ReadFrame(d, pos).Got?
    ensures ReadFrame(e, pos) == ReadFrame(d, pos)
  {
    hide ReadBits, ReadUe, ReadCrop;
    UeLocal(d, e, pos);
    var p0 := ReadUe(d, pos).pos;
    BitsLocal(d, e, p0, 1);
    var p1 := ReadBits(d, p0, 1).pos;
    UeLocal(d, e, p1);
    var p2 := ReadUe(d, p1).pos;
    UeLocal(d, e, p2);
    var p3 := ReadUe(d, p2).pos;
    BitsLocal(d, e, p3, 1);
    var r := ReadBits(d, p3, 1);
    if r.value != 1 {
      BitsLocal(d, e, r.pos, 1);
    }
    var p5 := if r.value == 1 then r.pos else ReadBits(d, r.pos, 1).pos;
    BitsLocal(d, e, p5, 1);
    CropLocal(d, e, ReadBits(d, p5, 1).pos);
  }

  /** A size is never made up for missing bits: if the parser is satisfied with some bytes, it reads the
  same size, and the same frame rate if it read one, when the rest of the SPS follows. */
  lemma {:induction false} SizeNeedsItsBits(d: seq<Byte>, e: seq<Byte>)
    requires d <= e && ParseSps(d).Some?
    ensures ParseSps(e).Some?
    ensures ParseSps(e).value.width == ParseSps(d).value.width && ParseSps(e).value.height == ParseSps(d).value.height
    ensures ParseSps(d).value.fpsX1000 == ParseSps(e).value.fpsX1000 || ParseSps(d).value.fpsX1000 == 0
  {
    hide ReadBits, ReadUe, ReadChromaInfo, ReadPoc, ReadFrame, ReadFps, Width, Height;
    BitsLocal(d, e, 0, 8);
    var p0 := ReadBits(d, 0, 8).pos;
    BitsLocal(d, e, p0, 8);
    var p1 := ReadBits(d, p0, 8).pos;
    BitsLocal(d, e, p1, 8);
    var p2 := ReadBits(d, p1, 8).pos;
    UeLocal(d, e, p2);
    var p3 := ReadUe(d, p2).pos;
    var chroma := HasChromaInfo(ReadBits(d, 0, 8).value);
    if chroma {
      ChromaLocal(d, e, p3);
    }
    var p4 := if chroma then ReadChromaInfo(d, p3).pos else p3;
    UeLocal(d, e, p4);
    var p5 := ReadUe(d, p4).pos;
    PocLocal(d, e, p5);
    var p6 := ReadPoc(d, p5).pos;
    FrameLocal(d, e, p6);
    RateNeedsItsBits(d, e, ReadFrame(d, p6).pos);
  }

  /** So a written SPS that was cut off is read with its own size, and with its own frame rate or none, or
  not at all. */
  lemma {:induction false} CutOffSps(d: seq<Byte>, n: nat, s: SpsFields, rest: BitString)
    requires ValidSps(s) && Holds(d, 0, WriteSps(s, rest)) && n <= |d|
    ensures var r := ParseSps(d[..n]);
            r.Some? ==> r.value.width == CroppedWidth(s) % 0x1_0000 && r.value.height == CroppedHeight(s) % 0x1_0000
                        && (r.value.fpsX1000 == FrameRateX1000(s) || r.value.fpsX1000 == 0)
  {
    hide ParseSps, WriteSps, Holds;
    ParseInvertsWrite(d, s, rest);
    if ParseSps(d[..n]).Some? {
      SizeNeedsItsBits(d[..n], d);
    }
  }

  // ---------- incomplete data: the frame rate ----------

  /** The data has run out. */
  predicate Out(d: seq<Byte>, pos: nat) { pos / 8 >= |d| }

  lemma {:induction false} BitsCut(d: seq<Byte>, e: seq<Byte>, pos: nat, n: nat)
    requires d <= e
    ensures ReadBits(d, pos, n).Got? ==> BitsOr0(d, pos, n) == BitsOr0(e, pos, n)
    ensures ReadBits(d, pos, n).End? ==> BitsOr0(d, pos, n).0 == 0 && Out(d, BitsOr0(d, pos, n).1)
    ensures Out(d, pos) && n > 0 ==> BitsOr0(d, pos, n) == (0, pos)
  {
    if n > 0 {
      BitsCut(d, e, pos, n - 1);
      if ReadBits(d, pos, n).Got? {
        BitsLocal(d, e, pos, n);
      }
      if Out(d, pos) && n > 1 {
        assert ReadBits(d, pos, n - 1).End?;
      }
    }
  }

  /** A skipped field: afterwards both readers stand in the same place, or the shorter data has run out. */
  predicate Along(d: seq<Byte>, p: nat, q: nat) { p == q || Out(d, p) }

  lemma {:induction false} SkipCut(d: seq<Byte>, e: seq<Byte>, p: nat, q: nat, n: nat)
    requires d <= e && Along(d, p, q) && n > 0
    ensures Along(d, BitsOr0(d, p, n).1, BitsOr0(e, q, n).1)
    ensures BitsOr0(d, p, n).0 == BitsOr0(e, q, n).0 || (BitsOr0(d, p, n).0 == 0 && Out(d, BitsOr0(d, p, n).1))
    ensures Out(d, p) ==> BitsOr0(d, p, n) == (0, p)
  {
    BitsCut(d, e, p, n);
  }

  lemma {:induction false} ZerosCut(d: seq<Byte>, e: seq<Byte>, pos: nat, zeros: nat)
    requires d <= e && zeros <= 32
    ensures ReadZeros(d, pos, zeros) == ReadZeros(e, pos, zeros) || (ReadZeros(d, pos, zeros).End? && Out(d, ReadZeros(d, pos, zeros).pos))
    decreases 33 - zeros
  {
    if !Out(d, pos) && BitAt(d, pos) != 1 && zeros < 32 {
      ZerosCut(d, e, pos + 1, zeros + 1);
    }
  }

  lemma {:induction false} UeCut(d: seq<Byte>, e: seq<Byte>, p: nat, q: nat)
    requires d <= e && Along(d, p, q)
    ensures Along(d, ReadUe(d, p).pos, ReadUe(e, q).pos)
  {
    if p == q {
      ZerosCut(d, e, p, 0);
      var z := ReadZeros(d, p, 0);
      if z.Got? {
        BitsCut(d, e, z.pos, z.value);
        if ReadBits(d, z.pos, z.value).Got? {
          BitsLocal(d, e, z.pos, z.value);
        }
      }
    }
  }

  lemma {:induction false} AspectCut(d: seq<Byte>, e: seq<Byte>, p: nat, q: nat)
    requires d <= e && Along(d, p, q)
    ensures Along(d, AfterAspect(d, p), AfterAspect(e, q))
  {
    hide BitsOr0;
    SkipCut(d, e, p, q, 1);
    var p0, q0 := BitsOr0(d, p, 1).1, BitsOr0(e, q, 1).1;
    SkipCut(d, e, p0, q0, 8);
    var p1, q1 := BitsOr0(d, p0, 8).1, BitsOr0(e, q0, 8).1;
    SkipCut(d, e, p1, q1, 16);
    SkipCut(d, e, BitsOr0(d, p1, 16).1, BitsOr0(e, q1, 16).1, 16);
  }

  lemma {:induction false} OverscanCut(d: seq<Byte>, e: seq<Byte>, p: nat, q: nat)
    requires d <= e && Along(d, p, q)
    ensures Along(d, AfterOverscan(d, p), AfterOverscan(e, q))
  {
    hide BitsOr0;
    SkipCut(d, e, p, q, 1);
    SkipCut(d, e, BitsOr0(d, p, 1).1, BitsOr0(e, q, 1).1, 1);
  }

  lemma {:induction false} SignalCut(d: seq<Byte>, e: seq<Byte>, p: nat, q: nat)
    requires d <= e && Along(d, p, q)
    ensures Along(d, AfterVideoSignal(d, p), AfterVideoSignal(e, q))
  {
    hide BitsOr0;
    SkipCut(d, e, p, q, 1);
    var p0, q0 := BitsOr0(d, p, 1).1, BitsOr0(e, q, 1).1;
    SkipCut(d, e, p0, q0, 3);
    var p1, q1 := BitsOr0(d, p0, 3).1, BitsOr0(e, q0, 3).1;
    SkipCut(d, e, p1, q1, 1);
    var p2, q2 := BitsOr0(d, p1, 1).1, BitsOr0(e, q1, 1).1;
    SkipCut(d, e, p2, q2, 1);
    var p3, q3 := BitsOr0(d, p2, 1).1, BitsOr0(e, q2, 1).1;
    SkipCut(d, e, p3, q3, 8);
    var p4, q4 := BitsOr0(d, p3, 8).1, BitsOr0(e, q3, 8).1;
    SkipCut(d, e, p4, q4, 8);
    SkipCut(d, e, BitsOr0(d, p4, 8).1, BitsOr0(e, q4, 8).1, 8);
  }

  lemma {:induction false} ChromaLocCut(d: seq<Byte>, e: seq<Byte>, p: nat, q: nat)
    requires d <= e && Along(d, p, q)
    ensures Along(d, AfterChromaLoc(d, p), AfterChromaLoc(e, q))
  {
    hide BitsOr0, ReadUe;
    SkipCut(d, e, p, q, 1);
    var p0, q0 := BitsOr0(d, p, 1).1, BitsOr0(e, q, 1).1;
    UeCut(d, e, p0, q0);
    UeCut(d, e, ReadUe(d, p0).pos, ReadUe(e, q0).pos);
  }

  lemma {:induction false} NoRate(u: nat, t: nat)
    ensures FpsX1000(0, t) == 0 && FpsX1000(u, 0) == 0
  {
    if u > 0 {
      DivUnique(0, 2 * u, 0, 0);
    }
  }

  lemma {:induction false} TimingCut(d: seq<Byte>, e: seq<Byte>, p: nat, q: nat)
    requires d <= e && Along(d, p, q)
    ensures ReadTiming(d, p) == ReadTiming(e, q) || ReadTiming(d, p) == 0
  {
    hide BitsOr0, FpsX1000;
    SkipCut(d, e, p, q, 1);
    var p0, q0 := BitsOr0(d, p, 1).1, BitsOr0(e, q, 1).1;
    SkipCut(d, e, p0, q0, 32);
    var p1, q1 := BitsOr0(d, p0, 32).1, BitsOr0(e, q0, 32).1;
    SkipCut(d, e, p1, q1, 32);
    NoRate(BitsOr0(d, p0, 32).0, BitsOr0(d, p1, 32).0);
  }

  /** Nor is a frame rate made up: with part of the data it is unknown or the same. */
  lemma {:induction false} RateNeedsItsBits(d: seq<Byte>, e: seq<Byte>, pos: nat)
    requires d <= e
    ensures ReadFps(d, pos) == ReadFps(e, pos) || ReadFps(d, pos) == 0
  {
    hide BitsOr0, AfterAspect, AfterOverscan, AfterVideoSignal, AfterChromaLoc, ReadTiming;
    SkipCut(d, e, pos, pos, 1);
    var p0, q0 := BitsOr0(d, pos, 1).1, BitsOr0(e, pos, 1).1;
    AspectCut(d, e, p0, q0);
    var p1, q1 := AfterAspect(d, p0), AfterAspect(e, q0);
    OverscanCut(d, e, p1, q1);
    var p2, q2 := AfterOverscan(d, p1), AfterOverscan(e, q1);
    SignalCut(d, e, p2, q2);
    var p3, q3 := AfterVideoSignal(d, p2), AfterVideoSignal(e, q2);
    ChromaLocCut(d, e, p3, q3);
    TimingCut(d, e, AfterChromaLoc(d, p3), AfterChromaLoc(e, q3));
  }
}
