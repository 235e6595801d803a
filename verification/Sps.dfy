/** The SPS parser of yunmao-media-edge `fmp4.rs`, proved against a writer of the syntax of
section 7.3.2.1.1 (and E.1.1 up to the timing information) of ITU-T H.264. */
module Sps {
  import opened Bytes
  import opened Options
  import opened BitReader

  datatype ParsedSps = ParsedSps(width: U16, height: U16, fpsX1000: U32)

  datatype Crop = Crop(left: nat, right: nat, top: nat, bottom: nat)

  datatype Frame = Frame(widthMbsMinus1: nat, heightUnitsMinus1: nat, mbsOnly: bool, crop: Crop)

  /** The profiles whose SPS carries the chroma and scaling fields. */
  predicate HasChromaInfo(profile: nat)
  {
    profile in {100, 110, 122, 244, 44, 83, 86, 118, 128, 138, 139, 134, 135}
  }

  // ---------- what the parser reads, as functions of the bit position ----------

  /** The remainder with the sign of the dividend. */
  function Rem(a: int, b: int): int
    requires b > 0
  {
    if a >= 0 then a % b else -((-a) % b)
  }

  function NextScale(last: int, delta: int): int
  {
    Rem(AsI32(AsI32(last + delta) + 256), 256)
  }

  /** The loop of `skip_scaling_list` with `k` turns to go. */
  function ReadScalingList(d: seq<Byte>, pos: nat, k: nat, last: int, next: int): Read<()>
    decreases |d|, k
  {
    if k == 0 then Got((), pos)
    else if next == 0 then ReadScalingList(d, pos, k - 1, last, next)
    else
      var (delta, p) :- ReadSe(d, pos);
      var scale := NextScale(last, delta);
      ReadScalingList(d, p, k - 1, if scale != 0 then scale else last, scale)
  }

  function ListSize(i: nat): nat { if i < 6 then 16 else 64 }

  function ReadScalingLists(d: seq<Byte>, pos: nat, i: nat, count: nat): Read<()>
    requires i <= count
    decreases |d|, count - i
  {
    if i == count then Got((), pos)
    else
      var (present, p) :- ReadBits(d, pos, 1);
      var (_, q) :- if present == 1 then ReadScalingList(d, p, ListSize(i), 8, 8) else Got((), p);
      ReadScalingLists(d, q, i + 1, count)
  }

  function ListCount(chromaFormatIdc: nat): nat { if chromaFormatIdc == 3 then 12 else 8 }

  function ReadChromaInfo(d: seq<Byte>, pos: nat): Read<nat>
  {
    var (chroma, p0) :- ReadUe(d, pos);
    var (_, p1) :- if chroma == 3 then ReadBits(d, p0, 1) else Got(0, p0);
    var (_, p2) :- ReadUe(d, p1);
    var (_, p3) :- ReadUe(d, p2);
    var (_, p4) :- ReadScaling(d, p3, chroma);
    Got(chroma, p4)
  }

  function ReadScaling(d: seq<Byte>, pos: nat, chroma: nat): Read<()>
  {
    var (_, p0) :- ReadBits(d, pos, 1);
    var (matrix, p1) :- ReadBits(d, p0, 1);
    if matrix == 1 then ReadScalingLists(d, p1, 0, ListCount(chroma)) else Got((), p1)
  }

  function ReadSes(d: seq<Byte>, pos: nat, n: nat): Read<()>
    decreases |d|, n
  {
    if n == 0 then Got((), pos)
    else
      var (_, p) :- ReadSe(d, pos);
      ReadSes(d, p, n - 1)
  }

  function ReadPoc(d: seq<Byte>, pos: nat): Read<()>
  {
    var (kind, p0) :- ReadUe(d, pos);
    if kind == 0 then
      var (_, p1) :- ReadUe(d, p0);
      Got((), p1)
    else if kind == 1 then
      var (_, p1) :- ReadBits(d, p0, 1);
      var (_, p2) :- ReadSe(d, p1);
      var (_, p3) :- ReadSe(d, p2);
      var (n, p4) :- ReadUe(d, p3);
      ReadSes(d, p4, n)
    else Got((), p0)
  }

  function ReadCrop(d: seq<Byte>, pos: nat): Read<Crop>
  {
    var (flag, p0) :- ReadBits(d, pos, 1);
    if flag != 1 then Got(Crop(0, 0, 0, 0), p0)
    else
      var (left, p1) :- ReadUe(d, p0);
      var (right, p2) :- ReadUe(d, p1);
      var (top, p3) :- ReadUe(d, p2);
      var (bottom, p4) :- ReadUe(d, p3);
      Got(Crop(left, right, top, bottom), p4)
  }

  function ReadFrame(d: seq<Byte>, pos: nat): Read<Frame>
  {
    var (_, p0) :- ReadUe(d, pos);
    var (_, p1) :- ReadBits(d, p0, 1);
    var (w, p2) :- ReadUe(d, p1);
    var (h, p3) :- ReadUe(d, p2);
    var (mbsOnly, p4) :- ReadBits(d, p3, 1);
    var (_, p5) :- if mbsOnly == 1 then Got(0, p4) else ReadBits(d, p4, 1);
    var (_, p6) :- ReadBits(d, p5, 1);
    var (crop, p7) :- ReadCrop(d, p6);
    Got(Frame(w, h, mbsOnly == 1, crop), p7)
  }

  /** `read_bits(n).unwrap_or(0)`: the value and the next position. */
  function BitsOr0(d: seq<Byte>, pos: nat, n: nat): (nat, nat)
  {
    var r := ReadBits(d, pos, n);
    (if r.Got? then r.value else 0, r.pos)
  }

  function AfterAspect(d: seq<Byte>, pos: nat): nat
  {
    var (present, p0) := BitsOr0(d, pos, 1);
    if present != 1 then p0
    else
      var (idc, p1) := BitsOr0(d, p0, 8);
      if idc == 255 then BitsOr0(d, BitsOr0(d, p1, 16).1, 16).1 else p1
  }

  function AfterOverscan(d: seq<Byte>, pos: nat): nat
  {
    var (present, p0) := BitsOr0(d, pos, 1);
    if present == 1 then BitsOr0(d, p0, 1).1 else p0
  }

  function AfterVideoSignal(d: seq<Byte>, pos: nat): nat
  {
    var (present, p0) := BitsOr0(d, pos, 1);
    if present != 1 then p0
    else
      var p1 := BitsOr0(d, BitsOr0(d, p0, 3).1, 1).1;
      var (colour, p2) := BitsOr0(d, p1, 1);
      if colour == 1 then BitsOr0(d, BitsOr0(d, BitsOr0(d, p2, 8).1, 8).1, 8).1 else p2
  }

  function AfterChromaLoc(d: seq<Byte>, pos: nat): nat
  {
    var (present, p0) := BitsOr0(d, pos, 1);
    if present == 1 then ReadUe(d, ReadUe(d, p0).pos).pos else p0
  }

  /** `time_scale * 1000 / (2 * num_units_in_tick)`, cut to 32 bits. */
  function FpsX1000(unitsInTick: nat, timeScale: nat): U32
  {
    if unitsInTick > 0 then timeScale * 1000 / (2 * unitsInTick) % TWO32 else 0
  }

  function ReadFps(d: seq<Byte>, pos: nat): U32
  {
    var (vui, p0) := BitsOr0(d, pos, 1);
    if vui != 1 then 0
    else
      var p1 := AfterChromaLoc(d, AfterVideoSignal(d, AfterOverscan(d, AfterAspect(d, p0))));
      ReadTiming(d, p1)
  }

  function ReadTiming(d: seq<Byte>, pos: nat): U32
  {
    var (timing, p0) := BitsOr0(d, pos, 1);
    if timing != 1 then 0
    else
      var (units, p1) := BitsOr0(d, p0, 32);
      FpsX1000(units, BitsOr0(d, p1, 32).0)
  }

  /** `units * 16 - cropUnit * crop` in wrapping 32-bit arithmetic, then `as u16`. */
  function Dimension(units: nat, cropUnit: nat, crop: nat): U16
  {
    (units * 16 % TWO32 - cropUnit * (crop % TWO32) % TWO32) % TWO32 % 0x1_0000
  }

  /** The picture size as the source computes it. */
  function Width(chroma: nat, f: Frame): U16
  {
    var subWidthC := if chroma == 1 || chroma == 2 then 2 else 1;
    Dimension((f.widthMbsMinus1 + 1) % TWO32, subWidthC, f.crop.left + f.crop.right)
  }

  function Height(chroma: nat, f: Frame): U16
  {
    var subHeightC := if chroma == 1 then 2 else 1;
    var fields := if f.mbsOnly then 1 else 2;
    Dimension(fields * ((f.heightUnitsMinus1 + 1) % TWO32) % TWO32, subHeightC * fields, f.crop.top + f.crop.bottom)
  }

  function ParseSps(d: seq<Byte>): Option<ParsedSps>
  {
    var (profile, p0) :- OrNone(ReadBits(d, 0, 8));
    var (_, p1) :- OrNone(ReadBits(d, p0, 8));
    var (_, p2) :- OrNone(ReadBits(d, p1, 8));
    var (_, p3) :- OrNone(ReadUe(d, p2));
    var (chroma, p4) :- OrNone(if HasChromaInfo(profile) then ReadChromaInfo(d, p3) else Got(1, p3));
    var (_, p5) :- OrNone(ReadUe(d, p4));
    var (_, p6) :- OrNone(ReadPoc(d, p5));
    var (frame, p7) :- OrNone(ReadFrame(d, p6));
    Some(ParsedSps(Width(chroma, frame), Height(chroma, frame), ReadFps(d, p7)))
  }

  function OrNone<T>(r: Read<T>): Option<(T, nat)>
  {
    if r.Got? then Some((r.value, r.pos)) else None
  }

  // ---------- the parser ----------

  method SkipScalingList(p: Reader, size: nat) returns (r: Option<()>)
    modifies p
    ensures var s := ReadScalingList(p.data, old(p.bitPos), size, 8, 8); r == s.ToOption() && p.bitPos == s.pos
  {
    var last, next := 8, 8;
    for k := 0 to size
      invariant ReadScalingList(p.data, p.bitPos, size - k, last, next) == ReadScalingList(p.data, old(p.bitPos), size, 8, 8)
    {
      if next != 0 {
        var delta :- p.Se();
        next := NextScale(last, delta);
      }
      if next != 0 {
        last := next;
      }
    }
    r := Some(());
  }

  method SkipChromaInfo(p: Reader) returns (r: Option<nat>)
    modifies p
    ensures var s := ReadChromaInfo(p.data, old(p.bitPos)); r == s.ToOption() && p.bitPos == s.pos
  {
    var chroma :- p.Ue();
    if chroma == 3 {
      var _ :- p.Skip(1);
    }
    var _ :- p.Ue();
    var _ :- p.Ue();
    var _ :- p.Skip(1);
    var matrix :- p.Bits(1);
    if matrix == 1 {
      var count := ListCount(chroma);
      ghost var start := p.bitPos;
      for i := 0 to count
        invariant ReadScalingLists(p.data, p.bitPos, i, count) == ReadScalingLists(p.data, start, 0, count)
      {
        var present :- p.Bits(1);
        if present == 1 {
          var _ :- SkipScalingList(p, ListSize(i));
        }
      }
    }
    r := Some(chroma);
  }

  method SkipPoc(p: Reader) returns (r: Option<()>)
    modifies p
    ensures var s := ReadPoc(p.data, old(p.bitPos)); r == s.ToOption() && p.bitPos == s.pos
  {
    var kind :- p.Ue();
    if kind == 0 {
      var _ :- p.Ue();
    } else if kind == 1 {
      var _ :- p.Skip(1);
      var _ :- p.Se();
      var _ :- p.Se();
      var n :- p.Ue();
      var _ :- SkipSes(p, n);
    }
    r := Some(());
  }

  method SkipSes(p: Reader, n: nat) returns (r: Option<()>)
    modifies p
    ensures var s := ReadSes(p.data, old(p.bitPos), n); r == s.ToOption() && p.bitPos == s.pos
  {
    for k := 0 to n
      invariant ReadSes(p.data, p.bitPos, n - k) == ReadSes(p.data, old(p.bitPos), n)
    {
      var _ :- p.Se();
    }
    r := Some(());
  }

  method ParseFrame(p: Reader) returns (r: Option<Frame>)
    modifies p
    ensures var s := ReadFrame(p.data, old(p.bitPos)); r == s.ToOption() && p.bitPos == s.pos
  {
    var _ :- p.Ue();
    var _ :- p.Skip(1);
    var w :- p.Ue();
    var h :- p.Ue();
    var mbsOnly :- p.Bits(1);
    if mbsOnly != 1 {
      var _ :- p.Skip(1);
    }
    var _ :- p.Skip(1);
    var crop :- ParseCrop(p);
    r := Some(Frame(w, h, mbsOnly == 1, crop));
  }

  method ParseCrop(p: Reader) returns (r: Option<Crop>)
    modifies p
    ensures var s := ReadCrop(p.data, old(p.bitPos)); r == s.ToOption() && p.bitPos == s.pos
  {
    var crop := Crop(0, 0, 0, 0);
    var flag :- p.Bits(1);
    if flag == 1 {
      var left :- p.Ue();
      var right :- p.Ue();
      var top :- p.Ue();
      var bottom :- p.Ue();
      crop := Crop(left, right, top, bottom);
    }
    r := Some(crop);
  }

  method TakeBits(p: Reader, n: nat) returns (v: nat)
    requires n <= 32
    modifies p
    ensures (v, p.bitPos) == BitsOr0(p.data, old(p.bitPos), n)
  {
    var r := p.Bits(n);
    v := if r.Some? then r.value else 0;
  }

  /** The VUI fields up to the timing information; a field past the end counts as 0. */
  method ParseFps(p: Reader) returns (fps: U32)
    modifies p
    ensures fps == ReadFps(p.data, old(p.bitPos))
  {
    fps := 0;
    var vui := TakeBits(p, 1);
    if vui == 1 {
      SkipVuiHead(p);
      var timing := TakeBits(p, 1);
      if timing == 1 {
        var units := TakeBits(p, 32);
        var timeScale := TakeBits(p, 32);
        var _ := p.Bits(1);
        fps := FpsX1000(units, timeScale);
      }
    }
  }

  method SkipVuiHead(p: Reader)
    modifies p
    ensures p.bitPos == AfterChromaLoc(p.data, AfterVideoSignal(p.data, AfterOverscan(p.data,
                          AfterAspect(p.data, old(p.bitPos)))))
  {
    var present := TakeBits(p, 1);
    if present == 1 {
      var idc := TakeBits(p, 8);
      if idc == 255 {
        var _ := TakeBits(p, 16);
        var _ := TakeBits(p, 16);
      }
    }
    present := TakeBits(p, 1);
    if present == 1 {
      var _ := TakeBits(p, 1);
    }
    SkipVideoSignal(p);
    present := TakeBits(p, 1);
    if present == 1 {
      var _ := p.Ue();
      var _ := p.Ue();
    }
  }

  method SkipVideoSignal(p: Reader)
    modifies p
    ensures p.bitPos == AfterVideoSignal(p.data, old(p.bitPos))
  {
    var present := TakeBits(p, 1);
    if present == 1 {
      var _ := TakeBits(p, 3);
      var _ := TakeBits(p, 1);
      var colour := TakeBits(p, 1);
      if colour == 1 {
        var _ := TakeBits(p, 8);
        var _ := TakeBits(p, 8);
        var _ := TakeBits(p, 8);
      }
    }
  }

  method Parse(rbsp: seq<Byte>) returns (r: Option<ParsedSps>)
    ensures r == ParseSps(rbsp)
  {
    var p := new Reader(rbsp);
    var profile :- p.Bits(8);
    var _ :- p.Skip(8);
    var _ :- p.Bits(8);
    var _ :- p.Ue();
    var chroma := 1;
    if HasChromaInfo(profile) {
      chroma :- SkipChromaInfo(p);
    }
    var _ :- p.Ue();
    var _ :- SkipPoc(p);
    var frame :- ParseFrame(p);
    var fps := ParseFps(p);
    r := Some(ParsedSps(Width(chroma, frame), Height(chroma, frame), fps));
  }
}
