/** Bit-level reading of an H.264 RBSP: fixed-width fields and the Exp-Golomb codes of
section 9.1 of ITU-T H.264, and the writer of section 9.1 they are proved to invert. */
module BitReader {
  import opened Bytes
  import opened Options
  import opened Seqs

  /** The outcome of a read: a value, or the end of the data; either way the next bit position. */
  datatype Read<+T> = Got(value: T, pos: nat) | End(pos: nat) {
    predicate IsFailure() { End? }

    function PropagateFailure<U>(): Read<U>
      requires End?
    {
      End(pos)
    }

    function Extract(): (T, nat)
      requires Got?
    {
      (value, pos)
    }

    function ToOption(): Option<T>
    {
      if Got? then Some(value) else None
    }
  }

  function Pow2(n: nat): nat
    ensures Pow2(n) >= 1
  {
    if n == 0 then 1 else 2 * Pow2(n - 1)
  }

  /** `(byte >> k) & 1` */
  function ByteBit(byte: nat, k: nat): nat
    ensures ByteBit(byte, k) <= 1
  {
    if k == 0 then byte % 2 else ByteBit(byte / 2, k - 1)
  }

  /** Bit `pos` of the data, most significant bit of each byte first. */
  function BitAt(data: seq<Byte>, pos: nat): nat
    requires pos / 8 < |data|
    ensures BitAt(data, pos) <= 1
  {
    ByteBit(data[pos / 8], 7 - pos % 8)
  }

  function ReadBit(data: seq<Byte>, pos: nat): Read<nat>
  {
    if pos / 8 < |data| then Got(BitAt(data, pos), pos + 1) else End(pos)
  }

  function ReadBits(data: seq<Byte>, pos: nat, n: nat): (r: Read<nat>)
    ensures r.Got? ==> r.value < Pow2(n) && r.pos == pos + n
    decreases |data|, n
  {
    if n == 0 then Got(0, pos)
    else
      var (v, p) :- ReadBits(data, pos, n - 1);
      var (b, q) :- ReadBit(data, p);
      Got(2 * v + b, q)
  }

  /** Counts zero bits up to and including the next one bit; more than 32 of them is a failure. */
  function ReadZeros(data: seq<Byte>, pos: nat, zeros: nat): (r: Read<nat>)
    requires zeros <= 32
    ensures r.Got? ==> zeros <= r.value <= 32
    decreases 8 * |data| - pos
  {
    var (b, p) :- ReadBit(data, pos);
    if b == 1 then Got(zeros, p)
    else if zeros == 32 then End(p)
    else ReadZeros(data, p, zeros + 1)
  }

  /** `prefix + suffix - 1`, where `1u32 << zeros` shifts by `zeros mod 32`: a prefix of 32
  zeros counts as 1. The result of the 32-bit sum is below 2^32 in every case. */
  function UeValue(zeros: nat, suffix: nat): (v: nat)
    requires zeros <= 32 && suffix < Pow2(zeros)
    ensures v < TWO32
  {
    Pow2UpTo32(zeros);
    if zeros < 32 then Pow2(zeros) + suffix - 1 else suffix
  }

  lemma {:induction false} Pow2Monotone(a: nat, b: nat)
    requires a <= b
    ensures Pow2(a) <= Pow2(b)
  {
    if a < b { Pow2Monotone(a, b - 1); }
  }

  lemma {:induction false} Pow2Of32()
    ensures Pow2(31) == 0x8000_0000 && Pow2(32) == TWO32
  {
    assert Pow2(8) == 0x100;
    assert Pow2(16) == 0x1_0000;
    assert Pow2(24) == 0x100_0000;
  }

  lemma {:induction false} Pow2UpTo32(n: nat)
    requires n <= 32
    ensures Pow2(n) <= TWO32 && (n < 32 ==> 2 * Pow2(n) <= TWO32)
  {
    Pow2Of32();
    if n < 32 { Pow2Monotone(n, 31); }
  }

  function ReadUe(data: seq<Byte>, pos: nat): (r: Read<nat>)
    ensures r.Got? ==> r.value < TWO32
  {
    var (zeros, p) :- ReadZeros(data, pos, 0);
    var (suffix, q) :- ReadBits(data, p, zeros);
    Got(UeValue(zeros, suffix), q)
  }

  /** `as i32`: two's complement wrap-around. */
  function AsI32(v: int): int
  {
    (v + 0x8000_0000) % TWO32 - 0x8000_0000
  }

  function SeValue(v: U32): int
  {
    if v % 2 == 1 then AsI32((v + 1) / 2) else AsI32(-(v / 2))
  }

  function ReadSe(data: seq<Byte>, pos: nat): Read<int>
  {
    var (v, p) :- ReadUe(data, pos);
    Got(SeValue(v), p)
  }

  // ---------- the reader ----------

  class Reader {
    const data: seq<Byte>
    var bitPos: nat

    constructor (data: seq<Byte>)
      ensures this.data == data && bitPos == 0
    {
      this.data, this.bitPos := data, 0;
    }

    method Bit() returns (r: Option<nat>)
      modifies this
      ensures var s := ReadBit(data, old(bitPos)); r == s.ToOption() && bitPos == s.pos
    {
      if bitPos / 8 >= |data| {
        return None;
      }
      r := Some(BitAt(data, bitPos));
      bitPos := bitPos + 1;
    }

    method Bits(n: nat) returns (r: Option<nat>)
      requires n <= 32
      modifies this
      ensures var s := ReadBits(data, old(bitPos), n); r == s.ToOption() && bitPos == s.pos
    {
      var v := 0;
      for k := 0 to n
        invariant ReadBits(data, old(bitPos), k) == Got(v, bitPos)
      {
        var b := Bit();
        if b.None? {
          EndIsFinal(data, old(bitPos), k + 1, n);
          return None;
        }
        v := 2 * v + b.value;
      }
      r := Some(v);
    }

    method Skip(n: nat) returns (r: Option<()>)
      modifies this
      ensures var s := ReadBits(data, old(bitPos), n); r.Some? == s.Got? && bitPos == s.pos
    {
      for k := 0 to n
        invariant ReadBits(data, old(bitPos), k).Got? && ReadBits(data, old(bitPos), k).pos == bitPos
      {
        var b := Bit();
        if b.None? {
          EndIsFinal(data, old(bitPos), k + 1, n);
          return None;
        }
      }
      r := Some(());
    }

    /** The loop of `read_ue`: `while self.read_bit()? == 0` with its bound of 32. */
    method LeadingZeros() returns (r: Option<nat>)
      modifies this
      ensures var s := ReadZeros(data, old(bitPos), 0); r == s.ToOption() && bitPos == s.pos
    {
      var zeros: nat := 0;
      ghost var p := bitPos;
      var b :- Bit();
      while b == 0
        invariant zeros <= 32 && ReadBit(data, p) == Got(b, bitPos)
        invariant ReadZeros(data, p, zeros) == ReadZeros(data, old(bitPos), 0)
        decreases 33 - zeros
      {
        zeros := zeros + 1;
        if zeros > 32 {
          return None;
        }
        p := bitPos;
        b :- Bit();
      }
      r := Some(zeros);
    }

    method Ue() returns (r: Option<nat>)
      ensures r.Some? ==> r.value < TWO32
      modifies this
      ensures var s := ReadUe(data, old(bitPos)); r == s.ToOption() && bitPos == s.pos
    {
      var zeros :- LeadingZeros();
      var suffix := 0;
      if zeros > 0 {
        suffix :- Bits(zeros);
      }
      r := Some(UeValue(zeros, suffix));
    }

    method Se() returns (r: Option<int>)
      modifies this
      ensures var s := ReadSe(data, old(bitPos)); r == s.ToOption() && bitPos == s.pos
    {
      var v :- Ue();
      r := Some(SeValue(v));
    }
  }

  /** Once the data has run out, a longer read stops in the same place. */
  lemma {:induction false} EndIsFinal(data: seq<Byte>, pos: nat, k: nat, n: nat)
    requires k <= n && ReadBits(data, pos, k).End?
    ensures ReadBits(data, pos, n) == ReadBits(data, pos, k)
  {
    if k < n { EndIsFinal(data, pos, k, n - 1); }
  }

  // ---------- the writer of section 9.1 ----------

  type BitString = seq<bool>

  function ToBits(v: nat, n: nat): (r: BitString)
    ensures |r| == n
  {
    if n == 0 then [] else ToBits(v / 2, n - 1) + [v % 2 == 1]
  }

  function Zeros(n: nat): (r: BitString)
    ensures |r| == n
  {
    if n == 0 then [] else [false] + Zeros(n - 1)
  }

  function Log2(v: nat): (n: nat)
    requires v >= 1
    ensures Pow2(n) <= v < 2 * Pow2(n)
  {
    if v == 1 then 0 else 1 + Log2(v / 2)
  }

  /** ue(v): as many zeros as `v + 1` has bits after its leading one, then `v + 1` itself. */
  function Ue(v: nat): BitString
  {
    var n := Log2(v + 1);
    Zeros(n) + [true] + ToBits(v + 1 - Pow2(n), n)
  }

  /** se(v), table 9-3: positive values take the odd codes. */
  function Se(k: int): BitString
  {
    Ue(if k > 0 then 2 * k - 1 else -2 * k)
  }

  function Flag(b: bool): BitString { [b] }

  function BitValue(b: bool): nat { if b then 1 else 0 }

  /** The bits `bits` stand in the data from position `pos` on. */
  ghost predicate Holds(data: seq<Byte>, pos: nat, bits: BitString)
    decreases |bits|
  {
    bits == [] || (ReadBit(data, pos) == Got(BitValue(bits[0]), pos + 1) && Holds(data, pos + 1, bits[1..]))
  }

  lemma {:induction false} HoldsConcat(data: seq<Byte>, pos: nat, x: BitString, y: BitString)
    ensures Holds(data, pos, x + y) <==> Holds(data, pos, x) && Holds(data, pos + |x|, y)
    decreases |x|
  {
    if x == [] {
      assert x + y == y;
    } else {
      assert (x + y)[0] == x[0] && (x + y)[1..] == x[1..] + y;
      HoldsConcat(data, pos + 1, x[1..], y);
    }
  }

  // ---------- reading inverts writing ----------

  lemma {:induction false} HoldsOne(data: seq<Byte>, pos: nat, b: bool)
    requires Holds(data, pos, [b])
    ensures ReadBit(data, pos) == Got(BitValue(b), pos + 1)
  {}

  lemma {:induction false} ReadToBits(data: seq<Byte>, pos: nat, v: nat, n: nat)
    requires Holds(data, pos, ToBits(v, n)) && v < Pow2(n)
    ensures ReadBits(data, pos, n) == Got(v, pos + n)
  {
    if n > 0 {
      var high, low := v / 2, v % 2 == 1;
      assert v == 2 * high + BitValue(low);
      HoldsConcat(data, pos, ToBits(high, n - 1), [low]);
      ReadToBits(data, pos, high, n - 1);
      HoldsOne(data, pos + n - 1, low);
    }
  }

  lemma {:induction false} ReadZerosThenOne(data: seq<Byte>, pos: nat, n: nat, zeros: nat)
    requires Holds(data, pos, Zeros(n) + [true]) && zeros + n <= 32
    ensures ReadZeros(data, pos, zeros) == Got(zeros + n, pos + n + 1)
    decreases n
  {
    if n == 0 {
      assert Zeros(0) + [true] == [true];
    } else {
      assert Zeros(n) + [true] == [false] + (Zeros(n - 1) + [true]);
      HoldsConcat(data, pos, [false], Zeros(n - 1) + [true]);
      ReadZerosThenOne(data, pos + 1, n - 1, zeros + 1);
    }
  }

  lemma {:induction false} Log2Of32()
    ensures Log2(TWO32) == 32 && Pow2(32) == TWO32
  {
    var n := Log2(TWO32);
    Pow2Of32();
    if n > 32 { Pow2Monotone(33, n); } else if n < 32 { Pow2Monotone(n, 31); }
  }

  lemma {:induction false} UeValueInverts(v: nat)
    requires v < TWO32 - 1
    ensures var n := Log2(v + 1); n < 32 && UeValue(n, v + 1 - Pow2(n)) == v
  {
    var n := Log2(v + 1);
    Pow2Of32();
    if n >= 32 { Pow2Monotone(32, n); }
  }

  lemma {:induction false} ReadUeParts(data: seq<Byte>, pos: nat, n: nat, suffix: nat)
    requires n <= 32 && suffix < Pow2(n) && ReadZeros(data, pos, 0) == Got(n, pos + n + 1)
    requires ReadBits(data, pos + n + 1, n) == Got(suffix, pos + n + 1 + n)
    ensures ReadUe(data, pos) == Got(UeValue(n, suffix), pos + 2 * n + 1)
  {}

  lemma {:induction false} ReadUeCode(data: seq<Byte>, pos: nat, n: nat, suffix: nat)
    requires n <= 32 && suffix < Pow2(n) && Holds(data, pos, Zeros(n) + [true] + ToBits(suffix, n))
    ensures ReadUe(data, pos) == Got(UeValue(n, suffix), pos + 2 * n + 1)
  {
    HoldsConcat(data, pos, Zeros(n) + [true], ToBits(suffix, n));
    ReadZerosThenOne(data, pos, n, 0);
    ReadToBits(data, pos + n + 1, suffix, n);
    ReadUeParts(data, pos, n, suffix);
  }

  /** Every code number of section 9.1 up to 2^32 - 2 is read back, in 2 * floor(log2(v + 1)) + 1 bits. */
  lemma {:induction false} ReadUeInverts(data: seq<Byte>, pos: nat, v: nat)
    requires v < TWO32 - 1 && Holds(data, pos, Ue(v))
    ensures ReadUe(data, pos) == Got(v, pos + 2 * Log2(v + 1) + 1)
    ensures |Ue(v)| == 2 * Log2(v + 1) + 1
  {
    UeValueInverts(v);
    ReadUeCode(data, pos, Log2(v + 1), v + 1 - Pow2(Log2(v + 1)));
  }

  /** The first code number outside that range, 2^32 - 1, is misread as 0. */
  lemma {:induction false} ReadUeMisreads(data: seq<Byte>, pos: nat)
    requires Holds(data, pos, Ue(TWO32 - 1))
    ensures ReadUe(data, pos) == Got(0, pos + 65)
  {
    Log2Of32();
    ReadUeCode(data, pos, 32, 0);
  }

  /** A code that starts with 33 zeros is refused, wherever the data ends. */
  lemma {:induction false} ReadUeRefuses(data: seq<Byte>, pos: nat, zeros: nat)
    requires zeros <= 32 && Holds(data, pos, Zeros(33 - zeros))
    ensures ReadZeros(data, pos, zeros).End? && (zeros == 0 ==> ReadUe(data, pos).End?)
    decreases 33 - zeros
  {
    if zeros < 32 {
      ReadUeRefuses(data, pos + 1, zeros + 1);
    }
  }

  lemma {:induction false} SeValueInverts(k: int)
    requires -0x8000_0000 < k < 0x8000_0000
    ensures var v := if k > 0 then 2 * k - 1 else -2 * k; 0 <= v < TWO32 - 1 && SeValue(v) == k
  {}

  lemma {:induction false} ReadSeInverts(data: seq<Byte>, pos: nat, k: int)
    requires -0x8000_0000 < k < 0x8000_0000 && Holds(data, pos, Se(k))
    ensures ReadSe(data, pos) == Got(k, pos + |Se(k)|)
  {
    SeValueInverts(k);
    ReadUeInverts(data, pos, if k > 0 then 2 * k - 1 else -2 * k);
  }

  lemma {:induction false} ReadFlag(data: seq<Byte>, pos: nat, b: bool)
    requires Holds(data, pos, Flag(b))
    ensures ReadBits(data, pos, 1) == Got(if b then 1 else 0, pos + 1)
  {
    assert ReadBits(data, pos, 0) == Got(0, pos);
  }
}
