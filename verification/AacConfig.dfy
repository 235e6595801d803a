/** AAC set-up data (yunmao-media-edge `fmp4.rs`): reading an AudioSpecificConfig, written as
ISO/IEC 14496-3 section 1.6.2.1 lays it down, and the expandable sizes of ISO/IEC 14496-1 section
8.3.3 that `esds` descriptors carry. */
module AacConfig {
  import opened Bytes
  import opened Options
  import opened Division
  import opened Seqs

  datatype Config = Config(objectType: Byte, sampleRate: U32, channels: Byte, asc: seq<Byte>)

  const RATES: seq<U32> := [96000, 88200, 64000, 48000, 44100, 32000, 24000, 22050, 16000, 12000, 11025, 8000, 7350]

  const FALLBACK_RATE: U32 := 44100

  // ---------- AudioSpecificConfig ----------

  /** The first 13 bits: object type (5), sampling frequency index (4), channel configuration (4);
  three more bits of whatever follows fill the second byte. */
  function WrittenAsc(objectType: Byte, index: Byte, channels: Byte, low: Byte, more: seq<Byte>): seq<Byte>
    requires objectType < 32 && index < 16 && channels < 16 && low < 8
  {
    [objectType * 8 + index / 2, index % 2 * 128 + channels * 8 + low] + more
  }

  /** `AacConfig::from_flv_aac_seq`; `None` stands for its errors. */
  method FromFlvAacSeq(tag: seq<Byte>) returns (r: Option<Config>)
    ensures r.Some? <==> |tag| >= 4 && tag[0] / 16 == 10 && tag[1] == 0
    ensures r.Some? ==> r == Some(ConfigOf(tag[2..]))
  {
    if |tag| < 4 || tag[0] / 16 != 10 || tag[1] != 0 {
      return None;
    }
    r := Some(ConfigOf(tag[2..]));
  }

  function ConfigOf(asc: seq<Byte>): Config
    requires |asc| >= 2
  {
    var b0, b1 := asc[0], asc[1];
    var index := b0 % 8 * 2 + b1 / 128;
    Config(b0 / 8, if index < |RATES| then RATES[index] else FALLBACK_RATE, b1 / 8 % 16, asc)
  }

  /** Table 1.18 of ISO/IEC 14496-3: three rates, each halved again and again, and one that stands alone. */
  function TableRate(index: nat): U32
    requires index < 13
  {
    if index == 12 then 7_350
    else if index >= 3 then TableRate(index - 3) / 2
    else if index == 0 then 96_000 else if index == 1 then 88_200 else 64_000
  }

  lemma {:induction false} RatesAreTheTable(index: nat)
    requires index < 13
    ensures RATES[index] == TableRate(index)
  {
    if index < 12 && index >= 3 {
      RatesAreTheTable(index - 3);
    }
  }

  /** Reading recovers the object type, the channels and, through the table, the sample rate. The
  indexes 13 and 14, which are reserved, and 15, after which a rate follows in full, read as 44.1 kHz. */
  lemma {:induction false} AscRoundTrip(objectType: Byte, index: Byte, channels: Byte, low: Byte, more: seq<Byte>)
    requires objectType < 32 && index < 16 && channels < 16 && low < 8
    ensures var asc := WrittenAsc(objectType, index, channels, low, more);
            ConfigOf(asc) == Config(objectType, if index < 13 then TableRate(index) else 44_100, channels, asc)
  {
    if index < 13 {
      RatesAreTheTable(index);
    }
    var b0, b1 := objectType * 8 + index / 2, index % 2 * 128 + channels * 8 + low;
    DivUnique(b0, 8, objectType, index / 2);
    DivUnique(b1, 128, index % 2, channels * 8 + low);
    DivUnique(b1, 8, index % 2 * 16 + channels, low);
    DivUnique(index % 2 * 16 + channels, 16, index % 2, channels);
  }

  // ---------- expandable sizes ----------

  /** Reading a size: its value and how many bytes it took. */
  function ReadSize(s: seq<Byte>, i: nat, value: nat): Option<(nat, nat)>
    decreases |s| - i
  {
    if i >= |s| then None
    else if s[i] < 0x80 then Some((value * 0x80 + s[i] as int, i + 1))
    else ReadSize(s, i + 1, value * 0x80 + s[i] as int - 0x80)
  }

  /** All bytes but the last say that another follows. */
  ghost predicate Chained(s: seq<Byte>)
  {
    s != [] && s[|s| - 1] < 0x80 && forall k :: 0 <= k < |s| - 1 ==> s[k] >= 0x80
  }

  /** The value of seven-bit groups. */
  function ValueOf(s: seq<Byte>): nat
  {
    if s == [] then 0 else ValueOf(s[..|s| - 1]) * 0x80 + s[|s| - 1] as int % 0x80
  }

  lemma {:induction false} ReadChained(s: seq<Byte>, i: nat)
    requires Chained(s) && i < |s|
    ensures ReadSize(s, i, ValueOf(s[..i])) == Some((ValueOf(s), |s|))
    decreases |s| - i
  {
    assert s[..i + 1][..i] == s[..i];
    if i == |s| - 1 {
      assert s[..i + 1] == s;
    } else {
      ReadChained(s, i + 1);
    }
  }

  /** `put_descriptor_len`: at most four groups, filled from the end of a four-byte array. */
  method PutDescriptorLen(n: U32) returns (r: seq<Byte>)
    ensures Chained(r) && ValueOf(r) == n % 0x1000_0000
    ensures |r| == if n < 0x80 then 1 else if n < 0x4000 then 2 else if n < 0x20_0000 then 3 else 4
  {
    hide ValueOf, Chained, Power128;
    var bytes := new Byte[4](_ => 0);
    var rest: nat := n;
    var idx := 3;
    bytes[3] := rest % 0x80;
    rest := rest / 0x80;
    FirstGroup(n);
    Powers128();
    assert bytes[3..] == [(n % 0x80) as Byte];
    while rest > 0 && idx > 0
      invariant 0 <= idx <= 3 && rest == n / Power128(4 - idx)
      invariant Chained(bytes[idx..]) && ValueOf(bytes[idx..]) == n % Power128(4 - idx)
      invariant idx < 3 ==> n >= Power128(3 - idx)
      decreases idx
    {
      ghost var tail := bytes[idx..];
      OneMoreGroup(n, 4 - idx, tail);
      idx := idx - 1;
      bytes[idx] := rest % 0x80 + 0x80;
      rest := rest / 0x80;
      assert bytes[idx..] == [bytes[idx]] + tail;
    }
    r := bytes[idx..];
    Enough(n, 4 - idx);
  }

  lemma {:induction false} FirstGroup(n: nat)
    ensures Chained([n % 0x80]) && ValueOf([n % 0x80]) == n % 0x80
  {
    assert [(n % 0x80) as Byte][..0] == [];
  }

  /** `128^k` */
  function Power128(k: nat): (p: nat)
    ensures p > 0
  {
    if k == 0 then 1 else 0x80 * Power128(k - 1)
  }

  lemma {:induction false} Powers128()
    ensures Power128(1) == 0x80 && Power128(2) == 0x4000 && Power128(3) == 0x20_0000 && Power128(4) == 0x1000_0000
  {
    assert Power128(0) == 1;
  }

  /** A group in front of a tail of `k` groups. */
  lemma {:induction false} OneMoreGroup(n: nat, k: nat, tail: seq<Byte>)
    requires |tail| == k && Chained(tail) && ValueOf(tail) == n % Power128(k) && n / Power128(k) > 0
    ensures var g := n / Power128(k) % 0x80;
            && Chained([g + 0x80] + tail) && ValueOf([g + 0x80] + tail) == n % Power128(k + 1)
            && n / Power128(k) / 0x80 == n / Power128(k + 1) && n >= Power128(k)
  {
    hide ValueOf, Power128;
    var m := Power128(k);
    PowerNext(k);
    var q := n / m;
    var g, c := q % 0x80, q / 0x80;
    FrontGroup(g + 0x80, tail);
    assert n == q * m + n % m && q * m == (c * 0x80 + g) * m;
    assert (c * 0x80 + g) * m == c * (0x80 * m) + g * m;
    GroupBound(g, m, n % m);
    DivUnique(n, 0x80 * m, c, g * m + n % m);
    MulAtLeast(q, m);
  }

  lemma {:induction false} GroupBound(g: nat, m: nat, r: nat)
    requires g < 0x80 && r < m
    ensures g * m + r < 0x80 * m
  {
    MulMonotone(0x7f, g, m);
  }

  lemma {:induction false} PowerNext(k: nat)
    ensures Power128(k + 1) == 0x80 * Power128(k)
  {}

  lemma {:induction false} FrontGroup(b: Byte, tail: seq<Byte>)
    requires b >= 0x80
    ensures ValueOf([b] + tail) == (b - 0x80) * Power128(|tail|) + ValueOf(tail)
    decreases |tail|
  {
    var s := [b] + tail;
    if tail == [] {
      assert s[..0] == [];
      assert ValueOf(s) == ValueOf([]) * 0x80 + b % 0x80;
    } else {
      var init := tail[..|tail| - 1];
      assert s[..|s| - 1] == [b] + init;
      FrontGroup(b, init);
      PowerNext(|init|);
      assert (b - 0x80) * Power128(|init|) * 0x80 == (b - 0x80) * (0x80 * Power128(|init|));
    }
  }

  /** After the loop nothing is left, or four groups are full. */
  lemma {:induction false} Enough(n: U32, k: nat)
    requires 1 <= k <= 4 && (n / Power128(k) == 0 || k == 4)
    ensures n % Power128(k) == n % 0x1000_0000
  {
    Powers128();
    if n / Power128(k) == 0 {
      assert n < Power128(k) by { Small(n, Power128(k)); }
    }
  }

  lemma {:induction false} Small(n: nat, m: nat)
    requires m > 0 && n / m == 0
    ensures n < m && n % m == n
  {}

  /** A size is read back exactly if it is below 2^28; the four top bits of a larger one are lost. */
  lemma {:induction false} SizeRoundTrip(n: U32, r: seq<Byte>)
    requires Chained(r) && ValueOf(r) == n % 0x1000_0000
    ensures ReadSize(r, 0, 0) == Some((n % 0x1000_0000, |r|))
    ensures ReadSize(r, 0, 0) == Some((n as nat, |r|)) <==> n < 0x1000_0000
  {
    assert r[..0] == [];
    ReadChained(r, 0);
  }
}
