/** The base64url encoder that go/pkg/yunmao has twice (authjwt `keyprovider.go`, kms `kms.go`): a
loop over a 32-bit buffer that overflows, against section 5 of RFC 4648 without padding. */
module Base64 {
  import opened Bytes
  import opened Division
  import opened Options
  import opened Seqs

  const UPPER := "ABCDEFGHIJKLMNOPQRSTUVWXYZ"
  const LOWER := "abcdefghijklmnopqrstuvwxyz"
  const ALPHABET := UPPER + LOWER + "0123456789-_"

  type Sextet = v: int | 0 <= v < 64

  // ---------- RFC 4648 ----------

  /** Table 2 of section 5. */
  function CharOf(v: Sextet): char
  {
    if v < 26 then 'A' + v as char
    else if v < 52 then 'a' + (v - 26) as char
    else if v < 62 then '0' + (v - 52) as char
    else if v == 62 then '-'
    else '_'
  }

  function SextetOf(c: char): Option<Sextet>
  {
    if 'A' <= c <= 'Z' then Some((c - 'A') as int)
    else if 'a' <= c <= 'z' then Some((c - 'a') as int + 26)
    else if '0' <= c <= '9' then Some((c - '0') as int + 52)
    else if c == '-' then Some(62)
    else if c == '_' then Some(63)
    else None
  }

  /** Three bytes make four sextets; one or two bytes at the end make two or three, filled with zero
  bits, and no padding. */
  function Sextets(b: seq<Byte>): seq<Sextet>
  {
    if |b| == 0 then []
    else if |b| == 1 then [b[0] / 4, b[0] % 4 * 16]
    else if |b| == 2 then [b[0] / 4, b[0] % 4 * 16 + b[1] / 16, b[1] % 16 * 4]
    else Group(b) + Sextets(b[3..])
  }

  function Group(b: seq<Byte>): (r: seq<Sextet>)
    requires |b| >= 3
    ensures |r| == 4
  {
    [b[0] / 4, b[0] % 4 * 16 + b[1] / 16, b[1] % 16 * 4 + b[2] / 64, b[2] % 64]
  }

  function Chars(v: seq<Sextet>): (r: string)
    ensures |r| == |v|
  {
    seq(|v|, (i: int) requires 0 <= i < |v| => CharOf(v[i]))
  }

  function Encode(b: seq<Byte>): string { Chars(Sextets(b)) }

  /** The first, second and third byte of four sextets. */
  function Byte0(v0: Sextet, v1: Sextet): Byte { v0 as int * 4 + v1 / 16 }

  function Byte1(v1: Sextet, v2: Sextet): Byte { v1 % 16 * 16 + v2 as int / 4 }

  function Byte2(v2: Sextet, v3: Sextet): Byte { v2 % 4 * 64 + v3 as int }

  /** The bytes of a text, if it is the encoding of some: the right length, the right alphabet, and
  zero bits to fill up. */
  function Bytes8(v: seq<Sextet>): Option<seq<Byte>>
  {
    if |v| == 0 then Some([])
    else if |v| == 1 then None
    else if |v| == 2 then
      if v[1] % 16 != 0 then None else Some([Byte0(v[0], v[1])])
    else if |v| == 3 then
      if v[2] % 4 != 0 then None else Some([Byte0(v[0], v[1]), Byte1(v[1], v[2])])
    else
      var rest :- Bytes8(v[4..]);
      Some([Byte0(v[0], v[1]), Byte1(v[1], v[2]), Byte2(v[2], v[3])] + rest)
  }

  function SextetsOf(s: string): Option<seq<Sextet>>
  {
    if s == "" then Some([])
    else
      var v :- SextetOf(s[0]);
      var rest :- SextetsOf(s[1..]);
      Some([v] + rest)
  }

  function Decode(s: string): Option<seq<Byte>>
  {
    var v :- SextetsOf(s);
    Bytes8(v)
  }

  lemma {:induction false} CharRoundTrip(v: Sextet)
    ensures SextetOf(CharOf(v)) == Some(v)
  {}

  lemma {:induction false} SextetRoundTrip(c: char)
    requires SextetOf(c).Some?
    ensures CharOf(SextetOf(c).value) == c
  {}

  lemma {:induction false} CharsRoundTrip(v: seq<Sextet>)
    ensures SextetsOf(Chars(v)) == Some(v)
  {
    if v != [] {
      CharRoundTrip(v[0]);
      CharsRoundTrip(v[1..]);
      assert Chars(v)[1..] == Chars(v[1..]);
      HeadTail(v);
    }
  }

  lemma {:induction false} TextRoundTrip(s: string)
    requires SextetsOf(s).Some?
    ensures Chars(SextetsOf(s).value) == s
  {
    if s != "" {
      SextetRoundTrip(s[0]);
      TextRoundTrip(s[1..]);
      var v, rest := SextetOf(s[0]).value, SextetsOf(s[1..]).value;
      assert Chars([v] + rest) == [CharOf(v)] + Chars(rest);
    }
  }

  lemma {:induction false} GroupInverts(b: seq<Byte>)
    requires |b| >= 3
    ensures var v := Group(b);
            Byte0(v[0], v[1]) == b[0] && Byte1(v[1], v[2]) == b[1] && Byte2(v[2], v[3]) == b[2]
  {
    var v := Group(b);
    DivUnique(v[1], 16, b[0] % 4, b[1] / 16);
    DivUnique(v[2], 4, b[1] % 16, b[2] / 64);
  }

  /** Decoding a group and the rest. */
  lemma {:induction false} OneMoreGroup(g: seq<Sextet>, rest: seq<Sextet>)
    requires |g| == 4
    ensures var r := Bytes8(rest);
            Bytes8(g + rest) == if r.None? then None
                                else Some([Byte0(g[0], g[1]), Byte1(g[1], g[2]), Byte2(g[2], g[3])] + r.value)
  {
    hide Byte0, Byte1, Byte2;
    assert (g + rest)[4..] == rest;
  }

  lemma {:induction false} SextetsRoundTrip(b: seq<Byte>)
    ensures Bytes8(Sextets(b)) == Some(b)
  {
    if |b| >= 3 {
      hide Group, Byte0, Byte1, Byte2;
      GroupInverts(b);
      SextetsRoundTrip(b[3..]);
      OneMoreGroup(Group(b), Sextets(b[3..]));
      assert b == [b[0], b[1], b[2]] + b[3..];
    } else {
      ShortRoundTrip(b);
    }
  }

  lemma {:induction false} ShortRoundTrip(b: seq<Byte>)
    requires |b| < 3
    ensures Bytes8(Sextets(b)) == Some(b)
  {
    hide Bytes8, Sextets;
    ShortSextets(b);
    if |b| == 2 {
      TwoBytes(b[0], b[1]);
      assert b == [b[0], b[1]];
    } else if |b| == 1 {
      OneByte(b[0]);
      assert b == [b[0]];
    } else {
      NoBytes8();
    }
  }

  lemma {:induction false} ShortSextets(b: seq<Byte>)
    requires |b| < 3
    ensures Sextets(b) == if |b| == 0 then [] else if |b| == 1 then [b[0] / 4, b[0] % 4 * 16]
                          else [b[0] / 4, b[0] % 4 * 16 + b[1] / 16, b[1] % 16 * 4]
  {}

  lemma {:induction false} NoBytes8()
    ensures Bytes8([]) == Some([])
  {}

  lemma {:induction false} TwoBytes(x: Byte, y: Byte)
    ensures Bytes8([x / 4, x % 4 * 16 + y / 16, y % 16 * 4]) == Some([x, y])
  {
    hide Byte0, Byte1;
    TwoBytesBack(x, y, x % 4 * 16 + y / 16, y % 16 * 4);
  }

  lemma {:induction false} TwoBytesBack(x: Byte, y: Byte, v1: Sextet, v2: Sextet)
    requires v1 == x % 4 * 16 + y / 16 && v2 == y % 16 * 4
    ensures Byte0(x / 4, v1) == x && Byte1(v1, v2) == y && v2 % 4 == 0
  {
    DivUnique(v1, 16, x % 4, y / 16);
    DivUnique(v2, 4, y % 16, 0);
  }

  lemma {:induction false} OneByte(x: Byte)
    ensures Bytes8([x / 4, x % 4 * 16]) == Some([x])
  {
    var v1 := x % 4 * 16;
    DivUnique(v1, 16, x % 4, 0);
  }

  lemma {:induction false} GroupOfBytes(g: seq<Sextet>, rest: seq<Byte>)
    requires |g| == 4
    ensures Sextets([Byte0(g[0], g[1]), Byte1(g[1], g[2]), Byte2(g[2], g[3])] + rest) == g + Sextets(rest)
  {
    hide Byte0, Byte1, Byte2, Group;
    var b := [Byte0(g[0], g[1]), Byte1(g[1], g[2]), Byte2(g[2], g[3])] + rest;
    assert b[3..] == rest;
    GroupOfThree(g[0], g[1], g[2], g[3], b);
    assert g == [g[0], g[1], g[2], g[3]];
  }

  lemma {:induction false} GroupOfThree(v0: Sextet, v1: Sextet, v2: Sextet, v3: Sextet, b: seq<Byte>)
    requires |b| >= 3 && b[0] == Byte0(v0, v1) && b[1] == Byte1(v1, v2) && b[2] == Byte2(v2, v3)
    ensures Group(b) == [v0, v1, v2, v3]
  {
    DivUnique(b[0], 4, v0, v1 / 16);
    DivUnique(b[1], 16, v1 % 16, v2 / 4);
    DivUnique(b[2], 64, v2 % 4, v3);
  }

  lemma {:induction false} BytesRoundTrip(v: seq<Sextet>)
    requires Bytes8(v).Some?
    ensures Sextets(Bytes8(v).value) == v
  {
    if |v| >= 4 {
      var g := v[..4];
      assert v == g + v[4..];
      OneMoreGroup(g, v[4..]);
      BytesRoundTrip(v[4..]);
      GroupOfBytes(g, Bytes8(v[4..]).value);
    }
  }

  /** Decoding returns the bytes that were encoded. */
  lemma {:induction false} DecodeInverts(b: seq<Byte>)
    ensures Decode(Encode(b)) == Some(b)
  {
    CharsRoundTrip(Sextets(b));
    SextetsRoundTrip(b);
  }

  /** And a text that can be decoded is the only encoding of what it decodes to. */
  lemma {:induction false} EncodeInverts(s: string)
    requires Decode(s).Some?
    ensures Encode(Decode(s).value) == s
  {
    TextRoundTrip(s);
    BytesRoundTrip(SextetsOf(s).value);
  }

  lemma {:induction false} EncodeInjective(a: seq<Byte>, b: seq<Byte>)
    requires Encode(a) == Encode(b)
    ensures a == b
  {
    DecodeInverts(a);
    DecodeInverts(b);
  }

  lemma {:induction false} EncodedLength(b: seq<Byte>)
    ensures |Encode(b)| == (4 * |b| + 2) / 3
  {
    if |b| >= 3 {
      EncodedLength(b[3..]);
    }
  }

  // ---------- the loop ----------

  /** The sextets put out after `n` bytes. */
  function Progress(b: seq<Byte>, n: nat): seq<Sextet>
    requires n <= |b|
  {
    if n == 0 then []
    else
      Progress(b, n - 1)
      + if n % 3 == 1 then [b[n - 1] / 4]
        else if n % 3 == 2 then [b[n - 2] % 4 * 16 + b[n - 1] / 16]
        else [b[n - 2] % 16 * 4 + b[n - 1] / 64, b[n - 1] % 64]
  }

  /** How many bits of the last byte are still to be put out. */
  function Left(n: nat): nat { if n % 3 == 0 then 0 else if n % 3 == 1 then 2 else 4 }

  function LastBits(b: seq<Byte>, n: nat): nat
    requires n <= |b|
  {
    if n % 3 == 0 then 0 else if n % 3 == 1 then b[n - 1] % 4 else b[n - 1] % 16
  }

  function Finish(b: seq<Byte>): seq<Sextet>
  {
    var n := |b|;
    Progress(b, n) + if n % 3 == 0 then [] else if n % 3 == 1 then [b[n - 1] % 4 * 16] else [b[n - 1] % 16 * 4]
  }

  lemma {:induction false} ProgressInGroups(b: seq<Byte>, n: nat)
    requires 3 <= n <= |b|
    ensures Progress(b, n) == Group(b) + Progress(b[3..], n - 3)
    decreases n
  {
    if n == 3 {
      FirstGroup(b);
      hide Progress;
      EmptyConcat(Group(b));
    } else {
      hide Group, Progress;
      ProgressInGroups(b, n - 1);
      ProgressSnoc(b, n - 1);
      ProgressSnoc(b[3..], n - 4);
      SamePiece(b, n - 1);
      ConcatAssoc(Group(b), Progress(b[3..], n - 4), Piece(b, n - 1));
    }
  }

  lemma {:induction false} FirstGroup(b: seq<Byte>)
    requires |b| >= 3
    ensures Progress(b, 3) == Group(b) && Progress(b[3..], 0) == []
  {
    hide Progress, Piece, Group;
    ProgressSnoc(b, 0);
    ProgressSnoc(b, 1);
    ProgressSnoc(b, 2);
    NoProgress(b);
    NoProgress(b[3..]);
    EmptyConcat(Piece(b, 0));
    ThreePieces(b);
  }

  lemma {:induction false} ThreePieces(b: seq<Byte>)
    requires |b| >= 3
    ensures Piece(b, 0) + Piece(b, 1) + Piece(b, 2) == Group(b)
  {
    var x, y, z, w := b[0] / 4, b[0] % 4 * 16 + b[1] / 16, b[1] % 16 * 4 + b[2] / 64, b[2] % 64;
    assert Piece(b, 0) == [x] && Piece(b, 1) == [y] && Piece(b, 2) == [z, w] && Group(b) == [x, y, z, w];
    hide *;
  }

  lemma {:induction false} NoProgress(b: seq<Byte>)
    ensures Progress(b, 0) == []
  {}

  lemma {:induction false} SamePiece(b: seq<Byte>, i: nat)
    requires 3 <= i < |b|
    ensures Piece(b[3..], i - 3) == Piece(b, i)
  {
    SameRemainder(i);
  }

  lemma {:induction false} SameRemainder(n: nat)
    requires n >= 3
    ensures (n - 3) % 3 == n % 3
  {}

  /** Putting out sextets byte by byte comes to the same as group by group. */
  lemma {:induction false} FinishIsSextets(b: seq<Byte>)
    ensures Finish(b) == Sextets(b)
  {
    var n := |b|;
    if n >= 3 {
      FinishIsSextets(b[3..]);
      ProgressInGroups(b, n);
      SameRemainder(n);
      var tail := if n % 3 == 0 then [] else if n % 3 == 1 then [b[n - 1] % 4 * 16] else [b[n - 1] % 16 * 4];
      ConcatAssoc(Group(b), Progress(b[3..], n - 3), tail);
    } else if n == 2 {
      assert Progress(b, 1) == [b[0] / 4];
    } else if n == 1 {
      assert Progress(b, 0) == [];
    }
  }

  function Power2(k: nat): (p: nat)
    ensures p > 0
  {
    if k == 0 then 1 else 2 * Power2(k - 1)
  }

  /** `buf << 8 | x` in 32 bits: the top byte is lost. */
  function Shifted(buf: U32, x: Byte): U32 { buf * 0x100 % TWO32 + x }

  /** The buffer still ends in the pending bits and the new byte. */
  lemma {:induction false} ShiftedEnd(buf: U32, x: Byte)
    ensures Shifted(buf, x) % 0x100 == x
    ensures Shifted(buf, x) % 0x400 == buf % 4 * 0x100 + x
    ensures Shifted(buf, x) % 0x1000 == buf % 16 * 0x100 + x
  {
    var q, y := buf * 0x100 / TWO32, Shifted(buf, x);
    assert buf * 0x100 == q * TWO32 + buf * 0x100 % TWO32;
    DivUnique(y, 0x100, buf - q * 0x100_0000, x);
    DivUnique(y, 0x400, buf / 4 - q * 0x40_0000, buf % 4 * 0x100 + x);
    DivUnique(y, 0x1000, buf / 16 - q * 0x10_0000, buf % 16 * 0x100 + x);
  }

  /** What the inner loop puts out: six bits at a time from the top of the pending ones. */
  function Emitted(buf: U32, bits: nat): seq<Sextet>
  {
    if bits < 6 then [] else [buf / Power2(bits - 6) % 64] + Emitted(buf, bits - 6)
  }

  lemma {:induction false} Powers()
    ensures Power2(0) == 1 && Power2(2) == 4 && Power2(4) == 16 && Power2(6) == 64
  {}

  lemma {:induction false} SixBits(buf: U32)
    ensures buf / 4 % 64 == buf % 0x100 / 4
    ensures buf / 16 % 64 == buf % 0x400 / 16
    ensures buf / 64 % 64 == buf % 0x1000 / 64
    ensures buf % 64 == buf % 0x100 % 64
  {
    Window(buf, 4, 64, 0x100);
    Window(buf, 16, 64, 0x400);
    Window(buf, 64, 64, 0x1000);
    DivUnique(buf, 64, buf / 0x100 * 4 + buf % 0x100 / 64, buf % 0x100 % 64);
  }

  lemma {:induction false} EmittedCases(buf: U32)
    ensures Emitted(buf, 8) == [buf % 0x100 / 4]
    ensures Emitted(buf, 10) == [buf % 0x400 / 16]
    ensures Emitted(buf, 12) == [buf % 0x1000 / 64, buf % 0x100 % 64]
  {
    Powers();
    SixBits(buf);
    assert Emitted(buf, 2) == [] && Emitted(buf, 4) == [] && Emitted(buf, 0) == [];
    assert Emitted(buf, 6) == [buf / Power2(0) % 64] + Emitted(buf, 0);
    assert Emitted(buf, 12) == [buf / Power2(6) % 64] + Emitted(buf, 6);
    EmptyConcat([buf / 4 % 64]);
    EmptyConcat([buf / 16 % 64]);
  }

  /** One byte of the outer loop. */
  lemma {:induction false} ByteEmits(b: seq<Byte>, i: nat, buf: U32)
    requires i < |b| && buf % Power2(Left(i)) == LastBits(b, i)
    ensures var next := Shifted(buf, b[i]);
            && Progress(b, i) + Emitted(next, Left(i) + 8) == Progress(b, i + 1)
            && (Left(i) + 8) % 6 == Left(i + 1)
            && next % Power2(Left(i + 1)) == LastBits(b, i + 1)
  {
    hide Emitted, Power2, Shifted, Progress;
    var next := Shifted(buf, b[i]);
    Powers();
    ShiftedEnd(buf, b[i]);
    EmittedCases(next);
    Remainders(next, b[i]);
    Quotients(buf, b, i);
    ProgressSnoc(b, i);
  }

  function Piece(b: seq<Byte>, i: nat): seq<Sextet>
    requires i < |b|
  {
    if i % 3 == 0 then [b[i] / 4]
    else if i % 3 == 1 then [b[i - 1] % 4 * 16 + b[i] / 16]
    else [b[i - 1] % 16 * 4 + b[i] / 64, b[i] % 64]
  }

  lemma {:induction false} ProgressSnoc(b: seq<Byte>, i: nat)
    requires i < |b|
    ensures Progress(b, i + 1) == Progress(b, i) + Piece(b, i)
  {}

  /** The bits above the ones that stay pending. */
  lemma {:induction false} Quotients(buf: U32, b: seq<Byte>, i: nat)
    requires i < |b|
    ensures var x := b[i]; (buf % 4 * 0x100 + x) / 16 == buf % 4 * 16 + x / 16 && (buf % 16 * 0x100 + x) / 64 == buf % 16 * 4 + x / 64
  {
    var x := b[i];
    DivUnique(buf % 4 * 0x100 + x, 16, buf % 4 * 16 + x / 16, x % 16);
    DivUnique(buf % 16 * 0x100 + x, 64, buf % 16 * 4 + x / 64, x % 64);
  }

  lemma {:induction false} Remainders(buf: U32, x: Byte)
    requires buf % 0x100 == x
    ensures buf % 4 == x % 4 && buf % 16 == x % 16 && buf % 1 == 0
  {
    DivUnique(buf, 4, buf / 0x100 * 64 + x / 4, x % 4);
    DivUnique(buf, 16, buf / 0x100 * 16 + x / 16, x % 16);
  }

  lemma {:induction false} AlphabetIsTable(v: Sextet)
    ensures |ALPHABET| == 64 && ALPHABET[v] == CharOf(v)
  {
    if v < 26 {
      assert ALPHABET[v] == UPPER[v];
      assert v == 0 || v == 1 || v == 2 || v == 3 || v == 4 || v == 5 || v == 6 || v == 7 || v == 8 || v == 9 || v == 10 || v == 11 || v == 12 || v == 13 || v == 14 || v == 15 || v == 16 || v == 17 || v == 18 || v == 19 || v == 20 || v == 21 || v == 22 || v == 23 || v == 24 || v == 25;
    } else if v < 52 {
      assert ALPHABET[v] == LOWER[v - 26];
      assert v == 26 || v == 27 || v == 28 || v == 29 || v == 30 || v == 31 || v == 32 || v == 33 || v == 34 || v == 35 || v == 36 || v == 37 || v == 38 || v == 39 || v == 40 || v == 41 || v == 42 || v == 43 || v == 44 || v == 45 || v == 46 || v == 47 || v == 48 || v == 49 || v == 50 || v == 51;
    } else {
      assert ALPHABET[v] == "0123456789-_"[v - 52];
      assert v == 52 || v == 53 || v == 54 || v == 55 || v == 56 || v == 57 || v == 58 || v == 59 || v == 60 || v == 61 || v == 62 || v == 63;
    }
  }

  lemma {:induction false} CharsConcat(v: seq<Sextet>, w: seq<Sextet>)
    ensures Chars(v + w) == Chars(v) + Chars(w)
  {}

  /** `base64URLEncode`, either copy: the encoding of RFC 4648 although the buffer overflows. */
  method Base64UrlEncode(b: seq<Byte>) returns (out: string)
    ensures out == Encode(b) && |out| == (4 * |b| + 2) / 3
  {
    hide Encode, CharOf, Emitted, Progress, Sextets, Power2, LastBits, ALPHABET;
    out := "";
    var buf: U32 := 0;
    var bits := 0;
    Nothing(b);
    for i := 0 to |b|
      invariant bits == Left(i) && out == Chars(Progress(b, i))
      invariant buf % Power2(bits) == LastBits(b, i)
    {
      ByteEmits(b, i, buf);
      buf := buf * 0x100 % TWO32 + b[i];
      bits := bits + 8;
      ghost var all := bits;
      ghost var done: seq<Sextet> := Progress(b, i);
      while bits >= 6
        invariant bits % 6 == all % 6 && 0 <= bits
        invariant out == Chars(done) && done + Emitted(buf, bits) == Progress(b, i + 1)
      {
        OneEmitted(buf, bits, done);
        bits := bits - 6;
        AlphabetIsTable(buf / Power2(bits) % 64);
        CharsConcat(done, [buf / Power2(bits) % 64]);
        out := out + [ALPHABET[buf / Power2(bits) % 64]];
        done := done + [buf / Power2(bits) % 64];
      }
      NoneEmitted(buf, bits, done);
    }
    if bits > 0 {
      var v := buf * Power2(6 - bits) % TWO32 % 64;
      LastSextet(buf, bits);
      AlphabetIsTable(v);
      CharsConcat(Progress(b, |b|), [v]);
      out := out + [ALPHABET[v]];
    } else {
      EmptyConcat(Progress(b, |b|));
    }
    Finished(b, buf, bits);
    EncodedLength(b);
  }

  lemma {:induction false} Nothing(b: seq<Byte>)
    ensures Left(0) == 0 && Progress(b, 0) == [] && Chars([]) == "" && LastBits(b, 0) == 0 && Power2(0) == 1
  {}

  lemma {:induction false} OneEmitted(buf: U32, bits: nat, done: seq<Sextet>)
    requires bits >= 6
    ensures done + Emitted(buf, bits) == done + [buf / Power2(bits - 6) % 64] + Emitted(buf, bits - 6)
    ensures Chars([buf / Power2(bits - 6) % 64]) == [CharOf(buf / Power2(bits - 6) % 64)]
  {
    ConcatAssoc(done, [buf / Power2(bits - 6) % 64], Emitted(buf, bits - 6));
  }

  lemma {:induction false} NoneEmitted(buf: U32, bits: nat, done: seq<Sextet>)
    requires bits < 6
    ensures done + Emitted(buf, bits) == done
  {}

  lemma {:induction false} LastSextet(buf: U32, bits: nat)
    requires bits == 2 || bits == 4
    ensures buf * Power2(6 - bits) % TWO32 % 64 == buf % Power2(bits) * Power2(6 - bits)
    ensures Chars([buf * Power2(6 - bits) % TWO32 % 64]) == [CharOf(buf * Power2(6 - bits) % TWO32 % 64)]
  {
    Powers();
    TailSextet(buf);
  }

  lemma {:induction false} TailSextet(buf: U32)
    ensures buf * 16 % TWO32 % 64 == buf % 4 * 16 && buf * 4 % TWO32 % 64 == buf % 16 * 4
  {
    var y, z := buf * 16 % TWO32, buf * 4 % TWO32;
    var q, r := buf * 16 / TWO32, buf * 4 / TWO32;
    assert buf * 16 == q * TWO32 + y && buf * 4 == r * TWO32 + z;
    DivUnique(y, 64, buf / 4 - q * 0x400_0000, buf % 4 * 16);
    DivUnique(z, 64, buf / 16 - r * 0x400_0000, buf % 16 * 4);
  }

  /** The encoding is what the loop put out and the filled-up rest. */
  lemma {:induction false} Finished(b: seq<Byte>, buf: U32, bits: nat)
    requires bits == Left(|b|) && buf % Power2(bits) == LastBits(b, |b|)
    ensures Encode(b) == Chars(Progress(b, |b|) + if bits > 0 then [buf % Power2(bits) * Power2(6 - bits)] else [])
  {
    Powers();
    FinishIsSextets(b);
  }

  // ---------- the public exponent ----------

  /** Big-endian bytes without leading zeros, as `big.Int.Bytes` gives them. */
  function MinimalBytes(n: nat): seq<Byte>
  {
    if n == 0 then [] else MinimalBytes(n / 0x100) + [n % 0x100]
  }

  function Abs(e: int): nat { if e < 0 then -e else e }

  type Int64 = e: int | -0x8000_0000_0000_0000 <= e <= 0x7fff_ffff_ffff_ffff

  /** `base64UrlInt` of authjwt: the bytes of the absolute value. */
  method AuthUrlInt(e: Int64) returns (out: string)
    ensures out == Encode(MinimalBytes(Abs(e)))
  {
    out := Base64UrlEncode(MinimalBytes(Abs(e)));
  }

  function WithoutZeros(b: seq<Byte>): seq<Byte>
  {
    if |b| > 1 && b[0] == 0 then WithoutZeros(b[1..]) else b
  }

  /** The exponent as four bytes, and without leading zeros but for the last byte. */
  function KmsBytes(e: Int64): seq<Byte> { WithoutZeros(Be32(e % TWO32)) }

  /** The `k` low bytes of `e`, most significant first. */
  function LowBytes(e: Int64, k: nat): seq<Byte>
    requires k <= 4
  {
    Limits();
    if k == 0 then [] else [e / Limit(k - 1) % 0x100] + LowBytes(e, k - 1)
  }

  lemma {:induction false} Limits()
    ensures Limit(0) == 1 && Limit(1) == 0x100 && Limit(2) == 0x1_0000 && Limit(3) == 0x100_0000 && Limit(4) == TWO32
  {
    assert Limit(1) == 0x100 * Limit(0);
  }

  lemma {:induction false} ShiftedOnce(e: Int64, k: nat)
    requires k <= 3
    ensures Limit(k) > 0 && Limit(k + 1) > 0 && e / Limit(k) / 0x100 == e / Limit(k + 1)
  {
    Limits();
    assert Limit(k) > 0 && Limit(k + 1) == 0x100 * Limit(k);
    var m := Limit(k);
    hide Limit;
    var a, c := e / m, e / m / 0x100;
    assert e == (c * 0x100 + a % 0x100) * m + e % m;
    assert (c * 0x100 + a % 0x100) * m == c * (0x100 * m) + a % 0x100 * m;
    DivUnique(e, 0x100 * m, c, a % 0x100 * m + e % m);
  }

  lemma {:induction false} FourLowBytes(e: Int64)
    ensures LowBytes(e, 4) == Be32(e % TWO32)
  {
    Limits();
    var v := e % TWO32;
    WordBytes4(v);
    SameLowBytes(e);
    assert LowBytes(e, 0) == [] && LowBytes(e, 1) == [e / 1 % 0x100] + [];
    assert LowBytes(e, 2) == [e / 0x100 % 0x100, e % 0x100];
    assert LowBytes(e, 3) == [e / 0x1_0000 % 0x100, e / 0x100 % 0x100, e % 0x100];
  }

  lemma {:induction false} SameLowBytes(e: Int64)
    ensures var v := e % TWO32;
            && e / 0x100_0000 % 0x100 == v / 0x100_0000 && e / 0x1_0000 % 0x100 == v / 0x1_0000 % 0x100
            && e / 0x100 % 0x100 == v / 0x100 % 0x100 && e % 0x100 == v % 0x100
  {
    var q, v := e / TWO32, e % TWO32;
    LowByte(e, q, v, 1, 0x100_0000);
    LowByte(e, q, v, 0x100, 0x1_0000);
    LowByte(e, q, v, 0x1_0000, 0x100);
    LowByte(e, q, v, 0x100_0000, 1);
  }

  lemma {:induction false} LowByte(e: int, q: int, v: U32, a: nat, b: nat)
    requires a > 0 && b > 0 && e == q * TWO32 + v && a * (b * 0x100) == TWO32
    ensures e / a % 0x100 == v / a % 0x100
  {
    var w, c := v / a, v / a / 0x100;
    assert q * TWO32 == (q * (b * 0x100)) * a;
    assert (q * (b * 0x100) + w) * a == (q * (b * 0x100)) * a + w * a;
    DivUnique(e, a, q * (b * 0x100) + w, v % a);
    assert (q * b + c) * 0x100 == q * (b * 0x100) + c * 0x100;
    DivUnique(q * (b * 0x100) + w, 0x100, q * b + c, w % 0x100);
  }

  lemma {:induction false} WordBytes4(v: U32)
    ensures Be32(v) == [v / 0x100_0000, v / 0x1_0000 % 0x100, v / 0x100 % 0x100, v % 0x100]
  {
    var a := v / 0x100;
    var b := a / 0x100;
    var c := b / 0x100;
    assert Be(v, 4) == Be(a, 3) + [v % 0x100] && Be(a, 3) == Be(b, 2) + [a % 0x100];
    assert Be(b, 2) == Be(c, 1) + [b % 0x100] && Be(c, 1) == [] + [c % 0x100];
  }

  /** `base64UrlInt` of kms: an array of four bytes, filled from its end by shifting `e`. */
  method KmsUrlInt(e: Int64) returns (out: string)
    ensures out == Encode(KmsBytes(e))
  {
    var b := new Byte[4](_ => 0);
    var rest: int := e;
    var i := 3;
    while i >= 0
      invariant -1 <= i <= 3 && b[i + 1..] == LowBytes(e, 3 - i) && Limit(3 - i) > 0 && rest == e / Limit(3 - i)
      decreases i
    {
      ShiftedOnce(e, 3 - i as nat);
      ghost var tail := b[i + 1..];
      b[i] := rest % 0x100; // e & 0xff
      rest := rest / 0x100; // e >> 8 rounds down
      assert b[i + 1..] == tail && b[i..] == [b[i]] + tail;
      i := i - 1;
    }
    var s := b[..];
    assert s == b[0..];
    FourLowBytes(e);
    ghost var all := s;
    while |s| > 1 && s[0] == 0
      invariant |s| >= 1 && WithoutZeros(s) == WithoutZeros(all)
      decreases |s|
    {
      s := s[1..];
    }
    out := Base64UrlEncode(s);
  }

  // ---------- where the two exponents agree ----------

  /** A number is what its minimal bytes read as. */
  lemma {:induction false} MinimalBytesRead(n: nat)
    ensures ReadBe(MinimalBytes(n)) == n && (n > 0 ==> MinimalBytes(n)[0] != 0)
  {
    if n > 0 {
      MinimalBytesRead(n / 0x100);
      assert MinimalBytes(n)[..|MinimalBytes(n)| - 1] == MinimalBytes(n / 0x100);
    }
  }

  lemma {:induction false} ZeroInFront(b: seq<Byte>)
    requires b != [] && b[0] == 0
    ensures ReadBe(b) == ReadBe(b[1..])
    decreases |b|
  {
    if |b| == 1 {
      assert b[..0] == [] && b[1..] == [];
    } else {
      ZeroInFront(b[..|b| - 1]);
      assert b[..|b| - 1][1..] == b[1..][..|b[1..]| - 1];
    }
  }

  lemma {:induction false} WithoutZerosRead(b: seq<Byte>)
    ensures ReadBe(WithoutZeros(b)) == ReadBe(b)
    ensures b != [] ==> WithoutZeros(b) != [] && (|WithoutZeros(b)| > 1 ==> WithoutZeros(b)[0] != 0)
    decreases |b|
  {
    if |b| > 1 && b[0] == 0 {
      WithoutZerosRead(b[1..]);
      ZeroInFront(b);
    }
  }

  /** Bytes that do not start with zero are the minimal ones of their value. */
  lemma {:induction false} MinimalOfRead(b: seq<Byte>)
    requires b != [] ==> b[0] != 0
    ensures MinimalBytes(ReadBe(b)) == b
    decreases |b|
  {
    if b != [] {
      var init := b[..|b| - 1];
      MinimalOfRead(init);
      assert ReadBe(b) / 0x100 == ReadBe(init) && ReadBe(b) % 0x100 == b[|b| - 1];
      if |b| > 1 {
        NotZero(init);
      }
      assert b == init + [b[|b| - 1]];
    }
  }

  lemma {:induction false} NotZero(b: seq<Byte>)
    requires b != [] && b[0] != 0
    ensures ReadBe(b) > 0
    decreases |b|
  {
    if |b| > 1 {
      NotZero(b[..|b| - 1]);
    }
  }

  lemma {:induction false} KmsBytesRead(e: Int64)
    ensures ReadBe(KmsBytes(e)) == e % TWO32
    ensures e % TWO32 > 0 ==> KmsBytes(e) == MinimalBytes(e % TWO32)
    ensures e % TWO32 == 0 ==> KmsBytes(e) == [0]
  {
    hide Be32, WithoutZeros;
    var v := e % TWO32;
    WithoutZerosRead(Be32(v));
    WordRead(v);
    var r := KmsBytes(e);
    assert |r| == 1 && r[0] == 0 ==> r == [0];
    ZeroRead();
    if v > 0 {
      MinimalOfRead(r);
    } else {
      if |r| > 1 || r[0] != 0 {
        NotZero(r);
      }
    }
  }

  lemma {:induction false} ZeroRead()
    ensures ReadBe([0]) == 0
  {
    assert [0][..0] == [];
  }

  lemma {:induction false} WordRead(v: U32)
    ensures ReadBe(Be32(v)) == v && |Be32(v)| == 4
  {
    Limits();
    ReadBeInverts(v, 4);
  }

  /** The two copies of `base64UrlInt` give the same text exactly for the exponents from 1 to
  2^32 - 1, and for -2^31, whose absolute value happens to be its four bytes. */
  lemma {:induction false} ExponentsAgree(e: Int64)
    ensures Encode(MinimalBytes(Abs(e))) == Encode(KmsBytes(e))
       <==> 1 <= e < TWO32 || e == -0x8000_0000
  {
    hide Encode, MinimalBytes, KmsBytes;
    var n := Abs(e);
    if Encode(MinimalBytes(n)) == Encode(KmsBytes(e)) {
      EncodeInjective(MinimalBytes(n), KmsBytes(e));
    }
    KmsBytesRead(e);
    MinimalBytesRead(n);
    if n == 0 {
      NoBytes();
    }
  }

  lemma {:induction false} NoBytes()
    ensures MinimalBytes(0) == []
  {}
}
