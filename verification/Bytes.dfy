/** Bytes, fixed-width unsigned integers and their big-endian encodings.

Every bit operation of the modelled code is written as arithmetic on these
bounded integers: `x >> k` is `x / 2^k`, `x & (2^k - 1)` is `x % 2^k`, and `|` of
operands with no common bit is `+`. */
module Bytes {
  type Byte = b: int | 0 <= b < 0x100
  type U16 = v: int | 0 <= v < 0x1_0000
  type U32 = v: int | 0 <= v < 0x1_0000_0000
  type U64 = v: int | 0 <= v < 0x1_0000_0000_0000_0000

  const TWO32: int := 0x1_0000_0000

  function Min(a: int, b: int): int { if a < b then a else b }

  function Max(a: int, b: int): int { if a < b then b else a }

  function Be16(v: U16): (r: seq<Byte>)
    ensures |r| == 2
  {
    [v / 0x100, v % 0x100]
  }

  /** `n` bytes, most significant first. */
  function Be(v: nat, n: nat): (r: seq<Byte>)
    ensures |r| == n
    decreases v, n
  {
    if n == 0 then [] else Be(v / 0x100, n - 1) + [v % 0x100]
  }

  function ReadBe(s: seq<Byte>): nat
  {
    if s == [] then 0 else ReadBe(s[..|s| - 1]) * 0x100 + s[|s| - 1] as int
  }

  function Be32(v: U32): (r: seq<Byte>)
    ensures |r| == 4
  {
    Be(v, 4)
  }

  function Be64(v: U64): (r: seq<Byte>)
    ensures |r| == 8
  {
    Be32(v / TWO32) + Be32(v % TWO32)
  }

  function ReadBe16(s: seq<Byte>, i: nat): U16
    requires i + 2 <= |s|
  {
    (s[i] as int) * 0x100 + s[i + 1]
  }

  function ReadBe32(s: seq<Byte>, i: nat): U32
    requires i + 4 <= |s|
  {
    ReadBeBound(s[i..i + 4]);
    assert Limit(4) == TWO32;
    ReadBe(s[i..i + 4])
  }

  function ReadBe64(s: seq<Byte>, i: nat): U64
    requires i + 8 <= |s|
  {
    ReadBe32(s, i) * TWO32 + ReadBe32(s, i + 4)
  }

  /** `256^n` */
  function Limit(n: nat): nat
  {
    if n == 0 then 1 else 0x100 * Limit(n - 1)
  }

  lemma {:induction false} ReadBeBound(s: seq<Byte>)
    ensures ReadBe(s) < Limit(|s|)
  {
    if s != [] { ReadBeBound(s[..|s| - 1]); }
  }

  lemma {:induction false} ReadBeInverts(v: nat, n: nat)
    requires v < Limit(n)
    ensures ReadBe(Be(v, n)) == v
    decreases n
  {
    if n > 0 {
      ReadBeInverts(v / 0x100, n - 1);
      assert Be(v, n)[..n - 1] == Be(v / 0x100, n - 1);
    }
  }

  lemma {:induction false} BeInverts(s: seq<Byte>)
    ensures Be(ReadBe(s), |s|) == s
    decreases |s|
  {
    if s != [] {
      var init := s[..|s| - 1];
      BeInverts(init);
      assert ReadBe(s) / 0x100 == ReadBe(init) && ReadBe(s) % 0x100 == s[|s| - 1];
      assert s == init + [s[|s| - 1]];
    }
  }

  /** The first and the last byte of a word. */
  lemma {:induction false} Be32Ends(v: U32)
    ensures Be32(v)[0] == v / 0x100_0000 && Be32(v)[3] == v % 0x100
  {
    var a := v / 0x100;
    var b := a / 0x100;
    var c := b / 0x100;
    assert Be(v, 4) == Be(a, 3) + [v % 0x100] && Be(a, 3) == Be(b, 2) + [a % 0x100];
    assert Be(b, 2) == Be(c, 1) + [b % 0x100] && Be(c, 1) == [] + [c % 0x100];
    assert c == v / 0x100_0000 && c < 0x100;
  }

  /** Reading a big-endian word back from anywhere inside a byte string. */
  lemma {:induction false} Be32At(s: seq<Byte>, i: nat, v: U32)
    requires i + 4 <= |s| && s[i..i + 4] == Be32(v)
    ensures ReadBe32(s, i) == v
  {
    assert Limit(4) == TWO32;
    ReadBeInverts(v, 4);
  }

  lemma {:induction false} Be32Injective(v: U32, w: U32)
    requires Be32(v) == Be32(w)
    ensures v == w
  {
    assert Limit(4) == TWO32;
    ReadBeInverts(v, 4);
    ReadBeInverts(w, 4);
  }

  /** The encoding of a word read from a byte string is the bytes it was read from. */
  lemma {:induction false} Be32OfRead(s: seq<Byte>, i: nat)
    requires i + 4 <= |s|
    ensures Be32(ReadBe32(s, i)) == s[i..i + 4]
  {
    BeInverts(s[i..i + 4]);
  }
}

/** Facts about quotients and remainders. */
module Division {
  lemma {:induction false} DivUnique(x: int, m: int, q: int, r: int)
    requires m > 0 && x == q * m + r && 0 <= r < m
    ensures x / m == q && x % m == r
  {
    var a := x / m;
    assert x == a * m + x % m;
    assert (a - q) * m == r - x % m;
    if a > q {
      MulAtLeast(a - q, m);
    }
    if a < q {
      MulAtLeast(q - a, m);
    }
  }

  lemma {:induction false} MulAtLeast(d: int, m: int)
    requires d >= 1 && m > 0
    ensures d * m >= m
  {}

  lemma {:induction false} MulMonotone(s: int, b: int, a: int)
    requires s >= b && a > 0
    ensures s * a >= b * a
  {}

  /** Digits of `x` in the middle: dropping the low ones first or the high ones first. */
  lemma {:induction false} Window(x: nat, a: nat, b: nat, m: nat)
    requires a > 0 && b > 0 && m == a * b
    ensures m > 0 && x / a % b == x % m / a
  {
    MulAtLeast(a, b);
    var q, r := x / m, x % m;
    var s, t := r / a, r % a;
    if s >= b {
      MulMonotone(s, b, a);
    }
    assert (q * b + s) * a == q * (a * b) + s * a;
    DivUnique(x, a, q * b + s, t);
    DivUnique(q * b + s, b, q, s);
  }

  lemma {:induction false} ModMultiple(x: nat, q: nat, m: nat)
    requires m > 0
    ensures (x + q * m) % m == x % m
  {
    var a := x / m;
    assert (a + q) * m == a * m + q * m;
    DivUnique(x + q * m, m, a + q, x % m);
  }

  /** Adding modulo `m`, whether the first summand was reduced or not. */
  lemma {:induction false} ModAdd(n: nat, k: nat, m: nat)
    requires m > 0
    ensures (n % m + k) % m == (n + k) % m
  {
    assert n == n / m * m + n % m;
    ModMultiple(n % m + k, n / m, m);
  }
}

/** The optional value used throughout the model. */
module Options {
  datatype Option<+T> = None | Some(value: T) {
    predicate IsFailure() { None? }

    function PropagateFailure<U>(): Option<U>
      requires None?
    {
      None
    }

    function Extract(): T
      requires Some?
    {
      value
    }
  }
}

/** Facts about sequences that proofs use one at a time. */
module Seqs {
  /** The two parts of a slice that is a concatenation. */
  lemma {:induction false} SplitSlice<T>(s: seq<T>, i: nat, j: nat, x: seq<T>, y: seq<T>)
    requires i <= j <= |s| && s[i..j] == x + y
    ensures i + |x| <= j && s[i..i + |x|] == x && s[i + |x|..j] == y
  {
    assert s[i..i + |x|] == s[i..j][..|x|];
    assert s[i + |x|..j] == s[i..j][|x|..];
  }

  lemma {:induction false} JoinSlices<T>(s: seq<T>, i: nat, j: nat, k: nat)
    requires i <= j <= k <= |s|
    ensures s[i..k] == s[i..j] + s[j..k]
  {}

  lemma {:induction false} ConcatAssoc<T>(x: seq<T>, y: seq<T>, z: seq<T>)
    ensures x + (y + z) == x + y + z
  {}

  lemma {:induction false} ConcatAssoc4<T>(s: seq<T>, a: seq<T>, b: seq<T>, c: seq<T>, d: seq<T>)
    ensures s + a + b + c + d == s + (a + b + c + d)
  {}

  lemma {:induction false} PrefixSplit<T>(b: seq<T>, s: seq<T>)
    requires b <= s
    ensures s == b + s[|b|..]
  {}

  lemma {:induction false} EmptyConcat<T>(s: seq<T>)
    ensures [] + s == s && s + [] == s
  {}

  lemma {:induction false} HeadTail<T>(s: seq<T>)
    requires s != []
    ensures s == [s[0]] + s[1..]
  {}

  /** The last `n` elements, or all if there are fewer. */
  function LastOf<T>(s: seq<T>, n: nat): seq<T>
  {
    if |s| <= n then s else s[|s| - n..]
  }

  /** Pushing to a list that keeps its last `n` elements. */
  lemma {:induction false} LastSnoc<T>(s: seq<T>, x: T, n: nat)
    ensures LastOf(s + [x], n) == (var grown := LastOf(s, n) + [x]; if |grown| > n then grown[1..] else grown)
  {}

  ghost predicate Distinct<T>(s: seq<T>)
  {
    forall i, j :: 0 <= i < j < |s| ==> s[i] != s[j]
  }

  /** `a` is `b` with some elements left out. */
  predicate Subsequence<T(==)>(a: seq<T>, b: seq<T>)
  {
    a == []
    || (b != []
        && (Subsequence(a, b[..|b| - 1])
            || (a[|a| - 1] == b[|b| - 1] && Subsequence(a[..|a| - 1], b[..|b| - 1]))))
  }

  lemma {:induction false} TakenOrNot<T>(a: seq<T>, b: seq<T>, x: T)
    requires Subsequence(a, b)
    ensures Subsequence(a, b + [x]) && Subsequence(a + [x], b + [x])
  {
    assert (b + [x])[..|b|] == b && (a + [x])[..|a|] == a;
  }

  lemma {:induction false} TakeAllOrNone<T>(a: seq<T>, b: seq<T>, x: seq<T>)
    requires Subsequence(a, b)
    ensures Subsequence(a, b + x) && Subsequence(a + x, b + x)
  {
    if x == [] {
      assert a + x == a && b + x == b;
    } else {
      var init, last := x[..|x| - 1], x[|x| - 1];
      TakeAllOrNone(a, b, init);
      TakenOrNot(a, b + init, last);
      TakenOrNot(a + init, b + init, last);
      assert b + x == b + init + [last] && a + x == a + init + [last];
    }
  }
}
