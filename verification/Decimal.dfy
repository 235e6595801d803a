/** Decimal counters as `cache.go` and `cooldown.go` (go/pkg/yunmao/cache) write and read them. */
module Decimal {
  import opened Division

  function Digit(d: nat): char
    requires d < 10
  {
    '0' + d as char
  }

  predicate IsDigit(ch: char) { '0' <= ch <= '9' }

  function DigitValue(ch: char): (d: nat)
    requires IsDigit(ch)
    ensures d < 10
  {
    (ch - '0') as int
  }

  /** The decimal digits of `n`, without leading zeros. */
  function Digits(n: nat): (s: string)
    ensures s != ""
  {
    if n < 10 then [Digit(n)] else Digits(n / 10) + [Digit(n % 10)]
  }

  /** Reading on from value `n`: the digits of `s` up to the first character that is none. */
  function Parse(n: nat, s: string): nat
    decreases |s|
  {
    if s == "" || !IsDigit(s[0]) then n else Parse(n * 10 + DigitValue(s[0]), s[1..])
  }

  lemma {:induction false} DigitRoundTrip(d: nat)
    requires d < 10
    ensures IsDigit(Digit(d)) && DigitValue(Digit(d)) == d
  {}

  lemma {:induction false} ParseConcat(n: nat, s: string, d: char)
    requires forall i :: 0 <= i < |s| ==> IsDigit(s[i])
    requires IsDigit(d)
    ensures Parse(n, s + [d]) == Parse(n, s) * 10 + DigitValue(d)
    decreases |s|
  {
    if s == "" {
      assert s + [d] == [d] && [d][1..] == [];
    } else {
      assert (s + [d])[1..] == s[1..] + [d];
      ParseConcat(n * 10 + DigitValue(s[0]), s[1..], d);
    }
  }

  lemma {:induction false} DigitsAreDigits(n: nat)
    ensures forall i :: 0 <= i < |Digits(n)| ==> IsDigit(Digits(n)[i])
  {
    if n >= 10 {
      DigitsAreDigits(n / 10);
    }
  }

  /** `parseInt(formatInt(n)) == n` for every `n` that is not negative. */
  lemma {:induction false} ParseInverts(n: nat)
    ensures Parse(0, Digits(n)) == n
  {
    if n < 10 {
      DigitRoundTrip(n);
      assert [Digit(n)][1..] == [];
    } else {
      ParseInverts(n / 10);
      DigitsAreDigits(n / 10);
      DigitRoundTrip(n % 10);
      ParseConcat(0, Digits(n / 10), Digit(n % 10));
    }
  }

  lemma {:induction false} DigitsInjective(m: nat, n: nat)
    requires Digits(m) == Digits(n)
    ensures m == n
  {
    ParseInverts(m);
    ParseInverts(n);
  }

  /** `10^k` */
  function Power(k: nat): nat { if k == 0 then 1 else 10 * Power(k - 1) }

  lemma {:induction false} DigitCount(n: nat, k: nat)
    requires n < Power(k) && k > 0
    ensures |Digits(n)| <= k
    decreases k
  {
    if n >= 10 {
      DigitCount(n / 10, k - 1);
    }
  }

  const MAX_INT64: int := 0x7fff_ffff_ffff_ffff

  lemma {:induction false} NineteenDigits()
    ensures MAX_INT64 < Power(19)
  {
    assert Power(5) == 100_000;
    assert Power(10) == 10_000_000_000;
    assert Power(15) == 1_000_000_000_000_000;
  }

  /** A signed 64-bit number in decimal. The smallest one is its own negative, so it has no digits. */
  function Formatted(n: int): string
  {
    if n < -MAX_INT64 then "-" else if n < 0 then "-" + Digits(-n) else Digits(n)
  }

  /** What the text says: the number, behind a minus sign if it is negative; of the smallest one only the sign
  is left. */
  lemma {:induction false} FormattedValue(n: int)
    requires -MAX_INT64 - 1 <= n <= MAX_INT64
    ensures n >= 0 ==> Parse(0, Formatted(n)) == n
    ensures -MAX_INT64 <= n < 0 ==> Formatted(n)[0] == '-' && Parse(0, Formatted(n)[1..]) == -n
    ensures n == -MAX_INT64 - 1 ==> Formatted(n) == "-"
    ensures Formatted(190) == "190" && Formatted(-42) == "-42"
  {
    hide Parse;
    if n >= 0 {
      ParseInverts(n);
    } else if n >= -MAX_INT64 {
      ParseInverts(-n);
      assert ("-" + Digits(-n))[1..] == Digits(-n);
    }
    assert Digits(1) == "1" && Digits(19) == "19" && Digits(190) == "190" && Digits(4) == "4" && Digits(42) == "42";
  }

  /** `formatInt`: fills a buffer of 20 bytes from its end. */
  method FormatInt(n: int) returns (s: string)
    requires -MAX_INT64 - 1 <= n <= MAX_INT64
    ensures s == Formatted(n)
  {
    hide Digits;
    if n == 0 {
      ZeroDigits();
      return "0";
    }
    var neg := n < 0;
    var m := if neg && n >= -MAX_INT64 then -n else n;
    var buf := new char[20](_ => '0');
    var i := 20;
    if m < 0 {
      buf[19] := '-';
      assert buf[19..] == "-";
      return buf[19..];
    }
    ghost var all := m;
    NineteenDigits();
    DigitCount(m, 19);
    assert Digits(m) + buf[20..] == Digits(m);
    while m > 0
      invariant m >= 0
      invariant m > 0 ==> Digits(m) + buf[i..] == Digits(all) && 1 <= |Digits(m)| <= i - 1
      invariant 1 <= i <= 20 && (m == 0 ==> buf[i..] == Digits(all))
      decreases m
    {
      ghost var tail := buf[i..];
      PeelDigit(m, tail);
      i := i - 1;
      buf[i] := Digit(m % 10);
      Extended(buf, i, tail);
      m := m / 10;
    }
    if neg {
      ghost var tail := buf[i..];
      i := i - 1;
      buf[i] := '-';
      Extended(buf, i, tail);
    }
    s := buf[i..];
  }

  lemma {:induction false} ZeroDigits()
    ensures Digits(0) == "0"
  {}

  lemma {:induction false} Extended(buf: array<char>, i: nat, tail: string)
    requires i < buf.Length && buf[i + 1..] == tail
    ensures buf[i..] == [buf[i]] + tail
  {}

  /** Moving the last digit of `m` to the tail. */
  lemma {:induction false} PeelDigit(m: nat, tail: string)
    requires m > 0
    ensures m < 10 ==> Digits(m) + tail == [Digit(m % 10)] + tail && |Digits(m)| == 1
    ensures m >= 10 ==> Digits(m) + tail == Digits(m / 10) + ([Digit(m % 10)] + tail) && |Digits(m / 10)| == |Digits(m)| - 1
  {}

  /** Signed 64-bit arithmetic wraps around. */
  function Wrap64(n: int): (r: int)
    ensures -MAX_INT64 - 1 <= r <= MAX_INT64
    ensures -MAX_INT64 - 1 <= n <= MAX_INT64 ==> r == n
  {
    (n + 0x8000_0000_0000_0000) % 0x1_0000_0000_0000_0000 - 0x8000_0000_0000_0000
  }

  /** Wrapping in every step is wrapping at the end. */
  lemma {:induction false} WrapStep(n: int, d: int)
    ensures Wrap64(Wrap64(n) * 10 + d) == Wrap64(n * 10 + d)
  {
    var half, whole := 0x8000_0000_0000_0000, 0x1_0000_0000_0000_0000;
    var q := (n + half) / whole;
    assert Wrap64(n) == n - q * whole;
    var x, y := n * 10 + d + half, Wrap64(n) * 10 + d + half;
    assert y == x - 10 * q * whole;
    DivUnique(y, whole, x / whole - 10 * q, x % whole);
  }

  /** `parseInt` */
  method ParseInt(s: string) returns (n: int)
    ensures n == Wrap64(Parse(0, s))
  {
    n := 0;
    ghost var exact: nat := 0;
    assert s[0..] == s;
    for i := 0 to |s|
      invariant Parse(exact, s[i..]) == Parse(0, s) && n == Wrap64(exact)
    {
      if s[i] < '0' || s[i] > '9' {
        return n;
      }
      assert s[i..][1..] == s[i + 1..];
      n := Wrap64(n * 10 + DigitValue(s[i]));
      WrapStep(exact, DigitValue(s[i]));
      exact := exact * 10 + DigitValue(s[i]);
    }
  }
}
