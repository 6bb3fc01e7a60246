/** Decimal rendering of the nonce count and its eight-character field. */
module Decimal {

  predicate IsDigit(c: char) {
    '0' <= c <= '9'
  }

  predicate AllDigits(s: string) {
    forall i :: 0 <= i < |s| ==> IsDigit(s[i])
  }

  function DigitChar(d: nat): (c: char)
    requires d < 10
    ensures IsDigit(c) && c as int - '0' as int == d
  {
    ('0' as int + d) as char
  }

  /** `10^k`: the number written as a one followed by `k` zeros. */
  function Pow10(k: nat): (r: nat)
    ensures AllDigits("1" + Zeros(k)) && Value("1" + Zeros(k)) == r
  {
    if k == 0 then
      assert "1" + Zeros(0) == "1";
      1
    else
      assert ("1" + Zeros(k))[..k] == "1" + Zeros(k - 1);
      10 * Pow10(k - 1)
  }

  /** The number a string of decimal digits denotes. */
  function Value(s: string): nat
    requires AllDigits(s)
  {
    if s == [] then 0
    else Value(s[..|s| - 1]) * 10 + (s[|s| - 1] as int - '0' as int)
  }

  /** The shortest decimal form of `n`, as JavaScript's number-to-string
      conversion writes a non-negative integer. */
  function DecimalString(n: nat): (r: string)
    ensures |r| >= 1 && AllDigits(r)
    ensures Value(r) == n
    ensures |r| > 1 ==> r[0] != '0'
    decreases n
  {
    if n < 10 then [DigitChar(n)]
    else
      var prefix := DecimalString(n / 10);
      var r := prefix + [DigitChar(n % 10)];
      assert r[..|r| - 1] == prefix;
      r
  }

  lemma {:induction false} ValueBound(s: string)
    requires AllDigits(s)
    ensures Value(s) < Pow10(|s|)
    decreases |s|
  {
    if s != [] {
      ValueBound(s[..|s| - 1]);
    }
  }

  /** The value of a concatenation: the digits of `a` shifted left by `|b|`. */
  lemma {:induction false} ValueConcat(a: string, b: string)
    requires AllDigits(a) && AllDigits(b)
    ensures AllDigits(a + b)
    ensures Value(a + b) == Value(a) * Pow10(|b|) + Value(b)
    decreases |b|
  {
    if b == [] {
      assert a + b == a;
    } else {
      var b' := b[..|b| - 1];
      assert (a + b)[..|a + b| - 1] == a + b';
      ValueConcat(a, b');
      var d := b[|b| - 1] as int - '0' as int;
      assert Value(a + b) == Value(a + b') * 10 + d;
      ShiftDigit(Value(a), Pow10(|b'|), Value(b'), d);
    }
  }

  lemma ShiftDigit(x: int, p: int, y: int, d: int)
    ensures (x * p + y) * 10 + d == x * (10 * p) + (y * 10 + d)
  {
  }

  lemma ModOfShifted(a: nat, b: nat, m: nat)
    requires 0 <= b < m
    ensures (a * m + b) % m == b
  {
    var n := a * m + b;
    var q, r := n / m, n % m;
    assert n == q * m + r && 0 <= r < m;
    assert (a - q) * m == r - b;
    if a - q >= 1 {
      MulAtLeast(a - q, m);
    } else if a - q <= -1 {
      MulAtLeast(q - a, m);
    }
  }

  lemma MulAtLeast(k: int, m: int)
    requires k >= 1 && m >= 0
    ensures k * m >= m
  {
  }

  function Zeros(k: nat): (z: string)
    ensures |z| == k && AllDigits(z)
  {
    seq(k, _ => '0')
  }

  /** Leading zeros do not change the value. */
  lemma LeadingZeros(k: nat, s: string)
    requires AllDigits(s)
    ensures AllDigits(Zeros(k) + s) && Value(Zeros(k) + s) == Value(s)
  {
    ValueConcat(Zeros(k), s);
    ZerosValue(k);
  }

  lemma {:induction false} ZerosValue(k: nat)
    ensures Value(Zeros(k)) == 0
  {
    if k > 0 {
      assert Zeros(k)[..k - 1] == Zeros(k - 1);
      ZerosValue(k - 1);
    }
  }

  /** The zero-padded eight-character nonce count: the last eight characters
      of eight zeros followed by the decimal form (the source writes the count
      in decimal, not in hexadecimal). */
  function NcString(nc: nat): (r: string)
    ensures |r| == 8 && AllDigits(r)
    ensures Value(r) == nc % 100000000
  {
    var padded := "00000000" + DecimalString(nc);
    var r := padded[|padded| - 8..];
    NcStringValue(nc, padded, r);
    r
  }

  lemma NcStringValue(nc: nat, padded: string, r: string)
    requires padded == "00000000" + DecimalString(nc)
    requires |padded| >= 8 && r == padded[|padded| - 8..]
    ensures AllDigits(r) && Value(r) == nc % 100000000
  {
    var d := DecimalString(nc);
    assert padded == Zeros(8) + d;
    LeadingZeros(8, d);
    var prefix := padded[..|padded| - 8];
    assert padded == prefix + r;
    assert AllDigits(prefix) && AllDigits(r);
    ValueConcat(prefix, r);
    ValueBound(r);
    Pow10Eight();
    ModOfShifted(Value(prefix), Value(r), 100000000);
  }

  lemma Pow10Eight()
    ensures Pow10(8) == 100000000
  {
    assert Pow10(0) == 1;
    assert Pow10(1) == 10;
    assert Pow10(2) == 100;
    assert Pow10(3) == 1000;
    assert Pow10(4) == 10000;
    assert Pow10(5) == 100000;
    assert Pow10(6) == 1000000;
    assert Pow10(7) == 10000000;
  }

  /** Two eight-digit strings with the same value are the same string, so the
      value fixes the nonce-count field completely. */
  lemma {:induction false} ValueInjective(a: string, b: string)
    requires AllDigits(a) && AllDigits(b) && |a| == |b|
    requires Value(a) == Value(b)
    ensures a == b
    decreases |a|
  {
    if a != [] {
      var a', b' := a[..|a| - 1], b[..|b| - 1];
      var da, db := a[|a| - 1] as int - '0' as int, b[|b| - 1] as int - '0' as int;
      assert Value(a) == Value(a') * 10 + da;
      assert Value(b) == Value(b') * 10 + db;
      assert da == Value(a) % 10 && Value(a') == Value(a) / 10;
      assert db == Value(b) % 10 && Value(b') == Value(b) / 10;
      ValueInjective(a', b');
      assert a == a' + [a[|a| - 1]];
      assert b == b' + [b[|b| - 1]];
    }
  }

  /** Counts 1 and 10 are written `00000001` and `00000010`. */
  lemma NcStringExamples()
    ensures NcString(1) == "00000001"
    ensures NcString(10) == "00000010"
  {
    assert "00000001" == Zeros(7) + "1";
    LeadingZeros(7, "1");
    ValueInjective(NcString(1), "00000001");
    assert "00000010" == Zeros(6) + "10";
    LeadingZeros(6, "10");
    assert "10"[..1] == "1";
    ValueInjective(NcString(10), "00000010");
  }
}
