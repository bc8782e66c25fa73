/** ASCII decimal digits and the numbers they spell. */
module Digits {
  import opened Bytes

  const ZERO: byte := 0x30
  const POINT: byte := 0x2E
  const MINUS: byte := 0x2D

  predicate IsDigit(c: byte) { 0x30 <= c <= 0x39 }

  predicate AllDigits(b: bytes) { forall k :: 0 <= k < |b| ==> IsDigit(b[k]) }

  function Digit(v: int): byte
    requires 0 <= v <= 9
  {
    0x30 + v
  }

  // The number a digit string spells.
  function Value(b: bytes): nat
    requires AllDigits(b)
  {
    if b == [] then 0 else 10 * Value(b[..|b| - 1]) + (b[|b| - 1] - 0x30)
  }

  function Pow10(n: nat): (p: nat)
    ensures p >= 1
  {
    if n == 0 then 1 else 10 * Pow10(n - 1)
  }

  lemma ValueSnoc(b: bytes, c: byte)
    requires AllDigits(b) && IsDigit(c)
    ensures AllDigits(b + [c]) && Value(b + [c]) == 10 * Value(b) + (c - 0x30)
  {
    assert (b + [c])[..|b|] == b;
  }

  lemma {:induction false} ValueConcat(a: bytes, b: bytes)
    requires AllDigits(a) && AllDigits(b)
    ensures AllDigits(a + b) && Value(a + b) == Value(a) * Pow10(|b|) + Value(b)
  {
    if b == [] {
      assert a + b == a;
    } else {
      var n := |b| - 1;
      ValueConcat(a, b[..n]);
      ValueSnoc(a + b[..n], b[n]);
      assert a + b == a + b[..n] + [b[n]];
      MulDistributes(Value(a), Pow10(n), Value(b[..n]));
    }
  }

  lemma MulDistributes(a: int, p: int, b: int)
    ensures 10 * (a * p + b) == a * (10 * p) + 10 * b
  {
  }

  // strconv.AppendInt for a non-negative number.
  function Decimal(n: nat): (b: bytes)
    ensures |b| >= 1 && AllDigits(b) && Value(b) == n
    ensures n > 0 ==> b[0] != ZERO
    ensures n == 0 ==> b == [ZERO]
  {
    if n < 10 then
      ValueSnoc([], Digit(n));
      [Digit(n)]
    else
      var high := Decimal(n / 10);
      ValueSnoc(high, Digit(n % 10));
      assert (high + [Digit(n % 10)])[0] == high[0];
      high + [Digit(n % 10)]
  }

  lemma {:induction false} DecimalLength(n: nat, k: nat)
    requires n >= Pow10(k)
    ensures |Decimal(n)| > k
  {
    if k > 0 {
      DecimalLength(n / 10, k - 1);
    }
  }

  // Number of digits at the front of b.
  function DigitRun(b: bytes): (n: nat)
    ensures n <= |b| && AllDigits(b[..n])
    ensures n < |b| ==> !IsDigit(b[n])
  {
    if b == [] || !IsDigit(b[0]) then 0
    else
      var n := DigitRun(b[1..]);
      assert forall k :: 0 <= k < n ==> b[..n + 1][k + 1] == b[1..][..n][k];
      n + 1
  }

  lemma {:induction false} DigitRunOf(b: bytes, rest: bytes)
    requires AllDigits(b) && (rest == [] || !IsDigit(rest[0]))
    ensures DigitRun(b + rest) == |b|
  {
    if b == [] {
      assert b + rest == rest;
    } else {
      assert (b + rest)[1..] == b[1..] + rest;
      DigitRunOf(b[1..], rest);
    }
  }

  lemma DivTen(v: int, k: int)
    requires v >= 0 && (k == 10 || k == 100 || k == 1000 || k == 10000)
    ensures v / (10 * k) == v / k / 10
  {
    var q, r := v / k, v % k;
    assert v == 10 * k * (q / 10) + (k * (q % 10) + r);
  }

  lemma FourPlaces(v: int)
    requires 0 <= v < 10000
    ensures v == 1000 * (v / 1000 % 10) + 100 * (v / 100 % 10) + 10 * (v / 10 % 10) + v % 10
  {
    DivTen(v, 10);
    DivTen(v, 100);
  }

  lemma ValueOfFour(w: byte, x: byte, y: byte, z: byte)
    requires IsDigit(w) && IsDigit(x) && IsDigit(y) && IsDigit(z)
    ensures AllDigits([w, x, y, z])
    ensures Value([w, x, y, z]) == 1000 * (w - 0x30) + 100 * (x - 0x30) + 10 * (y - 0x30) + (z - 0x30)
  {
    ValueSnoc([], w);
    ValueSnoc([w], x);
    ValueSnoc([w, x], y);
    ValueSnoc([w, x, y], z);
    assert [] + [w] == [w] && [w] + [x] == [w, x] && [w, x] + [y] == [w, x, y];
    assert [w, x, y] + [z] == [w, x, y, z];
  }
}
