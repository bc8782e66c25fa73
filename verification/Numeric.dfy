/** encodeNumericBinary of internal/types/numeric_bin.go: base-10000 wire digits printed as a
    decimal, proved to be the value truncated to the display scale. */
module Numeric {
  import opened Bytes
  import opened Escape
  import opened Rows
  import opened Digits

  // ---- What is printed ----

  function DigitAt(ds: seq<nat>, i: int): nat { if 0 <= i < |ds| then ds[i] else 0 }

  // appendNumericPad4
  function Pad4(v: nat): bytes { [0x30 + v / 1000 % 10, 0x30 + v / 100 % 10, 0x30 + v / 10 % 10, 0x30 + v % 10] }

  function IntegerPart(ds: seq<nat>, weight: int): bytes
    decreases weight
  {
    if weight < 0 then [ZERO]
    else if weight == 0 then Decimal(DigitAt(ds, 0))
    else IntegerPart(ds, weight - 1) + Pad4(DigitAt(ds, weight))
  }

  function Divisor(inner: nat): nat
    requires inner < 4
  {
    if inner == 0 then 1000 else if inner == 1 then 100 else if inner == 2 then 10 else 1
  }

  // Decimal position p after the point.
  function FractionDigit(ds: seq<nat>, weight: int, p: nat): (d: nat)
    ensures d < 10
  {
    DigitAt(ds, weight + 1 + p / 4) / Divisor(p % 4) % 10
  }

  function FractionPart(ds: seq<nat>, weight: int, k: nat): bytes
  {
    if k == 0 then [] else FractionPart(ds, weight, k - 1) + [Digit(FractionDigit(ds, weight, k - 1))]
  }

  function Zeros(k: nat): bytes { if k == 0 then [] else Zeros(k - 1) + [ZERO] }

  function NumericText(ds: seq<nat>, weight: int, negative: bool, dscale: nat): bytes
  {
    if ds == [] then [ZERO] + (if dscale > 0 then [POINT] + Zeros(dscale) else [])
    else (if negative then [MINUS] else []) + IntegerPart(ds, weight)
         + (if dscale > 0 then [POINT] + FractionPart(ds, weight, dscale) else [])
  }

  const NAN_TEXT: bytes := [0x22, 0x4E, 0x61, 0x4E, 0x22]
  const INF_TEXT: bytes := [0x22, 0x49, 0x6E, 0x66, 0x69, 0x6E, 0x69, 0x74, 0x79, 0x22]
  const NEG_INF_TEXT: bytes := [0x22, 0x2D, 0x49, 0x6E, 0x66, 0x69, 0x6E, 0x69, 0x74, 0x79, 0x22]

  function WireDigits(body: bytes, n: nat): (ds: seq<nat>)
    requires |body| >= 2 * n
    ensures |ds| == n
  {
    seq(n, i requires 0 <= i < n => U16(body[2 * i..]))
  }

  // The cell as JSON; malformed cells are rendered as an escaped string.
  function NumericCell(raw: Cell): bytes
  {
    if raw.None? then NULL_TEXT
    else if |raw.value| < 8 then Quoted(raw.value)
    else
      var b := raw.value;
      var n, weight, sign, dscale := I16(b), I16(b[2..]), U16(b[4..]), I16(b[6..]);
      if n < 0 || dscale < 0 || |b| - 8 < 2 * n then Quoted(b)
      else if sign == 0xC000 then NAN_TEXT
      else if sign == 0xD000 then INF_TEXT
      else if sign == 0xF000 then NEG_INF_TEXT
      else if sign != 0 && sign != 0x4000 then Quoted(b)
      else NumericText(WireDigits(b[8..], n), weight, sign == 0x4000, dscale)
  }

  // ---- The loops ----

  method AppendDecimal(dst: bytes, ds: seq<nat>, weight: int, negative: bool, dscale: nat) returns (r: bytes)
    ensures r == dst + NumericText(ds, weight, negative, dscale)
  {
    if ds == [] {
      r := AppendZero(dst, dscale);
      return;
    }
    r := dst + (if negative then [MINUS] else []);
    r := AppendInteger(r, ds, weight);
    ghost var whole := (if negative then [MINUS] else []) + IntegerPart(ds, weight);
    assert r == dst + whole;
    if dscale == 0 {
      assert whole + [] == whole;
      return;
    }
    r := AppendFraction(r + [POINT], ds, weight, dscale);
    hide IntegerPart, FractionPart;
    assert r == dst + (whole + ([POINT] + FractionPart(ds, weight, dscale)));
  }

  method AppendZero(dst: bytes, dscale: nat) returns (r: bytes)
    ensures r == dst + ([ZERO] + (if dscale > 0 then [POINT] + Zeros(dscale) else []))
  {
    r := dst + [ZERO];
    if dscale > 0 {
      r := r + [POINT];
      for i := 0 to dscale
        invariant r == dst + ([ZERO] + ([POINT] + Zeros(i)))
      {
        r := r + [ZERO];
      }
    }
  }

  method AppendInteger(dst: bytes, ds: seq<nat>, weight: int) returns (r: bytes)
    ensures r == dst + IntegerPart(ds, weight)
  {
    if weight < 0 { return dst + [ZERO]; }
    r := dst + Decimal(DigitAt(ds, 0));
    for i := 1 to weight + 1
      invariant r == dst + IntegerPart(ds, i - 1)
    {
      hide Pad4, Decimal;
      r := r + Pad4(DigitAt(ds, i));
    }
  }

  method AppendFraction(dst: bytes, ds: seq<nat>, weight: int, dscale: nat) returns (r: bytes)
    ensures r == dst + FractionPart(ds, weight, dscale)
  {
    r := dst;
    for p := 0 to dscale
      invariant r == dst + FractionPart(ds, weight, p)
    {
      hide FractionDigit;
      r := r + [Digit(FractionDigit(ds, weight, p))];
    }
  }

  method EncodeNumeric(dst: bytes, raw: Cell) returns (r: bytes)
    ensures r == dst + NumericCell(raw)
  {
    hide NumericText, Quoted, I16, U16;
    if raw.None? { return dst + NULL_TEXT; }
    var b := raw.value;
    if |b| < 8 { return dst + Quoted(b); }
    var n, weight, sign, dscale := I16(b), I16(b[2..]), U16(b[4..]), I16(b[6..]);
    var body := b[8..];
    if n < 0 || dscale < 0 || |body| < n * 2 { return dst + Quoted(b); }
    if sign == 0xC000 { return dst + NAN_TEXT; }
    if sign == 0xD000 { return dst + INF_TEXT; }
    if sign == 0xF000 { return dst + NEG_INF_TEXT; }
    if sign != 0 && sign != 0x4000 { return dst + Quoted(b); }
    r := AppendDecimal(dst, WireDigits(body, n), weight, sign == 0x4000, dscale);
  }

  // ---- What it is worth ----

  predicate Base10000(ds: seq<nat>) { forall i :: 0 <= i < |ds| ==> ds[i] < 10000 }

  // The first j digits, padded with zeros on either side, as one base-10000 number.
  function Leading(ds: seq<nat>, j: int): nat
    decreases j
  {
    if j <= 0 then 0 else Leading(ds, j - 1) * 10000 + DigitAt(ds, j - 1)
  }

  // floor(|value| * 10^dscale), where |value| is the base-10000 number spelled by all the digits,
  // scaled by 10000^(weight + 1 - ndigits).
  function Truncated(ds: seq<nat>, weight: int, dscale: nat): int
  {
    var places := 4 * (|ds| - 1 - weight);
    if dscale >= places then Leading(ds, |ds|) * Pow10(dscale - places)
    else Leading(ds, |ds|) / Pow10(places - dscale)
  }

  // Value of the printed digits, point ignored, after k decimal places.
  function PrintedSoFar(ds: seq<nat>, weight: int, k: nat): int
  {
    var j, r := weight + 1 + k / 4, k % 4;
    Leading(ds, j) * Pow10(r) + DigitAt(ds, j) / Pow10(4 - r)
  }

  lemma DigitBound(ds: seq<nat>, i: int)
    requires Base10000(ds)
    ensures DigitAt(ds, i) < 10000
  {
  }

  lemma SmallPowers()
    ensures Pow10(0) == 1 && Pow10(1) == 10 && Pow10(2) == 100 && Pow10(3) == 1000 && Pow10(4) == 10000
  {
    assert Pow10(1) == 10;
    assert Pow10(2) == 100;
    assert Pow10(3) == 1000;
  }

  lemma Pad4Value(v: nat)
    requires v < 10000
    ensures AllDigits(Pad4(v)) && Value(Pad4(v)) == v && |Pad4(v)| == 4
  {
    var w, x, y, z: byte := 0x30 + v / 1000 % 10, 0x30 + v / 100 % 10, 0x30 + v / 10 % 10, 0x30 + v % 10;
    FourPlaces(v);
    ValueOfFour(w, x, y, z);
  }

  lemma {:induction false} IntegerValue(ds: seq<nat>, weight: int)
    requires Base10000(ds)
    ensures AllDigits(IntegerPart(ds, weight)) && |IntegerPart(ds, weight)| >= 1
    ensures Value(IntegerPart(ds, weight)) == Leading(ds, weight + 1)
    decreases weight
  {
    hide Value, Pad4;
    if weight < 0 {
      assert [ZERO] == Decimal(0);
    } else if weight == 0 {
      assert Leading(ds, 1) == Leading(ds, 0) * 10000 + DigitAt(ds, 0);
    } else {
      IntegerValue(ds, weight - 1);
      DigitBound(ds, weight);
      Pad4Value(DigitAt(ds, weight));
      ValueConcat(IntegerPart(ds, weight - 1), Pad4(DigitAt(ds, weight)));
      SmallPowers();
    }
  }

  // The decimal places of a base-10000 digit, thousands first.
  lemma Places(d: nat)
    requires d < 10000
    ensures d / 10000 == 0 && d / 1000 == d / 1000 % 10
    ensures d / 100 == 10 * (d / 1000) + d / 100 % 10
    ensures d / 10 == 10 * (d / 100) + d / 10 % 10
    ensures d == 10 * (d / 10) + d % 10
  {
    DivTen(d, 100);
    DivTen(d, 10);
  }

  lemma PlaceStep(d: nat, r: nat)
    requires d < 10000 && r < 4
    ensures r < 3 ==> d / Pow10(3 - r) == 10 * (d / Pow10(4 - r)) + d / Divisor(r) % 10
    ensures r == 3 ==> d == 10 * (d / Pow10(1)) + d / Divisor(3) % 10
    ensures d / Pow10(4) == 0
  {
    Places(d);
    SmallPowers();
    hide Pow10;
    if r == 0 {
      assert Pow10(3 - r) == 1000 && Pow10(4 - r) == 10000 && Divisor(r) == 1000;
    } else if r == 1 {
      assert Pow10(3 - r) == 100 && Pow10(4 - r) == 1000 && Divisor(r) == 100;
    } else if r == 2 {
      assert Pow10(3 - r) == 10 && Pow10(4 - r) == 100 && Divisor(r) == 10;
    } else {
      assert Divisor(r) == 1 && d / 1 == d;
    }
  }

  lemma PrintedStep(ds: seq<nat>, weight: int, k: nat)
    requires Base10000(ds)
    ensures PrintedSoFar(ds, weight, k + 1) == 10 * PrintedSoFar(ds, weight, k) + FractionDigit(ds, weight, k)
  {
    hide DigitAt, Pow10, Divisor, Leading;
    var j, r := weight + 1 + k / 4, k % 4;
    DigitBound(ds, j);
    DigitBound(ds, j + 1);
    PlaceStep(DigitAt(ds, j), r);
    PlaceStep(DigitAt(ds, j + 1), 0);
    SmallPowers();
    if r < 3 {
      assert (k + 1) / 4 == k / 4 && (k + 1) % 4 == r + 1;
      PowerStep(r);
      assert Leading(ds, j) * Pow10(r + 1) == 10 * (Leading(ds, j) * Pow10(r)) by {
        MulStep(Leading(ds, j), Pow10(r), Pow10(r + 1));
      }
    } else {
      assert (k + 1) / 4 == k / 4 + 1 && (k + 1) % 4 == 0;
      LeadingStep(ds, j);
    }
  }

  lemma PowerStep(r: nat)
    ensures Pow10(r + 1) == 10 * Pow10(r)
  {
  }

  lemma MulStep(a: nat, p: nat, q: nat)
    requires q == 10 * p
    ensures a * q == 10 * (a * p)
  {
  }

  // Below index 0 both sides are 0.
  lemma LeadingStep(ds: seq<nat>, j: int)
    ensures Leading(ds, j + 1) == Leading(ds, j) * 10000 + DigitAt(ds, j)
  {
  }

  lemma {:induction false} FractionValue(ds: seq<nat>, weight: int, k: nat)
    requires Base10000(ds)
    ensures AllDigits(IntegerPart(ds, weight) + FractionPart(ds, weight, k))
    ensures Value(IntegerPart(ds, weight) + FractionPart(ds, weight, k)) == PrintedSoFar(ds, weight, k)
  {
    hide Value, PrintedSoFar, IntegerPart, FractionDigit;
    IntegerValue(ds, weight);
    if k == 0 {
      assert IntegerPart(ds, weight) + [] == IntegerPart(ds, weight);
      PrintedAtPoint(ds, weight);
    } else {
      FractionValue(ds, weight, k - 1);
      var b, d := IntegerPart(ds, weight) + FractionPart(ds, weight, k - 1), Digit(FractionDigit(ds, weight, k - 1));
      ValueSnoc(b, d);
      assert IntegerPart(ds, weight) + FractionPart(ds, weight, k) == b + [d];
      PrintedStep(ds, weight, k - 1);
    }
  }

  lemma PrintedAtPoint(ds: seq<nat>, weight: int)
    requires Base10000(ds)
    ensures PrintedSoFar(ds, weight, 0) == Leading(ds, weight + 1)
  {
    SmallPowers();
    DigitBound(ds, weight + 1);
  }

  // ---- The printed digits are the truncated value ----

  lemma {:induction false} PowSum(a: nat, b: nat)
    ensures Pow10(a + b) == Pow10(a) * Pow10(b)
  {
    if b > 0 {
      PowSum(a, b - 1);
      MulStep(Pow10(a), Pow10(b - 1), Pow10(b));
    }
  }

  lemma {:induction false} LeadingPadded(ds: seq<nat>, j: nat)
    requires j >= |ds|
    ensures Leading(ds, j) == Leading(ds, |ds|) * Pow10(4 * (j - |ds|))
    decreases j
  {
    SmallPowers();
    var n := |ds|;
    if j == n {
      assert Pow10(4 * (j - n)) == 1;
    } else {
      var p, q := Pow10(4 * (j - 1 - n)), Pow10(4 * (j - n));
      LeadingPadded(ds, j - 1);
      PowSum(4 * (j - 1 - n), 4);
      LeadingPast(ds, j);
      hide Leading, Pow10;
      assert 4 * (j - 1 - n) + 4 == 4 * (j - n);
      MulAssoc(Leading(ds, n), p, 10000);
    }
  }

  // Past the digits only zeros follow.
  lemma LeadingPast(ds: seq<nat>, j: nat)
    requires j > |ds|
    ensures Leading(ds, j) == Leading(ds, j - 1) * 10000
  {
  }

  lemma MulAssoc(a: nat, p: nat, q: nat)
    ensures a * p * q == a * (p * q)
  {
  }

  // All the digits lie between the first j followed by zeros and the first j followed by nines.
  lemma {:induction false} LeadingBrackets(ds: seq<nat>, j: nat)
    requires Base10000(ds) && j <= |ds|
    ensures var t := Pow10(4 * (|ds| - j));
            Leading(ds, j) * t <= Leading(ds, |ds|) < (Leading(ds, j) + 1) * t
    decreases |ds| - j
  {
    hide Leading, Pow10;
    SmallPowers();
    if j < |ds| {
      LeadingBrackets(ds, j + 1);
      LeadingStep(ds, j);
      DigitBound(ds, j);
      PowSum(4, 4 * (|ds| - j - 1));
      Widen(Leading(ds, j), DigitAt(ds, j), Pow10(4 * (|ds| - j - 1)), Leading(ds, |ds|));
    }
  }

  lemma Widen(x: nat, d: nat, t: nat, b: nat)
    requires d < 10000 && (x * 10000 + d) * t <= b < (x * 10000 + d + 1) * t
    ensures x * (10000 * t) <= b < (x + 1) * (10000 * t)
  {
    assert (x * 10000 + d) * t == x * (10000 * t) + d * t;
    assert (x * 10000 + d + 1) * t == x * (10000 * t) + (d + 1) * t;
    assert (d + 1) * t <= 10000 * t;
    assert (x + 1) * (10000 * t) == x * (10000 * t) + 10000 * t;
  }

  lemma QuotientIs(n: nat, q: nat, b: nat)
    requires q > 0 && n * q <= b < (n + 1) * q
    ensures b / q == n
  {
    var d := b / q;
    assert d * q <= b < (d + 1) * q by { assert b == d * q + b % q; }
    OrderFromProducts(d, n + 1, q);
    OrderFromProducts(n, d + 1, q);
  }

  lemma OrderFromProducts(a: int, b: int, q: nat)
    requires a * q < b * q
    ensures a < b
  {
    assert (b - a) * q > 0;
  }

  // Splitting p decimals off a base-10000 prefix x = 10000l + d.
  lemma SplitDigit(l: nat, d: nat, r: nat)
    requires d < 10000 && r < 4
    ensures var n, p := l * Pow10(r) + d / Pow10(4 - r), Pow10(4 - r);
            n >= 0 && n * p <= l * 10000 + d < (n + 1) * p
  {
    SmallPowers();
  }

  lemma PrintedInside(ds: seq<nat>, weight: int, k: nat)
    requires Base10000(ds) && 0 <= weight + 1 + k / 4 < |ds|
    ensures PrintedSoFar(ds, weight, k) == Truncated(ds, weight, k)
  {
    hide Leading, Pow10, DigitAt;
    var j, r := weight + 1 + k / 4, k % 4;
    var n, p, t := PrintedSoFar(ds, weight, k), Pow10(4 - r), Pow10(4 * (|ds| - j - 1));
    DigitBound(ds, j);
    SplitDigit(Leading(ds, j), DigitAt(ds, j), r);
    LeadingStep(ds, j);
    LeadingBrackets(ds, j + 1);
    PowSum(4 - r, 4 * (|ds| - j - 1));
    var x, b := Leading(ds, j + 1), Leading(ds, |ds|);
    Nested(n, p, x, t, b);
    QuotientIs(n, p * t, b);
    assert 4 * (|ds| - 1 - weight) - k == (4 - r) + 4 * (|ds| - j - 1);
  }

  lemma Nested(n: nat, p: nat, x: nat, t: nat, b: nat)
    requires n * p <= x < (n + 1) * p && x * t <= b < (x + 1) * t
    ensures n * (p * t) <= b < (n + 1) * (p * t)
  {
    assert n * (p * t) == n * p * t && (n + 1) * (p * t) == (n + 1) * p * t;
    assert n * p * t <= x * t;
    assert (x + 1) * t <= (n + 1) * p * t;
  }

  lemma PrintedPast(ds: seq<nat>, weight: int, k: nat)
    requires weight + 1 + k / 4 >= |ds|
    ensures PrintedSoFar(ds, weight, k) == Truncated(ds, weight, k)
  {
    hide Leading, Pow10;
    var j, r := weight + 1 + k / 4, k % 4;
    LeadingPadded(ds, j);
    PowSum(4 * (j - |ds|), r);
    assert k - 4 * (|ds| - 1 - weight) == 4 * (j - |ds|) + r;
    assert DigitAt(ds, j) / Pow10(4 - r) == 0 by { ZeroQuotient(Pow10(4 - r)); }
    assert Leading(ds, |ds|) * Pow10(4 * (j - |ds|)) * Pow10(r) == Leading(ds, |ds|) * (Pow10(4 * (j - |ds|)) * Pow10(r));
  }

  lemma ZeroQuotient(q: nat)
    requires q > 0
    ensures 0 / q == 0
  {
  }

  lemma PrintedBefore(ds: seq<nat>, weight: int, k: nat)
    requires Base10000(ds) && weight + 1 + k / 4 < 0
    ensures PrintedSoFar(ds, weight, k) == Truncated(ds, weight, k)
  {
    hide Pow10;
    var j, r := weight + 1 + k / 4, k % 4;
    ZeroQuotient(Pow10(4 - r));
    LeadingBrackets(ds, 0);
    var extra: nat := 4 * (|ds| - 1 - weight) - k - 4 * |ds|;
    PowSum(4 * |ds|, extra);
    var b, t, q := Leading(ds, |ds|), Pow10(4 * |ds|), Pow10(4 * |ds| + extra);
    assert t <= t * Pow10(extra);
    QuotientIs(0, q, b);
  }

  /** For any digits below 10000, any weight and any scale: dropping the point from the printed
      text gives floor(|value| * 10^dscale). */
  lemma PrintedIsTruncated(ds: seq<nat>, weight: int, dscale: nat)
    requires Base10000(ds)
    ensures var text := IntegerPart(ds, weight) + FractionPart(ds, weight, dscale);
            AllDigits(text) && Value(text) == Truncated(ds, weight, dscale)
  {
    FractionValue(ds, weight, dscale);
    hide PrintedSoFar, Truncated, Value;
    if weight + 1 + dscale / 4 < 0 {
      PrintedBefore(ds, weight, dscale);
    } else if weight + 1 + dscale / 4 < |ds| {
      PrintedInside(ds, weight, dscale);
    } else {
      PrintedPast(ds, weight, dscale);
    }
  }

  // ---- Reading the text back ----

  datatype Parsed = Parsed(negative: bool, whole: bytes, fraction: bytes)

  // int [ frac ] of section 6 of RFC 8259, except that leading zeros are tolerated.
  function ReadUnsigned(negative: bool, rest: bytes): (p: Option<Parsed>)
    ensures p.Some? ==> |p.value.whole| > 0 && AllDigits(p.value.whole) && AllDigits(p.value.fraction)
  {
    var n := DigitRun(rest);
    var after := rest[n..];
    if n == 0 then None
    else if after == [] then Some(Parsed(negative, rest[..n], []))
    else if after[0] == POINT && |after| > 1 && AllDigits(after[1..]) then Some(Parsed(negative, rest[..n], after[1..]))
    else None
  }

  function ReadDecimal(b: bytes): (p: Option<Parsed>)
    ensures p.Some? ==> |p.value.whole| > 0 && AllDigits(p.value.whole) && AllDigits(p.value.fraction)
  {
    if b != [] && b[0] == MINUS then ReadUnsigned(true, b[1..]) else ReadUnsigned(false, b)
  }

  // number of section 6 of RFC 8259, without an exponent.
  predicate JsonNumber(b: bytes)
  {
    var p := ReadDecimal(b);
    p.Some? && (|p.value.whole| > 1 ==> p.value.whole[0] != ZERO)
  }

  function PointAnd(fraction: bytes): bytes { if fraction == [] then [] else [POINT] + fraction }

  lemma UnsignedReadsBack(negative: bool, whole: bytes, fraction: bytes)
    requires |whole| > 0 && AllDigits(whole) && AllDigits(fraction)
    ensures ReadUnsigned(negative, whole + PointAnd(fraction)) == Some(Parsed(negative, whole, fraction))
    ensures (whole + PointAnd(fraction))[0] != MINUS
  {
    hide DigitRun;
    var rest := whole + PointAnd(fraction);
    assert IsDigit(whole[0]);
    DigitRunOf(whole, PointAnd(fraction));
    assert rest[..|whole|] == whole && rest[|whole|..] == PointAnd(fraction);
    assert fraction != [] ==> PointAnd(fraction)[1..] == fraction;
  }

  lemma DecimalReadsBack(negative: bool, whole: bytes, fraction: bytes)
    requires |whole| > 0 && AllDigits(whole) && AllDigits(fraction)
    ensures ReadDecimal((if negative then [MINUS] else []) + whole + PointAnd(fraction))
         == Some(Parsed(negative, whole, fraction))
  {
    hide ReadUnsigned, PointAnd, AllDigits;
    UnsignedReadsBack(negative, whole, fraction);
    var rest := whole + PointAnd(fraction);
    if negative {
      assert [MINUS] + whole + PointAnd(fraction) == [MINUS] + rest;
    } else {
      assert [] + whole == whole;
    }
  }

  lemma {:induction false} FractionShape(ds: seq<nat>, weight: int, k: nat)
    ensures |FractionPart(ds, weight, k)| == k && AllDigits(FractionPart(ds, weight, k))
  {
    if k > 0 {
      FractionShape(ds, weight, k - 1);
    }
  }

  lemma {:induction false} ZerosShape(k: nat)
    ensures |Zeros(k)| == k && AllDigits(Zeros(k)) && AllDigits([ZERO] + Zeros(k)) && Value([ZERO] + Zeros(k)) == 0
  {
    if k == 0 {
      ValueSnoc([], ZERO);
      assert [ZERO] + Zeros(0) == [] + [ZERO];
    } else {
      ZerosShape(k - 1);
      ValueSnoc([ZERO] + Zeros(k - 1), ZERO);
      assert [ZERO] + Zeros(k) == [ZERO] + Zeros(k - 1) + [ZERO];
    }
  }

  lemma NothingTruncated(weight: int, dscale: nat)
    ensures Truncated([], weight, dscale) == 0
  {
    var places := 4 * (0 - 1 - weight);
    if dscale < places {
      ZeroQuotient(Pow10(places - dscale));
    }
  }

  lemma NumericParts(ds: seq<nat>, weight: int, negative: bool, dscale: nat)
    requires Base10000(ds)
    ensures var zero := ds == [];
            ReadDecimal(NumericText(ds, weight, negative, dscale)) ==
            Some(Parsed(negative && !zero,
                        if zero then [ZERO] else IntegerPart(ds, weight),
                        if zero then Zeros(dscale) else FractionPart(ds, weight, dscale)))
  {
    IntegerValue(ds, weight);
    FractionShape(ds, weight, dscale);
    ZerosShape(dscale);
    hide IntegerPart, FractionPart, Zeros, ReadDecimal, Value;
    if ds == [] {
      DecimalReadsBack(false, [ZERO], Zeros(dscale));
      assert [] + [ZERO] == [ZERO];
    } else {
      DecimalReadsBack(negative, IntegerPart(ds, weight), FractionPart(ds, weight, dscale));
    }
  }

  /** The printed number reads back as sign, scale and value: exactly dscale decimals, and the
      magnitude truncated (never rounded) to them. An empty digit list loses its sign. */
  lemma NumericReadsBack(ds: seq<nat>, weight: int, negative: bool, dscale: nat)
    requires Base10000(ds)
    ensures var p := ReadDecimal(NumericText(ds, weight, negative, dscale));
            && p.Some? && p.value.negative == (negative && ds != []) && |p.value.fraction| == dscale
            && AllDigits(p.value.whole + p.value.fraction)
            && Value(p.value.whole + p.value.fraction) == Truncated(ds, weight, dscale)
  {
    NumericParts(ds, weight, negative, dscale);
    FractionShape(ds, weight, dscale);
    ZerosShape(dscale);
    PrintedIsTruncated(ds, weight, dscale);
    NothingTruncated(weight, dscale);
    hide IntegerPart, FractionPart, Zeros, ReadDecimal, Value, NumericText, Truncated;
  }

  lemma {:induction false} LeadingZero(ds: seq<nat>, weight: int)
    requires ds != [] && weight >= 0
    ensures |IntegerPart(ds, weight)| > 0
    ensures weight > 0 ==> |IntegerPart(ds, weight)| > 1
    ensures IntegerPart(ds, weight)[0] == ZERO <==> ds[0] == 0
    decreases weight
  {
    hide Pad4;
    if weight > 0 {
      LeadingZero(ds, weight - 1);
      assert |Pad4(DigitAt(ds, weight))| == 4 by { Pad4Long(DigitAt(ds, weight)); }
    }
  }

  lemma Pad4Long(v: nat)
    ensures |Pad4(v)| == 4
  {
  }

  /** The text is a JSON number except when a zero leading digit has integer digits after it. */
  lemma NumericIsJson(ds: seq<nat>, weight: int, negative: bool, dscale: nat)
    requires Base10000(ds)
    ensures JsonNumber(NumericText(ds, weight, negative, dscale)) <==> ds == [] || weight <= 0 || ds[0] != 0
  {
    NumericParts(ds, weight, negative, dscale);
    if ds != [] && weight >= 0 {
      LeadingZero(ds, weight);
      if weight == 0 && ds[0] == 0 {
        assert IntegerPart(ds, 0) == Decimal(0);
      }
    }
    hide FractionPart, Zeros, NumericText, ReadDecimal, Decimal;
  }

  /** A numeric cell as the server sends it, from wire bytes to value. */
  lemma NumericCellReadsBack(raw: bytes)
    requires |raw| >= 8 && I16(raw) >= 0 && I16(raw[6..]) >= 0 && |raw| - 8 >= 2 * I16(raw)
    requires U16(raw[4..]) == 0 || U16(raw[4..]) == 0x4000
    requires Base10000(WireDigits(raw[8..], I16(raw)))
    ensures var ds := WireDigits(raw[8..], I16(raw));
            var p := ReadDecimal(NumericCell(Some(raw)));
            && p.Some? && p.value.negative == (U16(raw[4..]) == 0x4000 && ds != [])
            && AllDigits(p.value.whole + p.value.fraction) && |p.value.fraction| == I16(raw[6..])
            && Value(p.value.whole + p.value.fraction) == Truncated(ds, I16(raw[2..]), I16(raw[6..]))
  {
    hide ReadDecimal, Value, NumericText, Truncated, WireDigits, Base10000, I16, U16, AllDigits, Quoted;
    var ds := WireDigits(raw[8..], I16(raw));
    assert NumericCell(Some(raw)) == NumericText(ds, I16(raw[2..]), U16(raw[4..]) == 0x4000, I16(raw[6..]));
    NumericReadsBack(ds, I16(raw[2..]), U16(raw[4..]) == 0x4000, I16(raw[6..]));
  }

  // A cell with a readable header and digits, positive or negative.
  predicate PlainCell(raw: bytes)
  {
    && |raw| >= 8 && I16(raw) >= 0 && I16(raw[6..]) >= 0 && |raw| - 8 >= 2 * I16(raw)
    && (U16(raw[4..]) == 0 || U16(raw[4..]) == 0x4000)
  }

  // Leading zeros would be printed: the first of several integer digits is zero.
  predicate LeadsWithZero(raw: bytes)
    requires PlainCell(raw)
  {
    I16(raw) > 0 && I16(raw[2..]) > 0 && U16(raw[8..]) == 0
  }

  lemma QuotedIsNoNumber(b: bytes)
    requires b != [] && b[0] == QUOTE
    ensures !JsonNumber(b)
  {
  }

  /** Whatever the cell, its text is a JSON number exactly when it is a plain number that does not
      lead with a zero; NaN, the infinities and malformed cells are strings. */
  lemma NumericCellIsJson(raw: bytes)
    requires PlainCell(raw) ==> Base10000(WireDigits(raw[8..], I16(raw)))
    ensures JsonNumber(NumericCell(Some(raw))) <==> PlainCell(raw) && !LeadsWithZero(raw)
  {
    hide JsonNumber, NumericText, Base10000;
    if PlainCell(raw) {
      var ds := WireDigits(raw[8..], I16(raw));
      assert I16(raw) > 0 ==> ds[0] == U16(raw[8..]) by { assert raw[8..][0..] == raw[8..]; }
      NumericIsJson(ds, I16(raw[2..]), U16(raw[4..]) == 0x4000, I16(raw[6..]));
      hide I16, U16, WireDigits;
    } else {
      assert NumericCell(Some(raw)) != [] && NumericCell(Some(raw))[0] == QUOTE by { hide Escaped, WireDigits; }
      QuotedIsNoNumber(NumericCell(Some(raw)));
    }
  }

  // One digit, zero, of weight 1.
  const ZERO_TEN_THOUSANDS: bytes := [0, 1, 0, 1, 0, 0, 0, 0, 0, 0]

  lemma FiveZeros()
    ensures NumericText([0], 1, false, 0) == [ZERO, ZERO, ZERO, ZERO, ZERO]
  {
    assert Decimal(0) == [ZERO] && Pad4(0) == [ZERO, ZERO, ZERO, ZERO];
    hide Decimal, Pad4;
    assert IntegerPart([0], 0) == [ZERO];
    assert IntegerPart([0], 1) == [ZERO] + [ZERO, ZERO, ZERO, ZERO];
    hide IntegerPart;
  }

  lemma ZeroHeader()
    ensures var raw := ZERO_TEN_THOUSANDS;
            PlainCell(raw) && I16(raw) == 1 && I16(raw[2..]) == 1 && U16(raw[4..]) == 0 && I16(raw[6..]) == 0 && U16(raw[8..]) == 0
  {
  }

  /** That condition can fail: this cell prints 00000. */
  lemma LeadingZerosPrinted()
    ensures NumericCell(Some(ZERO_TEN_THOUSANDS)) == [ZERO, ZERO, ZERO, ZERO, ZERO]
    ensures !JsonNumber(NumericCell(Some(ZERO_TEN_THOUSANDS)))
  {
    var raw := ZERO_TEN_THOUSANDS;
    ZeroHeader();
    FiveZeros();
    assert WireDigits(raw[8..], 1) == [0] by { assert raw[8..][0..] == raw[8..]; }
    hide NumericText, I16, U16;
    NumericCellIsJson(raw);
    hide JsonNumber;
  }

  /** The other cells: NULL prints as null, the three special values by name, and what is no numeric
      at all as the string it is. */
  lemma SpecialNumerics(raw: Cell)
    ensures raw.None? ==> NumericCell(raw) == Ascii("null")
    ensures raw.Some? && WellFormed(raw.value) && U16(raw.value[4..]) == 0xC000 ==> NumericCell(raw) == Ascii("\"NaN\"")
    ensures raw.Some? && WellFormed(raw.value) && U16(raw.value[4..]) == 0xD000 ==> NumericCell(raw) == Ascii("\"Infinity\"")
    ensures raw.Some? && WellFormed(raw.value) && U16(raw.value[4..]) == 0xF000 ==> NumericCell(raw) == Ascii("\"-Infinity\"")
    ensures raw.Some? && (!WellFormed(raw.value) || U16(raw.value[4..]) !in {0, 0x4000, 0xC000, 0xD000, 0xF000}) ==>
              ReadString(NumericCell(raw)) == Some((raw.value, []))
  {
    SpecialTexts();
    if raw.Some? {
      StringReadsBack(raw.value, []);
      assert Quoted(raw.value) + [] == Quoted(raw.value);
    }
    hide Ascii, Quoted, ReadString, NumericText, U16, I16, WireDigits;
  }

  // A header with counts that are not negative, and all of its digits.
  predicate WellFormed(raw: bytes) { |raw| >= 8 && I16(raw) >= 0 && I16(raw[6..]) >= 0 && |raw| >= 8 + 2 * I16(raw) }

  lemma SpecialTexts()
    ensures NULL_TEXT == Ascii("null") && NAN_TEXT == Ascii("\"NaN\"") && INF_TEXT == Ascii("\"Infinity\"") && NEG_INF_TEXT == Ascii("\"-Infinity\"")
  {
  }
}
