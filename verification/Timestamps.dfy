/** The binary date and timestamp encoders of internal/types/binary.go, and readers that recover
    the wire value from the printed text. */
module Timestamps {
  import opened Bytes
  import opened Escape
  import opened Rows
  import opened Digits
  import opened Calendar

  const PG_EPOCH: int := 946684800          // Unix seconds of 2000-01-01
  const PG_EPOCH_DAYS: int := 10957
  const USEC_PER_DAY: int := 86_400_000_000
  const TWO_63: int := 0x8000_0000_0000_0000
  const TWO_64: int := 0x1_0000_0000_0000_0000

  predicate IsInt64(v: int) { -TWO_63 <= v < TWO_63 }

  predicate IsInt32(v: int) { -0x8000_0000 <= v < 0x8000_0000 }

  // int64 arithmetic that overflowed keeps the low 64 bits.
  function Wrap64(v: int): (w: int)
    ensures IsInt64(w)
  {
    (v + TWO_63) % TWO_64 - TWO_63
  }

  function I64(b: bytes): int
    requires |b| == 8
  {
    var u := U32(b[..4]) * TWO_32 + U32(b[4..]);
    if u >= TWO_63 then u - TWO_64 else u
  }

  // ---- Printing ----

  const DASH: byte := 0x2D
  const T_BYTE: byte := 0x54
  const Z_BYTE: byte := 0x5A

  function Append4(v: int): bytes
    requires v >= 0
  {
    [0x30 + v / 1000 % 10, 0x30 + v / 100 % 10, 0x30 + v / 10 % 10, 0x30 + v % 10]
  }

  // The two bytes of append2.
  function Tens(v: int): byte
    requires 0 <= v < 100
  {
    0x30 + v / 10
  }

  function Units(v: int): byte
    requires 0 <= v < 100
  {
    0x30 + v % 10
  }

  function Append6(v: int): bytes
    requires v >= 0
  {
    [0x30 + v / 100000 % 10, 0x30 + v / 10000 % 10, 0x30 + v / 1000 % 10,
     0x30 + v / 100 % 10, 0x30 + v / 10 % 10, 0x30 + v % 10]
  }

  // appendInt4, without and with the sign
  function Magnitude(m: nat): bytes { if m >= 10000 then Decimal(m) else Append4(m) }

  function YearText(v: int): bytes { if v < 0 then [DASH] + Magnitude(-v) else Magnitude(v) }

  function MonthDayText(c: Date): bytes
    requires ValidDate(c)
  {
    [DASH, Tens(c.month), Units(c.month), DASH, Tens(c.day), Units(c.day)]
  }

  function DateText(c: Date): bytes
    requires ValidDate(c)
  {
    YearText(c.year) + MonthDayText(c)
  }

  function ClockText(t: Moment): bytes
    requires InRangeTime(t)
  {
    [T_BYTE, Tens(t.hour), Units(t.hour), COLON, Tens(t.minute), Units(t.minute), COLON, Tens(t.second), Units(t.second)]
  }

  // appendISOTimestamp
  function TimestampText(usec: int, tz: bytes): bytes
  {
    var sec0 := PG_EPOCH + Quo(usec, 1_000_000);
    var frac0 := usec - Quo(usec, 1_000_000) * 1_000_000;
    var sec := if frac0 < 0 then sec0 - 1 else sec0;
    var frac := if frac0 < 0 then frac0 + 1_000_000 else frac0;
    SplitTimeCorrect(sec);
    var t := SplitTime(sec);
    DateText(t.date) + ClockText(t) + (if frac != 0 then [POINT] + Append6(frac) else []) + tz
  }

  // appendISODateOnly
  function DateOnlyText(usec: int): bytes
  {
    var sec := PG_EPOCH + Quo(usec, 1_000_000);
    SplitTimeCorrect(sec);
    DateText(SplitTime(sec).date)
  }

  const INFINITY: bytes := [0x22, 0x69, 0x6E, 0x66, 0x69, 0x6E, 0x69, 0x74, 0x79, 0x22]
  const MINUS_INFINITY: bytes := [0x22, 0x2D, 0x69, 0x6E, 0x66, 0x69, 0x6E, 0x69, 0x74, 0x79, 0x22]

  // encodeTimestampBinary (tz empty) and encodeTimestampTZBinary (tz "Z")
  function EncodeTimestamp(raw: Cell, tz: bytes): bytes
  {
    if raw.None? then NULL_TEXT
    else if |raw.value| != 8 then Quoted(raw.value)
    else
      var usec := I64(raw.value);
      if usec == TWO_63 - 1 then INFINITY
      else if usec == -TWO_63 then MINUS_INFINITY
      else [QUOTE] + TimestampText(usec, tz) + [QUOTE]
  }

  // encodeDateBinary
  function EncodeDate(raw: Cell): bytes
  {
    if raw.None? then NULL_TEXT
    else if |raw.value| != 4 then Quoted(raw.value)
    else
      var days := I32(raw.value);
      if days == 0x7FFF_FFFF then INFINITY
      else if days == -0x8000_0000 then MINUS_INFINITY
      else [QUOTE] + DateOnlyText(Wrap64(days * USEC_PER_DAY)) + [QUOTE]
  }

  // ---- Reading ----

  function TwoAt(b: bytes, i: nat): Option<nat>
  {
    if i + 2 <= |b| && IsDigit(b[i]) && IsDigit(b[i + 1])
    then Some((b[i] as int - 0x30) * 10 + (b[i + 1] as int - 0x30))
    else None
  }

  function ReadMonthDay(year: int, t: bytes): Option<(Date, bytes)>
  {
    if |t| < 6 || t[0] != DASH || t[3] != DASH || TwoAt(t, 1).None? || TwoAt(t, 4).None? then None
    else
      var c := Date(year, TwoAt(t, 1).value, TwoAt(t, 4).value);
      if ValidDate(c) then Some((c, t[6..])) else None
  }

  // A date at the front of b: a year of four or more digits with an optional minus, then -MM-DD.
  function ReadDate(b: bytes): Option<(Date, bytes)>
  {
    var negative := b != [] && b[0] == DASH;
    var digits := if negative then b[1..] else b;
    var n := DigitRun(digits);
    var year: int := Value(digits[..n]);
    if n < 4 then None else ReadMonthDay(if negative then -year else year, digits[n..])
  }

  // A date and time of day with up to six decimals: microseconds since 2000-01-01.
  function ReadTimestamp(b: bytes): Option<(int, bytes)>
  {
    var d := ReadDate(b);
    if d.None? then None
    else
      var (c, t) := d.value;
      if |t| < 9 || t[0] != T_BYTE || t[3] != COLON || t[6] != COLON
         || TwoAt(t, 1).None? || TwoAt(t, 4).None? || TwoAt(t, 7).None? then None
      else
        var m := Moment(c, TwoAt(t, 1).value, TwoAt(t, 4).value, TwoAt(t, 7).value);
        var usec := (SecondsOf(m) - PG_EPOCH) * 1_000_000;
        if !InRangeTime(m) then None
        else if |t| > 9 && t[9] == POINT then
          if |t| < 16 || !AllDigits(t[10..16]) then None else Some((usec + Value(t[10..16]), t[16..]))
        else Some((usec, t[9..]))
  }

  // ---- Round trips ----

  lemma TwoReadsBack(v: int, b: bytes, i: nat)
    requires 0 <= v < 100 && i + 2 <= |b| && b[i] == Tens(v) && b[i + 1] == Units(v)
    ensures TwoAt(b, i) == Some(v)
  {
  }

  lemma SixPlaces(v: int)
    requires v >= 0
    ensures v / 10000 % 10 == v / 100 / 100 % 10 && v / 100000 % 10 == v / 100 / 1000 % 10
    ensures v / 1000 % 10 == v / 100 / 10 % 10
    ensures v == 100 * (v / 100) + 10 * (v / 10 % 10) + v % 10
  {
    DivTen(v, 10);
    DivTen(v, 100);
    DivTen(v, 1000);
    DivTen(v, 10000);
    DivTen(v / 100, 10);
    DivTen(v / 100, 100);
  }

  lemma FourDigits(v: int)
    requires 0 <= v < 10000
    ensures AllDigits(Append4(v)) && Value(Append4(v)) == v
  {
    hide Value;
    FourPlaces(v);
    ValueOfFour(0x30 + v / 1000 % 10, 0x30 + v / 100 % 10, 0x30 + v / 10 % 10, 0x30 + v % 10);
  }

  lemma SixDigits(v: int)
    requires 0 <= v < 1_000_000
    ensures AllDigits(Append6(v)) && Value(Append6(v)) == v
  {
    hide Value;
    var b := Append4(v / 100);
    FourDigits(v / 100);
    SixPlaces(v);
    ValueSnoc(b, 0x30 + v / 10 % 10);
    ValueSnoc(b + [0x30 + v / 10 % 10], 0x30 + v % 10);
    assert Append6(v) == b + [0x30 + v / 10 % 10] + [0x30 + v % 10];
  }

  lemma MagnitudeDigits(m: nat)
    ensures AllDigits(Magnitude(m)) && Value(Magnitude(m)) == m && |Magnitude(m)| >= 4
  {
    if m >= 10000 {
      assert Pow10(3) == 1000 by { assert Pow10(1) == 10; assert Pow10(2) == 100; }
      DecimalLength(m, 3);
    } else {
      FourDigits(m);
    }
  }

  lemma UnsignedRun(d: bytes, rest: bytes)
    requires AllDigits(d) && |d| >= 4 && rest != [] && !IsDigit(rest[0])
    ensures DigitRun(d + rest) == |d| && (d + rest)[..|d|] == d && (d + rest)[|d|..] == rest
    ensures (d + rest)[0] != DASH && ([DASH] + (d + rest))[1..] == d + rest
  {
    DigitRunOf(d, rest);
    assert IsDigit(d[0]);
  }

  lemma YearReadsBack(year: int, rest: bytes)
    requires rest != [] && !IsDigit(rest[0])
    ensures ReadDate(YearText(year) + rest) == ReadMonthDay(year, rest)
  {
    hide DigitRun, Value, ReadMonthDay, Magnitude, AllDigits;
    var d := Magnitude(if year < 0 then -year else year);
    MagnitudeDigits(if year < 0 then -year else year);
    UnsignedRun(d, rest);
    assert year < 0 ==> [DASH] + d + rest == [DASH] + (d + rest);
  }

  lemma MonthDayReadsBack(c: Date, rest: bytes)
    requires ValidDate(c)
    ensures ReadMonthDay(c.year, MonthDayText(c) + rest) == Some((c, rest))
  {
    ValidMonthDay(c);
    hide ValidDate, TwoAt, Tens, Units;
    var t := MonthDayText(c) + rest;
    TwoReadsBack(c.month, t, 1);
    TwoReadsBack(c.day, t, 4);
    assert t[6..] == rest;
  }

  /** A printed date, of any year, reads back. */
  lemma DateReadsBack(c: Date, rest: bytes)
    requires ValidDate(c)
    ensures ReadDate(DateText(c) + rest) == Some((c, rest))
  {
    hide ReadDate, ReadMonthDay, YearText, ValidDate;
    MonthDayReadsBack(c, rest);
    YearReadsBack(c.year, MonthDayText(c) + rest);
    assert YearText(c.year) + MonthDayText(c) + rest == YearText(c.year) + (MonthDayText(c) + rest);
  }

  lemma ValidMonthDay(c: Date)
    requires ValidDate(c)
    ensures 0 <= c.month < 100 && 0 <= c.day < 100
  {
  }

  lemma FloorMicros(usec: int)
    ensures var q := Quo(usec, 1_000_000);
            var frac := usec - q * 1_000_000;
            && (frac < 0 ==> q - 1 == usec / 1_000_000 && frac + 1_000_000 == usec % 1_000_000)
            && (frac >= 0 ==> q == usec / 1_000_000 && frac == usec % 1_000_000)
  {
  }

  // The clock and the decimals after a date.
  lemma ClockReadsBack(b: bytes, c: Date, t: Moment, frac: int, rest: bytes)
    requires ValidDate(c) && t.date == c && InRangeTime(t) && 0 <= frac < 1_000_000
    requires rest == [] || rest[0] != POINT
    requires ReadDate(b) == Some((c, ClockText(t) + ((if frac != 0 then [POINT] + Append6(frac) else []) + rest)))
    ensures ReadTimestamp(b) == Some(((SecondsOf(t) - PG_EPOCH) * 1_000_000 + frac, rest))
  {
    hide ValidDate, TwoAt, Tens, Units, ReadDate, SecondsOf, Value, Append6;
    var decimals := if frac != 0 then [POINT] + Append6(frac) else [];
    var s := ClockText(t) + (decimals + rest);
    TwoReadsBack(t.hour, s, 1);
    TwoReadsBack(t.minute, s, 4);
    TwoReadsBack(t.second, s, 7);
    if frac == 0 {
      assert decimals + rest == rest && s[9..] == rest;
    } else {
      SixDigits(frac);
      SixLong(frac);
      assert s[9] == POINT && s[10..16] == Append6(frac) && s[16..] == rest;
    }
  }

  lemma SixLong(v: int)
    requires v >= 0
    ensures |Append6(v)| == 6
  {
  }

  /** Every microsecond count survives printing and reading, with any suffix but a decimal point. */
  lemma TimestampReadsBack(usec: int, tz: bytes)
    requires tz == [] || tz[0] != POINT
    ensures ReadTimestamp(TimestampText(usec, tz)) == Some((usec, tz))
  {
    hide ValidDate, DateText, ReadDate, ClockText, SplitTime, ReadTimestamp, Append6, Quo, InRangeTime, SecondsOf;
    FloorMicros(usec);
    var sec, frac := PG_EPOCH + usec / 1_000_000, usec % 1_000_000;
    SplitTimeCorrect(sec);
    var t := SplitTime(sec);
    var decimals := if frac != 0 then [POINT] + Append6(frac) else [];
    DateReadsBack(t.date, ClockText(t) + (decimals + tz));
    assert DateText(t.date) + ClockText(t) + decimals + tz == DateText(t.date) + (ClockText(t) + (decimals + tz));
    ClockReadsBack(TimestampText(usec, tz), t.date, t, frac, tz);
  }

  /** Distinct timestamps print distinctly. */
  lemma TimestampInjective(a: int, b: int, tz: bytes)
    requires tz == [] || tz[0] != POINT
    ensures TimestampText(a, tz) == TimestampText(b, tz) <==> a == b
  {
    TimestampReadsBack(a, tz);
    TimestampReadsBack(b, tz);
  }

  // ---- RFC 3339 ----

  // date-time of section 5.6 of RFC 3339, with the Z offset.
  predicate Rfc3339DateTime(b: bytes)
  {
    && |b| >= 20 && AllDigits(b[..4]) && b[4] == DASH && b[7] == DASH && b[10] == T_BYTE && b[13] == COLON && b[16] == COLON
    && TwoAt(b, 5).Some? && TwoAt(b, 8).Some? && TwoAt(b, 11).Some? && TwoAt(b, 14).Some? && TwoAt(b, 17).Some?
    && ValidDate(Date(Value(b[..4]), TwoAt(b, 5).value, TwoAt(b, 8).value))
    && TwoAt(b, 11).value <= 23 && TwoAt(b, 14).value <= 59 && TwoAt(b, 17).value <= 59
    && (b[19..] == [Z_BYTE]
        || (|b| >= 22 && b[19] == POINT && AllDigits(b[20..|b| - 1]) && b[|b| - 1] == Z_BYTE))
  }

  lemma DecimalsShape(frac: int)
    requires 0 <= frac < 1_000_000
    ensures var e := DecimalsText(frac) + [Z_BYTE];
            e == [Z_BYTE] || (|e| == 8 && e[0] == POINT && AllDigits(e[1..7]) && e[7] == Z_BYTE)
  {
    if frac != 0 {
      SixDigits(frac);
      var e := [POINT] + Append6(frac) + [Z_BYTE];
      assert e[1..7] == Append6(frac);
    }
  }

  lemma Positions(b: bytes, year: bytes, md: bytes, clock: bytes, e: bytes)
    requires |year| == 4 && |md| == 6 && |clock| == 9 && b == year + (md + (clock + e))
    ensures b[..4] == year && b[19..] == e
    ensures b[4] == md[0] && b[5] == md[1] && b[6] == md[2] && b[7] == md[3] && b[8] == md[4] && b[9] == md[5]
    ensures b[10] == clock[0] && b[11] == clock[1] && b[12] == clock[2] && b[13] == clock[3] && b[14] == clock[4]
    ensures b[15] == clock[5] && b[16] == clock[6] && b[17] == clock[7] && b[18] == clock[8]
  {
  }

  lemma FourDigitYear(b: bytes, year: bytes, t: Moment, e: bytes)
    requires ValidDate(t.date) && InRangeTime(t) && |year| == 4 && AllDigits(year) && Value(year) == t.date.year
    requires b == year + (MonthDayText(t.date) + (ClockText(t) + e))
    requires e == [Z_BYTE] || (|e| == 8 && e[0] == POINT && AllDigits(e[1..7]) && e[7] == Z_BYTE)
    ensures Rfc3339DateTime(b)
  {
    ValidMonthDay(t.date);
    hide Value, ValidDate, TwoAt, Tens, Units;
    Positions(b, year, MonthDayText(t.date), ClockText(t), e);
    TwoReadsBack(t.date.month, b, 5);
    TwoReadsBack(t.date.day, b, 8);
    TwoReadsBack(t.hour, b, 11);
    TwoReadsBack(t.minute, b, 14);
    TwoReadsBack(t.second, b, 17);
    if e != [Z_BYTE] {
      assert b[20..|b| - 1] == e[1..7] && b[|b| - 1] == e[7] && b[19] == e[0];
    }
  }

  lemma LongYear(b: bytes, year: int, rest: bytes)
    requires b == YearText(year) + rest && (year < 0 || year > 9999)
    ensures !Rfc3339DateTime(b)
  {
    hide Value, TwoAt, ValidDate;
    if year < 0 {
      assert b[0] == DASH;
      assert |b| >= 4 ==> b[..4][0] == b[0];
    } else {
      assert Pow10(4) == 10000 by { assert Pow10(1) == 10; assert Pow10(2) == 100; assert Pow10(3) == 1000; }
      DecimalLength(year, 4);
      assert b[4] == Decimal(year)[4];
    }
  }

  function MomentOf(usec: int): (t: Moment)
    ensures ValidDate(t.date) && InRangeTime(t)
  {
    SplitTimeCorrect(PG_EPOCH + usec / 1_000_000);
    SplitTime(PG_EPOCH + usec / 1_000_000)
  }

  function DecimalsText(frac: int): bytes
    requires 0 <= frac
  {
    if frac != 0 then [POINT] + Append6(frac) else []
  }

  lemma TimestampParts(usec: int, tz: bytes)
    ensures var t := MomentOf(usec);
            TimestampText(usec, tz) ==
            YearText(t.date.year) + (MonthDayText(t.date) + (ClockText(t) + (DecimalsText(usec % 1_000_000) + tz)))
  {
    hide ValidDate, SplitTime, Quo, InRangeTime, SecondsOf, MonthDayText, ClockText, Append6, YearText;
    FloorMicros(usec);
    var t := MomentOf(usec);
    var y, md, c, d := YearText(t.date.year), MonthDayText(t.date), ClockText(t), DecimalsText(usec % 1_000_000);
    assert y + md + c + d + tz == y + (md + (c + (d + tz)));
  }

  /** The Z form is an RFC 3339 date-time exactly for the years 0000 to 9999. */
  lemma TimestampIsRfc3339(usec: int)
    ensures Rfc3339DateTime(TimestampText(usec, [Z_BYTE])) <==> 0 <= MomentOf(usec).date.year <= 9999
  {
    TimestampParts(usec, [Z_BYTE]);
    DecimalsShape(usec % 1_000_000);
    var t, d := MomentOf(usec), DecimalsText(usec % 1_000_000);
    if 0 <= t.date.year <= 9999 {
      FourDigits(t.date.year);
      FourLong(t.date.year);
      assert YearText(t.date.year) == Append4(t.date.year);
      hide *;
      FourDigitYear(TimestampText(usec, [Z_BYTE]), Append4(t.date.year), t, d + [Z_BYTE]);
    } else {
      hide *;
      LongYear(TimestampText(usec, [Z_BYTE]), t.date.year, MonthDayText(t.date) + (ClockText(t) + (d + [Z_BYTE])));
    }
  }

  lemma FourLong(v: int)
    requires v >= 0
    ensures |Append4(v)| == 4
  {
  }

  // ---- From the wire ----

  /** A timestamp cell renders as a quoted text from which its 64-bit count is read back. */
  lemma EncodedTimestampReadsBack(raw: bytes, tz: bytes)
    requires |raw| == 8 && (tz == [] || tz == [Z_BYTE])
    requires -TWO_63 < I64(raw) < TWO_63 - 1
    ensures var text := EncodeTimestamp(Some(raw), tz);
            && |text| >= 2 && text[0] == QUOTE && text[|text| - 1] == QUOTE
            && ReadTimestamp(text[1..|text| - 1]) == Some((I64(raw), tz))
  {
    hide I64, ReadTimestamp, TimestampText;
    TimestampReadsBack(I64(raw), tz);
    var t := TimestampText(I64(raw), tz);
    assert ([QUOTE] + t + [QUOTE])[1..|t| + 1] == t;
  }

  // The day whose date encodeDateBinary prints, in days since 2000-01-01.
  function PrintedDay(days: int): int
  {
    (PG_EPOCH + Quo(Wrap64(days * USEC_PER_DAY), 1_000_000)) / 86400 - PG_EPOCH_DAYS
  }

  // The largest day count whose microseconds fit in an int64.
  const MAX_DAYS: int := 106_751_991

  lemma PrintedDayExact(days: int)
    requires IsInt32(days)
    ensures PrintedDay(days) == days <==> -MAX_DAYS <= days <= MAX_DAYS
  {
    var w := Wrap64(days * USEC_PER_DAY);
    if -MAX_DAYS <= days <= MAX_DAYS {
      assert w == days * USEC_PER_DAY;
      assert Quo(w, 1_000_000) == days * 86400;
    } else {
      assert days * USEC_PER_DAY >= TWO_63 || days * USEC_PER_DAY < -TWO_63;
      WrappedDay(days, w);
    }
  }

  lemma WrappedDay(days: int, w: int)
    requires IsInt64(w) && (days > MAX_DAYS || days < -MAX_DAYS)
    requires w == Wrap64(days * USEC_PER_DAY)
    ensures (PG_EPOCH + Quo(w, 1_000_000)) / 86400 - PG_EPOCH_DAYS != days
  {
    assert -106_751_992 <= (PG_EPOCH + Quo(w, 1_000_000)) / 86400 - PG_EPOCH_DAYS <= 106_751_991;
    if days == -106_751_992 {
      assert w >= 0;
    }
  }

  /** A date cell reads back as its own day exactly when the day count's microseconds fit in an
      int64; past that bound (5874897 AD included) the product wraps and another date is printed. */
  lemma EncodedDateReadsBack(raw: bytes)
    requires |raw| == 4 && I32(raw) != 0x7FFF_FFFF && I32(raw) != -0x8000_0000
    ensures var text := EncodeDate(Some(raw));
            && |text| >= 2 && text[0] == QUOTE && text[|text| - 1] == QUOTE
            && var d := ReadDate(text[1..|text| - 1]);
            && d.Some? && d.value.1 == [] && ValidDate(d.value.0)
            && (DayNumber(d.value.0) - PG_EPOCH_DAYS == I32(raw) <==> -MAX_DAYS <= I32(raw) <= MAX_DAYS)
  {
    hide I32, ReadDate, DateText, DayNumber, ValidDate, SplitTime, DateOfDays, Quo, Wrap64;
    var days := I32(raw);
    var sec := PG_EPOCH + Quo(Wrap64(days * USEC_PER_DAY), 1_000_000);
    SplitTimeCorrect(sec);
    DateOfDaysCorrect(sec / 86400);
    PrintedDayExact(days) by { Signed32InRange(raw); }
    var c := SplitTime(sec).date;
    DateReadsBack(c, []);
    assert DateText(c) + [] == DateText(c);
    assert ([QUOTE] + DateText(c) + [QUOTE])[1..|DateText(c)| + 1] == DateText(c);
  }

  lemma Signed32InRange(raw: bytes)
    requires |raw| == 4
    ensures IsInt32(I32(raw))
  {
  }

  // 5874897-12-31, the last date PostgreSQL stores, as the server sends it.
  const LAST_DATE: bytes := [0x7F, 0xDA, 0x97, 0x0C]

  lemma LastDateWraps()
    ensures I32(LAST_DATE) == 2_145_031_948
    ensures Wrap64(2_145_031_948 * USEC_PER_DAY) == 863_319_570_104_483_840
    ensures PG_EPOCH + Quo(863_319_570_104_483_840, 1_000_000) == 864_266_254_904
  {
  }

  lemma WrappedDate()
    ensures 864_266_254_904 / 86400 == 10_003_081 && DateOfDays(10_003_081) == Date(29357, 7, 4)
  {
  }

  lemma LastDateIs()
    ensures ValidDate(Date(5874897, 12, 31)) && DayNumber(Date(5874897, 12, 31)) - PG_EPOCH_DAYS == 2_145_031_948
  {
    MonthStarts(5874897);
  }

  // Quoted dates are as distinct as the dates.
  lemma QuotedDatesDiffer(a: Date, b: Date)
    requires ValidDate(a) && ValidDate(b) && a != b
    ensures [QUOTE] + DateText(a) + [QUOTE] != [QUOTE] + DateText(b) + [QUOTE]
  {
    DateReadsBack(a, [QUOTE]);
    DateReadsBack(b, [QUOTE]);
    hide DateText, ReadDate, ValidDate;
    Unquote(DateText(a));
    Unquote(DateText(b));
  }

  lemma Unquote(text: bytes)
    ensures ([QUOTE] + text + [QUOTE])[1..] == text + [QUOTE]
  {
  }

  /** The cell of 5874897-12-31 is printed as 29357-07-04. */
  lemma LastDatePrintsWrong()
    ensures ValidDate(Date(5874897, 12, 31)) && DayNumber(Date(5874897, 12, 31)) - PG_EPOCH_DAYS == I32(LAST_DATE)
    ensures ValidDate(Date(29357, 7, 4)) && EncodeDate(Some(LAST_DATE)) == [QUOTE] + DateText(Date(29357, 7, 4)) + [QUOTE]
    ensures EncodeDate(Some(LAST_DATE)) != [QUOTE] + DateText(Date(5874897, 12, 31)) + [QUOTE]
  {
    LastDateWraps();
    LastDateIs();
    WrappedDate();
    SplitTimeCorrect(864_266_254_904);
    hide I32, Wrap64, Quo, SplitTime, DateOfDays, DateText, DayNumber, ValidDate, SecondsOf, InRangeTime;
    QuotedDatesDiffer(Date(29357, 7, 4), Date(5874897, 12, 31));
  }

  // ---- NULL, infinities and cells of another length ----

  // The cells that PostgreSQL sends for infinity and -infinity.
  const MAX_64: bytes := [0x7F, 0xFF, 0xFF, 0xFF, 0xFF, 0xFF, 0xFF, 0xFF]
  const MIN_64: bytes := [0x80, 0, 0, 0, 0, 0, 0, 0]
  const MAX_32: bytes := [0x7F, 0xFF, 0xFF, 0xFF]
  const MIN_32: bytes := [0x80, 0, 0, 0]

  // A JSON string of an ASCII text, or the literal null.
  lemma InfinityTexts()
    ensures INFINITY == Ascii("\"infinity\"") && MINUS_INFINITY == Ascii("\"-infinity\"") && NULL_TEXT == Ascii("null")
  {
  }

  lemma Sentinels()
    ensures I64(MAX_64) == TWO_63 - 1 && I64(MIN_64) == -TWO_63 && I32(MAX_32) == 0x7FFF_FFFF && I32(MIN_32) == -0x8000_0000
  {
    assert MAX_64[..4] == MAX_32 && MIN_64[..4] == MIN_32;
  }

  // Eight bytes are determined by the number they spell.
  lemma SameWord(a: bytes, b: bytes)
    requires |a| == |b| == 4 && U32(a) == U32(b)
    ensures a == b
  {
    assert a[0] == b[0] && a[1] == b[1] && a[2] == b[2] && a[3] == b[3];
  }

  lemma SameCell(a: bytes, b: bytes)
    requires |a| == |b| == 8 && I64(a) == I64(b)
    ensures a == b
  {
    SameWord(a[..4], b[..4]);
    SameWord(a[4..], b[4..]);
    assert a == a[..4] + a[4..] && b == b[..4] + b[4..];
  }

  /** Every timestamp cell that is not a finite eight-byte count: NULL prints as null, the two
      sentinels as "infinity" and "-infinity", a cell of another length as the string it is. */
  lemma SpecialTimestamps(raw: Cell, tz: bytes)
    ensures raw.None? ==> EncodeTimestamp(raw, tz) == Ascii("null")
    ensures raw == Some(MAX_64) ==> EncodeTimestamp(raw, tz) == Ascii("\"infinity\"")
    ensures raw == Some(MIN_64) ==> EncodeTimestamp(raw, tz) == Ascii("\"-infinity\"")
    ensures raw.Some? && |raw.value| != 8 ==> ReadString(EncodeTimestamp(raw, tz)) == Some((raw.value, []))
    ensures raw.Some? && |raw.value| == 8 && raw.value != MAX_64 && raw.value != MIN_64 ==> -TWO_63 < I64(raw.value) < TWO_63 - 1
  {
    InfinityTexts();
    Sentinels();
    hide Ascii, I64, TimestampText, ReadString;
    if raw.Some? && |raw.value| == 8 {
      CellRange(raw.value);
      if I64(raw.value) == TWO_63 - 1 { SameCell(raw.value, MAX_64); }
      if I64(raw.value) == -TWO_63 { SameCell(raw.value, MIN_64); }
    } else if raw.Some? {
      StringReadsBack(raw.value, []);
      assert Quoted(raw.value) + [] == Quoted(raw.value);
    }
  }

  lemma CellRange(raw: bytes)
    requires |raw| == 8
    ensures IsInt64(I64(raw))
  {
  }

  /** The same for dates. */
  lemma SpecialDates(raw: Cell)
    ensures raw.None? ==> EncodeDate(raw) == Ascii("null")
    ensures raw == Some(MAX_32) ==> EncodeDate(raw) == Ascii("\"infinity\"")
    ensures raw == Some(MIN_32) ==> EncodeDate(raw) == Ascii("\"-infinity\"")
    ensures raw.Some? && |raw.value| != 4 ==> ReadString(EncodeDate(raw)) == Some((raw.value, []))
    ensures raw.Some? && |raw.value| == 4 && raw.value != MAX_32 && raw.value != MIN_32 ==>
              I32(raw.value) != 0x7FFF_FFFF && I32(raw.value) != -0x8000_0000
  {
    InfinityTexts();
    Sentinels();
    if raw.Some? && |raw.value| == 4 {
      if I32(raw.value) == 0x7FFF_FFFF { SameWord(raw.value, MAX_32); }
      if I32(raw.value) == -0x8000_0000 { SameWord(raw.value, MIN_32); }
    } else if raw.Some? {
      StringReadsBack(raw.value, []);
      assert Quoted(raw.value) + [] == Quoted(raw.value);
    }
    hide Ascii, I32, DateOnlyText, ReadString;
  }
}
