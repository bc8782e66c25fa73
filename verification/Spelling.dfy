/** The byte and number constants of the model, spelt as the formats define them. */
module Spelling {
  import opened Bytes
  import opened Escape
  import opened Rows
  import opened Headers
  import opened Calendar
  import Digits
  import Timestamps
  import Wire
  import Statements
  import Pool

  /** The structural characters of sections 2 and 7 of RFC 8259, and the literal null. */
  lemma JsonBytes()
    ensures COMMA == ',' as int && COLON == ':' as int && QUOTE == '"' as int && BACKSLASH == '\\' as int && NEWLINE == '\n' as int
    ensures OPEN_BRACE == '{' as int && CLOSE_BRACE == '}' as int && OPEN_BRACKET == '[' as int && CLOSE_BRACKET == ']' as int
    ensures NULL_TEXT == Ascii("null")
  {
  }

  lemma HeaderTexts()
    ensures COLUMNS_PREFIX == Ascii("{\"columns\":") && ROWS_PREFIX == Ascii(",\"rows\":[") && TOON_PREFIX == Ascii("[?]{")
  {
  }

  lemma NumberBytes()
    ensures Digits.ZERO == '0' as int && Digits.POINT == '.' as int && Digits.MINUS == '-' as int
    ensures Timestamps.DASH == '-' as int && Timestamps.T_BYTE == 'T' as int && Timestamps.Z_BYTE == 'Z' as int
    ensures forall v :: 0 <= v <= 9 ==> Digits.Digit(v) == "0123456789"[v] as int
  {
  }

  /** PostgreSQL counts from 2000-01-01, the reference calendar from 1970-01-01. */
  lemma Epochs()
    ensures DayNumber(Date(1970, 1, 1)) == 0 && DayNumber(Date(2000, 1, 1)) == Timestamps.PG_EPOCH_DAYS
    ensures Timestamps.PG_EPOCH == Timestamps.PG_EPOCH_DAYS * 24 * 60 * 60 && Timestamps.USEC_PER_DAY == 24 * 60 * 60 * 1_000_000
  {
    MonthStarts(1970);
    MonthStarts(2000);
  }

  /** Network byte order: most significant byte first, two's complement. */
  lemma BigEndian()
    ensures Put16(1) == [0, 1] && Put32(1) == [0, 0, 0, 1] && Put16(-2) == [255, 254] && Put32(-2) == [255, 255, 255, 254]
    ensures U16([1, 2]) == 258 && I16([255, 254]) == -2 && U32([0, 0, 1, 2]) == 258 && I32([255, 255, 255, 254]) == -2
  {
  }

  /** The limit on a message is 256 MiB. */
  lemma Limits()
    ensures Wire.MAX_MSG == 256 * 1024 * 1024
  {
  }

  /** A statement cache holds 64 statements unless told otherwise, and starts empty. */
  lemma CacheSize(max: int)
    ensures Statements.NewCache(max).max == (if max > 0 then max else 64) && Statements.NewCache(max).byKey == map[]
  {
  }

  /** A pool starts with MinIdle connections, all idle and different. */
  lemma PoolStarts(max: int, minIdle: int)
    ensures var s := Pool.Start(max, minIdle);
            && s.open == |s.idle| == (if minIdle > 0 then minIdle else 0) && s.max == max && s.inUse == 0 && s.waiters == []
            && forall i, j :: 0 <= i < j < |s.idle| ==> s.idle[i] != s.idle[j]
  {
  }
}
