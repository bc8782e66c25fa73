/** The JSON string escaper of internal/jsonwriter: the scalar reference loop, the
    eight-bytes-at-a-time SWAR loop that must agree with it, and a reader for JSON strings
    (section 7 of RFC 8259) that undoes both. */
module Escape {
  import opened Bytes

  const QUOTE: byte := 0x22
  const BACKSLASH: byte := 0x5C

  // escapeFlag[c]
  predicate EscapeFlag(c: byte) { c < 0x20 || c == QUOTE || c == BACKSLASH }

  // hex[n] of the table "0123456789abcdef"
  function HexDigit(n: nat): byte
    requires n < 16
  {
    if n < 10 then 0x30 + n else 0x57 + n
  }

  function EscapeOf(c: byte): (r: bytes)
    ensures |r| == 2 || |r| == 6
  {
    match c
    case 0x22 => [BACKSLASH, QUOTE]
    case 0x5C => [BACKSLASH, BACKSLASH]
    case 0x0A => [BACKSLASH, 0x6E]
    case 0x0D => [BACKSLASH, 0x72]
    case 0x09 => [BACKSLASH, 0x74]
    case 0x08 => [BACKSLASH, 0x62]
    case 0x0C => [BACKSLASH, 0x66]
    case _ => [BACKSLASH, 0x75, 0x30, 0x30, HexDigit(c / 16), HexDigit(c % 16)]
  }

  function EscapeByte(c: byte): bytes { if EscapeFlag(c) then EscapeOf(c) else [c] }

  // What escaping means, one byte at a time: the specification of both loops.
  function Escaped(s: bytes): bytes
  {
    if s == [] then [] else EscapeByte(s[0]) + Escaped(s[1..])
  }

  function Quoted(s: bytes): bytes { [QUOTE] + Escaped(s) + [QUOTE] }

  lemma {:induction false} EscapedConcat(a: bytes, b: bytes)
    ensures Escaped(a + b) == Escaped(a) + Escaped(b)
  {
    hide EscapeByte;
    if a == [] {
      assert a + b == b;
    } else {
      assert (a + b)[1..] == a[1..] + b && (a + b)[0] == a[0];
      assert Escaped(a + b) == EscapeByte(a[0]) + Escaped(a[1..] + b) && Escaped(a) == EscapeByte(a[0]) + Escaped(a[1..]);
      hide *;
      EscapedConcat(a[1..], b);
      Assoc(EscapeByte(a[0]), Escaped(a[1..]), Escaped(b));
    }
  }

  lemma {:induction false} EscapedSafe(s: bytes)
    requires forall k :: 0 <= k < |s| ==> !EscapeFlag(s[k])
    ensures Escaped(s) == s
  {
    hide EscapeOf;
    if s != [] {
      EscapedSafe(s[1..]);
    }
  }

  // A loop that has emitted s[..start] and scanned a safe span up to i may emit the span ...
  lemma EscapedSpan(s: bytes, start: nat, i: nat)
    requires start <= i <= |s|
    requires forall k :: start <= k < i ==> !EscapeFlag(s[k])
    ensures Escaped(s[..i]) == Escaped(s[..start]) + s[start..i]
  {
    hide EscapeOf;
    assert s[..i] == s[..start] + s[start..i];
    EscapedConcat(s[..start], s[start..i]);
    EscapedSafe(s[start..i]);
  }

  // ... and then the escape of the byte it stopped at.
  lemma EscapedStop(s: bytes, i: nat)
    requires i < |s| && EscapeFlag(s[i])
    ensures Escaped(s[..i + 1]) == Escaped(s[..i]) + EscapeOf(s[i])
  {
    hide EscapeOf;
    assert s[..i + 1] == s[..i] + [s[i]];
    EscapedConcat(s[..i], [s[i]]);
    assert Escaped([s[i]]) == EscapeByte(s[i]) + Escaped([s[i]][1..]);
  }

  method AppendStringBody(dst: bytes, s: bytes) returns (r: bytes)
    ensures r == dst + Escaped(s)
  {
    hide EscapeOf, EscapeFlag, Escaped;
    r := dst;
    var start := 0;
    EscapedSafe([]);
    for i := 0 to |s|
      invariant start <= i
      invariant r == dst + Escaped(s[..start])
      invariant forall k :: start <= k < i ==> !EscapeFlag(s[k])
    {
      if EscapeFlag(s[i]) {
        EscapedSpan(s, start, i);
        EscapedStop(s, i);
        if i > start {
          r := r + s[start..i];
        }
        r := r + EscapeOf(s[i]);
        start := i + 1;
      }
    }
    EscapedSpan(s, start, |s|);
    assert s[..|s|] == s;
    if start < |s| {
      r := r + s[start..];
    }
  }

  // ---- SWAR ----

  function SwarHasEscapable(x: bv64): bv64
  {
    var lowCtrl := (x - 0x2020202020202020) & !x & 0x8080808080808080;
    var q := x ^ 0x2222222222222222;
    var quote := (q - 0x0101010101010101) & !q & 0x8080808080808080;
    var b := x ^ 0x5C5C5C5C5C5C5C5C;
    var slash := (b - 0x0101010101010101) & !b & 0x8080808080808080;
    lowCtrl | quote | slash
  }

  function NibbleBits(n: nat): bv64
    requires n < 16
  {
    if n < 8 then
      if n < 4 then if n < 2 then if n == 0 then 0 else 1 else if n == 2 then 2 else 3
      else if n < 6 then if n == 4 then 4 else 5 else if n == 6 then 6 else 7
    else
      if n < 12 then if n < 10 then if n == 8 then 8 else 9 else if n == 10 then 10 else 11
      else if n < 14 then if n == 12 then 12 else 13 else if n == 14 then 14 else 15
  }

  function ByteBits(c: byte): bv64 { (NibbleBits(c / 16) << 4) | NibbleBits(c % 16) }

  function Pack(a: bv64, b: bv64, c: bv64, d: bv64, e: bv64, f: bv64, g: bv64, h: bv64): bv64
  {
    a | (b << 8) | (c << 16) | (d << 24) | (e << 32) | (f << 40) | (g << 48) | (h << 56)
  }

  // binary.LittleEndian.Uint64
  function LoadWord(s: bytes): bv64
    requires |s| == 8
  {
    Pack(ByteBits(s[0]), ByteBits(s[1]), ByteBits(s[2]), ByteBits(s[3]),
         ByteBits(s[4]), ByteBits(s[5]), ByteBits(s[6]), ByteBits(s[7]))
  }

  predicate EscapableBits(b: bv64) { b < 0x20 || b == 0x22 || b == 0x5C }

  lemma SwarWord(a: bv64, b: bv64, c: bv64, d: bv64, e: bv64, f: bv64, g: bv64, h: bv64)
    requires a < 256 && b < 256 && c < 256 && d < 256 && e < 256 && f < 256 && g < 256 && h < 256
    ensures SwarHasEscapable(Pack(a, b, c, d, e, f, g, h)) != 0 <==>
            (EscapableBits(a) || EscapableBits(b) || EscapableBits(c) || EscapableBits(d) ||
             EscapableBits(e) || EscapableBits(f) || EscapableBits(g) || EscapableBits(h))
  {
  }

  lemma NibbleBitsFaithful(n: nat)
    requires n < 16
    ensures NibbleBits(n) < 16 && (NibbleBits(n) < 2 <==> n < 2)
    ensures (NibbleBits(n) == 2 <==> n == 2) && (NibbleBits(n) == 5 <==> n == 5) && (NibbleBits(n) == 12 <==> n == 12)
  {
  }

  lemma EscapableNibbles(hi: bv64, lo: bv64)
    requires hi < 16 && lo < 16
    ensures ((hi << 4) | lo) < 256
    ensures EscapableBits((hi << 4) | lo) <==> hi < 2 || (hi == 2 && lo == 2) || (hi == 5 && lo == 12)
  {
  }

  lemma ByteBitsFaithful(c: byte)
    ensures ByteBits(c) < 256
    ensures EscapableBits(ByteBits(c)) <==> EscapeFlag(c)
  {
    NibbleBitsFaithful(c / 16);
    NibbleBitsFaithful(c % 16);
    EscapableNibbles(NibbleBits(c / 16), NibbleBits(c % 16));
  }

  /** The bit trick is exact on every word, although its subtractions borrow across bytes. */
  lemma SwarDetectsExactly(s: bytes)
    requires |s| == 8
    ensures SwarHasEscapable(LoadWord(s)) != 0 <==> exists k :: 0 <= k < 8 && EscapeFlag(s[k])
  {
    forall k | 0 <= k < 8
      ensures ByteBits(s[k]) < 256 && (EscapableBits(ByteBits(s[k])) <==> EscapeFlag(s[k]))
    {
      ByteBitsFaithful(s[k]);
    }
    SwarWord(ByteBits(s[0]), ByteBits(s[1]), ByteBits(s[2]), ByteBits(s[3]),
             ByteBits(s[4]), ByteBits(s[5]), ByteBits(s[6]), ByteBits(s[7]));
  }

  method SkipSafeWords(s: bytes, from: nat) returns (i: nat)
    requires from <= |s|
    ensures from <= i <= |s|
    ensures forall k :: from <= k < i ==> !EscapeFlag(s[k])
  {
    i := from;
    while i + 8 <= |s|
      invariant from <= i <= |s|
      invariant forall k :: from <= k < i ==> !EscapeFlag(s[k])
    {
      SwarDetectsExactly(s[i..i + 8]);
      if SwarHasEscapable(LoadWord(s[i..i + 8])) != 0 {
        break;
      }
      assert forall k :: i <= k < i + 8 ==> s[k] == s[i..i + 8][k - i];
      i := i + 8;
    }
  }

  /** The word-at-a-time loop appends exactly what the scalar loop appends. */
  method AppendStringBodySwar(dst: bytes, s: bytes) returns (r: bytes)
    ensures r == dst + Escaped(s)
  {
    hide EscapeOf, EscapeFlag, Escaped;
    r := dst;
    var start, i := 0, 0;
    EscapedSafe([]);
    while i < |s|
      invariant start == i <= |s|
      invariant r == dst + Escaped(s[..i])
    {
      i := SkipSafeWords(s, i);
      while i < |s| && !EscapeFlag(s[i])
        invariant start <= i <= |s|
        invariant forall k :: start <= k < i ==> !EscapeFlag(s[k])
      {
        i := i + 1;
      }
      EscapedSpan(s, start, i);
      if i > start {
        r := r + s[start..i];
        start := i;
      }
      if i < |s| {
        EscapedStop(s, i);
        r := r + EscapeOf(s[i]);
        i := i + 1;
        start := i;
      }
    }
    assert s[..|s|] == s;
  }

  // ---- Reading JSON strings back ----

  function HexValue(c: byte): (v: Option<nat>)
    ensures v.Some? ==> v.value < 16
  {
    if 0x30 <= c <= 0x39 then Some(c - 0x30)
    else if 0x61 <= c <= 0x66 then Some(c - 0x57)
    else if 0x41 <= c <= 0x46 then Some(c - 0x37)
    else None
  }

  // UTF-8 of one code point of the basic multilingual plane; surrogates are refused.
  function Utf8(cp: nat): Option<bytes>
    requires cp < 0x1_0000
  {
    if cp < 0x80 then Some([cp])
    else if cp < 0x800 then Some([0xC0 + cp / 64, 0x80 + cp % 64])
    else if 0xD800 <= cp < 0xE000 then None
    else Some([0xE0 + cp / 4096, 0x80 + cp / 64 % 64, 0x80 + cp % 64])
  }

  datatype Unit = Unit(decoded: bytes, used: nat)

  // One unescaped byte or one escape sequence at the front of b.
  function ReadUnit(b: bytes): (u: Option<Unit>)
    requires |b| > 0
    ensures u.Some? ==> 1 <= u.value.used <= |b|
  {
    if b[0] != BACKSLASH then
      if b[0] < 0x20 then None else Some(Unit([b[0]], 1))
    else if |b| < 2 then None
    else
      match b[1]
      case 0x22 => Some(Unit([0x22], 2))
      case 0x5C => Some(Unit([0x5C], 2))
      case 0x2F => Some(Unit([0x2F], 2))
      case 0x62 => Some(Unit([0x08], 2))
      case 0x66 => Some(Unit([0x0C], 2))
      case 0x6E => Some(Unit([0x0A], 2))
      case 0x72 => Some(Unit([0x0D], 2))
      case 0x74 => Some(Unit([0x09], 2))
      case 0x75 =>
        if |b| < 6 then None
        else
          var h3, h2, h1, h0 := HexValue(b[2]), HexValue(b[3]), HexValue(b[4]), HexValue(b[5]);
          if h3.None? || h2.None? || h1.None? || h0.None? then None
          else
            var u := Utf8(h3.value * 4096 + h2.value * 256 + h1.value * 16 + h0.value);
            if u.None? then None else Some(Unit(u.value, 6))
      case _ => None
  }

  // Decoded contents up to the closing quote, and what follows that quote.
  function ReadBody(b: bytes): (r: Option<(bytes, bytes)>)
    ensures r.Some? ==> |r.value.1| < |b|
  {
    if b == [] then None
    else if b[0] == QUOTE then Some(([], b[1..]))
    else
      var u := ReadUnit(b);
      if u.None? then None
      else
        var rest := ReadBody(b[u.value.used..]);
        if rest.None? then None else Some((u.value.decoded + rest.value.0, rest.value.1))
  }

  function ReadString(b: bytes): (r: Option<(bytes, bytes)>)
    ensures r.Some? ==> |r.value.1| < |b|
  {
    if b == [] || b[0] != QUOTE then None else ReadBody(b[1..])
  }

  lemma UnitOfEscape(c: byte, rest: bytes)
    ensures var b := EscapeByte(c) + rest;
            b[0] != QUOTE && ReadUnit(b) == Some(Unit([c], |EscapeByte(c)|))
  {
    var b := EscapeByte(c) + rest;
    if EscapeFlag(c) {
      assert b[..|EscapeOf(c)|] == EscapeOf(c);
    }
  }

  lemma {:induction false} BodyReadsBack(s: bytes, rest: bytes)
    ensures ReadBody(Escaped(s) + [QUOTE] + rest) == Some((s, rest))
  {
    var b := Escaped(s) + [QUOTE] + rest;
    if s == [] {
      assert b == [QUOTE] + rest;
    } else {
      var tail := Escaped(s[1..]) + [QUOTE] + rest;
      assert b == EscapeByte(s[0]) + tail;
      UnitOfEscape(s[0], tail);
      assert b[|EscapeByte(s[0])|..] == tail;
      BodyReadsBack(s[1..], rest);
      assert [s[0]] + s[1..] == s;
    }
  }

  /** Reading a printed string returns its bytes and stops right after the closing quote. */
  lemma StringReadsBack(s: bytes, rest: bytes)
    ensures ReadString(Quoted(s) + rest) == Some((s, rest))
  {
    BodyReadsBack(s, rest);
    assert (Quoted(s) + rest)[1..] == Escaped(s) + [QUOTE] + rest;
  }

  /** The escapes are the shortest: two bytes for the seven characters that have one ... */
  lemma ShortEscapes()
    ensures EscapeByte('"' as int) == Ascii("\\\"") && EscapeByte('\\' as int) == Ascii("\\\\") && EscapeByte('\n' as int) == Ascii("\\n")
    ensures EscapeByte('\r' as int) == Ascii("\\r") && EscapeByte('\t' as int) == Ascii("\\t") && EscapeByte(8) == Ascii("\\b") && EscapeByte(12) == Ascii("\\f")
  {
  }

  /** ... \u00XX with lower-case digits for the other control characters, and every other byte as it
      is. */
  lemma OtherEscapes(c: byte)
    requires c !in {8, 9, 10, 12, 13} && c != '"' as int && c != '\\' as int
    ensures c < 0x20 ==> EscapeByte(c) == Ascii("\\u00") + ["0123456789abcdef"[c / 16] as int, "0123456789abcdef"[c % 16] as int]
    ensures c >= 0x20 ==> EscapeByte(c) == [c]
  {
    if c < 0x20 {
      HexTable(c / 16);
      HexTable(c % 16);
      assert Ascii("\\u00") == [BACKSLASH, 0x75, 0x30, 0x30];
      hide Ascii, HexDigit;
    }
  }

  lemma HexTable(n: nat)
    requires n < 16
    ensures HexDigit(n) == "0123456789abcdef"[n] as int
  {
  }
}
