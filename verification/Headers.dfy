/** internal/rows/plan.go: parsing RowDescription, and the columnar and TOON headers built from
    the column names. The TOON header quotes only the names that need it; a reader for it shows
    that this never loses or confuses a name. */
module Headers {
  import opened Bytes
  import opened Escape
  import opened Rows
  import opened RowReaders

  // ---- RowDescription ----

  datatype FieldDesc = FieldDesc(name: bytes, tableOid: int, attrNum: int, typeOid: int,
                                 typeLen: int, typeMod: int, format: int)

  datatype DescError = ShortRowDescription | NegativeFieldCount | UnterminatedName | ShortDescriptor

  type Described = Result<seq<FieldDesc>, DescError>

  // Index of the first zero byte, or -1.
  function IndexZero(b: bytes): (i: int)
    ensures -1 <= i < |b|
    ensures i >= 0 ==> b[i] == 0
    ensures forall k :: 0 <= k < (if i >= 0 then i else |b|) ==> b[k] != 0
  {
    if b == [] then -1
    else if b[0] == 0 then 0
    else
      var i := IndexZero(b[1..]);
      assert forall k :: 0 <= k < |b| - 1 ==> b[k + 1] == b[1..][k];
      if i < 0 then -1 else i + 1
  }

  function FirstField(body: bytes): (r: Result<(FieldDesc, bytes), DescError>)
    ensures r.Ok? ==> |r.value.1| < |body|
  {
    var end := IndexZero(body);
    if end < 0 then Err(UnterminatedName)
    else
      var b := body[end + 1..];
      if |b| < 18 then Err(ShortDescriptor)
      else
        Ok((FieldDesc(body[..end], U32(b), I16(b[4..]), U32(b[6..]), I16(b[10..]), I32(b[12..]), I16(b[16..])),
            b[18..]))
  }

  function Fields(body: bytes, n: nat): Described
  {
    if n == 0 then Ok([])
    else
      var first := FirstField(body);
      if first.Err? then Err(first.error)
      else
        var more := Fields(first.value.1, n - 1);
        if more.Err? then more else Ok([first.value.0] + more.value)
  }

  function Describe(body: bytes): Described
  {
    if |body| < 2 then Err(ShortRowDescription)
    else if I16(body) < 0 then Err(NegativeFieldCount)
    else Fields(body[2..], I16(body))
  }

  function After(done: seq<FieldDesc>, more: Described): Described
  {
    if more.Ok? then Ok(done + more.value) else more
  }

  lemma FieldsStep(done: seq<FieldDesc>, body: bytes, n: nat)
    requires n > 0
    ensures var first := FirstField(body);
            After(done, Fields(body, n)) ==
            if first.Err? then Err(first.error) else After(done + [first.value.0], Fields(first.value.1, n - 1))
  {
    if FirstField(body).Ok? && Fields(FirstField(body).value.1, n - 1).Ok? {
      var f, rest := FirstField(body).value.0, Fields(FirstField(body).value.1, n - 1).value;
      assert done + ([f] + rest) == done + [f] + rest;
    }
  }

  lemma FieldsEnds(done: seq<FieldDesc>, body: bytes, n: nat)
    ensures After([], Fields(body, n)) == Fields(body, n)
    ensures After(done, Fields(body, 0)) == Ok(done)
  {
    assert Fields(body, n).Ok? ==> [] + Fields(body, n).value == Fields(body, n).value;
    assert done + [] == done;
  }

  method ParseFields(body: bytes, n: nat) returns (r: Described)
    ensures r == Fields(body, n)
  {
    var rest := body;
    var cols: seq<FieldDesc> := [];
    FieldsEnds([], rest, n);
    hide *;
    for i := 0 to n
      invariant After(cols, Fields(rest, n - i)) == Fields(body, n)
    {
      FieldsStep(cols, rest, n - i);
      var first := FirstField(rest);
      if first.Err? { return Err(first.error); }
      cols := cols + [first.value.0];
      rest := first.value.1;
    }
    FieldsEnds(cols, rest, 0);
    r := Ok(cols);
  }

  method ParseRowDescription(body: bytes) returns (r: Described)
    ensures r == Describe(body)
  {
    if |body| < 2 { return Err(ShortRowDescription); }
    var n := I16(body);
    if n < 0 { return Err(NegativeFieldCount); }
    r := ParseFields(body[2..], n);
  }

  // What the server prints for one field.
  function WireFixed(f: FieldDesc, rest: bytes): bytes
  {
    Put32(f.tableOid) + (Put16(f.attrNum) + (Put32(f.typeOid) + (Put16(f.typeLen) + (Put32(f.typeMod) + (Put16(f.format) + rest)))))
  }

  function WireFields(fs: seq<FieldDesc>, rest: bytes): bytes
  {
    if fs == [] then rest else fs[0].name + [0] + WireFixed(fs[0], WireFields(fs[1..], rest))
  }

  predicate SendableField(f: FieldDesc)
  {
    && (forall k :: 0 <= k < |f.name| ==> f.name[k] != 0)
    && 0 <= f.tableOid < TWO_32 && 0 <= f.typeOid < TWO_32 && -0x8000_0000 <= f.typeMod < 0x8000_0000
    && -0x8000 <= f.attrNum < 0x8000 && -0x8000 <= f.typeLen < 0x8000 && -0x8000 <= f.format < 0x8000
  }

  lemma FixedReadsBack(f: FieldDesc, rest: bytes)
    requires SendableField(f)
    ensures var b := WireFixed(f, rest);
            && |b| >= 18 && U32(b) == f.tableOid && I16(b[4..]) == f.attrNum && U32(b[6..]) == f.typeOid
            && I16(b[10..]) == f.typeLen && I32(b[12..]) == f.typeMod && I16(b[16..]) == f.format && b[18..] == rest
  {
    hide U32, I32, I16, Put16, Put32;
    var b := WireFixed(f, rest);
    var b16 := Put16(f.format) + rest;
    var b12 := Put32(f.typeMod) + b16;
    var b10 := Put16(f.typeLen) + b12;
    var b6 := Put32(f.typeOid) + b10;
    var b4 := Put16(f.attrNum) + b6;
    assert b[4..] == b4 && b[6..] == b6 && b[10..] == b10 && b[12..] == b12 && b[16..] == b16 && b[18..] == rest;
    Put32Reads(f.tableOid, b4);
    Put16Reads(f.attrNum, b6);
    Put32Reads(f.typeOid, b10);
    Put16Reads(f.typeLen, b12);
    Put32Reads(f.typeMod, b16);
    Put16Reads(f.format, rest);
  }

  lemma FirstFieldOfWire(f: FieldDesc, rest: bytes)
    requires SendableField(f)
    ensures FirstField(f.name + [0] + WireFixed(f, rest)) == Ok((f, rest))
  {
    hide WireFixed, U32, I32, I16;
    FixedReadsBack(f, rest);
    var body := f.name + [0] + WireFixed(f, rest);
    var n := |f.name|;
    assert body[..n] == f.name && body[n] == 0 && body[n + 1..] == WireFixed(f, rest);
    assert forall k :: 0 <= k < n ==> body[k] == f.name[k];
    assert IndexZero(body) == n;
  }

  lemma {:induction false} FieldsOfWire(fs: seq<FieldDesc>, rest: bytes)
    requires forall i :: 0 <= i < |fs| ==> SendableField(fs[i])
    ensures Fields(WireFields(fs, rest), |fs|) == Ok(fs)
  {
    hide WireFixed, FirstField;
    if fs != [] {
      FirstFieldOfWire(fs[0], WireFields(fs[1..], rest));
      FieldsOfWire(fs[1..], rest);
      assert [fs[0]] + fs[1..] == fs;
    }
  }

  /** A printed RowDescription parses back to its fields. */
  lemma DescribeReadsBack(fs: seq<FieldDesc>, rest: bytes)
    requires |fs| < 0x8000 && forall i :: 0 <= i < |fs| ==> SendableField(fs[i])
    ensures Describe(Put16(|fs|) + WireFields(fs, rest)) == Ok(fs)
  {
    hide WireFields, Fields;
    Put16Reads(|fs|, WireFields(fs, rest));
    FieldsOfWire(fs, rest);
  }

  // ---- Which descriptions are accepted ----

  lemma HalfBack(body: bytes)
    requires |body| >= 2
    ensures Put16(I16(body)) == body[..2] && -0x8000 <= I16(body) < 0x8000
  {
    var u := U16(body);
    assert I16(body) % TWO_16 == u;
    SplitHalf(I16(body));
    HalvesOf(I16(body), body[0], body[1]);
  }

  lemma HalvesOf(v: int, a: byte, b: byte)
    requires v % TWO_16 == a * 0x100 + b
    ensures Put16(v) == [a, b]
  {
    var q := v / TWO_16;
    assert v == q * TWO_16 + (a * 0x100 + b);
    assert v / 0x100 == q * 0x100 + a && v % 0x100 == b;
  }

  // An unsigned word, read and written again.
  lemma WordOf(body: bytes)
    requires |body| >= 4
    ensures Put32(U32(body)) == body[..4] && 0 <= U32(body) < TWO_32
  {
    WordBack(body);
    BytesOf(U32(body), body[0], body[1], body[2], body[3]);
  }

  lemma SignedWordRange(body: bytes)
    requires |body| >= 4
    ensures -0x8000_0000 <= I32(body) < 0x8000_0000
  {
  }

  // The eighteen bytes after a name.
  lemma FixedBack(b: bytes, f: FieldDesc)
    requires |b| >= 18
    requires f.tableOid == U32(b) && f.attrNum == I16(b[4..]) && f.typeOid == U32(b[6..]) && f.typeLen == I16(b[10..]) && f.typeMod == I32(b[12..])
             && f.format == I16(b[16..])
    ensures b == WireFixed(f, b[18..])
    ensures 0 <= f.tableOid < TWO_32 && 0 <= f.typeOid < TWO_32 && -0x8000_0000 <= f.typeMod < 0x8000_0000
    ensures -0x8000 <= f.attrNum < 0x8000 && -0x8000 <= f.typeLen < 0x8000 && -0x8000 <= f.format < 0x8000
  {
    WordOf(b);
    HalfBack(b[4..]);
    WordOf(b[6..]);
    HalfBack(b[10..]);
    WordBack(b[12..]);
    SignedWordRange(b[12..]);
    HalfBack(b[16..]);
    var rest := b[18..];
    assert WireFixed(f, rest) ==
           Put32(f.tableOid) + (Put16(f.attrNum) + (Put32(f.typeOid) + (Put16(f.typeLen) + (Put32(f.typeMod) + (Put16(f.format) + rest)))));
    hide *;
    Cut(b, 0, 4);
    Cut(b, 4, 2);
    Cut(b, 6, 4);
    Cut(b, 10, 2);
    Cut(b, 12, 4);
    Cut(b, 16, 2);
    assert b[0..] == b;
  }

  lemma Cut(b: bytes, at: nat, n: nat)
    requires at + n <= |b|
    ensures b[at..] == b[at..][..n] + b[at + n..]
  {
  }

  lemma FirstFieldExactly(body: bytes)
    ensures FirstField(body).Ok? ==>
              var f, rest := FirstField(body).value.0, FirstField(body).value.1;
              SendableField(f) && body == f.name + [0] + WireFixed(f, rest)
  {
    if FirstField(body).Ok? {
      var f, end := FirstField(body).value.0, IndexZero(body);
      FixedBack(body[end + 1..], f);
      hide U32, I32, I16, WireFixed;
      assert body == body[..end] + [0] + body[end + 1..];
    }
  }

  lemma {:induction false} FieldsBack(body: bytes, n: nat) returns (rest: bytes)
    requires Fields(body, n).Ok?
    ensures var fs := Fields(body, n).value;
            |fs| == n && (forall i :: 0 <= i < n ==> SendableField(fs[i])) && body == WireFields(fs, rest)
    decreases n
  {
    hide *;
    FieldsUnfold(body, n);
    if n == 0 {
      rest := body;
      NoWireFields(rest);
    } else {
      FirstFieldExactly(body);
      var f, later := FirstField(body).value.0, FirstField(body).value.1;
      rest := FieldsBack(later, n - 1);
      WireFieldsCons(f, Fields(later, n - 1).value, rest);
    }
  }

  lemma FieldsUnfold(body: bytes, n: nat)
    ensures n == 0 ==> Fields(body, n) == Ok([])
    ensures n > 0 && Fields(body, n).Ok? ==>
              && FirstField(body).Ok? && Fields(FirstField(body).value.1, n - 1).Ok?
              && Fields(body, n).value == [FirstField(body).value.0] + Fields(FirstField(body).value.1, n - 1).value
  {
    hide FirstField;
  }

  lemma NoWireFields(rest: bytes)
    ensures WireFields([], rest) == rest
  {
  }

  lemma WireFieldsCons(f: FieldDesc, more: seq<FieldDesc>, rest: bytes)
    ensures WireFields([f] + more, rest) == f.name + [0] + WireFixed(f, WireFields(more, rest))
  {
    hide WireFixed;
    assert ([f] + more)[1..] == more;
  }

  /** A description is accepted exactly when it is what the server prints for some list of fields,
      whatever may follow. */
  lemma DescriptionsAccepted(body: bytes)
    ensures Describe(body).Ok? <==>
            exists fs, rest :: |fs| < 0x8000 && (forall i :: 0 <= i < |fs| ==> SendableField(fs[i])) && body == Put16(|fs|) + WireFields(fs, rest)
  {
    hide Fields, SendableField, WireFields, Put16, I16;
    if Describe(body).Ok? {
      HalfBack(body);
      var rest := FieldsBack(body[2..], I16(body));
      var fs := Fields(body[2..], I16(body)).value;
      assert body == body[..2] + body[2..];
    }
    forall fs, rest | |fs| < 0x8000 && (forall i :: 0 <= i < |fs| ==> SendableField(fs[i])) && body == Put16(|fs|) + WireFields(fs, rest)
      ensures Describe(body).Ok? {
      DescribeReadsBack(fs, rest);
    }
  }

  // ---- Columnar header ----

  // {"columns": and ,"rows":[
  const COLUMNS_PREFIX: bytes := [0x7B, 0x22, 0x63, 0x6F, 0x6C, 0x75, 0x6D, 0x6E, 0x73, 0x22, 0x3A]
  const ROWS_PREFIX: bytes := [0x2C, 0x22, 0x72, 0x6F, 0x77, 0x73, 0x22, 0x3A, 0x5B]

  function NameList(names: seq<bytes>): bytes
  {
    if names == [] then []
    else
      var i := |names| - 1;
      NameList(names[..i]) + (if i > 0 then [COMMA] else []) + Quoted(names[i])
  }

  function ColumnsHeader(names: seq<bytes>): bytes
  {
    COLUMNS_PREFIX + [OPEN_BRACKET] + NameList(names) + [CLOSE_BRACKET] + ROWS_PREFIX
  }

  method BuildColumnsHeader(names: seq<bytes>) returns (buf: bytes)
    ensures buf == ColumnsHeader(names)
  {
    hide Quoted;
    buf := COLUMNS_PREFIX + [OPEN_BRACKET];
    for i := 0 to |names|
      invariant buf == COLUMNS_PREFIX + [OPEN_BRACKET] + NameList(names[..i])
    {
      assert names[..i + 1][..i] == names[..i];
      if i > 0 { buf := buf + [COMMA]; }
      buf := buf + Quoted(names[i]);
    }
    assert names[..|names|] == names;
    buf := buf + [CLOSE_BRACKET] + ROWS_PREFIX;
  }

  // ---- TOON header ----

  predicate Delimiter(c: byte)
  {
    c <= 0x20 || c == COMMA || c == QUOTE || c == BACKSLASH ||
    c == OPEN_BRACE || c == CLOSE_BRACE || c == OPEN_BRACKET || c == CLOSE_BRACKET
  }

  predicate NeedsQuote(name: bytes) { name == [] || exists k :: 0 <= k < |name| && Delimiter(name[k]) }

  method NameNeedsQuote(name: bytes) returns (r: bool)
    ensures r <==> NeedsQuote(name)
  {
    if name == [] { return true; }
    for i := 0 to |name|
      invariant forall k :: 0 <= k < i ==> !Delimiter(name[k])
    {
      if Delimiter(name[i]) { return true; }
    }
    r := false;
  }

  function NameText(name: bytes): bytes { if NeedsQuote(name) then Quoted(name) else name }

  /** A name is printed bare exactly when it is not empty and holds no blank, control character,
      comma, quote, backslash, brace or bracket. */
  lemma BareNames(name: bytes)
    ensures NameText(name) == name <==>
            name != [] && forall k :: 0 <= k < |name| ==>
              && name[k] > ' ' as int && name[k] != ',' as int && name[k] != '"' as int && name[k] != '\\' as int
              && name[k] != '{' as int && name[k] != '}' as int && name[k] != '[' as int && name[k] != ']' as int
  {
    EscapedLonger(name);
    hide Escaped;
  }

  lemma {:induction false} EscapedLonger(s: bytes)
    ensures |Escaped(s)| >= |s|
  {
    hide EscapeOf;
    if s != [] { EscapedLonger(s[1..]); }
  }

  const TOON_PREFIX: bytes := [OPEN_BRACKET, 0x3F, CLOSE_BRACKET, OPEN_BRACE]

  function ToonNames(names: seq<bytes>): bytes
  {
    if names == [] then []
    else
      var i := |names| - 1;
      ToonNames(names[..i]) + (if i > 0 then [COMMA] else []) + NameText(names[i])
  }

  function ToonHeader(names: seq<bytes>): bytes
  {
    TOON_PREFIX + ToonNames(names) + [CLOSE_BRACE, NEWLINE]
  }

  method BuildToonHeader(names: seq<bytes>) returns (buf: bytes)
    ensures buf == ToonHeader(names)
  {
    hide Quoted, NeedsQuote;
    buf := TOON_PREFIX;
    for i := 0 to |names|
      invariant buf == TOON_PREFIX + ToonNames(names[..i])
    {
      ToonNamesSnoc(TOON_PREFIX, names, i);
      if i > 0 { buf := buf + [COMMA]; }
      var quote := NameNeedsQuote(names[i]);
      buf := buf + (if quote then Quoted(names[i]) else names[i]);
    }
    assert names[..|names|] == names;
    buf := buf + [CLOSE_BRACE, NEWLINE];
  }

  lemma ToonNamesSnoc(prefix: bytes, names: seq<bytes>, i: nat)
    requires i < |names|
    ensures prefix + ToonNames(names[..i + 1]) ==
            (if i > 0 then prefix + ToonNames(names[..i]) + [COMMA] else prefix + ToonNames(names[..i])) + NameText(names[i])
  {
    hide NameText;
    assert names[..i + 1][..i] == names[..i];
  }

  // A reader for the header.

  // Length of the bare name at the front of b: up to the next comma or closing brace.
  function BareLength(b: bytes): (n: nat)
    ensures n <= |b|
  {
    if b == [] || b[0] == COMMA || b[0] == CLOSE_BRACE then 0 else 1 + BareLength(b[1..])
  }

  function ReadName(b: bytes): (r: Option<(bytes, bytes)>)
    ensures r.Some? ==> |r.value.1| < |b|
  {
    if b != [] && b[0] == QUOTE then ReadString(b)
    else
      var n := BareLength(b);
      if n == 0 then None else Some((b[..n], b[n..]))
  }

  function ReadNames(b: bytes): Option<(seq<bytes>, bytes)>
    decreases |b|
  {
    var f := ReadName(b);
    if f.None? || f.value.1 == [] then None
    else
      var (name, rest) := f.value;
      if rest[0] == CLOSE_BRACE then Some(([name], rest[1..]))
      else if rest[0] != COMMA then None
      else
        var more := ReadNames(rest[1..]);
        if more.None? then None else Some(([name] + more.value.0, more.value.1))
  }

  function ReadToonHeader(b: bytes): Option<(seq<bytes>, bytes)>
  {
    if |b| < 5 || b[..4] != TOON_PREFIX then None
    else
      var names := if b[4] == CLOSE_BRACE then Some(([], b[5..])) else ReadNames(b[4..]);
      if names.None? || names.value.1 == [] || names.value.1[0] != NEWLINE then None
      else Some((names.value.0, names.value.1[1..]))
  }

  lemma {:induction false} BareLengthOf(name: bytes, rest: bytes)
    requires rest != [] && (rest[0] == COMMA || rest[0] == CLOSE_BRACE)
    requires forall k :: 0 <= k < |name| ==> !Delimiter(name[k])
    ensures BareLength(name + rest) == |name|
  {
    if name == [] {
      assert name + rest == rest;
    } else {
      assert (name + rest)[1..] == name[1..] + rest;
      BareLengthOf(name[1..], rest);
    }
  }

  lemma NameReadsBack(name: bytes, rest: bytes)
    requires rest != [] && (rest[0] == COMMA || rest[0] == CLOSE_BRACE)
    ensures var b := NameText(name) + rest; b[0] != CLOSE_BRACE && ReadName(b) == Some((name, rest))
  {
    if NeedsQuote(name) {
      StringReadsBack(name, rest);
      assert (Quoted(name) + rest)[0] == QUOTE;
    } else {
      BareLengthOf(name, rest);
      assert (name + rest)[0] == name[0] && !Delimiter(name[0]);
      assert (name + rest)[..|name|] == name && (name + rest)[|name|..] == rest;
    }
  }

  // The names from the front, each after the first preceded by its comma.
  function NamesFollowing(names: seq<bytes>, rest: bytes): bytes
  {
    if names == [] then rest else [COMMA] + (NameText(names[0]) + NamesFollowing(names[1..], rest))
  }

  lemma {:induction false} ToonNamesFromFront(names: seq<bytes>, rest: bytes, i: nat)
    requires 1 <= i <= |names|
    ensures ToonNames(names) + rest == ToonNames(names[..i]) + NamesFollowing(names[i..], rest)
    decreases |names| - i
  {
    hide NameText;
    if i == |names| {
      assert names[..i] == names;
    } else {
      ToonNamesFromFront(names, rest, i + 1);
      assert names[..i + 1][..i] == names[..i] && names[i..][1..] == names[i + 1..];
      var t, n, f := ToonNames(names[..i]), NameText(names[i]), NamesFollowing(names[i + 1..], rest);
      assert t + [COMMA] + n + f == t + ([COMMA] + (n + f));
    }
  }

  lemma {:induction false} NamesReadBack(names: seq<bytes>, rest: bytes)
    requires names != [] && rest != [] && rest[0] == CLOSE_BRACE
    ensures ReadNames(NameText(names[0]) + NamesFollowing(names[1..], rest)) == Some((names, rest[1..]))
  {
    hide NameText, ReadName;
    var after := NamesFollowing(names[1..], rest);
    NameReadsBack(names[0], after);
    if |names| > 1 {
      NamesReadBack(names[1..], rest);
      assert after[1..] == NameText(names[1..][0]) + NamesFollowing(names[1..][1..], rest);
      assert [names[0]] + names[1..] == names;
    } else {
      assert after == rest && [names[0]] == names;
    }
  }

  /** The header determines the list of names, whatever bytes the names hold. */
  lemma ToonHeaderReadsBack(names: seq<bytes>, rest: bytes)
    ensures ReadToonHeader(ToonHeader(names) + rest) == Some((names, rest))
  {
    hide NameText, ReadNames, ToonNames, NamesFollowing, ReadName;
    var close := [CLOSE_BRACE, NEWLINE] + rest;
    ToonHeaderShape(names, rest);
    assert close[1..] == [NEWLINE] + rest;
    if names == [] {
      NoToonNames();
      AfterPrefix(close);
      assert [] + close == close;
      assert ([NEWLINE] + rest)[1..] == rest;
    } else {
      FirstToonName(names, close);
      var f := NamesFollowing(names[1..], close);
      AfterPrefix(NameText(names[0]) + f);
      NamesFollowingStart(names[1..], close);
      NameReadsBack(names[0], f);
      NamesReadBack(names, close);
      assert ([NEWLINE] + rest)[1..] == rest;
    }
  }

  lemma ToonHeaderShape(names: seq<bytes>, rest: bytes)
    ensures ToonHeader(names) + rest == TOON_PREFIX + (ToonNames(names) + ([CLOSE_BRACE, NEWLINE] + rest))
  {
    hide ToonNames;
  }

  lemma NoToonNames()
    ensures ToonNames([]) == []
  {
  }

  lemma AfterPrefix(b: bytes)
    ensures (TOON_PREFIX + b)[..4] == TOON_PREFIX && (TOON_PREFIX + b)[4..] == b
    ensures b != [] ==> (TOON_PREFIX + b)[4] == b[0] && (TOON_PREFIX + b)[5..] == b[1..]
  {
  }

  lemma FirstToonName(names: seq<bytes>, close: bytes)
    requires names != []
    ensures ToonNames(names) + close == NameText(names[0]) + NamesFollowing(names[1..], close)
  {
    ToonNamesFromFront(names, close, 1);
    OneToonName(names[0]);
    hide NameText, NamesFollowing, ToonNames;
    assert names[..1] == [names[0]];
  }

  lemma OneToonName(name: bytes)
    ensures ToonNames([name]) == NameText(name)
  {
    hide NameText;
    assert [name][..0] == [];
    assert [] + [] + NameText(name) == NameText(name);
  }

  lemma NamesFollowingStart(names: seq<bytes>, rest: bytes)
    requires rest != [] && rest[0] == CLOSE_BRACE
    ensures NamesFollowing(names, rest) != []
    ensures NamesFollowing(names, rest)[0] == COMMA || NamesFollowing(names, rest)[0] == CLOSE_BRACE
  {
  }

  /** Two streams with the same header have the same columns. */
  lemma ToonHeaderInjective(a: seq<bytes>, b: seq<bytes>)
    requires ToonHeader(a) == ToonHeader(b)
    ensures a == b
  {
    ToonHeaderReadsBack(a, []);
    ToonHeaderReadsBack(b, []);
  }

  /** From the wire: the header printed for a described result names exactly its columns. */
  lemma DescribedHeaderReadsBack(fs: seq<FieldDesc>, tail: bytes, rest: bytes)
    requires |fs| < 0x8000 && forall i :: 0 <= i < |fs| ==> SendableField(fs[i])
    ensures var d := Describe(Put16(|fs|) + WireFields(fs, tail));
            d.Ok? && ReadToonHeader(ToonHeader(seq(|d.value|, i requires 0 <= i < |d.value| => d.value[i].name)) + rest)
                  == Some((seq(|fs|, i requires 0 <= i < |fs| => fs[i].name), rest))
  {
    DescribeReadsBack(fs, tail);
    ToonHeaderReadsBack(seq(|fs|, i requires 0 <= i < |fs| => fs[i].name), rest);
  }
}
