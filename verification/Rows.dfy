/** Row printing, internal/rows: the three DataRow loops, the column plan and its headers,
    and readers that recover the cells and the column names from what they print. */
module Rows {
  import opened Bytes
  import opened Escape

  type Cell = Option<bytes>

  // A column's encoder appends a rendering that depends on the cell alone (types.Encoder).
  type Encoder = Cell -> bytes

  datatype Column = Column(name: bytes, encoder: Encoder)

  type Plan = seq<Column>

  datatype RowError =
    | ShortDataRow
    | CountMismatch(got: int, want: nat)
    | ShortColumnHeader
    | BadColumnLength(length: int)

  const NULL_TEXT: bytes := [0x6E, 0x75, 0x6C, 0x6C]
  const COMMA: byte := 0x2C
  const COLON: byte := 0x3A
  const NEWLINE: byte := 0x0A
  const OPEN_BRACE: byte := 0x7B
  const CLOSE_BRACE: byte := 0x7D
  const OPEN_BRACKET: byte := 0x5B
  const CLOSE_BRACKET: byte := 0x5D

  // types.EncodeString
  function StringText(c: Cell): bytes { if c.None? then NULL_TEXT else Quoted(c.value) }

  // ---- Splitting a DataRow body into cells ----

  type Split = Result<seq<Cell>, RowError>

  function Prepend(done: seq<Cell>, rest: Split): Split
  {
    if rest.Ok? then Ok(done + rest.value) else rest
  }

  // The cell at the front of body, and the bytes after it: the read that the source inlines in each loop.
  function FirstCell(body: bytes): (r: Result<(Cell, bytes), RowError>)
    ensures r.Ok? ==> |r.value.1| < |body|
  {
    if |body| < 4 then Err(ShortColumnHeader)
    else
      var l := I32(body);
      if l == -1 then Ok((None, body[4..]))
      else if l < 0 || l > |body| - 4 then Err(BadColumnLength(l))
      else Ok((Some(body[4..4 + l]), body[4 + l..]))
  }

  function Cells(body: bytes, n: nat): Split
  {
    if n == 0 then Ok([])
    else
      var first := FirstCell(body);
      if first.Err? then Err(first.error)
      else Prepend([first.value.0], Cells(first.value.1, n - 1))
  }

  function RowCells(body: bytes, columns: nat): Split
  {
    if |body| < 2 then Err(ShortDataRow)
    else if I16(body) != columns then Err(CountMismatch(I16(body), columns))
    else Cells(body[2..], columns)
  }

  lemma {:induction false} CellsCount(body: bytes, n: nat)
    ensures Cells(body, n).Ok? ==> |Cells(body, n).value| == n
  {
    if n > 0 && FirstCell(body).Ok? {
      CellsCount(FirstCell(body).value.1, n - 1);
    }
  }

  lemma RowCellsCount(body: bytes, columns: nat)
    ensures RowCells(body, columns).Ok? ==> |RowCells(body, columns).value| == columns
  {
    if |body| >= 2 {
      CellsCount(body[2..], columns);
    }
  }

  // One step of any of the three loops.
  lemma CellsStep(all: Split, done: seq<Cell>, body: bytes, n: nat)
    requires n > 0 && all == Prepend(done, Cells(body, n))
    ensures FirstCell(body).Err? ==> all == Err(FirstCell(body).error)
    ensures FirstCell(body).Ok? ==>
              all == Prepend(done + [FirstCell(body).value.0], Cells(FirstCell(body).value.1, n - 1))
  {
    if FirstCell(body).Ok? && Cells(FirstCell(body).value.1, n - 1).Ok? {
      var c, rest := FirstCell(body).value.0, Cells(FirstCell(body).value.1, n - 1).value;
      assert done + ([c] + rest) == done + [c] + rest;
    }
  }

  lemma NothingDone(all: Split)
    ensures all == Prepend([], all)
  {
    if all.Ok? {
      assert [] + all.value == all.value;
    }
  }

  // The wire form the server sends for a list of cells.
  function WireCell(c: Cell): bytes
  {
    if c.None? then Put32(-1) else Put32(|c.value|) + c.value
  }

  function WireCells(cells: seq<Cell>): bytes
  {
    if cells == [] then [] else WireCell(cells[0]) + WireCells(cells[1..])
  }

  // The DataRow bodies for a table.
  function WireTable(table: seq<seq<Cell>>): seq<bytes>
  {
    seq(|table|, i requires 0 <= i < |table| => Put16(|table[i]|) + WireCells(table[i]))
  }

  predicate SendableCell(c: Cell) { c.Some? ==> |c.value| < 0x8000_0000 }

  predicate Sendable(cells: seq<Cell>) { forall i :: 0 <= i < |cells| ==> SendableCell(cells[i]) }

  lemma FirstCellOfWire(c: Cell, rest: bytes)
    requires SendableCell(c)
    ensures FirstCell(WireCell(c) + rest) == Ok((c, rest))
  {
    if c.None? {
      Put32Reads(-1, rest);
    } else {
      assert WireCell(c) + rest == Put32(|c.value|) + (c.value + rest);
      Put32Reads(|c.value|, c.value + rest);
    }
  }

  lemma {:induction false} CellsOfWire(cells: seq<Cell>)
    requires Sendable(cells)
    ensures Cells(WireCells(cells), |cells|) == Ok(cells)
  {
    hide FirstCell, WireCell;
    if cells != [] {
      FirstCellOfWire(cells[0], WireCells(cells[1..]));
      CellsOfWire(cells[1..]);
      assert [cells[0]] + cells[1..] == cells;
    }
  }

  /** Splitting the wire form of a row returns exactly its cells. */
  lemma RowCellsOfWire(cells: seq<Cell>)
    requires Sendable(cells) && |cells| < 0x8000
    ensures RowCells(Put16(|cells|) + WireCells(cells), |cells|) == Ok(cells)
  {
    Put16Reads(|cells|, WireCells(cells));
    CellsOfWire(cells);
  }

  // ---- What the loops print ----

  function KeyPrefix(name: bytes): bytes { Quoted(name) + [COLON] }

  // What one column adds to the row; only object rows carry the key.
  function Entry(column: Column, keyed: bool, first: bool, c: Cell): bytes
  {
    (if first then [] else [COMMA]) + (if keyed then KeyPrefix(column.name) else []) + column.encoder(c)
  }

  function Entries(plan: Plan, keyed: bool, cells: seq<Cell>): bytes
    requires |cells| <= |plan|
  {
    if cells == [] then []
    else
      var i := |cells| - 1;
      Entries(plan, keyed, cells[..i]) + Entry(plan[i], keyed, i == 0, cells[i])
  }

  datatype Style = ObjectStyle | ArrayStyle | ToonStyle

  function Opening(style: Style): bytes
  {
    match style
    case ObjectStyle => [OPEN_BRACE]
    case ArrayStyle => [OPEN_BRACKET]
    case ToonStyle => []
  }

  function Closing(style: Style): bytes
  {
    match style
    case ObjectStyle => [CLOSE_BRACE]
    case ArrayStyle => [CLOSE_BRACKET]
    case ToonStyle => [NEWLINE]
  }

  function RowOf(style: Style, plan: Plan, cells: seq<Cell>): bytes
    requires |cells| == |plan|
  {
    Opening(style) + Entries(plan, style.ObjectStyle?, cells) + Closing(style)
  }

  type RowText = Result<bytes, RowError>

  // The text of a DataRow body, or why it is refused: the same bodies in every style.
  function Row(style: Style, plan: Plan, body: bytes): RowText
  {
    RowCellsCount(body, |plan|);
    var cells := RowCells(body, |plan|);
    if cells.Ok? then Ok(RowOf(style, plan, cells.value)) else Err(cells.error)
  }

  // dst followed by the row, or the row's error.
  function AppendedTo(dst: bytes, row: RowText): RowText
  {
    if row.Ok? then Ok(dst + row.value) else row
  }

  // ---- The loops ----

  lemma EntriesStep(out: bytes, dst: bytes, open: bytes, plan: Plan, keyed: bool, done: seq<Cell>, raw: Cell)
    requires |done| < |plan| && out == dst + open + Entries(plan, keyed, done)
    ensures out + Entry(plan[|done|], keyed, done == [], raw) == dst + open + Entries(plan, keyed, done + [raw])
  {
    assert (done + [raw])[..|done|] == done;
  }

  lemma RowDone(dst: bytes, style: Style, plan: Plan, body: bytes, all: Split, done: seq<Cell>, rest: bytes)
    requires all == RowCells(body, |plan|) == Prepend(done, Cells(rest, 0)) && |done| == |plan|
    ensures Ok(dst + Opening(style) + Entries(plan, style.ObjectStyle?, done) + Closing(style))
         == AppendedTo(dst, Row(style, plan, body))
  {
    hide Entries, RowCells, Opening, Closing;
    assert done + [] == done;
    AssocFour(dst, Opening(style), Entries(plan, style.ObjectStyle?, done), Closing(style));
  }

  // What the loops append for one column.
  lemma KeyedEntry(column: Column, first: bool, c: Cell)
    ensures (if first then KeyPrefix(column.name) else [COMMA] + KeyPrefix(column.name)) + column.encoder(c) == Entry(column, true, first, c)
  {
    hide KeyPrefix;
    assert [] + KeyPrefix(column.name) == KeyPrefix(column.name);
  }

  lemma PlainEntry(column: Column, first: bool, c: Cell)
    ensures (if first then [] else [COMMA]) + column.encoder(c) == Entry(column, false, first, c)
  {
    var sep: bytes := if first then [] else [COMMA];
    assert sep + [] == sep;
  }

  // The checks before each loop, and what an unreadable cell means.
  lemma RowRefused(dst: bytes, style: Style, plan: Plan, body: bytes)
    ensures |body| < 2 ==> AppendedTo(dst, Row(style, plan, body)) == Err(ShortDataRow)
    ensures |body| >= 2 && I16(body) != |plan| ==> AppendedTo(dst, Row(style, plan, body)) == Err(CountMismatch(I16(body), |plan|))
    ensures |body| >= 2 && I16(body) == |plan| ==> RowCells(body, |plan|) == Prepend([], Cells(body[2..], |plan|))
    ensures RowCells(body, |plan|).Err? ==> AppendedTo(dst, Row(style, plan, body)) == Err(RowCells(body, |plan|).error)
  {
    hide Cells, I16, Entries;
    if |body| >= 2 { NothingDone(Cells(body[2..], |plan|)); }
  }

  lemma NoEntries(dst: bytes, open: bytes, plan: Plan, keyed: bool)
    ensures dst + open == dst + open + Entries(plan, keyed, [])
  {
  }

  method AppendObject(dst: bytes, body: bytes, plan: Plan) returns (r: RowText)
    ensures r == AppendedTo(dst, Row(ObjectStyle, plan, body))
  {
    hide *;
    RowRefused(dst, ObjectStyle, plan, body);
    if |body| < 2 { return Err(ShortDataRow); }
    var n := I16(body);
    if n != |plan| { return Err(CountMismatch(n, |plan|)); }
    var rest := body[2..];
    ghost var all, done: seq<Cell> := RowCells(body, |plan|), [];
    Brackets();
    var out := dst + [OPEN_BRACE];
    NoEntries(dst, Opening(ObjectStyle), plan, true);
    for i := 0 to n
      invariant |done| == i
      invariant all == Prepend(done, Cells(rest, n - i))
      invariant out == dst + Opening(ObjectStyle) + Entries(plan, true, done)
    {
      CellsStep(all, done, rest, n - i);
      var first := FirstCell(rest);
      if first.Err? { return Err(first.error); }
      var raw := first.value.0;
      rest := first.value.1;
      var text := if i == 0 then KeyPrefix(plan[i].name) else [COMMA] + KeyPrefix(plan[i].name);
      text := text + plan[i].encoder(raw);
      KeyedEntry(plan[i], i == 0, raw);
      EntriesStep(out, dst, Opening(ObjectStyle), plan, true, done, raw);
      done := done + [raw];
      out := out + text;
    }
    RowDone(dst, ObjectStyle, plan, body, all, done, rest);
    r := Ok(out + [CLOSE_BRACE]);
  }

  method AppendArray(dst: bytes, body: bytes, plan: Plan) returns (r: RowText)
    ensures r == AppendedTo(dst, Row(ArrayStyle, plan, body))
  {
    hide *;
    RowRefused(dst, ArrayStyle, plan, body);
    if |body| < 2 { return Err(ShortDataRow); }
    var n := I16(body);
    if n != |plan| { return Err(CountMismatch(n, |plan|)); }
    var rest := body[2..];
    ghost var all, done: seq<Cell> := RowCells(body, |plan|), [];
    Brackets();
    var out := dst + [OPEN_BRACKET];
    NoEntries(dst, Opening(ArrayStyle), plan, false);
    for i := 0 to n
      invariant |done| == i
      invariant all == Prepend(done, Cells(rest, n - i))
      invariant out == dst + Opening(ArrayStyle) + Entries(plan, false, done)
    {
      CellsStep(all, done, rest, n - i);
      var first := FirstCell(rest);
      if first.Err? { return Err(first.error); }
      var raw := first.value.0;
      rest := first.value.1;
      var text: bytes := if i > 0 then [COMMA] else [];
      text := text + plan[i].encoder(raw);
      PlainEntry(plan[i], i == 0, raw);
      EntriesStep(out, dst, Opening(ArrayStyle), plan, false, done, raw);
      done := done + [raw];
      out := out + text;
    }
    RowDone(dst, ArrayStyle, plan, body, all, done, rest);
    r := Ok(out + [CLOSE_BRACKET]);
  }

  method AppendToonRow(dst: bytes, body: bytes, plan: Plan) returns (r: RowText)
    ensures r == AppendedTo(dst, Row(ToonStyle, plan, body))
  {
    hide *;
    RowRefused(dst, ToonStyle, plan, body);
    if |body| < 2 { return Err(ShortDataRow); }
    var n := I16(body);
    if n != |plan| { return Err(CountMismatch(n, |plan|)); }
    var rest := body[2..];
    ghost var all, done: seq<Cell> := RowCells(body, |plan|), [];
    Brackets();
    var out := dst;
    NoEntries(dst, Opening(ToonStyle), plan, false);
    for i := 0 to n
      invariant |done| == i
      invariant all == Prepend(done, Cells(rest, n - i))
      invariant out == dst + Opening(ToonStyle) + Entries(plan, false, done)
    {
      CellsStep(all, done, rest, n - i);
      var first := FirstCell(rest);
      if first.Err? { return Err(first.error); }
      var raw := first.value.0;
      rest := first.value.1;
      var text: bytes := if i > 0 then [COMMA] else [];
      text := text + plan[i].encoder(raw);
      PlainEntry(plan[i], i == 0, raw);
      EntriesStep(out, dst, Opening(ToonStyle), plan, false, done, raw);
      done := done + [raw];
      out := out + text;
    }
    RowDone(dst, ToonStyle, plan, body, all, done, rest);
    r := Ok(out + [NEWLINE]);
  }

  lemma Brackets()
    ensures Opening(ObjectStyle) == [OPEN_BRACE] && Closing(ObjectStyle) == [CLOSE_BRACE]
    ensures Opening(ArrayStyle) == [OPEN_BRACKET] && Closing(ArrayStyle) == [CLOSE_BRACKET]
    ensures Opening(ToonStyle) == [] && Closing(ToonStyle) == [NEWLINE]
  {
  }

  // ---- Which rows are accepted ----

  lemma FirstCellExactly(body: bytes)
    ensures FirstCell(body).Ok? ==>
              SendableCell(FirstCell(body).value.0) && body == WireCell(FirstCell(body).value.0) + FirstCell(body).value.1
  {
    if FirstCell(body).Ok? {
      var l := I32(body);
      WordBack(body);
      if l == -1 {
        assert body == body[..4] + body[4..];
      } else {
        assert body == body[..4] + body[4..4 + l] + body[4 + l..];
      }
    }
  }

  // Four bytes, read and written again.
  lemma WordBack(body: bytes)
    requires |body| >= 4
    ensures Put32(I32(body)) == body[..4]
  {
    var u := U32(body);
    assert I32(body) % TWO_32 == u;
    SplitWord(I32(body));
    SplitHalf(I32(body));
    SplitHalf(I32(body) / 0x1_0000);
    BytesOf(I32(body), body[0], body[1], body[2], body[3]);
  }

  lemma BytesOf(v: int, a: byte, b: byte, c: byte, d: byte)
    requires v % TWO_32 == a * 0x100_0000 + b * 0x1_0000 + c * 0x100 + d
    ensures Put32(v) == [a, b, c, d]
  {
    var q := v / TWO_32;
    hide *;
    var x3 := q * 0x100 + a;
    var x2 := x3 * 0x100 + b;
    var x1 := x2 * 0x100 + c;
    WholeWord(v, a, b, c, d);
    LowByte(v, x1, d);
    LowByte(x1, x2, c);
    LowByte(x2, x3, b);
    LowByte(x3, q, a);
    PutShifts(v);
  }

  lemma WholeWord(v: int, a: byte, b: byte, c: byte, d: byte)
    requires v % TWO_32 == a * 0x100_0000 + b * 0x1_0000 + c * 0x100 + d
    ensures v == (((v / TWO_32 * 0x100 + a) * 0x100 + b) * 0x100 + c) * 0x100 + d
  {
  }

  lemma LowByte(v: int, x: int, y: byte)
    requires v == x * 0x100 + y
    ensures v / 0x100 == x && v % 0x100 == y
  {
  }

  lemma PutShifts(v: int)
    ensures Put32(v) == [v / 0x100 / 0x100 / 0x100 % 0x100, v / 0x100 / 0x100 % 0x100, v / 0x100 % 0x100, v % 0x100]
  {
    assert v / 0x1_0000 == v / 0x100 / 0x100;
    SplitWord(v);
  }

  lemma {:induction false} CellsBack(body: bytes, n: nat) returns (rest: bytes)
    requires Cells(body, n).Ok?
    ensures |Cells(body, n).value| == n && Sendable(Cells(body, n).value) && body == WireCells(Cells(body, n).value) + rest
    decreases n
  {
    if n == 0 {
      rest := body;
    } else {
      FirstCellExactly(body);
      var c, later := FirstCell(body).value.0, FirstCell(body).value.1;
      assert Cells(later, n - 1).Ok? && Cells(body, n).value == [c] + Cells(later, n - 1).value;
      hide *;
      rest := CellsBack(later, n - 1);
      var more := Cells(later, n - 1).value;
      WireCons(c, more);
      Assoc(WireCell(c), WireCells(more), rest);
    }
  }

  lemma WireCons(c: Cell, more: seq<Cell>)
    ensures WireCells([c] + more) == WireCell(c) + WireCells(more)
    ensures SendableCell(c) && Sendable(more) ==> Sendable([c] + more)
  {
    hide WireCell, SendableCell;
    assert ([c] + more)[1..] == more;
  }

  lemma {:induction false} CellsOfPrefix(cells: seq<Cell>, rest: bytes)
    requires Sendable(cells)
    ensures Cells(WireCells(cells) + rest, |cells|) == Ok(cells)
  {
    hide FirstCell, WireCell;
    if cells != [] {
      assert WireCells(cells) + rest == WireCell(cells[0]) + (WireCells(cells[1..]) + rest);
      FirstCellOfWire(cells[0], WireCells(cells[1..]) + rest);
      CellsOfPrefix(cells[1..], rest);
      assert [cells[0]] + cells[1..] == cells;
    }
  }

  /** A row is accepted exactly when it announces as many columns as the plan has and goes on with
      what the server prints for so many cells, whatever may follow them. */
  lemma RowsAccepted(body: bytes, columns: nat)
    ensures RowCells(body, columns).Ok? <==>
            && |body| >= 2 && I16(body) == columns
            && exists cells, rest :: |cells| == columns && Sendable(cells) && body[2..] == WireCells(cells) + rest
  {
    hide Cells, I16, WireCells;
    if |body| >= 2 && I16(body) == columns {
      if Cells(body[2..], columns).Ok? {
        var rest := CellsBack(body[2..], columns);
      }
      forall cells, rest | |cells| == columns && Sendable(cells) && body[2..] == WireCells(cells) + rest ensures Cells(body[2..], columns).Ok? {
        CellsOfPrefix(cells, rest);
      }
    }
  }
}
