/** Whole responses read back: for string columns, a reader of the complete output recovers the
    column names and every cell of every row, in all four output modes. */
module Documents {
  import opened Bytes
  import opened Escape
  import opened Rows
  import opened RowReaders
  import opened Headers
  import opened Rendering
  import opened Output
  import Executions
  import opened Retries
  import Guarantees

  type Table = seq<seq<Cell>>

  // Rows separated by commas, or each on its own line.
  predicate Listed(mode: Mode) { mode.ModeArray? || mode.ModeColumnar? }

  // Objects with keys, arrays under a list of names, or lines under a header of names.
  function RowStyle(mode: Mode): Style
  {
    match mode
    case ModeArray => ObjectStyle
    case ModeNdjson => ObjectStyle
    case ModeColumnar => ArrayStyle
    case ModeToon => ToonStyle
  }

  lemma StyleIs(mode: Mode)
    ensures StyleOf(mode) == RowStyle(mode)
  {
  }

  // ---- Reading ----

  // The rows after the first of a list, or all the lines.
  function ReadPieces(mode: Mode, b: bytes): Option<(seq<seq<Field>>, bytes)>
    decreases |b|
  {
    if b == [] || (Listed(mode) && b[0] != COMMA) then Some(([], b))
    else
      var row := ReadRow(RowStyle(mode), if Listed(mode) then b[1..] else b);
      if row.None? then None
      else
        var rest := row.value.1;
        if mode.ModeNdjson? && (rest == [] || rest[0] != NEWLINE) then None
        else
          var left := if mode.ModeNdjson? then rest[1..] else rest;
          if |left| >= |b| then None
          else
            var more := ReadPieces(mode, left);
            if more.None? then None else Some(([row.value.0] + more.value.0, more.value.1))
  }

  // A bracketed list of rows without its opening bracket.
  function ReadList(mode: Mode, b: bytes): Option<(seq<seq<Field>>, bytes)>
  {
    if b == [] then None
    else if b[0] == CLOSE_BRACKET then Some(([], b[1..]))
    else
      var first := ReadRow(RowStyle(mode), b);
      if first.None? then None
      else
        var more := ReadPieces(mode, first.value.1);
        if more.None? || more.value.1 == [] || more.value.1[0] != CLOSE_BRACKET then None
        else Some(([first.value.0] + more.value.0, more.value.1[1..]))
  }

  // Column names come with the header where the mode has one.
  datatype Document = Document(names: Option<seq<bytes>>, rows: seq<seq<Field>>)

  function Names(fields: seq<Field>): Option<seq<bytes>>
  {
    if forall i :: 0 <= i < |fields| ==> fields[i].value.Some?
    then Some(seq(|fields|, i requires 0 <= i < |fields| && fields[i].value.Some? => fields[i].value.value))
    else None
  }

  // {"columns":[names],"rows":[
  function ReadColumnsHeader(b: bytes): Option<(seq<bytes>, bytes)>
  {
    var n, m := |COLUMNS_PREFIX|, |ROWS_PREFIX|;
    if |b| < n || b[..n] != COLUMNS_PREFIX then None
    else
      var list := ReadRow(ArrayStyle, b[n..]);
      if list.None? || Names(list.value.0).None? || |list.value.1| < m || list.value.1[..m] != ROWS_PREFIX then None
      else Some((Names(list.value.0).value, list.value.1[m..]))
  }

  // The end of a document must be reached.
  function Whole(names: Option<seq<bytes>>, read: Option<(seq<seq<Field>>, bytes)>, end: bytes): Option<Document>
  {
    if read.None? || read.value.1 != end then None else Some(Document(names, read.value.0))
  }

  function ReadDocument(mode: Mode, b: bytes): Option<Document>
  {
    match mode
    case ModeArray => if b == [] || b[0] != OPEN_BRACKET then None else Whole(None, ReadList(mode, b[1..]), [])
    case ModeNdjson => Whole(None, ReadPieces(mode, b), [])
    case ModeColumnar =>
      var header := ReadColumnsHeader(b);
      if header.None? then None else Whole(Some(header.value.0), ReadList(mode, header.value.1), [CLOSE_BRACE])
    case ModeToon =>
      var header := ReadToonHeader(b);
      if header.None? then None else Whole(Some(header.value.0), ReadPieces(mode, header.value.1), [])
  }

  // ---- The document, from the front ----

  predicate TableOf(plan: Plan, table: Table)
  {
    |plan| < 0x8000 && forall i :: 0 <= i < |table| ==> |table[i]| == |plan| && Sendable(table[i])
  }

  // The DataRows the server sends for a table.
  function RowsOfTable(plan: Plan, table: Table): seq<PlannedRow>
  {
    seq(|table|, i requires 0 <= i < |table| => PlannedRow(Some(plan), Put16(|table[i]|) + WireCells(table[i])))
  }

  function FieldRows(mode: Mode, plan: Plan, table: Table): seq<seq<Field>>
    requires TableOf(plan, table)
  {
    seq(|table|, i requires 0 <= i < |table| => FieldsOf(plan, RowStyle(mode).ObjectStyle?, table[i]))
  }

  function Piece(mode: Mode, plan: Plan, cells: seq<Cell>): bytes
    requires |cells| == |plan|
  {
    RowPiece(mode, false, RowOf(RowStyle(mode), plan, cells))
  }

  function Pieces(mode: Mode, plan: Plan, table: Table): bytes
    requires TableOf(plan, table)
  {
    if table == [] then [] else Piece(mode, plan, table[0]) + Pieces(mode, plan, table[1..])
  }

  lemma {:induction false} PiecesSnoc(mode: Mode, plan: Plan, table: Table, cells: seq<Cell>)
    requires TableOf(plan, table) && |cells| == |plan| && Sendable(cells)
    ensures Pieces(mode, plan, table + [cells]) == Pieces(mode, plan, table) + Piece(mode, plan, cells)
  {
    hide Piece, Sendable;
    if table == [] {
      assert table + [cells] == [cells] && [cells][1..] == [];
    } else {
      assert (table + [cells])[1..] == table[1..] + [cells];
      PiecesSnoc(mode, plan, table[1..], cells);
    }
  }

  lemma RowsPrintable(mode: Mode, plan: Plan, table: Table, i: nat)
    requires TableOf(plan, table) && i < |table|
    ensures Printable(mode, RowsOfTable(plan, table)[i])
    ensures Row(RowStyle(mode), plan, RowsOfTable(plan, table)[i].body).value == RowOf(RowStyle(mode), plan, table[i])
  {
    StyleIs(mode);
    RowCellsOfWire(table[i]);
  }

  lemma TablePrintable(mode: Mode, plan: Plan, table: Table)
    requires TableOf(plan, table)
    ensures AllPrintable(mode, RowsOfTable(plan, table))
  {
    hide Printable;
    forall i | 0 <= i < |table| ensures Printable(mode, RowsOfTable(plan, table)[i]) { RowsPrintable(mode, plan, table, i); }
  }

  // The last row of a table.
  lemma TableSnoc(mode: Mode, plan: Plan, table: Table) returns (last: PlannedRow)
    requires TableOf(plan, table) && table != []
    ensures var n := |table| - 1;
            && TableOf(plan, table[..n])
            && RowsOfTable(plan, table) == RowsOfTable(plan, table[..n]) + [last]
            && |RowsOfTable(plan, table[..n])| == n
            && Printable(mode, last) && last.plan == Some(plan)
            && forall first :: PieceOf(mode, first, last) == RowPiece(mode, first, RowOf(RowStyle(mode), plan, table[n]))
  {
    var n := |table| - 1;
    StyleIs(mode);
    RowsPrintable(mode, plan, table, n);
    last := RowsOfTable(plan, table)[n];
    RowsSnoc(plan, table);
    hide RowOf, Row, Sendable, RowPiece, Put16, WireCells, RowStyle;
  }

  lemma RowsSnoc(plan: Plan, table: Table)
    requires table != []
    ensures var n := |table| - 1; RowsOfTable(plan, table) == RowsOfTable(plan, table[..n]) + [RowsOfTable(plan, table)[n]]
  {
    hide Put16, WireCells;
  }

  // Header, the first row, the other pieces.
  lemma {:induction false} BodyFromFront(mode: Mode, plan: Plan, table: Table)
    requires TableOf(plan, table) && table != []
    ensures AllPrintable(mode, RowsOfTable(plan, table))
    ensures Body(mode, RowsOfTable(plan, table)) ==
            HeaderText(mode, Some(plan)) + RowPiece(mode, true, RowOf(RowStyle(mode), plan, table[0])) + Pieces(mode, plan, table[1..])
    decreases |table|
  {
    hide Body, PieceOf, RowPiece, RowOf, HeaderText, Printable, RowBoundary, Sendable, RowsOfTable, RowStyle, Piece;
    var n := |table| - 1;
    var last := TableSnoc(mode, plan, table);
    TablePrintable(mode, plan, table);
    TablePrintable(mode, plan, table[..n]);
    BodyGrows(mode, RowsOfTable(plan, table[..n]), last);
    if n == 0 {
      assert table[1..] == [];
      AssocFour(HeaderText(mode, Some(plan)), RowPiece(mode, true, RowOf(RowStyle(mode), plan, table[0])), [], []);
    } else {
      var fewer := table[..n];
      BodyFromFront(mode, plan, fewer);
      assert table[1..] == fewer[1..] + [table[n]];
      PiecesSnoc(mode, plan, fewer[1..], table[n]);
      PieceText(mode, plan, table[n]);
      AssocFour(HeaderText(mode, Some(plan)), RowPiece(mode, true, RowOf(RowStyle(mode), plan, table[0])),
            Pieces(mode, plan, fewer[1..]), Piece(mode, plan, table[n]));
    }
  }

  lemma PieceText(mode: Mode, plan: Plan, cells: seq<Cell>)
    requires |cells| == |plan|
    ensures Piece(mode, plan, cells) == RowPiece(mode, false, RowOf(RowStyle(mode), plan, cells))
  {
  }

  // ---- Rows read back ----

  // What may follow the rows.
  predicate EndsRows(mode: Mode, end: bytes) { if Listed(mode) then end != [] && end[0] != COMMA else end == [] }

  lemma PieceShape(mode: Mode, plan: Plan, cells: seq<Cell>, rest: bytes)
    requires |cells| == |plan|
    ensures var text := RowOf(RowStyle(mode), plan, cells);
            && |text| > 0
            && Piece(mode, plan, cells) + rest ==
               (if Listed(mode) then [COMMA] + (text + rest) else if mode.ModeNdjson? then text + ([NEWLINE] + rest) else text + rest)
  {
    hide Entries;
    var text := RowOf(RowStyle(mode), plan, cells);
    assert [COMMA] + text + rest == [COMMA] + (text + rest) && text + [NEWLINE] + rest == text + ([NEWLINE] + rest);
  }

  // One row of the reader.
  lemma ReadPiece(mode: Mode, plan: Plan, cells: seq<Cell>, rest: bytes)
    requires |cells| == |plan| && TextPlan(plan)
    ensures var more := ReadPieces(mode, rest);
            ReadPieces(mode, Piece(mode, plan, cells) + rest) ==
            if more.None? then None
            else Some(([FieldsOf(plan, RowStyle(mode).ObjectStyle?, cells)] + more.value.0, more.value.1))
  {
    var text := RowOf(RowStyle(mode), plan, cells);
    var b := Piece(mode, plan, cells) + rest;
    PieceShape(mode, plan, cells, rest);
    var after := if mode.ModeNdjson? then [NEWLINE] + rest else rest;
    RowReadsBack(RowStyle(mode), plan, cells, after);
    hide Piece, RowOf, ReadRow, FieldsOf, TextPlan, RowStyle;
    if Listed(mode) { assert b[1..] == text + rest; }
    assert mode.ModeNdjson? ==> after[1..] == rest;
  }

  lemma {:induction false} PiecesReadBack(mode: Mode, plan: Plan, table: Table, end: bytes)
    requires TableOf(plan, table) && TextPlan(plan) && EndsRows(mode, end)
    ensures ReadPieces(mode, Pieces(mode, plan, table) + end) == Some((FieldRows(mode, plan, table), end))
  {
    hide Piece, Pieces, FieldRows, Sendable, FieldsOf, TextPlan, RowStyle, ReadPieces;
    PiecesFront(mode, plan, table, end);
    if table == [] {
      NoPieces(mode, end);
    } else {
      ReadPiece(mode, plan, table[0], Pieces(mode, plan, table[1..]) + end);
      PiecesReadBack(mode, plan, table[1..], end);
    }
  }

  lemma PiecesFront(mode: Mode, plan: Plan, table: Table, end: bytes)
    requires TableOf(plan, table)
    ensures table == [] ==> Pieces(mode, plan, table) + end == end && FieldRows(mode, plan, table) == []
    ensures table != [] ==>
              && Pieces(mode, plan, table) + end == Piece(mode, plan, table[0]) + (Pieces(mode, plan, table[1..]) + end)
              && FieldRows(mode, plan, table) == [FieldsOf(plan, RowStyle(mode).ObjectStyle?, table[0])] + FieldRows(mode, plan, table[1..])
  {
    hide Piece, FieldsOf, RowStyle, Sendable;
  }

  lemma NoPieces(mode: Mode, end: bytes)
    requires EndsRows(mode, end)
    ensures ReadPieces(mode, end) == Some(([], end))
  {
  }

  // The rows of a list, first one without a comma.
  function ListText(mode: Mode, plan: Plan, table: Table): bytes
    requires TableOf(plan, table)
  {
    if table == [] then [] else RowOf(RowStyle(mode), plan, table[0]) + Pieces(mode, plan, table[1..])
  }

  lemma ListReadBack(mode: Mode, plan: Plan, table: Table, end: bytes)
    requires Listed(mode) && TableOf(plan, table) && TextPlan(plan)
    ensures ReadList(mode, ListText(mode, plan, table) + ([CLOSE_BRACKET] + end)) == Some((FieldRows(mode, plan, table), end))
  {
    hide RowOf, ReadRow, FieldsOf, TextPlan, ReadPieces, Pieces, Sendable, RowStyle, ReadList;
    if table == [] {
      assert ListText(mode, plan, table) + ([CLOSE_BRACKET] + end) == [CLOSE_BRACKET] + end;
      EmptyList(mode, end);
      assert FieldRows(mode, plan, table) == [];
    } else {
      var text, left := RowOf(RowStyle(mode), plan, table[0]), Pieces(mode, plan, table[1..]) + ([CLOSE_BRACKET] + end);
      assert ListText(mode, plan, table) + ([CLOSE_BRACKET] + end) == text + left;
      RowReadsBack(RowStyle(mode), plan, table[0], left);
      PiecesReadBack(mode, plan, table[1..], [CLOSE_BRACKET] + end);
      OpensRow(mode, plan, table[0]);
      var first, more := FieldsOf(plan, RowStyle(mode).ObjectStyle?, table[0]), FieldRows(mode, plan, table[1..]);
      FullList(mode, text, left, first, more, end);
      assert FieldRows(mode, plan, table) == [first] + more;
    }
  }

  lemma EmptyList(mode: Mode, end: bytes)
    ensures ReadList(mode, [CLOSE_BRACKET] + end) == Some(([], end))
  {
    assert ([CLOSE_BRACKET] + end)[1..] == end;
  }

  lemma FullList(mode: Mode, text: bytes, left: bytes, first: seq<Field>, more: seq<seq<Field>>, end: bytes)
    requires |text| > 0 && text[0] != CLOSE_BRACKET
    requires ReadRow(RowStyle(mode), text + left) == Some((first, left))
    requires ReadPieces(mode, left) == Some((more, [CLOSE_BRACKET] + end))
    ensures ReadList(mode, text + left) == Some(([first] + more, end))
  {
    hide ReadRow, ReadPieces, RowStyle;
    assert ([CLOSE_BRACKET] + end)[1..] == end;
  }

  lemma OpensRow(mode: Mode, plan: Plan, cells: seq<Cell>)
    requires Listed(mode) && |cells| == |plan|
    ensures var text := RowOf(RowStyle(mode), plan, cells); |text| > 0 && text[0] != CLOSE_BRACKET
  {
    hide Entries;
  }

  // ---- The columnar header reads back ----

  // The names as a row of strings.
  function NamePlan(n: nat): Plan { seq(n, _ => Column([], StringText)) }

  function NameCells(names: seq<bytes>): seq<Cell> { seq(|names|, i requires 0 <= i < |names| => Some(names[i])) }

  lemma {:induction false} NameListIsRow(names: seq<bytes>, n: nat)
    requires |names| <= n
    ensures Entries(NamePlan(n), false, NameCells(names)) == NameList(names)
  {
    if names == [] {
      assert NameCells(names) == [];
    } else {
      hide *;
      var i := |names| - 1;
      LastName(names, n);
      NameEntry(n, i, names[i]);
      NameListIsRow(names[..i], n);
      Assoc(NameList(names[..i]), if i > 0 then [COMMA] else [], Quoted(names[i]));
    }
  }

  lemma LastName(names: seq<bytes>, n: nat)
    requires 0 < |names| <= n
    ensures var i := |names| - 1;
            && |NameCells(names[..i])| == i && |NameCells(names)| == |names| && |NamePlan(n)| == n
            && Entries(NamePlan(n), false, NameCells(names))
               == Entries(NamePlan(n), false, NameCells(names[..i])) + Entry(NamePlan(n)[i], false, i == 0, Some(names[i]))
            && NameList(names) == NameList(names[..i]) + (if i > 0 then [COMMA] else []) + Quoted(names[i])
  {
    hide Quoted, Entry;
    var i := |names| - 1;
    assert NameCells(names)[..i] == NameCells(names[..i]);
  }

  lemma NameEntry(n: nat, i: nat, name: bytes)
    requires i < n
    ensures Entry(NamePlan(n)[i], false, i == 0, Some(name)) == (if i > 0 then [COMMA] else []) + Quoted(name)
  {
    hide Quoted;
    var sep := if i > 0 then [COMMA] else [];
    assert sep + [] == sep;
  }

  lemma {:induction false} NameFields(plan: Plan, names: seq<bytes>)
    requires |plan| == |names|
    ensures Names(FieldsOf(plan, false, NameCells(names))) == Some(names)
  {
    FieldsAt(plan, NameCells(names));
    hide FieldsOf;
    var fields := FieldsOf(plan, false, NameCells(names));
    assert forall i :: 0 <= i < |names| ==> fields[i].value == Some(names[i]);
    assert Names(fields).value == names;
  }

  lemma {:induction false} FieldsAt(plan: Plan, cells: seq<Cell>)
    requires |plan| == |cells|
    ensures |FieldsOf(plan, false, cells)| == |cells|
    ensures forall i :: 0 <= i < |cells| ==> FieldsOf(plan, false, cells)[i].value == cells[i]
  {
    if cells != [] {
      FieldsAt(plan[1..], cells[1..]);
    }
  }

  lemma ColumnsHeaderReadsBack(names: seq<bytes>, rest: bytes)
    ensures ReadColumnsHeader(ColumnsHeader(names) + rest) == Some((names, rest))
  {
    var n := |names|;
    var list := RowOf(ArrayStyle, NamePlan(n), NameCells(names));
    NameListIsRow(names, n);
    assert list == [OPEN_BRACKET] + NameList(names) + [CLOSE_BRACKET];
    RowReadsBack(ArrayStyle, NamePlan(n), NameCells(names), ROWS_PREFIX + rest);
    NameFields(NamePlan(n), names);
    hide NameList, ReadRow, FieldsOf, Names, Entries, RowOf;
    AssocFour(COLUMNS_PREFIX, [OPEN_BRACKET], NameList(names), [CLOSE_BRACKET]);
    AssocFour(COLUMNS_PREFIX, [OPEN_BRACKET] + NameList(names) + [CLOSE_BRACKET], ROWS_PREFIX, rest);
    hide ColumnsHeader;
    Around(COLUMNS_PREFIX, list, ROWS_PREFIX, rest);
  }

  lemma Around(a: bytes, b: bytes, c: bytes, d: bytes)
    ensures (a + (b + (c + d)))[..|a|] == a && (a + (b + (c + d)))[|a|..] == b + (c + d)
    ensures (c + d)[..|c|] == c && (c + d)[|c|..] == d
  {
  }

  // ---- Documents read back ----

  // Header, rows, footer.
  lemma RenderedFromFront(mode: Mode, plan: Plan, table: Table)
    requires TableOf(plan, table)
    ensures AllPrintable(mode, RowsOfTable(plan, table))
    ensures Rendered(mode, Some(plan), RowsOfTable(plan, table)) ==
            HeaderText(mode, Some(plan)) +
            ((if Listed(mode) then ListText(mode, plan, table) else Pieces(mode, plan, table)) + FooterText(mode))
  {
    hide *;
    TablePrintable(mode, plan, table);
    RenderedShape(mode, plan, RowsOfTable(plan, table));
    TableSize(plan, table);
    if table == [] {
      TableFits(plan, table);
      NoPieceText(mode, plan);
      NothingBetween(HeaderText(mode, Some(plan)), FooterText(mode));
    } else {
      TableFits(plan, table);
      BodyFromFront(mode, plan, table);
      FirstPiece(mode, plan, table);
      AssocFour(HeaderText(mode, Some(plan)), RowPiece(mode, true, RowOf(RowStyle(mode), plan, table[0])), Pieces(mode, plan, table[1..]), FooterText(mode));
    }
  }

  lemma TableSize(plan: Plan, table: Table)
    ensures |RowsOfTable(plan, table)| == |table|
  {
  }

  lemma TableFits(plan: Plan, table: Table)
    requires TableOf(plan, table)
    ensures |plan| < 0x8000 && (table != [] ==> |table[0]| == |plan| && TableOf(plan, table[1..]))
  {
  }

  lemma NothingBetween(a: bytes, b: bytes)
    ensures a + ([] + b) == a + b
  {
  }

  lemma RenderedShape(mode: Mode, plan: Plan, rows: seq<PlannedRow>)
    requires AllPrintable(mode, rows)
    ensures Rendered(mode, Some(plan), rows) == (if rows == [] then HeaderText(mode, Some(plan)) else Body(mode, rows)) + FooterText(mode)
  {
  }

  lemma NoPieceText(mode: Mode, plan: Plan)
    requires |plan| < 0x8000
    ensures Pieces(mode, plan, []) == [] == ListText(mode, plan, [])
  {
  }

  lemma FirstPiece(mode: Mode, plan: Plan, table: Table)
    requires TableOf(plan, table) && table != []
    ensures RowPiece(mode, true, RowOf(RowStyle(mode), plan, table[0])) + Pieces(mode, plan, table[1..]) ==
            if Listed(mode) then ListText(mode, plan, table) else Pieces(mode, plan, table)
  {
    hide RowOf, Sendable;
  }

  // What a table looks like to its reader: keys in objects, otherwise a list of names.
  function DocumentOf(mode: Mode, names: seq<bytes>, table: Table): Document
    requires forall i :: 0 <= i < |table| ==> |table[i]| == |names|
  {
    match mode
    case ModeArray => Document(None, KeyedRows(names, table))
    case ModeNdjson => Document(None, KeyedRows(names, table))
    case ModeColumnar => Document(Some(names), BareRows(table))
    case ModeToon => Document(Some(names), BareRows(table))
  }

  function KeyedRows(names: seq<bytes>, table: Table): seq<seq<Field>>
    requires forall i :: 0 <= i < |table| ==> |table[i]| == |names|
  {
    seq(|table|, i requires 0 <= i < |table| => seq(|names|, j requires 0 <= j < |names| => Field(Some(names[j]), table[i][j])))
  }

  function BareRows(table: Table): seq<seq<Field>>
  {
    seq(|table|, i requires 0 <= i < |table| => seq(|table[i]|, j requires 0 <= j < |table[i]| => Field(None, table[i][j])))
  }

  lemma {:induction false} FieldAt(plan: Plan, keyed: bool, cells: seq<Cell>, j: nat)
    requires |plan| == |cells| && j < |cells|
    ensures |FieldsOf(plan, keyed, cells)| == |cells|
    ensures FieldsOf(plan, keyed, cells)[j] == Field(if keyed then Some(plan[j].name) else None, cells[j])
  {
    if |cells| > 1 { FieldAt(plan[1..], keyed, cells[1..], if j > 0 then j - 1 else 0); }
  }

  lemma {:induction false} FieldCount(plan: Plan, keyed: bool, cells: seq<Cell>)
    requires |plan| == |cells|
    ensures |FieldsOf(plan, keyed, cells)| == |cells|
  {
    if cells != [] { FieldCount(plan[1..], keyed, cells[1..]); }
  }

  lemma FieldsAre(plan: Plan, cells: seq<Cell>)
    requires |plan| == |cells|
    ensures FieldsOf(plan, true, cells) == seq(|NamesOf(plan)|, j requires 0 <= j < |NamesOf(plan)| => Field(Some(NamesOf(plan)[j]), cells[j]))
    ensures FieldsOf(plan, false, cells) == seq(|cells|, j requires 0 <= j < |cells| => Field(None, cells[j]))
  {
    FieldCount(plan, true, cells);
    FieldCount(plan, false, cells);
    hide FieldsOf;
    forall j | 0 <= j < |cells|
      ensures FieldsOf(plan, true, cells)[j] == Field(Some(plan[j].name), cells[j]) && FieldsOf(plan, false, cells)[j] == Field(None, cells[j]) {
      FieldAt(plan, true, cells, j);
      FieldAt(plan, false, cells, j);
    }
  }

  lemma RowsAre(mode: Mode, plan: Plan, table: Table)
    requires TableOf(plan, table)
    ensures forall i :: 0 <= i < |table| ==> |table[i]| == |NamesOf(plan)|
    ensures mode.ModeArray? || mode.ModeNdjson? ==> FieldRows(mode, plan, table) == KeyedRows(NamesOf(plan), table)
    ensures mode.ModeColumnar? || mode.ModeToon? ==> FieldRows(mode, plan, table) == BareRows(table)
  {
    NamesCount(plan);
    hide FieldsOf, Sendable, NamesOf, RowStyle;
    RowStyles(mode);
    forall i | 0 <= i < |table|
      ensures mode.ModeArray? || mode.ModeNdjson? ==> FieldRows(mode, plan, table)[i] == KeyedRows(NamesOf(plan), table)[i]
      ensures mode.ModeColumnar? || mode.ModeToon? ==> FieldRows(mode, plan, table)[i] == BareRows(table)[i] {
      FieldsAre(plan, table[i]);
    }
  }

  lemma RowStyles(mode: Mode)
    ensures RowStyle(mode).ObjectStyle? <==> mode.ModeArray? || mode.ModeNdjson?
  {
  }

  lemma NamesCount(plan: Plan)
    ensures |NamesOf(plan)| == |plan|
  {
  }

  /** In every mode, the output for any table of strings and NULLs reads back as the column names
      and the table. */
  lemma DocumentReadsBack(mode: Mode, plan: Plan, table: Table)
    requires TableOf(plan, table) && TextPlan(plan)
    ensures AllPrintable(mode, RowsOfTable(plan, table)) && (forall i :: 0 <= i < |table| ==> |table[i]| == |NamesOf(plan)|)
    ensures ReadDocument(mode, Rendered(mode, Some(plan), RowsOfTable(plan, table))) == Some(DocumentOf(mode, NamesOf(plan), table))
  {
    RenderedFromFront(mode, plan, table);
    RowsAre(mode, plan, table);
    hide TextPlan, Sendable, Rendered, ListText, Pieces, AllPrintable, RowsOfTable, TableOf, ReadDocument, DocumentOf, HeaderText, FooterText, Listed;
    if Listed(mode) {
      ListedReadsBack(mode, plan, table);
    } else {
      LinesReadBack(mode, plan, table);
    }
  }

  lemma ListedReadsBack(mode: Mode, plan: Plan, table: Table)
    requires TableOf(plan, table) && TextPlan(plan) && Listed(mode) && forall i :: 0 <= i < |table| ==> |table[i]| == |NamesOf(plan)|
    ensures ReadDocument(mode, HeaderText(mode, Some(plan)) + (ListText(mode, plan, table) + FooterText(mode))) == Some(DocumentOf(mode, NamesOf(plan), table))
  {
    var end: bytes := if mode.ModeArray? then [] else [CLOSE_BRACE];
    RowsAre(mode, plan, table);
    ListReadBack(mode, plan, table, end);
    var body := ListText(mode, plan, table) + ([CLOSE_BRACKET] + end);
    hide ListText, ReadList, TextPlan, TableOf, FieldRows, KeyedRows, BareRows, ReadColumnsHeader, ColumnsHeader, NamesOf;
    assert [CLOSE_BRACKET] + end == FooterText(mode);
    if mode.ModeArray? {
      assert ([OPEN_BRACKET] + body)[1..] == body;
    } else {
      ColumnsHeaderReadsBack(NamesOf(plan), body);
    }
  }

  lemma LinesReadBack(mode: Mode, plan: Plan, table: Table)
    requires TableOf(plan, table) && TextPlan(plan) && !Listed(mode) && forall i :: 0 <= i < |table| ==> |table[i]| == |NamesOf(plan)|
    ensures ReadDocument(mode, HeaderText(mode, Some(plan)) + (Pieces(mode, plan, table) + FooterText(mode))) == Some(DocumentOf(mode, NamesOf(plan), table))
  {
    PiecesReadBack(mode, plan, table, []);
    RowsAre(mode, plan, table);
    var body := Pieces(mode, plan, table) + [];
    hide Pieces, ReadPieces, TextPlan, TableOf, FieldRows, KeyedRows, BareRows, ReadToonHeader, ToonHeader, NamesOf;
    if mode.ModeNdjson? {
      assert [] + body == body;
    } else {
      ToonHeaderReadsBack(NamesOf(plan), body);
    }
  }

  lemma RenderedHere(mode: Mode, t: Executions.Trace, plan: Plan, table: Table)
    requires TableOf(plan, table) && Executions.PlanOf(t) == Some(plan) && Executions.RowsOf(t) == RowsOfTable(plan, table) && AllPrintable(mode, Executions.RowsOf(t))
    ensures Guarantees.RenderedOf(mode, t) == Rendered(mode, Some(plan), RowsOfTable(plan, table))
  {
    hide Rendered, RowsOfTable, AllPrintable;
  }

  /** Without a description (an empty query over the simple protocol) the output is an empty
      document, except in TOON, which then prints nothing at all, not even a header. */
  lemma NoDescriptionReads(mode: Mode)
    ensures ReadDocument(mode, Rendered(mode, None, [])) ==
            match mode
            case ModeArray => Some(Document(None, []))
            case ModeNdjson => Some(Document(None, []))
            case ModeColumnar => Some(Document(Some([]), []))
            case ModeToon => None
  {
    match mode
    case ModeArray =>
      assert Rendered(mode, None, [])[1..] == [CLOSE_BRACKET] + [];
      EmptyList(mode, []);
    case ModeNdjson =>
    case ModeColumnar =>
      ColumnsHeaderReadsBack([], [CLOSE_BRACKET, CLOSE_BRACE]);
      EmptyList(mode, [CLOSE_BRACE]);
      assert [CLOSE_BRACKET] + [CLOSE_BRACE] == [CLOSE_BRACKET, CLOSE_BRACE];
      hide ReadColumnsHeader, ColumnsHeader, ReadList;
    case ModeToon =>
  }
}
