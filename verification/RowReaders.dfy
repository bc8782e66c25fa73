/** Readers for printed rows whose cells are strings or NULL, and the proof that they undo the
    three row loops: names and cells come back, and nothing past the row is touched. */
module RowReaders {
  import opened Bytes
  import opened Escape
  import opened Rows

  // Every column renders its cells as types.EncodeString does.
  ghost predicate TextPlan(plan: Plan)
  {
    forall i, c: Cell :: 0 <= i < |plan| ==> plan[i].encoder(c) == StringText(c)
  }

  // A JSON string, or the literal null.
  function ReadValue(b: bytes): (r: Option<(Cell, bytes)>)
    ensures r.Some? ==> |r.value.1| < |b|
  {
    if |b| >= 4 && b[..4] == NULL_TEXT then Some((None, b[4..]))
    else
      var s := ReadString(b);
      if s.None? then None else Some((Some(s.value.0), s.value.1))
  }

  datatype Field = Field(key: Option<bytes>, value: Cell)

  function ReadField(b: bytes, keyed: bool): (r: Option<(Field, bytes)>)
    ensures r.Some? ==> |r.value.1| < |b|
  {
    if keyed then
      var k := ReadString(b);
      if k.None? || k.value.1 == [] || k.value.1[0] != COLON then None
      else
        var v := ReadValue(k.value.1[1..]);
        if v.None? then None else Some((Field(Some(k.value.0), v.value.0), v.value.1))
    else
      var v := ReadValue(b);
      if v.None? then None else Some((Field(None, v.value.0), v.value.1))
  }

  // Comma-separated fields up to the closing byte, and what follows it.
  function ReadFields(b: bytes, keyed: bool, close: byte): Option<(seq<Field>, bytes)>
    decreases |b|
  {
    var f := ReadField(b, keyed);
    if f.None? || f.value.1 == [] then None
    else
      var (field, rest) := f.value;
      if rest[0] == close then Some(([field], rest[1..]))
      else if rest[0] != COMMA then None
      else
        var more := ReadFields(rest[1..], keyed, close);
        if more.None? then None else Some(([field] + more.value.0, more.value.1))
  }

  function ReadRow(style: Style, b: bytes): Option<(seq<Field>, bytes)>
  {
    var n, close := |Opening(style)|, Closing(style)[0];
    if |b| <= n || b[..n] != Opening(style) then None
    else if b[n] == close then Some(([], b[n + 1..]))
    else ReadFields(b[n..], style.ObjectStyle?, close)
  }

  function FieldsOf(plan: Plan, keyed: bool, cells: seq<Cell>): seq<Field>
    requires |cells| == |plan|
  {
    if cells == [] then []
    else [Field(if keyed then Some(plan[0].name) else None, cells[0])] + FieldsOf(plan[1..], keyed, cells[1..])
  }

  // ---- The printed row, from the front ----

  function Following(plan: Plan, keyed: bool, cells: seq<Cell>): bytes
    requires |cells| == |plan|
  {
    if cells == [] then []
    else Entry(plan[0], keyed, false, cells[0]) + Following(plan[1..], keyed, cells[1..])
  }

  lemma {:induction false} EntriesFromFront(plan: Plan, keyed: bool, cells: seq<Cell>, i: nat)
    requires |cells| == |plan| && 1 <= i <= |cells|
    ensures Entries(plan, keyed, cells) == Entries(plan, keyed, cells[..i]) + Following(plan[i..], keyed, cells[i..])
    decreases |cells| - i
  {
    hide Entry;
    if i == |cells| {
      assert cells[..i] == cells;
    } else {
      EntriesFromFront(plan, keyed, cells, i + 1);
      assert cells[..i + 1][..i] == cells[..i];
      assert cells[i..][1..] == cells[i + 1..] && plan[i..][1..] == plan[i + 1..];
    }
  }

  lemma ValueReadsBack(c: Cell, rest: bytes)
    ensures ReadValue(StringText(c) + rest) == Some((c, rest))
  {
    if c.None? {
      assert (NULL_TEXT + rest)[..4] == NULL_TEXT;
    } else {
      StringReadsBack(c.value, rest);
      assert (Quoted(c.value) + rest)[0] == QUOTE;
    }
  }

  lemma EntryShape(column: Column, keyed: bool, c: Cell, rest: bytes)
    requires column.encoder(c) == StringText(c)
    ensures keyed ==> Entry(column, keyed, true, c) + rest == Quoted(column.name) + ([COLON] + (StringText(c) + rest))
    ensures !keyed ==> Entry(column, keyed, true, c) + rest == StringText(c) + rest
  {
    hide Quoted, StringText;
    var q, v := Quoted(column.name), StringText(c);
    if keyed {
      assert Entry(column, keyed, true, c) == [] + (q + [COLON]) + v;
      assert [] + (q + [COLON]) + v + rest == q + ([COLON] + (v + rest));
    } else {
      assert [] + [] + v == v;
    }
  }

  lemma FieldReadsBack(column: Column, keyed: bool, c: Cell, rest: bytes)
    requires column.encoder(c) == StringText(c)
    ensures ReadField(Entry(column, keyed, true, c) + rest, keyed)
         == Some((Field(if keyed then Some(column.name) else None, c), rest))
  {
    ValueReadsBack(c, rest);
    EntryShape(column, keyed, c, rest);
    if keyed {
      StringReadsBack(column.name, [COLON] + (StringText(c) + rest));
    }
    hide Quoted, StringText, ReadValue, ReadString, Entry;
  }

  lemma ReadFieldsStep(b: bytes, keyed: bool, close: byte, field: Field, after: bytes)
    requires ReadField(b, keyed) == Some((field, after)) && after != [] && close != COMMA
    ensures after[0] == close ==> ReadFields(b, keyed, close) == Some(([field], after[1..]))
    ensures after[0] == COMMA && ReadFields(after[1..], keyed, close).Some? ==>
              ReadFields(b, keyed, close)
              == Some(([field] + ReadFields(after[1..], keyed, close).value.0,
                       ReadFields(after[1..], keyed, close).value.1))
  {
  }

  // The row without its brackets, from the front, and what comes after its last column.
  function Front(plan: Plan, keyed: bool, cells: seq<Cell>, after: bytes): bytes
    requires |cells| == |plan| > 0
  {
    Entry(plan[0], keyed, true, cells[0]) + (Following(plan[1..], keyed, cells[1..]) + after)
  }

  lemma EntryAfterComma(column: Column, keyed: bool, c: Cell)
    ensures Entry(column, keyed, false, c) == [COMMA] + Entry(column, keyed, true, c)
  {
    hide KeyPrefix;
    var k := if keyed then KeyPrefix(column.name) else [];
    AssocFour([COMMA], [], k, column.encoder(c));
  }

  lemma FrontAfterComma(plan: Plan, keyed: bool, cells: seq<Cell>, after: bytes)
    requires |cells| == |plan| > 0
    ensures Following(plan, keyed, cells) + after == [COMMA] + Front(plan, keyed, cells, after)
  {
    EntryAfterComma(plan[0], keyed, cells[0]);
    hide Entry;
    AssocFour([COMMA], Entry(plan[0], keyed, true, cells[0]), Following(plan[1..], keyed, cells[1..]), after);
  }

  lemma {:induction false} FieldsReadBack(plan: Plan, keyed: bool, cells: seq<Cell>, close: byte, rest: bytes)
    requires |cells| == |plan| > 0 && TextPlan(plan) && close != COMMA
    ensures ReadFields(Front(plan, keyed, cells, [close] + rest), keyed, close)
         == Some((FieldsOf(plan, keyed, cells), rest))
  {
    hide Entry, ReadField, ReadFields;
    var after := Following(plan[1..], keyed, cells[1..]) + ([close] + rest);
    FieldReadsBack(plan[0], keyed, cells[0], after);
    var field := Field(if keyed then Some(plan[0].name) else None, cells[0]);
    ReadFieldsStep(Front(plan, keyed, cells, [close] + rest), keyed, close, field, after);
    if |cells| == 1 {
      assert after == [close] + rest;
      assert FieldsOf(plan[1..], keyed, cells[1..]) == [] && [field] + [] == [field];
    } else {
      FrontAfterComma(plan[1..], keyed, cells[1..], [close] + rest);
      FieldsReadBack(plan[1..], keyed, cells[1..], close, rest);
      assert after[1..] == Front(plan[1..], keyed, cells[1..], [close] + rest);
    }
  }

  lemma RowFromFront(style: Style, plan: Plan, cells: seq<Cell>, rest: bytes)
    requires |cells| == |plan| > 0
    ensures RowOf(style, plan, cells) + rest
         == Opening(style) + Front(plan, style.ObjectStyle?, cells, Closing(style) + rest)
  {
    hide Entry, Opening, Closing, Following;
    var keyed := style.ObjectStyle?;
    EntriesFromFront(plan, keyed, cells, 1);
    assert cells[..1][..0] == [];
    var e, f := Entry(plan[0], keyed, true, cells[0]), Following(plan[1..], keyed, cells[1..]);
    assert Entries(plan, keyed, cells[..1]) == [] + e;
    AssocFour(Opening(style), e, f, Closing(style) + rest);
    AssocFour(Opening(style), e + f, Closing(style), rest);
  }

  // A printed field starts with a quote or an n, so it is never taken for the closing byte.
  lemma FieldStart(column: Column, keyed: bool, c: Cell)
    requires column.encoder(c) == StringText(c)
    ensures |Entry(column, keyed, true, c)| > 0
    ensures Entry(column, keyed, true, c)[0] == QUOTE || Entry(column, keyed, true, c)[0] == 0x6E
  {
    hide Escaped;
    assert |StringText(c)| > 0;
  }

  /** A printed row of strings and NULLs reads back as its column names and cells, in any style. */
  lemma RowReadsBack(style: Style, plan: Plan, cells: seq<Cell>, rest: bytes)
    requires |cells| == |plan| && TextPlan(plan)
    ensures ReadRow(style, RowOf(style, plan, cells) + rest)
         == Some((FieldsOf(plan, style.ObjectStyle?, cells), rest))
  {
    hide Entry, ReadFields, StringText;
    var keyed, n, close := style.ObjectStyle?, |Opening(style)|, Closing(style)[0];
    var b := RowOf(style, plan, cells) + rest;
    if cells == [] {
      assert b == Opening(style) + Closing(style) + rest;
    } else {
      var front := Front(plan, keyed, cells, [close] + rest);
      assert Closing(style) == [close];
      RowFromFront(style, plan, cells, rest);
      assert b[..n] == Opening(style) && b[n..] == front;
      FieldStart(plan[0], keyed, cells[0]);
      assert b[n] == front[0];
      FieldsReadBack(plan, keyed, cells, close, rest);
    }
  }

  /** From the wire to the reader: the cells of a DataRow survive printing and reading. */
  lemma WireRowReadsBack(style: Style, plan: Plan, cells: seq<Cell>, rest: bytes)
    requires |cells| == |plan| < 0x8000 && TextPlan(plan) && Sendable(cells)
    ensures var row := Row(style, plan, Put16(|cells|) + WireCells(cells));
            row.Ok? && ReadRow(style, row.value + rest) == Some((FieldsOf(plan, style.ObjectStyle?, cells), rest))
  {
    RowCellsOfWire(cells);
    RowReadsBack(style, plan, cells, rest);
  }
}
