/** Struct scans of pg2json/scan.go: rows decoded into slots of a growing slice, or of a reused
    batch handed to a callback. A row type is any type with a zero value, a setter any function
    of the slot and the cell (a NULL may leave the slot as it was), and its error may be any too. */
module Scanning {
  import opened Bytes
  import opened Rows
  import opened Rendering
  import opened Output
  import opened Executions
  import opened Retries
  import opened Engine
  import Wire
  import Statements

  // A slot after a setter; the error of a caller's own Scanner may carry SQLSTATE 26000.
  datatype Slot<+R> = Kept(row: R) | Bad(stale: bool)

  // A column that matches no field is skipped.
  datatype Field<!R> = Skip | Set(put: (R, Cell) -> Slot<R>)

  type StructPlan<!R> = seq<Field<R>>

  // ---- One row ----

  // The cells put into the slot one after the other.
  function Put<R>(slot: R, cells: seq<Cell>, sp: StructPlan<R>): Slot<R>
    requires |cells| <= |sp|
  {
    if cells == [] then Kept(slot)
    else
      var n := |cells| - 1;
      var before := Put(slot, cells[..n], sp);
      if before.Bad? || sp[n].Skip? then before else sp[n].put(before.row, cells[n])
  }

  // The cells before the first one that cannot be read.
  function Readable(body: bytes, n: nat): seq<Cell>
    ensures |Readable(body, n)| <= n
  {
    if n == 0 || FirstCell(body).Err? then [] else [FirstCell(body).value.0] + Readable(FirstCell(body).value.1, n - 1)
  }

  // What a DataRow makes of a slot: bad if a setter refuses a cell, or else if it cannot be read.
  function Filled<R>(slot: R, body: bytes, sp: StructPlan<R>): Slot<R>
  {
    if |body| < 2 || I16(body) != |sp| then Bad(false)
    else
      var filled := Put(slot, Readable(body[2..], |sp|), sp);
      if filled.Kept? && |Readable(body[2..], |sp|)| < |sp| then Bad(false) else filled
  }

  lemma {:induction false} PutFails<R>(slot: R, cells: seq<Cell>, k: nat, sp: StructPlan<R>)
    requires k <= |cells| <= |sp| && Put(slot, cells[..k], sp).Bad?
    ensures Put(slot, cells, sp) == Put(slot, cells[..k], sp)
    decreases |cells|
  {
    if k == |cells| {
      assert cells[..k] == cells;
    } else {
      var n := |cells| - 1;
      assert cells[..n][..k] == cells[..k];
      PutFails(slot, cells[..n], k, sp);
    }
  }

  lemma PutNone<R>(slot: R, sp: StructPlan<R>)
    ensures Put(slot, [], sp) == Kept(slot)
  {
  }

  lemma PutSnoc<R>(slot: R, cells: seq<Cell>, c: Cell, sp: StructPlan<R>)
    requires |cells| < |sp|
    ensures var before := Put(slot, cells, sp);
            Put(slot, cells + [c], sp) == if before.Bad? || sp[|cells|].Skip? then before else sp[|cells|].put(before.row, c)
  {
    assert (cells + [c])[..|cells|] == cells;
  }

  method FillStructRow<R>(slot: R, body: bytes, sp: StructPlan<R>) returns (r: Slot<R>)
    ensures r == Filled(slot, body, sp)
  {
    if |body| < 2 { return Bad(false); }
    var n := I16(body);
    if n != |sp| { return Bad(false); }
    r := FillCells(slot, body[2..], sp);
  }

  method FillCells<R>(slot: R, body: bytes, sp: StructPlan<R>) returns (r: Slot<R>)
    ensures var filled := Put(slot, Readable(body, |sp|), sp);
            r == if filled.Kept? && |Readable(body, |sp|)| < |sp| then Bad(false) else filled
  {
    ghost var all := Readable(body, |sp|);
    PutNone(slot, sp);
    hide FirstCell, Put;
    var rest, cur := body, slot;
    ghost var done: seq<Cell> := [];
    for i := 0 to |sp|
      invariant |done| == i && all == done + Readable(rest, |sp| - i) && Put(slot, done, sp) == Kept(cur)
    {
      var first := FirstCell(rest);
      if first.Err? {
        assert all == done;
        return Bad(false);
      }
      ghost var more := done + [first.value.0];
      assert all == more + Readable(first.value.1, |sp| - i - 1);
      PutSnoc(slot, done, first.value.0, sp);
      if sp[i].Set? {
        var next := sp[i].put(cur, first.value.0);
        if next.Bad? {
          assert all[..i + 1] == more;
          PutFails(slot, all, i + 1, sp);
          return next;
        }
        cur := next.row;
      }
      done, rest := more, first.value.1;
    }
    assert done + [] == done;
    r := Kept(cur);
  }

  /** A row is refused exactly when it does not split into one cell for each column or a setter
      refuses one; otherwise the slot becomes what its cells make of it. */
  lemma FilledExactly<R>(slot: R, body: bytes, sp: StructPlan<R>)
    ensures RowCells(body, |sp|).Ok? ==>
              |RowCells(body, |sp|).value| == |sp| && Filled(slot, body, sp) == Put(slot, RowCells(body, |sp|).value, sp)
    ensures RowCells(body, |sp|).Err? ==> Filled(slot, body, sp).Bad?
  {
    RowCellsCount(body, |sp|);
    if |body| >= 2 { ReadableCells(body[2..], |sp|); }
    hide FirstCell, Put;
  }

  /** The row that the server sends for a list of cells fills the slot with them. */
  lemma FilledOfWire<R>(slot: R, cells: seq<Cell>, sp: StructPlan<R>)
    requires Sendable(cells) && |cells| == |sp| < 0x8000
    ensures Filled(slot, Put16(|cells|) + WireCells(cells), sp) == Put(slot, cells, sp)
  {
    RowCellsOfWire(cells);
    FilledExactly(slot, Put16(|cells|) + WireCells(cells), sp);
    hide Filled, Put, RowCells;
  }

  // ---- Each cell to its own field ----

  // A struct as its fields, and a plan that sends column i to field to[i] if it has one.
  type Struct = map<nat, Cell>

  function FieldPlan(to: seq<Option<nat>>): StructPlan<Struct>
  {
    seq(|to|, i requires 0 <= i < |to| => if to[i].None? then Skip else Set((row: Struct, c: Cell) => Kept(row[to[i].value := c])))
  }

  /** With plain setters into distinct fields, every field is set to the cell of its own column and
      nothing else changes. */
  lemma {:induction false} PutEach(slot: Struct, cells: seq<Cell>, to: seq<Option<nat>>)
    requires |cells| <= |to| && forall i, j :: 0 <= i < j < |to| && to[i].Some? ==> to[i] != to[j]
    ensures var r := Put(slot, cells, FieldPlan(to));
            && r.Kept?
            && (forall i :: 0 <= i < |cells| && to[i].Some? ==> to[i].value in r.row && r.row[to[i].value] == cells[i])
            && (forall f :: (forall i :: 0 <= i < |cells| ==> to[i] != Some(f)) ==> (f in r.row <==> f in slot) && (f in slot ==> r.row[f] == slot[f]))
  {
    if cells != [] {
      var n := |cells| - 1;
      PutEach(slot, cells[..n], to);
      assert cells[..n] + [cells[n]] == cells;
      PutSnoc(slot, cells[..n], cells[n], FieldPlan(to));
    }
  }

  lemma {:induction false} ReadableCells(body: bytes, n: nat)
    ensures |Readable(body, n)| == n <==> Cells(body, n).Ok?
    ensures Cells(body, n).Ok? ==> Cells(body, n).value == Readable(body, n)
    decreases n
  {
    hide FirstCell;
    if n > 0 && FirstCell(body).Ok? { ReadableCells(FirstCell(body).value.1, n - 1); }
  }

  // ---- What a response decodes to ----

  // How a row description becomes a struct plan: parse, then match columns to fields.
  type PlanBuilder<!R> = bytes -> Option<StructPlan<R>>

  function SpAfter<R>(start: StructPlan<R>, build: PlanBuilder<R>, msgs: seq<Msg>): StructPlan<R>
  {
    if msgs == [] then start
    else
      var n := |msgs| - 1;
      if msgs[n].RowDescription? && build(msgs[n].body).Some? then build(msgs[n].body).value else SpAfter(start, build, msgs[..n])
  }

  // Every row filled into a zero slot; None from the first message that cannot be used.
  function Decoded<R>(zero: R, start: StructPlan<R>, build: PlanBuilder<R>, msgs: seq<Msg>): Option<seq<R>>
  {
    if msgs == [] then Some([])
    else
      var n := |msgs| - 1;
      var before := Decoded(zero, start, build, msgs[..n]);
      if before.None? || !Accepts(true, msgs[n]) then None
      else if msgs[n].RowDescription? && build(msgs[n].body).None? then None
      else if !msgs[n].DataRow? then before
      else
        var row := Filled(zero, msgs[n].body, SpAfter(start, build, msgs[..n]));
        if row.Bad? then None else Some(before.value + [row.row])
  }

  lemma DecodedSnoc<R>(zero: R, start: StructPlan<R>, build: PlanBuilder<R>, msgs: seq<Msg>, m: Msg)
    ensures SpAfter(start, build, msgs + [m]) ==
            if m.RowDescription? && build(m.body).Some? then build(m.body).value else SpAfter(start, build, msgs)
    ensures var before := Decoded(zero, start, build, msgs);
            Decoded(zero, start, build, msgs + [m]) ==
            if before.None? || !Accepts(true, m) || (m.RowDescription? && build(m.body).None?) then None
            else if !m.DataRow? then before
            else
              var row := Filled(zero, m.body, SpAfter(start, build, msgs));
              if row.Bad? then None else Some(before.value + [row.row])
  {
    hide Accepts, Filled;
    assert (msgs + [m])[..|msgs|] == msgs;
  }

  lemma {:induction false} DecodedPrefix<R>(zero: R, start: StructPlan<R>, build: PlanBuilder<R>, msgs: seq<Msg>, k: nat)
    requires k <= |msgs| && Decoded(zero, start, build, msgs).Some?
    ensures Decoded(zero, start, build, msgs[..k]).Some?
    decreases |msgs|
  {
    hide Accepts, Filled, SpAfter;
    if k == |msgs| {
      assert msgs[..k] == msgs;
    } else {
      var n := |msgs| - 1;
      assert msgs[..n][..k] == msgs[..k];
      DecodedPrefix(zero, start, build, msgs[..n], k);
    }
  }

  datatype ScanEnd = Done | ServerError(code: string) | Cut | Undecodable(stale: bool) | CallbackFailed(stale: bool)

  // The last message is a row that a setter refused with SQLSTATE 26000.
  ghost predicate RefusedRow<R>(zero: R, start: StructPlan<R>, build: PlanBuilder<R>, msgs: seq<Msg>)
  {
    && msgs != [] && msgs[|msgs| - 1].DataRow?
    && var front := msgs[..|msgs| - 1];
       Decoded(zero, start, build, front).Some? && Filled(zero, msgs[|msgs| - 1].body, SpAfter(start, build, front)) == Bad(true)
  }

  // How a scan that read msgs ended.
  ghost predicate Ends<R>(e: ScanEnd, zero: R, start: StructPlan<R>, build: PlanBuilder<R>, msgs: seq<Msg>, rest: seq<Msg>)
  {
    match e
    case Done => Response(msgs) && ErrorIn(msgs).None? && Decoded(zero, start, build, msgs).Some?
    case ServerError(code) => Response(msgs) && ErrorIn(msgs) == Some(code) && Decoded(zero, start, build, msgs).Some?
    case Cut => NoReady(msgs) && rest == []
    case Undecodable(stale) =>
      NoReady(msgs) && Decoded(zero, start, build, msgs).None? && (stale <==> RefusedRow(zero, start, build, msgs))
    case CallbackFailed(_) => Response(msgs)
  }

  // The rows a scan had decoded when it ended so.
  ghost function RowsBy<R>(e: ScanEnd, zero: R, start: StructPlan<R>, build: PlanBuilder<R>, msgs: seq<Msg>): Option<seq<R>>
  {
    Decoded(zero, start, build, if e == Undecodable(true) && msgs != [] then msgs[..|msgs| - 1] else msgs)
  }

  // ---- When a scan succeeds ----

  // A message of a result that a scan reads, and what it makes of a row or a description.
  ghost predicate Scannable<R>(zero: R, start: StructPlan<R>, build: PlanBuilder<R>, msgs: seq<Msg>, i: nat)
    requires i < |msgs|
  {
    var m := msgs[i];
    || m.BindComplete? || m.CommandComplete? || m.EmptyQueryResponse? || m.PortalSuspended? || m.CloseComplete?
    || m.NoticeResponse? || m.ParameterStatus? || m.ErrorResponse? || m.ReadyForQuery?
    || (m.RowDescription? && build(m.body).Some?)
    || (m.DataRow? && Filled(zero, m.body, SpAfter(start, build, msgs[..i])).Kept?)
  }

  lemma {:induction false} DecodedExactly<R>(zero: R, start: StructPlan<R>, build: PlanBuilder<R>, msgs: seq<Msg>)
    ensures Decoded(zero, start, build, msgs).Some? <==> forall i :: 0 <= i < |msgs| ==> Scannable(zero, start, build, msgs, i)
  {
    if msgs != [] {
      var n := |msgs| - 1;
      DecodedExactly(zero, start, build, msgs[..n]);
      hide Filled, SpAfter, Decoded;
      assert forall i :: 0 <= i < n ==> msgs[..n][..i] == msgs[..i];
      assert forall i :: 0 <= i < n ==> (Scannable(zero, start, build, msgs[..n], i) <==> Scannable(zero, start, build, msgs, i));
      DecodedLast(zero, start, build, msgs);
    }
  }

  lemma DecodedLast<R>(zero: R, start: StructPlan<R>, build: PlanBuilder<R>, msgs: seq<Msg>)
    requires msgs != []
    ensures Decoded(zero, start, build, msgs).Some? <==>
            Decoded(zero, start, build, msgs[..|msgs| - 1]).Some? && Scannable(zero, start, build, msgs, |msgs| - 1)
  {
    hide Filled, SpAfter;
  }

  /** A scan whose callback goes on succeeds exactly on a response without an error, all of whose
      messages it can read; it then has read the response and nothing else. */
  lemma ScanExact<R>(e: ScanEnd, zero: R, start: StructPlan<R>, build: PlanBuilder<R>, msgs: seq<Msg>, rest: seq<Msg>, response: seq<Msg>, more: seq<Msg>)
    requires Ends(e, zero, start, build, msgs, rest) && !e.CallbackFailed? && msgs + rest == response + more && Response(response)
    ensures e.Done? <==> ErrorIn(response).None? && forall i :: 0 <= i < |response| ==> Scannable(zero, start, build, response, i)
    ensures e.Done? ==> msgs == response && rest == more
  {
    DecodedExactly(zero, start, build, response);
    hide Decoded, Response, NoReady, ErrorIn, Scannable;
    var all := response + more;
    assert all[..|msgs|] == msgs && all[|msgs|..] == rest && all[..|response|] == response && all[|response|..] == more;
    FirstResponse(response, more, |msgs|);
    if e.Undecodable? {
      assert response[..|msgs|] == msgs;
      if Decoded(zero, start, build, response).Some? { DecodedPrefix(zero, start, build, response, |msgs|); }
    }
  }

  // Rows that the server sends for a table of as many columns as the plan has, each of which the
  // setters take.
  ghost predicate Takes<R>(zero: R, sp: StructPlan<R>, table: seq<seq<Cell>>)
  {
    |sp| < 0x8000 && forall i :: 0 <= i < |table| ==> |table[i]| == |sp| && Sendable(table[i]) && Put(zero, table[i], sp).Kept?
  }

  ghost predicate Fills<R>(zero: R, sp: StructPlan<R>, table: seq<seq<Cell>>)
  {
    forall i :: 0 <= i < |table| ==> |table[i]| == |sp| && Put(zero, table[i], sp).Kept?
  }

  ghost function Scanned<R>(zero: R, sp: StructPlan<R>, table: seq<seq<Cell>>): seq<R>
    requires Fills(zero, sp, table)
  {
    seq(|table|, i requires 0 <= i < |table| => Put(zero, table[i], sp).row)
  }

  predicate RowOrRoutine(m: Msg)
  {
    || m.DataRow? || m.BindComplete? || m.CommandComplete? || m.EmptyQueryResponse? || m.PortalSuspended? || m.CloseComplete?
    || m.NoticeResponse? || m.ParameterStatus? || m.ReadyForQuery?
  }

  /** So a response without errors or descriptions that carries such a table scans to its rows. */
  lemma {:induction false} TableScans<R>(zero: R, start: StructPlan<R>, build: PlanBuilder<R>, msgs: seq<Msg>, table: seq<seq<Cell>>)
    requires Takes(zero, start, table) && DataRows(msgs) == WireTable(table) && forall i :: 0 <= i < |msgs| ==> RowOrRoutine(msgs[i])
    ensures SpAfter(start, build, msgs) == start
    ensures Fills(zero, start, table) && Decoded(zero, start, build, msgs) == Some(Scanned(zero, start, table))
    decreases |msgs|
  {
    TakesFills(zero, start, table);
    if msgs == [] {
      assert DataRows(msgs) == [] && |WireTable(table)| == |table|;
      assert Scanned(zero, start, table) == [];
    } else {
      var n := |msgs| - 1;
      var m := msgs[n];
      assert msgs == msgs[..n] + [m] && RowOrRoutine(m);
      DataRowsSnoc(msgs[..n], m);
      DecodedSnoc(zero, start, build, msgs[..n], m);
      if m.DataRow? {
        var k := |table| - 1;
        LastWireRow(msgs, table);
        TakesFewer(zero, start, table);
        hide Filled, Put, DataRows, Put16, WireCells, Sendable, SpAfter, Decoded, Takes, WireTable;
        TableScans(zero, start, build, msgs[..n], table[..k]);
        FilledOfWire(zero, table[k], start);
        ScannedSnoc(zero, start, table);
      } else {
        hide Filled, Put, DataRows, Put16, WireCells, Sendable, SpAfter, Decoded, Takes, WireTable;
        TableScans(zero, start, build, msgs[..n], table);
      }
    }
  }

  lemma TakesFills<R>(zero: R, sp: StructPlan<R>, table: seq<seq<Cell>>)
    requires Takes(zero, sp, table)
    ensures Fills(zero, sp, table)
  {
  }

  lemma TakesFewer<R>(zero: R, sp: StructPlan<R>, table: seq<seq<Cell>>)
    requires Takes(zero, sp, table) && table != []
    ensures Takes(zero, sp, table[..|table| - 1])
    ensures var row := table[|table| - 1]; |row| == |sp| < 0x8000 && Sendable(row) && Put(zero, row, sp).Kept?
  {
  }

  lemma ScannedSnoc<R>(zero: R, sp: StructPlan<R>, table: seq<seq<Cell>>)
    requires Fills(zero, sp, table) && table != []
    ensures var k := |table| - 1; Fills(zero, sp, table[..k]) && Scanned(zero, sp, table) == Scanned(zero, sp, table[..k]) + [Put(zero, table[k], sp).row]
  {
    hide Put;
  }

  /** Both scans of such a response, if the callback goes on, succeed with those rows. */
  lemma TableScanSucceeds<R>(e: ScanEnd, zero: R, start: StructPlan<R>, build: PlanBuilder<R>, msgs: seq<Msg>, rest: seq<Msg>,
                             response: seq<Msg>, more: seq<Msg>, table: seq<seq<Cell>>)
    requires Ends(e, zero, start, build, msgs, rest) && !e.CallbackFailed? && msgs + rest == response + more && Response(response)
    requires Takes(zero, start, table) && DataRows(response) == WireTable(table) && forall i :: 0 <= i < |response| ==> RowOrRoutine(response[i])
    ensures e.Done? && msgs == response && rest == more
    ensures Fills(zero, start, table) && Decoded(zero, start, build, msgs) == Some(Scanned(zero, start, table))
  {
    TableScans(zero, start, build, response, table);
    DecodedExactly(zero, start, build, response);
    ErrorShows(response);
    hide Ends, Decoded, DataRows, Takes, WireTable, Scannable, Response, ErrorIn;
    ScanExact(e, zero, start, build, msgs, rest, response, more);
  }

  lemma LastWireRow(msgs: seq<Msg>, table: seq<seq<Cell>>)
    requires msgs != [] && msgs[|msgs| - 1].DataRow? && DataRows(msgs) == WireTable(table)
    ensures table != [] && msgs[|msgs| - 1].body == Put16(|table[|table| - 1]|) + WireCells(table[|table| - 1])
    ensures DataRows(msgs[..|msgs| - 1]) == WireTable(table[..|table| - 1])
  {
    hide Put16, WireCells;
    var front := DataRows(msgs[..|msgs| - 1]);
    assert DataRows(msgs) == front + [msgs[|msgs| - 1].body];
    assert |table| == |front| + 1;
    assert WireTable(table)[..|front|] == front;
  }

  // ---- bindExecuteScan ----

  // Makes room for one more row; the new slots are zero.
  method Grow<R>(slots: array<R>, zero: R) returns (more: array<R>)
    requires slots.Length > 0
    ensures fresh(more) && more.Length == 2 * slots.Length
    ensures more[..slots.Length] == slots[..]
    ensures forall i :: slots.Length <= i < more.Length ==> more[i] == zero
  {
    more := new R[2 * slots.Length](_ => zero);
    forall i | 0 <= i < slots.Length { more[i] := slots[i]; }
  }

  // The first n slots are the rows; the others are untouched.
  ghost predicate Holds<R>(slots: array<R>, rows: seq<R>, zero: R)
    reads slots
  {
    && |rows| <= slots.Length && slots[..|rows|] == rows
    && forall i :: |rows| <= i < slots.Length ==> slots[i] == zero
  }

  lemma HoldsMore<R>(slots: array<R>, rows: seq<R>, zero: R, row: R)
    requires |rows| < slots.Length && slots[..|rows|] == rows && slots[|rows|] == row
    requires forall i :: |rows| < i < slots.Length ==> slots[i] == zero
    ensures Holds(slots, rows + [row], zero)
  {
  }

  // Reading so far, with everything usable.
  ghost predicate Going<R>(zero: R, start: StructPlan<R>, build: PlanBuilder<R>, msgs: seq<Msg>, sp: StructPlan<R>, pgError: Option<string>, rows: seq<R>)
  {
    && NoReady(msgs) && sp == SpAfter(start, build, msgs) && pgError == ErrorIn(msgs)
    && Decoded(zero, start, build, msgs) == Some(rows)
  }

  // A message that is not a row: what it does to the scan.
  method ScanOther<R>(zero: R, ghost start: StructPlan<R>, build: PlanBuilder<R>, ghost msgs: seq<Msg>, was: StructPlan<R>,
                      pgWas: Option<string>, ghost rows: seq<R>, m: Msg, ghost rest: seq<Msg>)
    returns (stop: Option<ScanEnd>, sp: StructPlan<R>, pgError: Option<string>)
    requires Going(zero, start, build, msgs, was, pgWas, rows) && !m.DataRow?
    ensures stop.None? ==> Going(zero, start, build, msgs + [m], sp, pgError, rows)
    ensures stop.Some? ==> Ends(stop.value, zero, start, build, msgs + [m], rest) && !stop.value.CallbackFailed?
    ensures stop.Some? && (stop.value.Done? || stop.value.ServerError?) ==> Decoded(zero, start, build, msgs + [m]) == Some(rows)
  {
    Snoc(None, _ => None, msgs, m);
    DecodedSnoc(zero, start, build, msgs, m);
    stop, sp, pgError := None, was, pgWas;
    if m.ReadyForQuery? {
      stop := Some(if pgError.Some? then ServerError(pgError.value) else Done);
      return;
    }
    hide NoReady, Response, ErrorIn, Decoded, SpAfter, RowsIn, PlanAfter, LastDescription, Filled;
    if !Accepts(true, m) { return Some(Undecodable(false)), was, pgWas; }
    if m.ErrorResponse? { pgError := Some(m.code); }
    if m.RowDescription? {
      var newSp := build(m.body);
      if newSp.None? { return Some(Undecodable(false)), was, pgWas; }
      sp := newSp.value;
    }
  }

  /** bindExecuteScan: on success the slice holds every row of the response, each decoded into a
      zero slot, across any number of doublings. */
  method BindExecuteScan<R>(conn: Conn, rowsHint: int, zero: R, start: StructPlan<R>, build: PlanBuilder<R>)
    returns (r: ScanEnd, result: seq<R>, ghost msgs: seq<Msg>)
    modifies conn`input
    ensures old(conn.input) == msgs + conn.input && !r.CallbackFailed?
    ensures Ends(r, zero, start, build, msgs, conn.input)
    ensures r.Done? ==> Decoded(zero, start, build, msgs) == Some(result)
  {
    hide NoReady, Response, ErrorIn, Decoded, SpAfter, Filled, Accepts;
    var slots := new R[if rowsHint > 0 then rowsHint else 16](_ => zero);
    var sp, pgError, rowCount := start, None, 0;
    msgs, result := [], [];
    ghost var inp, rows := conn.input, [];
    StartGoing(zero, start, build);
    while true
      invariant inp == msgs + conn.input && Going(zero, start, build, msgs, sp, pgError, rows)
      invariant fresh(slots) && slots.Length > 0 && rowCount == |rows| && Holds(slots, rows, zero)
      decreases |conn.input|
    {
      var m := conn.ReadMessage();
      if m.None? { return Cut, [], msgs; }
      assert inp == (msgs + [m.value]) + conn.input;
      if m.value.DataRow? {
        if rowCount == slots.Length { slots := Grow(slots, zero); }
        var row := FillStructRow(slots[rowCount], m.value.body, sp);
        RowRead(zero, start, build, msgs, sp, pgError, rows, m.value, row);
        msgs := msgs + [m.value];
        if row.Bad? { return Undecodable(row.stale), [], msgs; }
        slots[rowCount] := row.row;
        HoldsMore(slots, rows, zero, row.row);
        rows, rowCount := rows + [row.row], rowCount + 1;
      } else {
        var stop;
        stop, sp, pgError := ScanOther(zero, start, build, msgs, sp, pgError, rows, m.value, conn.input);
        msgs := msgs + [m.value];
        if stop.Some? { return stop.value, slots[..rowCount], msgs; }
      }
    }
  }

  lemma StartGoing<R>(zero: R, start: StructPlan<R>, build: PlanBuilder<R>)
    ensures Going(zero, start, build, [], start, None, [])
  {
  }

  lemma RowRead<R>(zero: R, start: StructPlan<R>, build: PlanBuilder<R>, msgs: seq<Msg>, sp: StructPlan<R>, pgError: Option<string>, rows: seq<R>, m: Msg, row: Slot<R>)
    requires Going(zero, start, build, msgs, sp, pgError, rows) && m.DataRow? && row == Filled(zero, m.body, sp)
    ensures row.Kept? ==> Going(zero, start, build, msgs + [m], sp, pgError, rows + [row.row])
    ensures row.Bad? ==> NoReady(msgs + [m]) && Decoded(zero, start, build, msgs + [m]).None?
    ensures row.Bad? ==> (row.stale <==> RefusedRow(zero, start, build, msgs + [m]))
    ensures row.Bad? ==> RowsBy(Undecodable(row.stale), zero, start, build, msgs + [m]) == if row.stale then Some(rows) else None
  {
    hide Filled, Decoded, SpAfter;
    assert (msgs + [m])[..|msgs|] == msgs;
    Snoc(None, _ => None, msgs, m);
    DecodedSnoc(zero, start, build, msgs, m);
  }

  // ---- bindExecuteScanBatched ----

  function Flatten<R>(batches: seq<seq<R>>): seq<R>
  {
    if batches == [] then [] else Flatten(batches[..|batches| - 1]) + batches[|batches| - 1]
  }

  lemma FlattenSnoc<R>(batches: seq<seq<R>>, batch: seq<R>)
    ensures Flatten(batches + [batch]) == Flatten(batches) + batch
  {
    assert (batches + [batch])[..|batches|] == batches;
  }

  predicate AllFull<R>(batches: seq<seq<R>>, size: nat) { forall i :: 0 <= i < |batches| ==> |batches[i]| == size }

  // Batches as the callback may expect them: full but for the last, and none empty.
  predicate WellBatched<R>(batches: seq<seq<R>>, size: nat)
  {
    && (forall i :: 0 <= i < |batches| - 1 ==> |batches[i]| == size)
    && (batches != [] ==> 0 < |batches[|batches| - 1]| <= size)
  }

  // What the callback answered.
  datatype Answer = Continue | Stop(stale: bool)

  // flush: hand out the filled slots, then clear them. After a refusal nothing is cleared.
  method FlushBatch<R>(batch: array<R>, rowCount: nat, zero: R, ghost given: seq<seq<R>>) returns (a: Answer, ghost batches: seq<seq<R>>)
    requires rowCount <= batch.Length
    modifies batch
    ensures batches == if rowCount == 0 then given else given + [old(batch[..rowCount])]
    ensures rowCount == 0 ==> a == Continue
    ensures a.Continue? ==> forall i :: 0 <= i < rowCount ==> batch[i] == zero
    ensures forall i :: rowCount <= i < batch.Length ==> batch[i] == old(batch[i])
  {
    a, batches := Continue, given;
    if rowCount == 0 { return; }
    batches := given + [batch[..rowCount]];
    var refused: bool, stale: bool := *, *;
    if refused { return Stop(stale), batches; }
    ClearBatchSlots(batch, rowCount, zero);
  }

  method ClearBatchSlots<R>(batch: array<R>, n: nat, zero: R)
    requires n <= batch.Length
    modifies batch
    ensures forall i :: 0 <= i < batch.Length ==> batch[i] == if i < n then zero else old(batch[i])
  {
    for i := 0 to n
      invariant forall k :: 0 <= k < batch.Length ==> batch[k] == if k < i then zero else old(batch[k])
    {
      batch[i] := zero;
    }
  }

  // Everything decoded so far is in the batches handed out, all full, and the current one.
  ghost predicate Batching<R>(batches: seq<seq<R>>, batch: array<R>, rowCount: nat, size: nat, zero: R, rows: seq<R>)
    reads batch
  {
    && batch.Length == size && rowCount < size && AllFull(batches, size)
    && rows == Flatten(batches) + batch[..rowCount]
    && forall i :: rowCount <= i < size ==> batch[i] == zero
  }

  // A row, filled into the next slot; a full batch goes out.
  method BatchRow<R>(batch: array<R>, rowCount: nat, size: nat, zero: R, row: R, ghost given: seq<seq<R>>, ghost rows: seq<R>)
    returns (a: Answer, count: nat, ghost batches: seq<seq<R>>)
    requires Batching(given, batch, rowCount, size, zero, rows)
    modifies batch
    ensures a.Continue? ==> Batching(batches, batch, count, size, zero, rows + [row])
    ensures a.Stop? ==> AllFull(batches, size) && batches != [] && Flatten(batches) == rows + [row]
    ensures given <= batches
  {
    batch[rowCount] := row;
    count, a, batches := rowCount + 1, Continue, given;
    assert batch[..count] == old(batch[..rowCount]) + [row];
    assert rows + [row] == Flatten(given) + batch[..count];
    if count == size {
      FlattenSnoc(given, batch[..count]);
      a, batches := FlushBatch(batch, count, zero, given);
      assert a.Continue? ==> Flatten(batches) + batch[..0] == Flatten(batches);
      count := 0;
    }
  }

  // All full batches, and only those.
  ghost predicate FullOnes<R>(rows: Option<seq<R>>, batches: seq<seq<R>>, size: nat)
  {
    rows.Some? && AllFull(batches, size) && Flatten(batches) <= rows.value && |rows.value| < |Flatten(batches)| + size
  }

  // What the callback has been given when a batched scan ends, having decoded rows.
  ghost predicate Handed<R>(e: ScanEnd, rows: Option<seq<R>>, batches: seq<seq<R>>, size: nat)
  {
    match e
    case Done => rows.Some? && Flatten(batches) == rows.value && WellBatched(batches, size)
    case ServerError(_) => FullOnes(rows, batches, size)
    case Undecodable(stale) => AllFull(batches, size) && (stale ==> FullOnes(rows, batches, size))
    case CallbackFailed(_) => batches != [] && WellBatched(batches, size)
    case Cut => AllFull(batches, size)
  }

  // A message after the callback refused: rows are dropped unread.
  method AfterRefusal<R>(zero: R, ghost start: StructPlan<R>, build: PlanBuilder<R>, ghost msgs: seq<Msg>, m: Msg, stale: bool, ghost rest: seq<Msg>)
    returns (stop: Option<ScanEnd>)
    requires NoReady(msgs)
    ensures stop.None? ==> NoReady(msgs + [m])
    ensures stop.Some? ==> Ends(stop.value, zero, start, build, msgs + [m], rest) && (stop.value.CallbackFailed? || stop.value == Undecodable(false))
  {
    Snoc(None, _ => None, msgs, m);
    DecodedSnoc(zero, start, build, msgs, m);
    hide NoReady, Response, ErrorIn, Decoded, SpAfter, RowsIn, PlanAfter, LastDescription, Filled;
    stop := None;
    if m.ReadyForQuery? { return Some(CallbackFailed(stale)); }
    if m.DataRow? { return None; }
    if !Accepts(true, m) { return Some(Undecodable(false)); }
    if m.RowDescription? && build(m.body).None? { return Some(Undecodable(false)); }
  }

  // The last, partial batch.
  method LastBatch<R>(batch: array<R>, rowCount: nat, size: nat, zero: R, ghost given: seq<seq<R>>, ghost rows: seq<R>)
    returns (a: Answer, ghost batches: seq<seq<R>>)
    requires Batching(given, batch, rowCount, size, zero, rows)
    modifies batch
    ensures Flatten(batches) == rows && WellBatched(batches, size) && (a.Stop? ==> batches != [])
  {
    FlattenSnoc(given, batch[..rowCount]);
    assert rowCount == 0 ==> Flatten(given) + batch[..0] == Flatten(given);
    a, batches := FlushBatch(batch, rowCount, zero, given);
  }

  /** bindExecuteScanBatched: the same rows in batches of batchSize, through one reused slice. */
  method BindExecuteScanBatched<R>(conn: Conn, size: nat, zero: R, start: StructPlan<R>, build: PlanBuilder<R>)
    returns (r: ScanEnd, ghost batches: seq<seq<R>>, ghost msgs: seq<Msg>)
    requires size > 0
    modifies conn`input
    ensures old(conn.input) == msgs + conn.input
    ensures Ends(r, zero, start, build, msgs, conn.input)
    ensures Handed(r, RowsBy(r, zero, start, build, msgs), batches, size)
  {
    hide NoReady, Response, ErrorIn, Decoded, SpAfter, Filled, Accepts, Going, Flatten;
    var batch := new R[size](_ => zero);
    var sp, pgError := start, None;
    var rowCount: nat := 0;
    var refusal: Option<bool> := None;
    msgs, batches := [], [];
    ghost var inp, rows := conn.input, [];
    StartGoing(zero, start, build);
    StartBatching(batch, size, zero);
    while true
      invariant inp == msgs + conn.input && fresh(batch)
      invariant refusal.None? ==> Going(zero, start, build, msgs, sp, pgError, rows) && Batching(batches, batch, rowCount, size, zero, rows)
      invariant refusal.Some? ==> NoReady(msgs) && batches != [] && AllFull(batches, size)
      decreases |conn.input|
    {
      var m := conn.ReadMessage();
      if m.None? {
        if refusal.None? { StillGoing(zero, start, build, msgs, sp, pgError, rows); }
        return Cut, batches, msgs;
      }
      assert inp == (msgs + [m.value]) + conn.input;
      if refusal.Some? {
        var stop := AfterRefusal(zero, start, build, msgs, m.value, refusal.value, conn.input);
        msgs := msgs + [m.value];
        if stop.Some? { return stop.value, batches, msgs; }
      } else if m.value.DataRow? {
        var row := FillStructRow(batch[rowCount], m.value.body, sp);
        RowRead(zero, start, build, msgs, sp, pgError, rows, m.value, row);
        msgs := msgs + [m.value];
        if row.Bad? { return Undecodable(row.stale), batches, msgs; }
        var a;
        a, rowCount, batches := BatchRow(batch, rowCount, size, zero, row.row, batches, rows);
        rows := rows + [row.row];
        if a.Stop? {
          refusal := Some(a.stale);
          StillGoing(zero, start, build, msgs, sp, pgError, rows);
        }
      } else {
        var stop;
        stop, sp, pgError := ScanOther(zero, start, build, msgs, sp, pgError, rows, m.value, conn.input);
        msgs := msgs + [m.value];
        if stop.Some? {
          r := stop.value;
          if r.Done? {
            var a;
            a, batches := LastBatch(batch, rowCount, size, zero, batches, rows);
            if a.Stop? { r := CallbackFailed(a.stale); }
          }
          return;
        }
      }
    }
  }

  lemma StartBatching<R>(batch: array<R>, size: nat, zero: R)
    requires batch.Length == size > 0 && forall i :: 0 <= i < size ==> batch[i] == zero
    ensures Batching([], batch, 0, size, zero, [])
  {
  }

  lemma StillGoing<R>(zero: R, start: StructPlan<R>, build: PlanBuilder<R>, msgs: seq<Msg>, sp: StructPlan<R>, pgError: Option<string>, rows: seq<R>)
    requires Going(zero, start, build, msgs, sp, pgError, rows)
    ensures NoReady(msgs)
  {
  }

  /** The batched scan refines the plain one: on the same stream, if the plain scan succeeds then
      the batched scan succeeds unless its callback refuses, with the same rows in the same
      order; and if the batched one succeeds so does the plain one. */
  lemma BatchedRefinesPlain<R>(zero: R, start: StructPlan<R>, build: PlanBuilder<R>, input: seq<Msg>, plain: ScanEnd, msgs: seq<Msg>, rest: seq<Msg>,
                               batched: ScanEnd, msgs': seq<Msg>, rest': seq<Msg>, batches: seq<seq<R>>, size: nat)
    requires input == msgs + rest == msgs' + rest'
    requires Ends(plain, zero, start, build, msgs, rest) && Ends(batched, zero, start, build, msgs', rest')
    requires Handed(batched, RowsBy(batched, zero, start, build, msgs'), batches, size)
    requires !plain.CallbackFailed? && !batched.CallbackFailed?
    ensures plain.Done? <==> batched.Done?
    ensures plain.Done? ==> msgs == msgs' && Decoded(zero, start, build, msgs) == Some(Flatten(batches)) && WellBatched(batches, size)
  {
    hide Decoded, Flatten, Response, NoReady, ErrorIn;
    if plain.Done? {
      OnlyDone(zero, start, build, msgs, rest, batched, msgs', rest');
    } else if batched.Done? {
      OnlyDone(zero, start, build, msgs', rest', plain, msgs, rest);
    }
  }

  lemma OnlyDone<R>(zero: R, start: StructPlan<R>, build: PlanBuilder<R>, msgs: seq<Msg>, rest: seq<Msg>, e: ScanEnd, msgs': seq<Msg>, rest': seq<Msg>)
    requires msgs + rest == msgs' + rest' && !e.CallbackFailed?
    requires Ends(Done, zero, start, build, msgs, rest) && Ends(e, zero, start, build, msgs', rest')
    ensures e.Done? && msgs' == msgs
  {
    hide Decoded, Response, NoReady, ErrorIn;
    var all := msgs + rest;
    assert all[..|msgs'|] == msgs' && all[..|msgs|] == msgs;
    FirstResponse(msgs, rest, |msgs'|);
    if e.Undecodable? {
      assert msgs[..|msgs'|] == msgs';
      DecodedPrefix(zero, start, build, msgs, |msgs'|);
    }
  }

  // ---- ScanStructBatched ----

  // One execution: what it started from, read and handed out, and how it ended.
  datatype Pass<!R> = Pass(start: StructPlan<R>, build: PlanBuilder<R>, msgs: seq<Msg>, batches: seq<seq<R>>, end: ScanEnd)

  ghost predicate Passed<R>(p: Pass<R>, zero: R, size: nat)
  {
    && (p.end.Cut? || Ends(p.end, zero, p.start, p.build, p.msgs, []))
    && Handed(p.end, RowsBy(p.end, zero, p.start, p.build, p.msgs), p.batches, size)
  }

  // isStaleStmtError, whoever the error is from.
  predicate Stale(e: ScanEnd) { e == ServerError("26000") || e == Undecodable(true) || e == CallbackFailed(true) }

  // Spelt out: SQLSTATE 26000 from the server, from a setter or from the callback.
  const STALE: set<ScanEnd> := {ServerError("26000"), Undecodable(true), CallbackFailed(true)}

  lemma StaleEnds()
    ensures forall e :: Stale(e) <==> e in STALE
  {
  }

  // One pass of its loop: the cached or a new statement, then an execution.
  method BatchedPass<R>(c: Client, size: nat, zero: R, fields: Plan -> Option<StructPlan<R>>, sql: string, args: seq<Arg>)
    returns (end: Option<ScanEnd>, fromCache: bool, ghost p: Option<Pass<R>>, ghost segments: seq<seq<Msg>>, ghost st: Statements.Prepared)
    requires size > 0
    modifies c.conn, c.stmts
    ensures fromCache <==> sql in old(c.stmts.byKey)
    ensures end.Some? <==> p.Some?
    ensures p.Some? ==> Passed(p.value, zero, size) && p.value.end == end.value && Uses(c, fields, st, p.value.start, p.value.build)
    ensures p.Some? ==> if fromCache then |segments| == 1 && st == old(c.stmts.byKey)[sql] else |segments| == 2 && c.Describes(st, segments[0])
    ensures end.Some? && (end.value.Done? || Stale(end.value)) ==>
              Standing(old(c.conn.input), segments, c.conn.requests - old(c.conn.requests), c.conn.input, !end.value.Undecodable?)
  {
    hide *;
    end, p, segments := None, None, [];
    ghost var inp, base := c.conn.input, c.conn.requests;
    ghost var read, a;
    var r, prepared;
    r, prepared, fromCache, read, a := c.Statement(sql);
    st := prepared;
    SettledIs(r);
    if r.Failed? { return; }
    segments := StatementSync(inp, fromCache, read, c.conn.input);
    ghost var n := c.conn.requests - base;
    var sp := fields(prepared.plan);
    if sp.None? { return; }
    if Wire.UnsupportedArg in args {
      c.conn.unfinished := true;
      return;
    }
    var sent := c.conn.Flush();
    if !sent { return; }
    ghost var batches, msgs;
    var build := Builder(c.Compiler(prepared.formats), fields);
    UsesIs(c, fields, st, sp.value, build);
    var e;
    e, batches, msgs := BindExecuteScanBatched(c.conn, size, zero, sp.value, build);
    EndsPassed(Pass(sp.value, build, msgs, batches, e), zero, size, c.conn.input);
    end, p := Some(e), Some(Pass(sp.value, build, msgs, batches, e));
    StandsAfter(inp, segments, n, msgs, c.conn.input, e, zero, sp.value, build);
    segments := segments + [msgs];
  }

  // The struct plan comes from the statement's own plan, and from any new description in its formats.
  ghost predicate Uses<R>(c: Client, fields: Plan -> Option<StructPlan<R>>, st: Statements.Prepared, start: StructPlan<R>, build: PlanBuilder<R>)
  {
    && fields(st.plan) == Some(start)
    && forall body :: build(body) ==
                      var plan := CompilePlan(c.pick, st.formats, body);
                      if plan.None? then None else fields(plan.value)
  }

  lemma UsesIs<R>(c: Client, fields: Plan -> Option<StructPlan<R>>, st: Statements.Prepared, start: StructPlan<R>, build: PlanBuilder<R>)
    requires fields(st.plan) == Some(start) && build == Builder(c.Compiler(st.formats), fields)
    ensures Uses(c, fields, st, start, build)
  {
    hide CompilePlan;
  }

  // Everything sent has its part of the stream, and they are whole responses iff full.
  ghost predicate Standing(before: seq<Msg>, segments: seq<seq<Msg>>, sent: int, rest: seq<Msg>, full: bool)
  {
    Stands(before, segments, sent, rest) && (AllResponses(segments) <==> full)
  }

  lemma StandsAfter<R>(inp: seq<Msg>, segments: seq<seq<Msg>>, n: int, msgs: seq<Msg>, rest: seq<Msg>, e: ScanEnd,
                       zero: R, start: StructPlan<R>, build: PlanBuilder<R>)
    requires InSync(inp, segments, n, msgs + rest) && Ends(e, zero, start, build, msgs, rest)
    ensures e.Done? || Stale(e) ==> Standing(inp, segments + [msgs], n + 1, rest, !e.Undecodable?)
  {
    hide Response, NoReady, Decoded, ErrorIn, RefusedRow, Stands, AllResponses, InSync;
    StandsIs(inp, segments, n, msgs + rest);
    if e.Done? || Stale(e) {
      StandsMore(inp, segments, n, msgs, rest);
      NotBoth(msgs);
    }
  }

  // The same for the plain scan.
  method PlainPass<R>(c: Client, rowsHint: int, zero: R, fields: Plan -> Option<StructPlan<R>>, sql: string, args: seq<Arg>)
    returns (end: Option<ScanEnd>, result: seq<R>, fromCache: bool, ghost start: StructPlan<R>, ghost build: PlanBuilder<R>, ghost segments: seq<seq<Msg>>, ghost st: Statements.Prepared)
    modifies c.conn, c.stmts
    ensures fromCache <==> sql in old(c.stmts.byKey)
    ensures end.Some? ==> Uses(c, fields, st, start, build)
    ensures end.Some? ==> if fromCache then |segments| == 1 && st == old(c.stmts.byKey)[sql] else |segments| == 2 && c.Describes(st, segments[0])
    ensures end.Some? && (end.value.Done? || Stale(end.value)) ==>
              && segments != [] && Standing(old(c.conn.input), segments, c.conn.requests - old(c.conn.requests), c.conn.input, !end.value.Undecodable?)
              && (end.value.Done? ==> Decoded(zero, start, build, segments[|segments| - 1]) == Some(result))
  {
    hide *;
    build := _ => None;
    end, result, start, segments := None, [], [], [];
    ghost var inp, base := c.conn.input, c.conn.requests;
    ghost var read, a;
    var r, prepared;
    r, prepared, fromCache, read, a := c.Statement(sql);
    st := prepared;
    SettledIs(r);
    if r.Failed? { return; }
    segments := StatementSync(inp, fromCache, read, c.conn.input);
    ghost var n := c.conn.requests - base;
    var sp := fields(prepared.plan);
    if sp.None? { return; }
    if Wire.UnsupportedArg in args {
      c.conn.unfinished := true;
      return;
    }
    var sent := c.conn.Flush();
    if !sent { return; }
    ghost var msgs;
    var b := Builder(c.Compiler(prepared.formats), fields);
    UsesIs(c, fields, st, sp.value, b);
    var e;
    e, result, msgs := BindExecuteScan(c.conn, rowsHint, zero, sp.value, b);
    end, start, build := Some(e), sp.value, b;
    StandsAfter(inp, segments, n, msgs, c.conn.input, e, zero, sp.value, b);
    segments := segments + [msgs];
  }

  /** ScanStruct: success means the rows of what the last execution took for its response, all of
      them; the stream is in sync unless the execution before it ended at a refused row. */
  method ScanStruct<R>(c: Client, rowsHint: int, zero: R, fields: Plan -> Option<StructPlan<R>>, sql: string, args: seq<Arg>)
    returns (r: Option<seq<R>>, ghost first: Option<ScanEnd>, ghost start: StructPlan<R>, ghost build: PlanBuilder<R>, ghost segments: seq<seq<Msg>>,
             ghost st: Statements.Prepared)
    modifies c.conn, c.stmts
    ensures first.Some? ==> sql in old(c.stmts.byKey) && first.value in STALE  // retried
    ensures r.Some? ==> segments != [] && Decoded(zero, start, build, segments[|segments| - 1]) == r && Uses(c, fields, st, start, build)
    ensures r.Some? ==> if |segments| == 1 then sql in old(c.stmts.byKey) && st == old(c.stmts.byKey)[sql] else c.Describes(st, segments[|segments| - 2])
    ensures r.Some? ==> Stands(old(c.conn.input), segments, c.conn.requests - old(c.conn.requests), c.conn.input)
    ensures r.Some? ==> (InSync(old(c.conn.input), segments, c.conn.requests - old(c.conn.requests), c.conn.input) <==>
                         !(first.Some? && first.value.Undecodable?))
  {
    hide *;
    build := _ => None;
    r, first, start, segments := None, None, [], [];
    ghost var inp := c.conn.input;
    ghost var base: int := c.conn.requests;
    StaleEnds();
    var attempt := 0;
    while attempt < 2
      invariant 0 <= attempt <= 1 && first.Some? == (attempt == 1) && r.None?
      invariant attempt == 0 ==> c.stmts.byKey == old(c.stmts.byKey) && c.conn.input == inp && c.conn.requests == base && segments == []
      invariant attempt == 1 ==> sql in old(c.stmts.byKey) && sql !in c.stmts.byKey && Stale(first.value)
      invariant |segments| == attempt
      invariant attempt == 1 ==> Standing(inp, segments, c.conn.requests - base, c.conn.input, !first.value.Undecodable?)
    {
      ghost var mid := c.conn.input;
      ghost var midSent: int := c.conn.requests;
      ghost var more;
      var end, result, fromCache;
      end, result, fromCache, start, build, more, st := PlainPass(c, rowsHint, zero, fields, sql, args);
      if end.None? { return; }
      if end.value.Done? {
        StandingOn(inp, segments, midSent - base, mid, more, c.conn.requests - midSent, c.conn.input, !(first.Some? && first.value.Undecodable?), attempt);
        LastTwo(segments, more);
        segments := segments + more;
        r := Some(result);
        return;
      }
      if !(attempt == 0 && fromCache && Stale(end.value)) { return; }
      c.stmts.Invalidate(sql);
      segments, first := more, end;
      attempt := attempt + 1;
    }
    assert false;
  }

  /** ScanStructBatched: success means the last execution handed out every row of what it took for
      its response; it was preceded at most by one execution that looked stale. The stream is in
      sync unless that one ended at a refused row, with the rest of its response unread. */
  method ScanStructBatched<R>(c: Client, size: int, zero: R, fields: Plan -> Option<StructPlan<R>>, sql: string, args: seq<Arg>)
    returns (ok: bool, ghost passes: seq<Pass<R>>, ghost retried: bool, ghost segments: seq<seq<Msg>>, ghost st: Statements.Prepared)
    modifies c.conn, c.stmts
    ensures size <= 0 ==> !ok && passes == []
    ensures |passes| <= 2 && (ok ==> passes != [] && passes[|passes| - 1].end.Done?)
    ensures size > 0 ==> forall i :: 0 <= i < |passes| ==> Passed(passes[i], zero, size)
    ensures ok ==> Uses(c, fields, st, passes[|passes| - 1].start, passes[|passes| - 1].build) && segments != []
    ensures ok ==> if |segments| == 1 then sql in old(c.stmts.byKey) && st == old(c.stmts.byKey)[sql] else c.Describes(st, segments[|segments| - 2])
    ensures retried <==> sql in old(c.stmts.byKey) && passes != [] && passes[0].end in STALE
    ensures |passes| == 2 ==> retried
    ensures ok ==> Stands(old(c.conn.input), segments, c.conn.requests - old(c.conn.requests), c.conn.input)
    ensures ok ==> (InSync(old(c.conn.input), segments, c.conn.requests - old(c.conn.requests), c.conn.input) <==>
                    !(retried && passes[0].end.Undecodable?))
  {
    hide *;
    passes, retried, segments := [], false, [];
    st, ok := Statements.Prepared("", [], []), false;
    if size <= 0 { return; }
    ghost var inp := c.conn.input;
    ghost var base: int := c.conn.requests;
    DoneIsNotStale();
    StaleEnds();
    var attempt := 0;
    while attempt < 2
      invariant 0 <= attempt <= 1 && |passes| == attempt && retried == (attempt == 1)
      invariant attempt == 0 ==> c.stmts.byKey == old(c.stmts.byKey) && c.conn.input == inp && c.conn.requests == base && segments == []
      invariant !ok && |segments| == attempt
      invariant attempt == 1 ==> sql in old(c.stmts.byKey) && sql !in c.stmts.byKey && Passed(passes[0], zero, size) && Stale(passes[0].end)
      invariant attempt == 1 ==> Standing(inp, segments, c.conn.requests - base, c.conn.input, !passes[0].end.Undecodable?)
    {
      ghost var mid := c.conn.input;
      ghost var midSent: int := c.conn.requests;
      ghost var p, more;
      var end, fromCache;
      end, fromCache, p, more, st := BatchedPass(c, size, zero, fields, sql, args);
      if end.None? { return; }
      passes := passes + [p.value];
      if end.value.Done? {
        StandingOn(inp, segments, midSent - base, mid, more, c.conn.requests - midSent, c.conn.input,
                   !(retried && passes[0].end.Undecodable?), attempt);
        LastTwo(segments, more);
        segments, ok := segments + more, true;
        return;
      }
      if !(attempt == 0 && fromCache && Stale(end.value)) { return; }
      c.stmts.Invalidate(sql);
      segments, retried := more, true;
      attempt := attempt + 1;
    }
    assert false;
  }

  lemma LastTwo(a: seq<seq<Msg>>, b: seq<seq<Msg>>)
    requires b != []
    ensures (a + b)[|a + b| - 1] == b[|b| - 1] && (|b| == 2 ==> (a + b)[|a + b| - 2] == b[0])
  {
  }

  lemma DoneIsNotStale()
    ensures !Stale(Done)
  {
  }

  lemma StandingOn(inp: seq<Msg>, segments: seq<seq<Msg>>, sent: int, mid: seq<Msg>, more: seq<seq<Msg>>, moreSent: int, rest: seq<Msg>, full: bool, attempt: nat)
    requires if attempt == 0 then segments == [] && mid == inp && sent == 0 && full else Standing(inp, segments, sent, mid, full)
    requires Standing(mid, more, moreSent, rest, true)
    ensures Stands(inp, segments + more, sent + moreSent, rest)
    ensures InSync(inp, segments + more, sent + moreSent, rest) <==> full
  {
    hide Stands, InSync, AllResponses;
    StandsIs(inp, segments + more, sent + moreSent, rest);
    if attempt == 0 {
      assert [] + more == more;
    } else {
      StandsConcat(inp, segments, sent, mid, more, moreSent, rest);
    }
  }

  function Builder<R>(compile: Compile, fields: Plan -> Option<StructPlan<R>>): PlanBuilder<R>
  {
    body => if compile(body).None? then None else fields(compile(body).value)
  }

  lemma EndsPassed<R>(p: Pass<R>, zero: R, size: nat, rest: seq<Msg>)
    requires Ends(p.end, zero, p.start, p.build, p.msgs, rest)
    requires Handed(p.end, RowsBy(p.end, zero, p.start, p.build, p.msgs), p.batches, size)
    ensures Passed(p, zero, size)
  {
    hide Decoded, Handed, Response, NoReady, ErrorIn;
  }

  // A batch has been handed out exactly when a whole one came before the error.
  lemma ErrorAfterBatch<R>(rows: Option<seq<R>>, batches: seq<seq<R>>, size: nat)
    requires FullOnes(rows, batches, size) && size > 0
    ensures batches == [] <==> |rows.value| < size
  {
    if batches != [] {
      var n := |batches| - 1;
      assert |batches[n]| == size;
      assert |Flatten(batches)| >= size;
    } else {
      assert Flatten(batches) == [];
    }
  }

  /** Whenever the scan is retried, it delivers no row twice if and only if the stale-name error
      was not the callback's and came before the first full batch: a callback that answers with
      that error has been handed rows already. */
  lemma RetryDeliversOnceIff<R>(p: Pass<R>, zero: R, size: nat)
    requires Passed(p, zero, size) && Stale(p.end) && size > 0
    ensures var rows := RowsBy(p.end, zero, p.start, p.build, p.msgs);
            p.batches == [] <==> !p.end.CallbackFailed? && rows.Some? && |rows.value| < size
  {
    hide Decoded, RowsBy;
    if !p.end.CallbackFailed? { ErrorAfterBatch(RowsBy(p.end, zero, p.start, p.build, p.msgs), p.batches, size); }
  }

  // A row of no columns.
  const NO_COLUMNS: Msg := DataRow([0, 0])

  const STALE_AFTER_ROW: seq<Msg> := [BindComplete, NO_COLUMNS, ErrorResponse("26000"), ReadyForQuery]

  const NO_FIELDS: PlanBuilder<int> := _ => None

  lemma StaleStreamDecodes()
    ensures Decoded(0, [], NO_FIELDS, STALE_AFTER_ROW) == Some([0])
  {
    var a, b, c := [BindComplete], [BindComplete, NO_COLUMNS], [BindComplete, NO_COLUMNS, ErrorResponse("26000")];
    assert STALE_AFTER_ROW == c + [ReadyForQuery] && c == b + [ErrorResponse("26000")] && b == a + [NO_COLUMNS] && a == [] + [BindComplete];
    var none: StructPlan<int> := [];
    assert Filled(0, NO_COLUMNS.body, none) == Kept(0) by { assert Readable(NO_COLUMNS.body[2..], 0) == []; }
    hide Filled;
    DecodedSnoc(0, none, NO_FIELDS, [], BindComplete);
    assert Decoded(0, none, NO_FIELDS, a) == Some([]) && SpAfter(none, NO_FIELDS, a) == none;
    DecodedSnoc(0, none, NO_FIELDS, a, NO_COLUMNS);
    assert Decoded(0, none, NO_FIELDS, b) == Some([] + [0]);
    assert [] + [0] == [0];
    DecodedSnoc(0, none, NO_FIELDS, b, ErrorResponse("26000"));
    DecodedSnoc(0, none, NO_FIELDS, c, ReadyForQuery);
  }

  lemma StaleStreamFails()
    ensures Response(STALE_AFTER_ROW) && ErrorIn(STALE_AFTER_ROW) == Some("26000")
  {
    var b, c := [BindComplete, NO_COLUMNS], [BindComplete, NO_COLUMNS, ErrorResponse("26000")];
    assert STALE_AFTER_ROW == c + [ReadyForQuery] && c == b + [ErrorResponse("26000")];
    Snoc(None, _ => None, b, ErrorResponse("26000"));
    Snoc(None, _ => None, c, ReadyForQuery);
  }

  /** And it can come later: with batches of one row, a scan of this response has handed a row
      out when the retry starts over. */
  lemma StaleAfterRowRepeats()
    ensures var p := Pass([], NO_FIELDS, STALE_AFTER_ROW, [[0]], ServerError("26000"));
            Passed(p, 0, 1) && Stale(p.end) && p.batches != []
  {
    StaleStreamDecodes();
    StaleStreamFails();
    hide Decoded, Response, ErrorIn;
    assert Flatten([[0]]) == [0] by { FlattenSnoc([], [0]); assert [] + [[0]] == [[0]]; }
  }

  const ONE_ROW: seq<Msg> := [BindComplete, NO_COLUMNS, ReadyForQuery]

  lemma OneRowDecodes()
    ensures Decoded(0, [], NO_FIELDS, ONE_ROW) == Some([0])
  {
    var a, b := [BindComplete], [BindComplete, NO_COLUMNS];
    assert ONE_ROW == b + [ReadyForQuery] && b == a + [NO_COLUMNS] && a == [] + [BindComplete];
    var none: StructPlan<int> := [];
    assert Filled(0, NO_COLUMNS.body, none) == Kept(0) by { assert Readable(NO_COLUMNS.body[2..], 0) == []; }
    hide Filled;
    DecodedSnoc(0, none, NO_FIELDS, [], BindComplete);
    assert Decoded(0, none, NO_FIELDS, a) == Some([]) && SpAfter(none, NO_FIELDS, a) == none;
    DecodedSnoc(0, none, NO_FIELDS, a, NO_COLUMNS);
    assert Decoded(0, none, NO_FIELDS, b) == Some([] + [0]);
    assert [] + [0] == [0];
    DecodedSnoc(0, none, NO_FIELDS, b, ReadyForQuery);
  }

  /** The callback's own error does it with less than a batch: one row, batches of ten, and the
      retry hands it out again. */
  lemma StaleCallbackRepeats()
    ensures var p := Pass([], NO_FIELDS, ONE_ROW, [[0]], CallbackFailed(true));
            && Passed(p, 0, 10) && Stale(p.end) && p.batches != []
            && Decoded(0, p.start, p.build, p.msgs) == Some([0])
  {
    OneRowDecodes();
    assert Response(ONE_ROW);
    hide Decoded, Response;
  }

  // One NULL.
  const NULL_ROW: Msg := DataRow([0, 1, 255, 255, 255, 255])

  const REFUSING: StructPlan<int> := [Set((_, _) => Bad(true))]

  /** A Scanner's own 26000 is retried in the middle of a response: no row is handed out twice, but
      what follows this row is still unread. */
  lemma StaleSetterStopsInside()
    ensures var p := Pass(REFUSING, NO_FIELDS, [BindComplete, NULL_ROW], [], Undecodable(true));
            Passed(p, 0, 1) && Stale(p.end) && NoReady(p.msgs) && !Response(p.msgs)
  {
    assert I32(NULL_ROW.body[2..]) == -1;
    assert FirstCell(NULL_ROW.body[2..]) == Ok((None, NULL_ROW.body[2..][4..]));
    assert Readable(NULL_ROW.body[2..], 1) == [None];
    var none: seq<Cell> := [];
    PutSnoc(0, none, None, REFUSING);
    assert none + [None] == [None];
    assert Filled(0, NULL_ROW.body, REFUSING) == Bad(true);
    hide Filled, Readable, FirstCell;
    DecodedSnoc(0, REFUSING, NO_FIELDS, [], BindComplete);
    DecodedSnoc(0, REFUSING, NO_FIELDS, [BindComplete], NULL_ROW);
    assert [] + [BindComplete] == [BindComplete] && [BindComplete] + [NULL_ROW] == [BindComplete, NULL_ROW];
    assert [BindComplete, NULL_ROW][..1] == [BindComplete];
  }
}
