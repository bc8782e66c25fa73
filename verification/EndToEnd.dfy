/** From the server's bytes to the reader of the output: a query for a table of strings and NULLs
    succeeds, and what it delivers reads back as the names and cells that the server sent. */
module EndToEnd {
  import opened Bytes
  import opened Rows
  import RowReaders
  import opened Headers
  import opened Rendering
  import opened Output
  import opened Statements
  import opened Executions
  import opened Retries
  import opened Engine
  import opened Guarantees
  import opened Documents
  import opened Success
  import Wire

  // ---- Formats ----

  // The format of column i that a Bind with these result codes asks for: text without codes, one
  // code for all columns, or one each.
  function FormatAsked(codes: seq<int>, i: nat): int
    requires |codes| <= 1 || i < |codes|
  {
    if codes == [] then 0 else if |codes| == 1 then codes[0] else codes[i]
  }

  /** The columns of a prepared statement are the server's, in order, each with the encoder for its
      type in the very format that the server reads from the Bind: binary if the driver has a
      decoder or the caller asked for it. */
  lemma ColumnsMatch(c: Client, fs: seq<FieldDesc>, name: bytes, args: seq<Arg>)
    requires SendableFields(fs) && 0 !in name && Wire.Sendable(args) && |args| < TWO_16
    ensures var formats := c.ResultFormats(fs);
            var bind := Wire.ReadBind(Wire.BindBody(name, args, formats));
            var plan := CompilePlan(c.pick, formats, DescriptionOf(fs));
            && bind.Some? && plan.Some? && |plan.value| == |fs|
            && forall i :: 0 <= i < |fs| ==>
                 && (|bind.value.resultCodes| <= 1 || i < |bind.value.resultCodes|)
                 && FormatAsked(bind.value.resultCodes, i) == (if c.hasBinary(fs[i].typeOid) || fs[i].typeOid in c.binaryOids then 1 else 0)
                 && plan.value[i] == Column(fs[i].name, c.pick(fs[i].typeOid, FormatAsked(bind.value.resultCodes, i)))
  {
    var formats := c.ResultFormats(fs);
    PlanOfDescription(c.pick, formats, fs);
    Wire.BindReadsBack(name, args, formats);
    hide CompilePlan, DescriptionOf, Wire.ReadBind, Wire.BindBody;
  }

  // ---- The server's answer ----

  // A response without an error or a description that carries the table.
  ghost predicate Carries(extended: bool, answer: seq<Msg>, table: Table)
  {
    && Response(answer) && DataRows(answer) == WireTable(table)
    && forall i :: 0 <= i < |answer| - 1 ==>
         || answer[i].DataRow? || answer[i].CommandComplete? || answer[i].EmptyQueryResponse? || answer[i].NoticeResponse? || answer[i].ParameterStatus?
         || (extended && (answer[i].BindComplete? || answer[i].PortalSuspended? || answer[i].CloseComplete?))
  }

  // Without a description every row has the plan of the start.
  lemma {:induction false} RowsOfBodies(start: Option<Plan>, compile: Compile, msgs: seq<Msg>)
    requires forall i :: 0 <= i < |msgs| ==> !msgs[i].RowDescription?
    ensures PlanAfter(start, compile, msgs) == start
    ensures RowsIn(start, compile, msgs) == seq(|DataRows(msgs)|, i requires 0 <= i < |DataRows(msgs)| => PlannedRow(start, DataRows(msgs)[i]))
    decreases |msgs|
  {
    if msgs != [] { RowsOfBodies(start, compile, msgs[..|msgs| - 1]); }
  }

  lemma CarriedRows(extended: bool, plan: Plan, compile: Compile, answer: seq<Msg>, table: Table)
    requires Carries(extended, answer, table)
    ensures PlanAfter(Some(plan), compile, answer) == Some(plan) && RowsIn(Some(plan), compile, answer) == RowsOfTable(plan, table)
  {
    assert answer[|answer| - 1].ReadyForQuery?;
    RowsOfBodies(Some(plan), compile, answer);
    hide DataRows, RowsIn, PlanAfter, Response, Put16, WireCells;
  }

  // The same after a description.
  lemma {:induction false} AfterDescription(compile: Compile, body: bytes, msgs: seq<Msg>)
    requires compile(body).Some?
    ensures PlanAfter(None, compile, [RowDescription(body)] + msgs) == PlanAfter(compile(body), compile, msgs)
    ensures RowsIn(None, compile, [RowDescription(body)] + msgs) == RowsIn(compile(body), compile, msgs)
    decreases |msgs|
  {
    var all := [RowDescription(body)] + msgs;
    if msgs == [] {
      assert all == [RowDescription(body)] && all[..0] == [];
    } else {
      var n := |msgs| - 1;
      assert all[..n + 1] == [RowDescription(body)] + msgs[..n] && all[n + 1] == msgs[n];
      AfterDescription(compile, body, msgs[..n]);
    }
  }

  // The text of every cell is its string, or null.
  ghost predicate StringColumns(pick: Picker, formats: seq<int>, fs: seq<FieldDesc>)
  {
    forall i, c: Cell :: 0 <= i < |fs| ==>
      pick(fs[i].typeOid, if |formats| == 1 then formats[0] else if |formats| == |fs| then formats[i] else 0)(c) == StringText(c)
  }

  function FieldNames(fs: seq<FieldDesc>): seq<bytes> { seq(|fs|, i requires 0 <= i < |fs| => fs[i].name) }

  predicate TableFor(fs: seq<FieldDesc>, table: Table)
  {
    SendableFields(fs) && forall i :: 0 <= i < |table| ==> |table[i]| == |fs| && Sendable(table[i])
  }

  // The result formats of the statement that is executed.
  ghost function FormatsOf(c: Client, simple: bool, entry: Option<Prepared>, fs: seq<FieldDesc>): seq<int>
  {
    if simple then [] else if entry.Some? then entry.value.formats else c.ResultFormats(fs)
  }

  // The server describes the fields where the protocol asks for it, and then sends the table. A
  // cached statement was prepared from the same description.
  ghost predicate Serves(c: Client, simple: bool, entry: Option<Prepared>, fs: seq<FieldDesc>, table: Table, prelude: seq<Msg>, response: seq<Msg>)
  {
    && Leads(simple, entry, prelude)
    && if simple then response != [] && response[0] == RowDescription(DescriptionOf(fs)) && Carries(false, response[1..], table)
       else
         && Carries(true, response, table)
         && if entry.Some? then CompilePlan(c.pick, entry.value.formats, DescriptionOf(fs)) == Some(entry.value.plan)
            else LastDescription(prelude) == Some(DescriptionOf(fs))
  }

  // What the execution makes of it.
  lemma ServedTrace(c: Client, simple: bool, entry: Option<Prepared>, fs: seq<FieldDesc>, table: Table, prelude: seq<Msg>, response: seq<Msg>)
    returns (plan: Plan)
    requires Serves(c, simple, entry, fs, table, prelude, response) && SendableFields(fs)
    ensures CompilePlan(c.pick, FormatsOf(c, simple, entry, fs), DescriptionOf(fs)) == Some(plan)
    ensures var t := TraceOf(c, simple, entry, prelude, response); PlanOf(t) == Some(plan) && RowsOf(t) == RowsOfTable(plan, table)
  {
    var body := DescriptionOf(fs);
    PlanOfDescription(c.pick, FormatsOf(c, simple, entry, fs), fs);
    assert Describe(body) == Ok(fs) by { DescribeReadsBack(fs, []); }
    plan := CompilePlan(c.pick, FormatsOf(c, simple, entry, fs), body).value;
    ServedStart(c, simple, entry, fs, table, prelude, response, plan);
    var t := TraceOf(c, simple, entry, prelude, response);
    hide *;
    if simple {
      AfterDescription(t.compile, body, response[1..]);
      assert response == [RowDescription(body)] + response[1..];
      CarriedRows(false, plan, t.compile, response[1..], table);
    } else {
      CarriedRows(true, plan, t.compile, response, table);
    }
    TraceIs(t);
  }

  lemma TraceIs(t: Trace)
    ensures PlanOf(t) == PlanAfter(t.start, t.compile, t.msgs) && RowsOf(t) == RowsIn(t.start, t.compile, t.msgs)
  {
  }

  // Where the execution starts from.
  lemma ServedStart(c: Client, simple: bool, entry: Option<Prepared>, fs: seq<FieldDesc>, table: Table, prelude: seq<Msg>, response: seq<Msg>, plan: Plan)
    requires Serves(c, simple, entry, fs, table, prelude, response) && Describe(DescriptionOf(fs)) == Ok(fs)
    requires CompilePlan(c.pick, FormatsOf(c, simple, entry, fs), DescriptionOf(fs)) == Some(plan)
    ensures Leads(simple, entry, prelude)
    ensures var t := TraceOf(c, simple, entry, prelude, response);
            && t.msgs == response
            && if simple then
                 && t.start == None && t.compile(DescriptionOf(fs)) == Some(plan)
                 && response != [] && response[0] == RowDescription(DescriptionOf(fs)) && Carries(false, response[1..], table)
               else t.start == Some(plan) && Carries(true, response, table)
  {
    hide CompilePlan, Describe, DescriptionOf, Carries;
  }

  ghost predicate UnderCapsWith(cfg: Config, mode: Mode, plan: Plan, table: Table)
    requires TableOf(plan, table)
  {
    TablePrintable(mode, plan, table);
    && (cfg.maxRows > 0 ==> |table| < cfg.maxRows)
    && (cfg.maxBytes > 0 && table != [] ==> |Body(mode, RowsOfTable(plan, table))| < cfg.maxBytes)
  }

  lemma PlanFits(pick: Picker, formats: seq<int>, fs: seq<FieldDesc>, table: Table, plan: Plan)
    requires TableFor(fs, table) && StringColumns(pick, formats, fs) && CompilePlan(pick, formats, DescriptionOf(fs)) == Some(plan)
    ensures TableOf(plan, table) && RowReaders.TextPlan(plan) && NamesOf(plan) == FieldNames(fs)
  {
    PlanOfDescription(pick, formats, fs);
    TableForIs(fs, table);
    hide CompilePlan, DescriptionOf, Sendable, SendableFields, StringText;
    forall i, c: Cell | 0 <= i < |plan| ensures plan[i].encoder(c) == StringText(c) {
      StringColumn(pick, formats, fs, i, c);
    }
    hide StringColumns;
    assert NamesOf(plan) == FieldNames(fs);
  }

  lemma StringColumn(pick: Picker, formats: seq<int>, fs: seq<FieldDesc>, i: nat, c: Cell)
    requires StringColumns(pick, formats, fs) && i < |fs|
    ensures pick(fs[i].typeOid, if |formats| == 1 then formats[0] else if |formats| == |fs| then formats[i] else 0)(c) == StringText(c)
  {
    hide StringText;
  }

  lemma RoutineAnswer(extended: bool, compile: Compile, answer: seq<Msg>, table: Table)
    requires Carries(extended, answer, table)
    ensures Response(answer) && forall i :: 0 <= i < |answer| - 1 ==> Routine(extended, compile, answer[i])
  {
    hide DataRows, WireTable, Response;
  }

  lemma ResponseAfter(m: Msg, answer: seq<Msg>)
    requires Response(answer) && !m.ReadyForQuery?
    ensures Response([m] + answer)
  {
    assert ([m] + answer)[..|answer|] == [m] + answer[..|answer| - 1];
  }

  // A stream that serves the table is healthy.
  lemma ServesHealthy(c: Client, mode: Mode, simple: bool, entry: Option<Prepared>, fs: seq<FieldDesc>, table: Table, prelude: seq<Msg>, response: seq<Msg>, plan: Plan)
    requires Serves(c, simple, entry, fs, table, prelude, response) && TableOf(plan, table) && UnderCapsWith(c.cfg, mode, plan, table)
    requires CompilePlan(c.pick, FormatsOf(c, simple, entry, fs), DescriptionOf(fs)) == Some(plan)
    requires var t := TraceOf(c, simple, entry, prelude, response); RowsOf(t) == RowsOfTable(plan, table)
    ensures Healthy(c, mode, simple, entry, prelude, response)
  {
    TablePrintable(mode, plan, table);
    TableSize(plan, table);
    var t := TraceOf(c, simple, entry, prelude, response);
    hide RowsIn, RowsOfTable, AllPrintable, Body, Carries, Response, TableOf, CompilePlan, Routine;
    if simple {
      RoutineAnswer(false, t.compile, response[1..], table);
      ResponseAfter(response[0], response[1..]);
      assert response == [response[0]] + response[1..];
      RoutineDescription(t.compile, DescriptionOf(fs));
    } else {
      RoutineAnswer(true, t.compile, response, table);
    }
  }

  lemma RoutineDescription(compile: Compile, body: bytes)
    requires compile(body).Some?
    ensures Routine(false, compile, RowDescription(body))
  {
  }

  /** A call for a table of strings and NULLs, in any mode, over the simple protocol, with a cached
      or with a new statement: it succeeds, reads exactly its answers, and a reader of its output
      finds the names and cells that the server sent. */
  lemma TableDelivered(c: Client, r: Outcome, mode: Mode, args: seq<Arg>, entry: Option<Prepared>, log: Log, out: OutWriter, from: Origin,
                       sent: int, rest: seq<Msg>, fs: seq<FieldDesc>, table: Table, prelude: seq<Msg>, response: seq<Msg>, more: seq<Msg>, plan: Plan)
    requires Told(c, r, mode, args, entry, log, out, from, sent, rest) && Willing(out.sink.script)
    requires c.conn.reliable && Wire.UnsupportedArg !in args
    requires TableFor(fs, table) && StringColumns(c.pick, FormatsOf(c, c.Simple(args), entry, fs), fs)
    requires Serves(c, c.Simple(args), entry, fs, table, prelude, response) && from.input == prelude + (response + more)
    requires CompilePlan(c.pick, FormatsOf(c, c.Simple(args), entry, fs), DescriptionOf(fs)) == Some(plan)
    requires TableOf(plan, table) ==> UnderCapsWith(c.cfg, mode, plan, table)
    ensures r.Fine? && rest == more && from.torn <= out.sink.bytes
    ensures ReadDocument(mode, Gained(from, out)) == Some(DocumentOf(mode, FieldNames(fs), table))
  {
    hide *;
    TableForIs(fs, table);
    PlanFits(c.pick, FormatsOf(c, c.Simple(args), entry, fs), fs, table, plan);
    var plan' := ServedTrace(c, c.Simple(args), entry, fs, table, prelude, response);
    ServesLeads(c, c.Simple(args), entry, fs, table, prelude, response);
    ServesHealthy(c, mode, c.Simple(args), entry, fs, table, prelude, response, plan);
    CallSucceeds(c, r, mode, args, entry, log, out, from, sent, rest, prelude, response, more);
    DocumentReadsBack(mode, plan, table);
    RenderedHere(mode, log.t, plan, table);
  }

  lemma TableForIs(fs: seq<FieldDesc>, table: Table)
    requires TableFor(fs, table)
    ensures SendableFields(fs) && |FieldNames(fs)| == |fs| < 0x8000 && forall i :: 0 <= i < |table| ==> |table[i]| == |fs| && Sendable(table[i])
  {
  }

  lemma ServesLeads(c: Client, simple: bool, entry: Option<Prepared>, fs: seq<FieldDesc>, table: Table, prelude: seq<Msg>, response: seq<Msg>)
    requires Serves(c, simple, entry, fs, table, prelude, response)
    ensures Leads(simple, entry, prelude)
  {
  }

  /** That call. */
  method QueryTable(c: Client, out: OutWriter, mode: Mode, sql: string, args: seq<Arg>, ghost fs: seq<FieldDesc>, ghost table: Table,
                    ghost prelude: seq<Msg>, ghost response: seq<Msg>, ghost more: seq<Msg>, ghost plan: Plan)
    returns (r: Outcome)
    requires out.Fresh() && out.sink.torn == [] && Willing(out.sink.script) && c.conn.reliable && Wire.UnsupportedArg !in args
    requires TableFor(fs, table) && StringColumns(c.pick, FormatsOf(c, c.Simple(args), Lookup(c.stmts.byKey, sql), fs), fs)
    requires Serves(c, c.Simple(args), Lookup(c.stmts.byKey, sql), fs, table, prelude, response) && c.conn.input == prelude + (response + more)
    requires CompilePlan(c.pick, FormatsOf(c, c.Simple(args), Lookup(c.stmts.byKey, sql), fs), DescriptionOf(fs)) == Some(plan)
    requires TableOf(plan, table) ==> UnderCapsWith(c.cfg, mode, plan, table)
    modifies c.conn, c.stmts, out, out.sink
    ensures r.Fine? && c.conn.input == more
    ensures ReadDocument(mode, out.sink.bytes + out.buf) == Some(DocumentOf(mode, FieldNames(fs), table))
  {
    hide *;
    ghost var entry, from, base := Lookup(c.stmts.byKey, sql), Origin(c.conn.input, [], out.sink.refused), c.conn.requests;
    LookupIs(c.stmts.byKey, sql);
    TableForIs(fs, table);
    ghost var log, abandoned, cancelled;
    r, log, abandoned, cancelled := c.RunQuery(out, mode, sql, true, args, true);
    Tell(c, r, mode, args, entry, log, out, from, c.conn.requests - base, c.conn.input);
    TableDelivered(c, r, mode, args, entry, log, out, from, c.conn.requests - base, c.conn.input, fs, table, prelude, response, more, plan);
    GainedAll(from, out);
  }

  lemma GainedAll(from: Origin, out: OutWriter)
    requires from.torn == []
    ensures Gained(from, out) == out.sink.bytes + out.buf
  {
  }

  lemma Tell(c: Client, r: Outcome, mode: Mode, args: seq<Arg>, entry: Option<Prepared>, log: Log, out: OutWriter, from: Origin, sent: int, rest: seq<Msg>)
    requires Concluded(r, !c.Simple(args), c.cfg, mode, log, out, from, sent, rest) && r != Failed(Rejected)
    requires (log.ran ==> c.StartsFrom(log, c.Simple(args))) && (log.retries == [] ==> c.Starts(r, log, c.Simple(args), entry, args))
    requires c.Simple(args) || entry.Some? ==> Led(log.segments, log.retries)
    ensures Told(c, r, mode, args, entry, log, out, from, sent, rest)
  {
    hide Concluded, Led;
  }

  /** After any successful call, whatever retries it took: if the plan in force was compiled from
      the description of fs and the last response carried the table, reading what its execution
      printed gives the names of the fields and the cells, and that is the whole output of the call
      when every retry was clean. */
  lemma DeliveredReadsBack(extended: bool, cfg: Config, mode: Mode, log: Log, out: OutWriter, from: Origin, sent: int, rest: seq<Msg>,
                           pick: Picker, formats: seq<int>, fs: seq<FieldDesc>, table: Table)
    requires Concluded(Fine, extended, cfg, mode, log, out, from, sent, rest)
    requires TableFor(fs, table) && StringColumns(pick, formats, fs)
    requires PlanOf(log.t) == CompilePlan(pick, formats, DescriptionOf(fs)) && PlanOf(log.t).Some?
    requires RowsOf(log.t) == RowsOfTable(PlanOf(log.t).value, table)
    ensures ReadDocument(mode, if out.streaming then out.sink.sent else out.buf) == Some(DocumentOf(mode, FieldNames(fs), table))
    ensures from.torn <= out.sink.bytes
    ensures AllClean(log.retries) ==> ReadDocument(mode, Gained(from, out)) == Some(DocumentOf(mode, FieldNames(fs), table))
  {
    hide *;
    TableForIs(fs, table);
    ExactlyOnce(extended, cfg, mode, log, out, from, sent, rest);
    var plan := PlanOf(log.t).value;
    PlanFits(pick, formats, fs, table, plan);
    DocumentReadsBack(mode, plan, table);
    RenderedHere(mode, log.t, plan, table);
  }
}
