/** One execution of a query in pg2json/query.go: the message loops of bindExecute and consumeText.
    The server is any finite message sequence (a cancelled or broken connection ends it early). */
module Executions {
  import opened Bytes
  import opened Rows
  import opened Headers
  import opened Rendering
  import opened Output

  /** The message side of a connection; on a reliable one, sending does not fail. */
  class Conn {
    const reliable: bool
    var input: seq<Msg>
    ghost var requests: nat  // batches sent
    var unfinished: bool     // the write buffer ends in a half-built message

    constructor (input: seq<Msg>, reliable: bool)
      ensures this.input == input && this.reliable == reliable && requests == 0 && !unfinished
    {
      this.input, this.reliable, requests, unfinished := input, reliable, 0, false;
    }

    method ReadMessage() returns (m: Option<Msg>)
      modifies this`input
      ensures old(input) == [] ==> m == None && input == []
      ensures old(input) != [] ==> m == Some(old(input)[0]) && input == old(input)[1..]
    {
      if input == [] { return None; }
      m := Some(input[0]);
      input := input[1..];
    }

    // Sends the batch in the write buffer and empties it; this may fail at any time.
    method Flush() returns (ok: bool)
      modifies this`requests, this`unfinished
      ensures requests == old(requests) + (if ok then 1 else 0) && !unfinished && (reliable ==> ok)
    {
      unfinished := false;
      ok := *;
      ok := ok || reliable;
      if ok { requests := requests + 1; }
    }
  }

  // Read on until ReadyForQuery or the end of the stream.
  method AbortOversize(conn: Conn, ghost seen: seq<Msg>) returns (ghost more: seq<Msg>)
    requires NoReady(seen)
    modifies conn`input
    ensures old(conn.input) == more + conn.input
    ensures Drained(seen + more, conn.input)
  {
    more := [];
    ghost var inp := conn.input;
    while true
      invariant inp == more + conn.input && NoReady(more)
      decreases |conn.input|
    {
      var m := conn.ReadMessage();
      if m.None? { return; }
      more := more + [m.value];
      if m.value.ReadyForQuery? {
        assert (seen + more)[..|seen + more| - 1] == seen + more[..|more| - 1];
        return;
      }
    }
  }

  // ---- One execution ----

  // What an execution has read, and the plan it started with.
  datatype Trace = Trace(start: Option<Plan>, compile: Compile, msgs: seq<Msg>)

  ghost function PlanOf(t: Trace): Option<Plan> { PlanAfter(t.start, t.compile, t.msgs) }

  ghost function RowsOf(t: Trace): seq<PlannedRow> { RowsIn(t.start, t.compile, t.msgs) }

  // The messages that bindExecute and consumeText know.
  predicate Accepts(extended: bool, m: Msg)
  {
    match m
    case DataRow(_) => true
    case CommandComplete => true
    case EmptyQueryResponse => true
    case RowDescription(_) => true
    case NoticeResponse => true
    case ParameterStatus => true
    case ErrorResponse(_) => true
    case ReadyForQuery => true
    case BindComplete => extended
    case PortalSuspended => extended
    case CloseComplete => extended
    case _ => false
  }

  // Every message read was one of those, and every description one that compiles.
  ghost predicate AllKnown(extended: bool, t: Trace)
  {
    forall i :: 0 <= i < |t.msgs| ==> Accepts(extended, t.msgs[i]) && (t.msgs[i].RowDescription? ==> t.compile(t.msgs[i].body).Some?)
  }

  lemma AllKnownMore(extended: bool, t: Trace, m: Msg)
    requires AllKnown(extended, t) && Accepts(extended, m) && (m.RowDescription? ==> t.compile(m.body).Some?)
    ensures AllKnown(extended, Read(t, m))
  {
    hide Accepts;
  }

  // Why an execution failed with e, after reading t and, for a cap, dropping drained.
  ghost predicate Cause(e: Error, extended: bool, cfg: Config, mode: Mode, t: Trace, drained: seq<Msg>, rows: seq<PlannedRow>,
                        out: OutWriter, rest: seq<Msg>)
    requires AllPrintable(mode, rows)
    reads out, out.sink
  {
    match e
    case PgError(code) => Response(t.msgs) && ErrorIn(t.msgs) == Some(code) && rows == RowsOf(t) && out.Valid()
    case RowsCap(limit, observed, committed) =>
      && rows == RowsOf(t) && limit == cfg.maxRows && 0 < limit == observed == |rows|
      && out.Valid() && committed == out.committed && Drained(t.msgs + drained, rest)
    case BytesCap(limit, observed, committed) =>
      && rows == RowsOf(t) && limit == cfg.maxBytes && 0 < limit <= observed == |Body(mode, rows)| && (cfg.maxRows > 0 ==> |rows| < cfg.maxRows)
      && out.Valid() && committed == out.committed && Drained(t.msgs + drained, rest)
    case WireError => NoReady(t.msgs) && rest == [] && rows == RowsOf(t) && out.Valid()
    case SinkError(_) =>
      && out.sink.failed && rows == RowsOf(t)
      && (Response(t.msgs) || (NoReady(t.msgs) && t.msgs != [] && t.msgs[|t.msgs| - 1].DataRow?))
      // A writer that flushes every row does not fail at the end first.
      && (Response(t.msgs) && rows != [] && out.threshold <= 1 ==> out.sink.cuts != [])
    case RowFailed(_) =>
      && NoReady(t.msgs) && t.msgs != [] && t.msgs[|t.msgs| - 1].DataRow? && out.Valid()
      && rows + [RowsOf(t)[|RowsOf(t)| - 1]] == RowsOf(t) && !Printable(mode, RowsOf(t)[|RowsOf(t)| - 1])
    case RowBeforeDescription =>
      NoReady(t.msgs) && t.msgs != [] && t.msgs[|t.msgs| - 1].DataRow? && !extended && PlanOf(t).None? && rows == [] && out.Fresh()
    case BadDescription =>
      NoReady(t.msgs) && t.msgs != [] && t.msgs[|t.msgs| - 1].RowDescription? && PlanOf(t).None? && rows == RowsOf(t) && out.Valid()
    case Unexpected =>
      NoReady(t.msgs) && t.msgs != [] && !Accepts(extended, t.msgs[|t.msgs| - 1]) && rows == RowsOf(t) && out.Valid()
    case _ => false
  }

  // Read up to the ReadyForQuery, or the stream died first.
  predicate Drained(msgs: seq<Msg>, rest: seq<Msg>)
  {
    Response(msgs) || (rest == [] && NoReady(msgs))
  }

  // Outcomes after which the connection has to be in sync.
  predicate Synced(r: Outcome) { r.Fine? || r.error.PgError? || r.error.NoRowDescription? }

  predicate Capped(r: Outcome) { r.Failed? && (r.error.RowsCap? || r.error.BytesCap?) }

  // How an execution that began with a fresh writer ends.
  ghost predicate Ended(r: Outcome, extended: bool, cfg: Config, mode: Mode, t: Trace, drained: seq<Msg>, rows: seq<PlannedRow>,
                        out: OutWriter, rest: seq<Msg>)
    reads out, out.sink
  {
    && Delivered(mode, PlanOf(t), rows, r.Fine?, out)
    && (!Capped(r) ==> drained == []) && (Response(t.msgs) ==> AllKnown(extended, t))
    && match r
       case Fine =>
         && Response(t.msgs) && ErrorIn(t.msgs).None? && rows == RowsOf(t)
         && Complete(mode, PlanOf(t), rows, out) && UnderCaps(cfg, mode, rows)
       case Failed(e) => Cause(e, extended, cfg, mode, t, drained, rows, out, rest)
  }

  // One DataRow: print it, then look at the caps.
  method OnDataRow(cfg: Config, out: OutWriter, mode: Mode, row: PlannedRow, rowCount: nat, ghost rows: seq<PlannedRow>) returns (r: Outcome)
    requires Shows(mode, rows, out) && row.plan.Some? && rowCount == |rows| && UnderCaps(cfg, mode, rows)
    modifies out, out.sink
    ensures r.Fine? ==> Shows(mode, rows + [row], out) && UnderCaps(cfg, mode, rows + [row])
    ensures Answered(r, old(out.sink.torn), old(out.sink.refused), out.sink)
    ensures r.Failed? ==> r.error.RowFailed? || r.error.SinkError? || r.error.RowsCap? || r.error.BytesCap?
    ensures r.Failed? && r.error.RowFailed? ==>
              !Printable(mode, row) && out.Valid() && forall plan :: Delivered(mode, plan, rows, false, out)
    ensures r.Failed? && r.error.SinkError? ==> out.sink.failed && forall plan :: Delivered(mode, plan, rows + [row], false, out)
    ensures r.Failed? && (r.error.RowsCap? || r.error.BytesCap?) ==> Shows(mode, rows + [row], out) && r.error.committed == out.committed
    ensures r.Failed? && r.error.RowsCap? ==> r.error.limit == cfg.maxRows && 0 < cfg.maxRows == r.error.observed == |rows| + 1
    ensures r.Failed? && r.error.BytesCap? ==>
              && r.error.limit == cfg.maxBytes && 0 < cfg.maxBytes <= r.error.observed == |Body(mode, rows + [row])|
              && (cfg.maxRows > 0 ==> |rows| + 1 < cfg.maxRows)
  {
    hide Body, Rendered, RowBoundary, Printable;
    r := WriteRow(out, mode, row, rows, rowCount == 0);
    if r.Fine? {
      var cap := CheckCaps(cfg, out, rowCount + 1);
      if cap.Some? { r := Failed(cap.value); }
    }
  }

  // What the message loop keeps: everything read so far has been printed or remembered.
  ghost predicate Reading(cfg: Config, mode: Mode, t: Trace, plan: Option<Plan>, pgError: Option<string>,
                          rows: seq<PlannedRow>, out: OutWriter)
    reads out, out.sink
  {
    && NoReady(t.msgs) && plan == PlanOf(t) && pgError == ErrorIn(t.msgs) && rows == RowsOf(t)
    && Shows(mode, rows, out) && UnderCaps(cfg, mode, rows) && (plan.None? ==> rows == [])
  }

  ghost function Read(t: Trace, m: Msg): Trace { t.(msgs := t.msgs + [m]) }

  lemma StopUnread(extended: bool, cfg: Config, mode: Mode, t: Trace, plan: Option<Plan>, pgError: Option<string>,
                   rows: seq<PlannedRow>, out: OutWriter)
    requires Reading(cfg, mode, t, plan, pgError, rows, out)
    ensures Ended(Failed(WireError), extended, cfg, mode, t, [], rows, out, [])
  {
    hide Body, RowBoundary, Printable, Rendered, UnderCaps, AllKnown, NoReady, Response, PlanOf, RowsOf;
    ShowsDelivered(mode, plan, rows, out);
    NotBoth(t.msgs);
  }

  // A message that is neither a row nor the end, read on.
  lemma ReadOn(cfg: Config, mode: Mode, t: Trace, plan: Option<Plan>, pgError: Option<string>,
               rows: seq<PlannedRow>, out: OutWriter, m: Msg)
    requires Reading(cfg, mode, t, plan, pgError, rows, out) && !m.DataRow? && !m.ReadyForQuery?
    requires m.RowDescription? ==> t.compile(m.body).Some?
    ensures Reading(cfg, mode, Read(t, m), if m.RowDescription? then t.compile(m.body) else plan,
                    if m.ErrorResponse? then Some(m.code) else pgError, rows, out)
  {
    hide Body, RowBoundary, Printable, Rendered, UnderCaps, PlanAfter, RowsIn, ErrorIn, Shows, NoReady, LastDescription, Response;
    Snoc(t.start, t.compile, t.msgs, m);
  }

  // Or refused.
  lemma StopOther(extended: bool, cfg: Config, mode: Mode, t: Trace, plan: Option<Plan>, pgError: Option<string>,
                  rows: seq<PlannedRow>, out: OutWriter, m: Msg, e: Error, rest: seq<Msg>)
    requires Reading(cfg, mode, t, plan, pgError, rows, out) && !m.ReadyForQuery?
    requires (e == BadDescription && m.RowDescription? && t.compile(m.body).None?) || (e == Unexpected && !Accepts(extended, m) && !m.DataRow?)
    ensures Ended(Failed(e), extended, cfg, mode, Read(t, m), [], rows, out, rest)
  {
    hide Body, RowBoundary, Printable, Rendered, UnderCaps, PlanAfter, RowsIn, ErrorIn, Shows, Delivered, NoReady, LastDescription, Response, Accepts, AllKnown;
    Snoc(t.start, t.compile, t.msgs, m);
    NotBoth(Read(t, m).msgs);
    ShowsDelivered(mode, PlanOf(Read(t, m)), rows, out);
    ShowsValid(mode, rows, out);
  }

  lemma ShowsValid(mode: Mode, rows: seq<PlannedRow>, out: OutWriter)
    requires Shows(mode, rows, out)
    ensures out.Valid()
  {
  }

  // A DataRow: print it and check the caps; over a cap, drain.
  method ReadRow(extended: bool, cfg: Config, conn: Conn, out: OutWriter, mode: Mode, ghost t: Trace, plan: Option<Plan>,
                 ghost pgError: Option<string>, rowCount: nat, ghost rows: seq<PlannedRow>, body: bytes)
    returns (r: Outcome, ghost drained: seq<Msg>, ghost seen: seq<PlannedRow>)
    requires Reading(cfg, mode, t, plan, pgError, rows, out) && rowCount == |rows| && (plan.None? ==> !extended)
    modifies conn`input, out, out.sink
    ensures old(conn.input) == drained + conn.input
    ensures r.Fine? ==> drained == [] && Reading(cfg, mode, Read(t, DataRow(body)), plan, pgError, seen, out) && |seen| == rowCount + 1
    ensures r.Failed? ==> Ended(r, extended, cfg, mode, Read(t, DataRow(body)), drained, seen, out, conn.input) && !r.error.PgError?
    ensures Answered(r, old(out.sink.torn), old(out.sink.refused), out.sink)
    ensures r.Fine? ==> out.sink.torn == old(out.sink.torn) && out.sink.refused == old(out.sink.refused)
    ensures PlanOf(Read(t, DataRow(body))) == plan
  {
    hide *;
    drained, seen := [], rows;
    ghost var t' := Read(t, DataRow(body));
    RowRead(cfg, mode, t, plan, pgError, rows, out, body);
    if plan.None? {
      NothingShown(mode, PlanOf(t'), out);
      r := Failed(RowBeforeDescription);
      NotRefused(r, out.sink);
      EndedAtRow(r, extended, cfg, mode, t', [], rows, PlannedRow(plan, body), out, conn.input);
      return;
    }
    ghost var row := PlannedRow(plan, body);
    r := OnDataRow(cfg, out, mode, PlannedRow(plan, body), rowCount, rows);
    if r.Failed? && r.error.RowFailed? {
      EndedAtRow(r, extended, cfg, mode, t', [], rows, row, out, conn.input);
      return;
    }
    seen := rows + [row];
    if r.Failed? {
      if !r.error.SinkError? {
        ShowsDelivered(mode, plan, seen, out);
        drained := AbortOversize(conn, t'.msgs);
        ShowsValid(mode, seen, out);
      }
      EndedAtRow(r, extended, cfg, mode, t', drained, rows, row, out, conn.input);
      return;
    }
    FineLeaves(out.sink);
    StillReading(cfg, mode, t', plan, pgError, seen, out);
  }

  lemma StillReading(cfg: Config, mode: Mode, t: Trace, plan: Option<Plan>, pgError: Option<string>, rows: seq<PlannedRow>, out: OutWriter)
    requires NoReady(t.msgs) && plan == PlanOf(t) && pgError == ErrorIn(t.msgs) && rows == RowsOf(t) && plan.Some?
    requires Shows(mode, rows, out) && UnderCaps(cfg, mode, rows)
    ensures Reading(cfg, mode, t, plan, pgError, rows, out)
  {
    hide Shows, UnderCaps, NoReady, PlanOf, RowsOf;
  }

  // The ways an execution ends at a row.
  lemma EndedAtRow(r: Outcome, extended: bool, cfg: Config, mode: Mode, t: Trace, drained: seq<Msg>, rows: seq<PlannedRow>, row: PlannedRow,
                   out: OutWriter, rest: seq<Msg>)
    requires r.Failed? && AllPrintable(mode, rows) && NoReady(t.msgs) && t.msgs != [] && t.msgs[|t.msgs| - 1].DataRow?
    requires RowsOf(t) == rows + [row] && PlanOf(t) == row.plan
    requires match r.error
             case RowBeforeDescription => !extended && row.plan.None? && rows == [] && drained == [] && out.Fresh() && Delivered(mode, PlanOf(t), [], false, out)
             case RowFailed(_) => drained == [] && !Printable(mode, row) && out.Valid() && Delivered(mode, row.plan, rows, false, out)
             case SinkError(_) => drained == [] && out.sink.failed && Delivered(mode, row.plan, rows + [row], false, out)
             case RowsCap(limit, observed, committed) =>
               Delivered(mode, row.plan, rows + [row], false, out) && out.Valid() && committed == out.committed
               && limit == cfg.maxRows && 0 < limit == observed == |rows| + 1 && Drained(t.msgs + drained, rest)
             case BytesCap(limit, observed, committed) =>
               Delivered(mode, row.plan, rows + [row], false, out) && out.Valid() && committed == out.committed
               && limit == cfg.maxBytes && AllPrintable(mode, rows + [row])
               && 0 < limit <= observed == |Body(mode, rows + [row])| && Drained(t.msgs + drained, rest)
               && (cfg.maxRows > 0 ==> |rows| + 1 < cfg.maxRows)
             case _ => false
    ensures Ended(r, extended, cfg, mode, t, drained, if r.error.RowBeforeDescription? || r.error.RowFailed? then rows else rows + [row], out, rest)
  {
    hide Body, Rendered, RowBoundary, Printable, Row, RowsOf, PlanOf, Response, NoReady, Asked, Answers, AllKnown;
    NotBoth(t.msgs);
    if r.error.SinkError? || r.error.RowsCap? || r.error.BytesCap? {
      assert AllPrintable(mode, rows + [row]);
    }
  }

  // What reading a row adds to the trace.
  lemma RowRead(cfg: Config, mode: Mode, t: Trace, plan: Option<Plan>, pgError: Option<string>, rows: seq<PlannedRow>, out: OutWriter, body: bytes)
    requires Reading(cfg, mode, t, plan, pgError, rows, out)
    ensures var t' := Read(t, DataRow(body));
            && NoReady(t'.msgs) && t'.msgs != [] && t'.msgs[|t'.msgs| - 1].DataRow? && PlanOf(t') == plan && ErrorIn(t'.msgs) == pgError
            && RowsOf(t') == rows + [PlannedRow(plan, body)] && RowsOf(t')[|RowsOf(t')| - 1] == PlannedRow(plan, body)
    ensures AllPrintable(mode, rows) && Shows(mode, rows, out) && UnderCaps(cfg, mode, rows) && (plan.None? ==> rows == [])
  {
    hide Shows, UnderCaps, NoReady;
    ShowsCuts(mode, rows, out);
    Snoc(t.start, t.compile, t.msgs, DataRow(body));
  }

  // Nothing about a step that went well is in the sink's record of failures.
  lemma FineLeaves(sink: Sink)
    ensures forall torn, refused :: Answered(Fine, torn, refused, sink) ==> sink.torn == torn && sink.refused == refused
  {
  }

  lemma NothingShown(mode: Mode, plan: Option<Plan>, out: OutWriter)
    requires Shows(mode, [], out)
    ensures out.Fresh() && Delivered(mode, plan, [], false, out)
  {
    hide Printable, HeaderText, FooterText;
    ShowsDelivered(mode, plan, [], out);
  }

  method ReadEnd(extended: bool, cfg: Config, out: OutWriter, mode: Mode, ghost t: Trace, plan: Option<Plan>,
                 pgError: Option<string>, headerWritten: bool, ghost rows: seq<PlannedRow>, ghost rest: seq<Msg>)
    returns (r: Outcome)
    requires Reading(cfg, mode, t, plan, pgError, rows, out) && headerWritten == (rows != []) && AllKnown(extended, t)
    modifies out, out.sink
    ensures Ended(r, extended, cfg, mode, Read(t, ReadyForQuery), [], rows, out, rest) && PlanOf(Read(t, ReadyForQuery)) == plan
    ensures Answered(r, old(out.sink.torn), old(out.sink.refused), out.sink)
  {
    hide *;
    EndRead(extended, cfg, mode, t, plan, pgError, rows, out);
    if pgError.Some? {
      ShowsDelivered(mode, plan, rows, out);
      ShowsValid(mode, rows, out);
      r := Failed(PgError(pgError.value));
      NotRefused(r, out.sink);
    } else {
      if rows != [] && out.streaming && out.threshold <= 1 { FlushedEveryRow(mode, rows, out); }
      r := FinishOutput(out, mode, plan, headerWritten, rows);
      SinkFailedIs(r);
    }
    EndedAtEnd(r, extended, cfg, mode, Read(t, ReadyForQuery), rows, out, rest);
  }

  lemma SinkFailedIs(r: Outcome)
    ensures SinkFailed(r) <==> r.Failed? && r.error.SinkError?
  {
  }

  // What the ReadyForQuery adds to the trace.
  lemma EndRead(extended: bool, cfg: Config, mode: Mode, t: Trace, plan: Option<Plan>, pgError: Option<string>, rows: seq<PlannedRow>, out: OutWriter)
    requires Reading(cfg, mode, t, plan, pgError, rows, out) && AllKnown(extended, t)
    ensures var t' := Read(t, ReadyForQuery);
            Response(t'.msgs) && PlanOf(t') == plan && ErrorIn(t'.msgs) == pgError && RowsOf(t') == rows && AllKnown(extended, t')
    ensures AllPrintable(mode, rows) && Shows(mode, rows, out) && UnderCaps(cfg, mode, rows)
  {
    AllKnownMore(extended, t, ReadyForQuery);
    hide Shows, UnderCaps, NoReady, AllKnown, Response;
    ShowsCuts(mode, rows, out);
    Snoc(t.start, t.compile, t.msgs, ReadyForQuery);
  }

  // The ways an execution ends at the end of its response.
  lemma EndedAtEnd(r: Outcome, extended: bool, cfg: Config, mode: Mode, t: Trace, rows: seq<PlannedRow>, out: OutWriter, rest: seq<Msg>)
    requires Response(t.msgs) && rows == RowsOf(t) && AllKnown(extended, t) && AllPrintable(mode, rows) && UnderCaps(cfg, mode, rows)
    requires match r
             case Fine => ErrorIn(t.msgs).None? && Delivered(mode, PlanOf(t), rows, true, out) && Complete(mode, PlanOf(t), rows, out)
             case Failed(PgError(code)) => ErrorIn(t.msgs) == Some(code) && out.Valid() && Delivered(mode, PlanOf(t), rows, false, out)
             case Failed(SinkError(_)) =>
               && out.sink.failed && Delivered(mode, PlanOf(t), rows, false, out)
               && (rows != [] && out.threshold <= 1 ==> out.sink.cuts != [])
             case _ => false
    ensures Ended(r, extended, cfg, mode, t, [], rows, out, rest)
  {
    hide Body, Rendered, RowBoundary, Printable, UnderCaps, RowsOf, PlanOf, ErrorIn, Response, NoReady, Delivered, Complete, AllKnown, Asked, Answers;
  }

  // Any other message.
  method ReadOther(extended: bool, cfg: Config, compile: Compile, out: OutWriter, mode: Mode, ghost t: Trace, was: Option<Plan>,
                   pgError: Option<string>, ghost rows: seq<PlannedRow>, m: Msg, ghost rest: seq<Msg>)
    returns (r: Outcome, plan: Option<Plan>, newError: Option<string>)
    requires Reading(cfg, mode, t, was, pgError, rows, out) && t.compile == compile && !m.DataRow? && !m.ReadyForQuery?
    ensures r.Fine? ==> Reading(cfg, mode, Read(t, m), plan, newError, rows, out)
    ensures r.Failed? ==> Ended(r, extended, cfg, mode, Read(t, m), [], rows, out, rest) && !r.error.PgError? && !r.error.SinkError?
    ensures was.Some? ==> plan.Some?
    ensures r.Fine? ==> Accepts(extended, m) && (m.RowDescription? ==> compile(m.body).Some?)
  {
    hide Reading, Ended, RowsOf, PlanOf;
    r, plan, newError := Fine, was, pgError;
    match m {
    case CommandComplete | EmptyQueryResponse | NoticeResponse | ParameterStatus =>
    case BindComplete | PortalSuspended | CloseComplete =>
      if !extended { r := Failed(Unexpected); }
    case RowDescription(body) =>
      var newPlan := compile(body);
      if newPlan.None? { r := Failed(BadDescription); } else { plan := newPlan; }
    case ErrorResponse(code) =>
      newError := Some(code);
    case _ =>
      r := Failed(Unexpected);
    }
    if r.Fine? {
      ReadOn(cfg, mode, t, was, pgError, rows, out, m);
    } else {
      StopOther(extended, cfg, mode, t, was, pgError, rows, out, m, r.error, rest);
    }
  }

  /** bindExecute after its Flush (extended) and consumeText (otherwise). */
  method MessageLoop(extended: bool, cfg: Config, compile: Compile, start: Option<Plan>, conn: Conn, out: OutWriter, mode: Mode)
    returns (r: Outcome, plan: Option<Plan>, ghost t: Trace, ghost drained: seq<Msg>, ghost rows: seq<PlannedRow>)
    requires out.Fresh() && (extended ==> start.Some?)
    modifies conn`input, out, out.sink
    ensures t.start == start && t.compile == compile && old(conn.input) == t.msgs + drained + conn.input
    ensures Ended(r, extended, cfg, mode, t, drained, rows, out, conn.input)
    ensures extended ==> plan.Some?
    ensures r.Fine? || r.error.PgError? || r.error.SinkError? ==> plan == PlanOf(t)
    ensures Answered(r, old(out.sink.torn), old(out.sink.refused), out.sink)
  {
    hide *;
    plan, rows, drained, r := start, [], [], Fine;
    t := Trace(start, compile, []);
    var rowCount, headerWritten := 0, false;
    var pgError: Option<string> := None;
    ghost var inp := conn.input;
    StartReading(cfg, mode, t, out);
    NothingKnown(extended, t);
    ghost var torn, refused := out.sink.torn, out.sink.refused;
    while true
      invariant t.start == start && t.compile == compile && inp == t.msgs + conn.input
      invariant rowCount == |rows| && headerWritten == (rows != []) && drained == []
      invariant Reading(cfg, mode, t, plan, pgError, rows, out) && AllKnown(extended, t)
      invariant (extended ==> plan.Some?) && out.sink.torn == torn && out.sink.refused == refused
      decreases |conn.input|
    {
      var m := conn.ReadMessage();
      if m.None? {
        StopUnread(extended, cfg, mode, t, plan, pgError, rows, out);
        r := Failed(WireError);
        NotRefused(r, out.sink);
        return;
      }
      ghost var was := t;
      t := Read(t, m.value);
      TakeOne(inp, was, m.value, conn.input);
      if m.value.DataRow? {
        r, drained, rows := ReadRow(extended, cfg, conn, out, mode, was, plan, pgError, rowCount, rows, m.value.body);
        if r.Failed? { return; }
        RowsKnown(extended);
        AllKnownMore(extended, was, m.value);
        rowCount, headerWritten := rowCount + 1, true;
      } else if m.value.ReadyForQuery? {
        r := ReadEnd(extended, cfg, out, mode, was, plan, pgError, headerWritten, rows, conn.input);
        return;
      } else {
        r, plan, pgError := ReadOther(extended, cfg, compile, out, mode, was, plan, pgError, rows, m.value, conn.input);
        if r.Failed? {
          NotRefused(r, out.sink);
          return;
        }
        AllKnownMore(extended, was, m.value);
      }
    }
  }

  lemma NothingKnown(extended: bool, t: Trace)
    requires t.msgs == []
    ensures AllKnown(extended, t)
  {
  }

  lemma RowsKnown(extended: bool)
    ensures forall m: Msg :: m.DataRow? ==> Accepts(extended, m)
  {
  }

  lemma TakeOne(inp: seq<Msg>, t: Trace, m: Msg, rest: seq<Msg>)
    requires inp == t.msgs + ([m] + rest)
    ensures inp == Read(t, m).msgs + rest && Read(t, m).start == t.start && Read(t, m).compile == t.compile
    ensures forall drained: seq<Msg>, left :: rest == drained + left ==> inp == Read(t, m).msgs + drained + left
  {
  }

  lemma StartReading(cfg: Config, mode: Mode, t: Trace, out: OutWriter)
    requires t.msgs == [] && out.Fresh()
    ensures Reading(cfg, mode, t, t.start, None, [], out)
  {
    EmptyBody(mode);
  }
}
