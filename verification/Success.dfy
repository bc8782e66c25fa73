/** When a call succeeds: the responses that an execution gets through, message by message, and
    from there whole calls against a healthy server. */
module Success {
  import opened Bytes
  import opened Rows
  import opened Headers
  import opened Rendering
  import opened Output
  import opened Statements
  import opened Executions
  import opened Retries
  import opened Engine
  import opened Guarantees
  import Wire

  // ---- One execution ----

  // A message of a result, in the extended or the simple protocol.
  predicate Routine(extended: bool, compile: Compile, m: Msg)
  {
    || m.DataRow? || m.CommandComplete? || m.EmptyQueryResponse? || m.NoticeResponse? || m.ParameterStatus?
    || (m.RowDescription? && compile(m.body).Some?)
    || (extended && (m.BindComplete? || m.PortalSuspended? || m.CloseComplete?))
  }

  // A whole result without an error, whose rows can be printed and stay under both caps.
  ghost predicate Result(extended: bool, start: Option<Plan>, compile: Compile, cfg: Config, mode: Mode, response: seq<Msg>)
  {
    && Response(response) && (forall i :: 0 <= i < |response| - 1 ==> Routine(extended, compile, response[i]))
    && var rows := RowsIn(start, compile, response);
       && AllPrintable(mode, rows) && (cfg.maxRows > 0 ==> |rows| < cfg.maxRows)
       && (cfg.maxBytes > 0 && rows != [] ==> |Body(mode, rows)| < cfg.maxBytes)
  }

  lemma {:induction false} RowsPrefix(start: Option<Plan>, compile: Compile, msgs: seq<Msg>, n: nat)
    requires n <= |msgs|
    ensures RowsIn(start, compile, msgs[..n]) <= RowsIn(start, compile, msgs)
    decreases |msgs|
  {
    if n == |msgs| {
      assert msgs[..n] == msgs;
    } else {
      var k := |msgs| - 1;
      assert msgs[..k][..n] == msgs[..n];
      RowsPrefix(start, compile, msgs[..k], n);
    }
  }

  // A message that ends an execution is not one of a result.
  lemma StopsAt(extended: bool, t: Trace, response: seq<Msg>)
    requires NoReady(t.msgs) && t.msgs != [] && |t.msgs| < |response| && t.msgs == response[..|t.msgs|]
    ensures t.msgs[|t.msgs| - 1] == response[|t.msgs| - 1]
    ensures !Accepts(extended, t.msgs[|t.msgs| - 1]) ==> !Routine(extended, t.compile, response[|t.msgs| - 1])
    ensures t.msgs[|t.msgs| - 1].RowDescription? && PlanOf(t).None? ==> !Routine(extended, t.compile, response[|t.msgs| - 1])
  {
  }

  // A cap, or a row that cannot be printed.
  lemma NotWithin(cfg: Config, mode: Mode, rows: seq<PlannedRow>, all: seq<PlannedRow>)
    requires AllPrintable(mode, all) && rows <= all
    ensures AllPrintable(mode, rows) && |Body(mode, rows)| <= |Body(mode, all)|
    ensures Body(mode, rows) != [] ==> all != []
  {
    hide Printable;
    assert rows == all[..|rows|];
    BodyPrefix(mode, all, |rows|);
    if all == [] { assert rows == []; }
  }

  lemma CapStops(r: Outcome, extended: bool, cfg: Config, mode: Mode, t: Trace, drained: seq<Msg>, rows: seq<PlannedRow>,
                 out: OutWriter, rest: seq<Msg>, response: seq<Msg>, more: seq<Msg>)
    requires Ended(r, extended, cfg, mode, t, drained, rows, out, rest) && Capped(r)
    requires t.msgs + drained + rest == response + more && Response(response)
    ensures !Result(extended, t.start, t.compile, cfg, mode, response)
  {
    CapSays(r, extended, cfg, mode, t, drained, rows, out, rest);
    hide Ended, Printable, Body, Response, NoReady, RowsIn;
    Inside(response, more, t.msgs + drained, rest);
    assert t.msgs == response[..|t.msgs|];
    RowsPrefix(t.start, t.compile, response, |t.msgs|);
    if AllPrintable(mode, RowsIn(t.start, t.compile, response)) {
      NotWithin(cfg, mode, rows, RowsIn(t.start, t.compile, response));
    }
  }

  lemma CapSays(r: Outcome, extended: bool, cfg: Config, mode: Mode, t: Trace, drained: seq<Msg>, rows: seq<PlannedRow>,
                out: OutWriter, rest: seq<Msg>)
    requires Ended(r, extended, cfg, mode, t, drained, rows, out, rest) && Capped(r)
    ensures rows == RowsOf(t) && AllPrintable(mode, rows) && (Response(t.msgs + drained) || (rest == [] && NoReady(t.msgs + drained)))
    ensures r.error.RowsCap? ==> 0 < cfg.maxRows == |rows|
    ensures r.error.BytesCap? ==> 0 < cfg.maxBytes <= |Body(mode, rows)|
  {
    hide Printable, Body, Rendered, RowBoundary, Response, NoReady, RowsOf, PlanOf, AllKnown;
  }

  // The other failures.
  lemma ErrorStops(r: Outcome, extended: bool, cfg: Config, mode: Mode, t: Trace, rows: seq<PlannedRow>,
                   out: OutWriter, rest: seq<Msg>, response: seq<Msg>, more: seq<Msg>)
    requires Ended(r, extended, cfg, mode, t, [], rows, out, rest) && r.Failed? && !Capped(r) && !SinkFailed(r)
    requires t.msgs + rest == response + more && Response(response)
    ensures !Result(extended, t.start, t.compile, cfg, mode, response)
  {
    hide *;
    WhyStopped(r, extended, cfg, mode, t, rows, out, rest);
    Inside(response, more, t.msgs, rest);
    if r.error.PgError? {
      NotFree(extended, t, cfg, mode, response);
    } else if t.msgs != [] && NoReady(t.msgs) {
      StopsAt(extended, t, response);
      LastRow(t, response);
      BadMessage(extended, t, cfg, mode, response);
    }
  }

  // What each of them says about the messages read.
  lemma WhyStopped(r: Outcome, extended: bool, cfg: Config, mode: Mode, t: Trace, rows: seq<PlannedRow>, out: OutWriter, rest: seq<Msg>)
    requires Ended(r, extended, cfg, mode, t, [], rows, out, rest) && r.Failed? && !Capped(r) && !SinkFailed(r)
    ensures r.error.PgError? ==> Response(t.msgs) && ErrorIn(t.msgs).Some?
    ensures !r.error.PgError? ==> NoReady(t.msgs) && (r.error.WireError? ==> rest == []) && (!r.error.WireError? ==> t.msgs != [] && BadLast(extended, mode, t))
  {
    hide Printable, Body, Rendered, RowBoundary, Response, NoReady, RowsOf, PlanOf, AllKnown, Delivered, Accepts, ErrorIn, Asked, Answers;
  }

  ghost predicate BadLast(extended: bool, mode: Mode, t: Trace)
    requires t.msgs != []
  {
    var m := t.msgs[|t.msgs| - 1];
    || !Accepts(extended, m) || (m.RowDescription? && PlanOf(t).None?)
    || (m.DataRow? && (PlanOf(t).None? || (RowsOf(t) != [] && !Printable(mode, RowsOf(t)[|RowsOf(t)| - 1]))))
  }

  lemma NotFree(extended: bool, t: Trace, cfg: Config, mode: Mode, response: seq<Msg>)
    requires Response(response) && ErrorIn(response).Some?
    ensures !Result(extended, t.start, t.compile, cfg, mode, response)
  {
    ErrorShows(response);
    assert response[|response| - 1].ReadyForQuery?;
    hide RowsIn, AllPrintable, Body, ErrorIn;
  }

  lemma BadMessage(extended: bool, t: Trace, cfg: Config, mode: Mode, response: seq<Msg>)
    requires t.msgs != [] && |t.msgs| < |response| && t.msgs == response[..|t.msgs|] && BadLast(extended, mode, t)
    requires !Accepts(extended, t.msgs[|t.msgs| - 1]) ==> !Routine(extended, t.compile, response[|t.msgs| - 1])
    requires t.msgs[|t.msgs| - 1].RowDescription? && PlanOf(t).None? ==> !Routine(extended, t.compile, response[|t.msgs| - 1])
    requires t.msgs[|t.msgs| - 1].DataRow? ==>
              && RowsOf(t) != [] && RowsOf(t)[|RowsOf(t)| - 1].plan == PlanOf(t)
              && RowsOf(t)[|RowsOf(t)| - 1] in RowsIn(t.start, t.compile, response)
    ensures !Result(extended, t.start, t.compile, cfg, mode, response)
  {
    hide Routine, Accepts, Body, Row, RowsIn, PlanAfter, Response;
  }

  // The last message read, if it is a row.
  lemma LastRow(t: Trace, response: seq<Msg>)
    requires t.msgs != [] && |t.msgs| <= |response| && t.msgs == response[..|t.msgs|]
    ensures t.msgs[|t.msgs| - 1].DataRow? ==>
              && RowsOf(t) != [] && RowsOf(t)[|RowsOf(t)| - 1].plan == PlanOf(t)
              && RowsOf(t)[|RowsOf(t)| - 1] in RowsIn(t.start, t.compile, response)
  {
    RowsPrefix(t.start, t.compile, response, |t.msgs|);
    var n := |t.msgs| - 1;
    if t.msgs[n].DataRow? {
      var rows := RowsOf(t);
      assert rows[|rows| - 1] == RowsIn(t.start, t.compile, response)[|rows| - 1];
    }
  }

  /** An execution whose writer does not fail succeeds exactly on the results: it then has read the
      response and nothing else. */
  lemma OutcomeExact(r: Outcome, extended: bool, cfg: Config, mode: Mode, t: Trace, drained: seq<Msg>, rows: seq<PlannedRow>,
                     out: OutWriter, rest: seq<Msg>, response: seq<Msg>, more: seq<Msg>)
    requires Ended(r, extended, cfg, mode, t, drained, rows, out, rest) && !SinkFailed(r)
    requires t.msgs + drained + rest == response + more && Response(response)
    ensures r.Fine? <==> Result(extended, t.start, t.compile, cfg, mode, response)
    ensures r.Fine? ==> t.msgs == response && rest == more
  {
    hide *;
    SettledIs(r);
    if Capped(r) {
      CapStops(r, extended, cfg, mode, t, drained, rows, out, rest, response, more);
    } else {
      NothingDropped(r, extended, cfg, mode, t, drained, rows, out, rest);
      assert t.msgs + [] + rest == t.msgs + rest;
      if r.Failed? {
        ErrorStops(r, extended, cfg, mode, t, rows, out, rest, response, more);
      } else {
        Succeeds(extended, cfg, mode, t, rows, out, rest);
        Inside(response, more, t.msgs, rest);
      }
    }
  }

  lemma NothingDropped(r: Outcome, extended: bool, cfg: Config, mode: Mode, t: Trace, drained: seq<Msg>, rows: seq<PlannedRow>, out: OutWriter, rest: seq<Msg>)
    requires Ended(r, extended, cfg, mode, t, drained, rows, out, rest)
    ensures (!Capped(r) ==> drained == []) && (r.Fine? ==> Response(t.msgs))
  {
    hide Delivered, Cause, Response, AllKnown, Complete;
  }

  lemma Succeeds(extended: bool, cfg: Config, mode: Mode, t: Trace, rows: seq<PlannedRow>, out: OutWriter, rest: seq<Msg>)
    requires Ended(Fine, extended, cfg, mode, t, [], rows, out, rest)
    ensures Result(extended, t.start, t.compile, cfg, mode, t.msgs)
  {
    ErrorShows(t.msgs);
    hide Printable, Body, Rendered, RowBoundary, RowsIn, PlanAfter, Delivered, ErrorIn, Asked, Answers;
    assert forall i :: 0 <= i < |t.msgs| - 1 ==> t.msgs[..|t.msgs| - 1][i] == t.msgs[i];
    forall i | 0 <= i < |t.msgs| - 1 ensures Routine(extended, t.compile, t.msgs[i]) {
      assert Accepts(extended, t.msgs[i]) && !t.msgs[i].ErrorResponse? && !t.msgs[i].ReadyForQuery?;
    }
  }

  // ---- Whole calls ----

  // A writer that takes everything.
  ghost predicate Willing(script: seq<Option<Refuse>>) { forall i :: 0 <= i < |script| ==> script[i].None? }

  lemma NeverRefused(r: Outcome, extended: bool, cfg: Config, mode: Mode, log: Log, out: OutWriter, from: Origin, sent: int, rest: seq<Msg>)
    requires Concluded(r, extended, cfg, mode, log, out, from, sent, rest) && Willing(out.sink.script)
    ensures !SinkFailed(r) && forall i :: 0 <= i < |log.retries| ==> !log.retries[i].error.SinkError?
  {
    forall i | 0 <= i < |log.retries| ensures !log.retries[i].error.SinkError? {
      FromScript(r, extended, cfg, mode, log, out, from, sent, rest, i);
    }
    LastRefused(r, extended, cfg, mode, log, out, from, sent, rest);
    hide Concluded;
  }

  // The writer's error, if the call ends with one, is in its script too.
  lemma LastRefused(r: Outcome, extended: bool, cfg: Config, mode: Mode, log: Log, out: OutWriter, from: Origin, sent: int, rest: seq<Msg>)
    requires Concluded(r, extended, cfg, mode, log, out, from, sent, rest)
    ensures SinkFailed(r) && log.ran ==> exists k :: 0 <= k < |out.sink.script| && out.sink.script[k].Some?
    ensures SinkFailed(r) && !log.ran ==> log.retries != [] && log.retries[|log.retries| - 1].error.SinkError?
  {
    hide Printable, Body, Rendered, RowBoundary, RowsOf, PlanOf, ErrorIn, Response, NoReady, Asked, Taken, Refusals, AllResponses, Stands, AllPrintable,
         Placed, First, AllKnown, RetriesOk;
    if SinkFailed(r) && log.ran {
      assert out.sink.Honest() && out.sink.refused != [];
      var _ := AskedFrom(out.sink.script, out.sink.calls, 0);
    }
  }

  // ---- A statement is prepared ----

  // Everything that answers Parse and Describe for a statement with rows.
  ghost predicate Prelude(msgs: seq<Msg>)
  {
    Response(msgs) && LastDescription(msgs).Some? && forall i :: 0 <= i < |msgs| - 1 ==> Prelim(msgs[i])
  }

  // Preparing fails on no prelude ...
  lemma PreludePrepares(e: Error, msgs: seq<Msg>, rest: seq<Msg>, prelude: seq<Msg>, more: seq<Msg>)
    requires Prelude(prelude) && msgs + rest == prelude + more
    ensures !DescribeFails(e, msgs, rest)
  {
    Inside(prelude, more, msgs, rest);
    ErrorShows(prelude);
    assert prelude[|prelude| - 1].ReadyForQuery?;
    hide Response, NoReady, ErrorIn, LastDescription, Describe;
    if NoReady(msgs) && msgs != [] {
      assert msgs[|msgs| - 1] == prelude[|msgs| - 1] && Prelim(prelude[|msgs| - 1]);
    }
  }

  // ... and what it succeeds on is one.
  lemma DescribesPrelude(c: Client, st: Prepared, msgs: seq<Msg>)
    requires c.Describes(st, msgs)
    ensures Prelude(msgs)
  {
  }

  lemma PreludeIsFree(prelude: seq<Msg>)
    requires Prelude(prelude)
    ensures ErrorIn(prelude).None?
  {
    ErrorShows(prelude);
  }

  lemma ResultIsFree(extended: bool, start: Option<Plan>, compile: Compile, cfg: Config, mode: Mode, response: seq<Msg>)
    requires Result(extended, start, compile, cfg, mode, response)
    ensures Response(response) && ErrorIn(response).None?
  {
    ErrorShows(response);
    hide RowsIn, Body, Printable, ErrorIn;
  }

  // The statement that a prelude prepares.
  ghost function PreparedBy(c: Client, name: string, prelude: seq<Msg>): Prepared
    requires Prelude(prelude)
  {
    var body := LastDescription(prelude).value;
    DescriptionCompiles(prelude);
    var formats := c.ResultFormats(Describe(body).value);
    Prepared(name, CompilePlan(c.pick, formats, body).value, formats)
  }

  lemma DescriptionCompiles(prelude: seq<Msg>)
    requires Prelude(prelude)
    ensures Describe(LastDescription(prelude).value).Ok?
  {
    var i := WhereDescribed(prelude);
    assert Prelim(prelude[i]);
  }

  lemma {:induction false} WhereDescribed(msgs: seq<Msg>) returns (i: nat)
    requires LastDescription(msgs).Some?
    ensures i < |msgs| && msgs[i] == RowDescription(LastDescription(msgs).value)
  {
    var n := |msgs| - 1;
    if msgs[n].RowDescription? {
      i := n;
    } else {
      i := WhereDescribed(msgs[..n]);
    }
  }

  // ---- A healthy server ----

  // What precedes the result: nothing when the protocol is simple or the statement is cached as
  // entry, otherwise what prepares it.
  ghost predicate Leads(simple: bool, entry: Option<Prepared>, prelude: seq<Msg>)
  {
    if simple || entry.Some? then prelude == [] else Prelude(prelude)
  }

  // The trace of an execution that reads the response.
  ghost function TraceOf(c: Client, simple: bool, entry: Option<Prepared>, prelude: seq<Msg>, response: seq<Msg>): Trace
    requires Leads(simple, entry, prelude)
  {
    if simple then Trace(None, c.Compiler([]), response)
    else
      var st := if entry.Some? then entry.value else PreparedBy(c, "", prelude);
      Trace(Some(st.plan), c.Compiler(st.formats), response)
  }

  // A stream that answers one call.
  ghost predicate Healthy(c: Client, mode: Mode, simple: bool, entry: Option<Prepared>, prelude: seq<Msg>, response: seq<Msg>)
  {
    && Leads(simple, entry, prelude)
    && var t := TraceOf(c, simple, entry, prelude, response); Result(!simple, t.start, t.compile, c.cfg, mode, response)
  }

  lemma HealthyIsFree(c: Client, mode: Mode, simple: bool, entry: Option<Prepared>, prelude: seq<Msg>, response: seq<Msg>)
    requires Healthy(c, mode, simple, entry, prelude, response)
    ensures Response(response) && ErrorIn(response).None? && Leads(simple, entry, prelude)
    ensures if simple || entry.Some? then prelude == [] else Prelude(prelude) && Response(prelude) && ErrorIn(prelude).None?
  {
    hide Result;
    var t := TraceOf(c, simple, entry, prelude, response);
    ResultIsFree(!simple, t.start, t.compile, c.cfg, mode, response);
    if !simple && entry.None? { PreludeIsFree(prelude); }
  }

  // What RunQuery says about a call, as far as it is needed here.
  ghost predicate Told(c: Client, r: Outcome, mode: Mode, args: seq<Arg>, entry: Option<Prepared>, log: Log, out: OutWriter, from: Origin,
                       sent: int, rest: seq<Msg>)
    reads out, out.sink
  {
    && Concluded(r, !c.Simple(args), c.cfg, mode, log, out, from, sent, rest) && r != Failed(Rejected)
    && (log.ran ==> c.StartsFrom(log, c.Simple(args))) && (log.retries == [] ==> c.Starts(r, log, c.Simple(args), entry, args))
    && (c.Simple(args) || entry.Some? ==> Led(log.segments, log.retries))
  }

  // The first two responses of a stream, wherever they are read.
  lemma FirstTwo(a: seq<Msg>, b: seq<Msg>, segments: seq<seq<Msg>>, input: seq<Msg>, more: seq<Msg>)
    requires Concat(segments) <= input && input == a + (b + more) && (a == [] || Response(a)) && Response(b)
    ensures a == [] && |segments| >= 1 && Response(segments[0]) ==> segments[0] == b
    ensures a != [] && |segments| >= 1 && Response(segments[0]) ==> segments[0] == a
    ensures a != [] && |segments| >= 2 && Response(segments[0]) && Response(segments[1]) ==> segments[1] == b
  {
    hide *;
    if |segments| >= 1 && Response(segments[0]) {
      var later := AfterFirst(segments, input);
      if a == [] {
        assert input == b + more;
        SameFirst(b, more, segments[0], later);
      } else {
        SameFirst(a, b + more, segments[0], later);
        if |segments| >= 2 && Response(segments[1]) {
          var last := AfterFirst(segments[1..], later);
          SameFirst(b, more, segments[1], last);
        }
      }
    }
  }

  lemma AfterFirst(segments: seq<seq<Msg>>, input: seq<Msg>) returns (later: seq<Msg>)
    requires Concat(segments) <= input && segments != []
    ensures input == segments[0] + later && Concat(segments[1..]) <= later
  {
    later := input[|segments[0]|..];
    assert Concat(segments) == segments[0] + Concat(segments[1..]);
    assert input[..|segments[0]|] == segments[0];
  }

  lemma NoRetries(c: Client, r: Outcome, mode: Mode, args: seq<Arg>, entry: Option<Prepared>, log: Log, out: OutWriter, from: Origin,
                  sent: int, rest: seq<Msg>, prelude: seq<Msg>, response: seq<Msg>, more: seq<Msg>)
    requires Told(c, r, mode, args, entry, log, out, from, sent, rest) && Willing(out.sink.script)
    requires Healthy(c, mode, c.Simple(args), entry, prelude, response) && from.input == prelude + (response + more)
    ensures log.retries == [] && !SinkFailed(r)
  {
    HealthyIsFree(c, mode, c.Simple(args), entry, prelude, response);
    NeverRefused(r, !c.Simple(args), c.cfg, mode, log, out, from, sent, rest);
    RetriesAre(r, !c.Simple(args), c.cfg, mode, log, out, from, sent, rest);
    hide Healthy, Prelude, Concluded, Response, ErrorIn, Concat;
    FirstTwo(prelude, response, log.segments, from.input, more);
  }

  lemma RetriesAre(r: Outcome, extended: bool, cfg: Config, mode: Mode, log: Log, out: OutWriter, from: Origin, sent: int, rest: seq<Msg>)
    requires Concluded(r, extended, cfg, mode, log, out, from, sent, rest)
    requires forall i :: 0 <= i < |log.retries| ==> !log.retries[i].error.SinkError?
    ensures Concat(log.segments) <= from.input
    ensures log.retries != [] ==>
              && Early(log.segments, log.retries[0]) && Response(log.retries[0].t.msgs) && ErrorIn(log.retries[0].t.msgs).Some?
  {
    hide Ended, NotRunning, Answered, Taken, Refusals, Response, NoReady, ErrorIn, Early, Stands, Rendered, AllPrintable, RowsOf, PlanOf;
    if log.retries != [] {
      assert RetryOk(log.retries[0], mode, out.threshold);
      StateIs(log.retries[0].error);
      RetriedStates();
    }
  }

  // The execution of a healthy call, and where it finds its response.
  lemma RunsAt(c: Client, r: Outcome, mode: Mode, args: seq<Arg>, entry: Option<Prepared>, log: Log, out: OutWriter, from: Origin,
               sent: int, rest: seq<Msg>, prelude: seq<Msg>, response: seq<Msg>, more: seq<Msg>)
    requires Told(c, r, mode, args, entry, log, out, from, sent, rest) && log.retries == []
    requires Healthy(c, mode, c.Simple(args), entry, prelude, response) && from.input == prelude + (response + more)
    requires c.conn.reliable && Wire.UnsupportedArg !in args
    ensures log.ran && log.t.msgs + log.drained + rest == response + more && Leads(c.Simple(args), entry, prelude)
    ensures log.t.(msgs := response) == TraceOf(c, c.Simple(args), entry, prelude, response)
    ensures Result(!c.Simple(args), log.t.start, log.t.compile, c.cfg, mode, response)
  {
    HealthyIsFree(c, mode, c.Simple(args), entry, prelude, response);
    FirstSays(r, !c.Simple(args), c.cfg, mode, log, out, from, sent, rest);
    hide Concluded, Response, ErrorIn, Concat, Result, Prelude;
    if !log.ran {
      PreludePrepares(r.error, log.t.msgs, rest, prelude, response + more);
    } else if c.Simple(args) || entry.Some? {
      assert [] + (response + more) == response + more && [] + (log.t.msgs + log.drained + rest) == log.t.msgs + log.drained + rest;
    } else {
      DescribesPrelude(c, log.st, log.prelude);
      SamePrelude(c, log.st, log.prelude, prelude, log.t.msgs + log.drained + rest, response + more);
    }
  }

  lemma FirstSays(r: Outcome, extended: bool, cfg: Config, mode: Mode, log: Log, out: OutWriter, from: Origin, sent: int, rest: seq<Msg>)
    requires Concluded(r, extended, cfg, mode, log, out, from, sent, rest) && log.retries == []
    ensures log.ran ==> from.input == log.prelude + (log.t.msgs + log.drained + rest)
    ensures !log.ran ==>
              && r.Failed?
              && (r.error.SendError? || r.error.ArgError? || r.error.Rejected?
                  || (from.input == log.t.msgs + rest && DescribeFails(r.error, log.t.msgs, rest)))
  {
    hide Ended, NotRunning, Answered, RetriesOk, Placed, Taken, Refusals, Response, DescribeFails;
  }

  lemma SamePrelude(c: Client, st: Prepared, msgs: seq<Msg>, prelude: seq<Msg>, after: seq<Msg>, rest: seq<Msg>)
    requires c.Describes(st, msgs) && Prelude(prelude) && msgs + after == prelude + rest
    ensures msgs == prelude && after == rest
    ensures st.plan == PreparedBy(c, "", prelude).plan && st.formats == PreparedBy(c, "", prelude).formats
  {
    SameFirst(msgs, after, prelude, rest);
  }

  /** Over a connection that works, with arguments that can be encoded and a writer that takes
      everything, a call succeeds on every healthy stream: it reads the answers and nothing else,
      and its output is exactly the rendering of the result. */
  lemma CallSucceeds(c: Client, r: Outcome, mode: Mode, args: seq<Arg>, entry: Option<Prepared>, log: Log, out: OutWriter, from: Origin,
                     sent: int, rest: seq<Msg>, prelude: seq<Msg>, response: seq<Msg>, more: seq<Msg>)
    requires Told(c, r, mode, args, entry, log, out, from, sent, rest) && Willing(out.sink.script)
    requires Healthy(c, mode, c.Simple(args), entry, prelude, response) && from.input == prelude + (response + more)
    requires c.conn.reliable && Wire.UnsupportedArg !in args
    ensures r.Fine? && rest == more && log.retries == [] && Leads(c.Simple(args), entry, prelude)
    ensures log.t == TraceOf(c, c.Simple(args), entry, prelude, response)
    ensures AllPrintable(mode, RowsOf(log.t)) && from.torn <= out.sink.bytes && Gained(from, out) == RenderedOf(mode, log.t)
  {
    hide *;
    ToldIs(c, r, mode, args, entry, log, out, from, sent, rest);
    NoRetries(c, r, mode, args, entry, log, out, from, sent, rest, prelude, response, more);
    RunsAt(c, r, mode, args, entry, log, out, from, sent, rest, prelude, response, more);
    HealthyIsFree(c, mode, c.Simple(args), entry, prelude, response);
    RunEnds(r, !c.Simple(args), c.cfg, mode, log, out, from, sent, rest);
    OutcomeExact(r, !c.Simple(args), c.cfg, mode, log.t, log.drained, log.rows, out, rest, response, more);
    ExactlyOnce(!c.Simple(args), c.cfg, mode, log, out, from, sent, rest);
    NothingBefore(RenderedOf(mode, log.t));
  }

  lemma NothingBefore(text: bytes)
    ensures Taken([]) + text == text
  {
  }

  lemma ToldIs(c: Client, r: Outcome, mode: Mode, args: seq<Arg>, entry: Option<Prepared>, log: Log, out: OutWriter, from: Origin, sent: int, rest: seq<Msg>)
    requires Told(c, r, mode, args, entry, log, out, from, sent, rest)
    ensures Concluded(r, !c.Simple(args), c.cfg, mode, log, out, from, sent, rest)
  {
  }

  lemma RunEnds(r: Outcome, extended: bool, cfg: Config, mode: Mode, log: Log, out: OutWriter, from: Origin, sent: int, rest: seq<Msg>)
    requires Concluded(r, extended, cfg, mode, log, out, from, sent, rest) && log.ran
    ensures Ended(r, extended, cfg, mode, log.t, log.drained, log.rows, out, rest)
  {
    hide Ended, NotRunning, Answered, RetriesOk, Placed, Taken, Refusals, First;
  }
}
