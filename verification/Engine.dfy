/** The client of pg2json/query.go: preparing and executing statements, and the two nested retry
    loops around them. */
module Engine {
  import opened Bytes
  import opened Rows
  import opened Headers
  import opened Rendering
  import opened Output
  import opened Statements
  import opened Executions
  import opened Retries
  import Wire

  type Arg = Wire.Arg

  // The cached statement for sql.
  function Lookup(byKey: map<string, Prepared>, sql: string): Option<Prepared> { if sql in byKey then Some(byKey[sql]) else None }

  lemma LookupIs(byKey: map<string, Prepared>, sql: string)
    ensures Lookup(byKey, sql) == if sql in byKey then Some(byKey[sql]) else None
  {
  }

  class Client {
    const cfg: Config
    const pick: Picker
    const hasBinary: int -> bool
    const binaryOids: set<int>
    const conn: Conn
    const stmts: StmtCache

    constructor (cfg: Config, pick: Picker, hasBinary: int -> bool, binaryOids: set<int>, conn: Conn)
      ensures this.cfg == cfg && this.conn == conn && fresh(stmts)
    {
      this.cfg, this.pick, this.hasBinary, this.binaryOids, this.conn := cfg, pick, hasBinary, binaryOids, conn;
      stmts := new StmtCache(cfg.cacheSize);
    }

    // PickResultFormats, then the upgrade of the declared OIDs.
    function ResultFormats(fields: seq<FieldDesc>): seq<int>
    {
      seq(|fields|, i requires 0 <= i < |fields| =>
        if hasBinary(fields[i].typeOid) || fields[i].typeOid in binaryOids then 1 else 0)
    }

    // st is what the description in msgs compiles to.
    ghost predicate Describes(st: Prepared, msgs: seq<Msg>)
    {
      var last := LastDescription(msgs);
      && Response(msgs) && ErrorIn(msgs).None? && last.Some? && Describe(last.value).Ok?
      && st.formats == ResultFormats(Describe(last.value).value)
      && CompilePlan(pick, st.formats, last.value) == Some(st.plan) && forall i :: 0 <= i < |msgs| - 1 ==> Prelim(msgs[i])
    }

    function Compiler(formats: seq<int>): Compile { body => CompilePlan(pick, formats, body) }

    method PrepareAndDescribe(sql: string)
      returns (r: Outcome, st: Prepared, ghost msgs: seq<Msg>)
      modifies conn, stmts
      ensures stmts.Value() == old(stmts.Value()).(counter := old(stmts.counter) + 1, closed := [])
      ensures st.name == NameOf(stmts.counter) && !conn.unfinished
      ensures old(conn.input) == msgs + conn.input
      ensures r.Failed? && r.error.SendError? ==> conn.requests == old(conn.requests) && msgs == []
      ensures r.Failed? ==> !r.error.SinkError? && !Capped(r) && !r.error.ArgError?
      ensures !(r.Failed? && r.error.SendError?) ==> conn.requests == old(conn.requests) + 1
      ensures r.Fine? ==> Describes(st, msgs)
      ensures r.Failed? ==> (!conn.reliable && r.error.SendError?) || DescribeFails(r.error, msgs, conn.input)
    {
      var name := stmts.NextName();
      var dead := stmts.TakePendingClose();
      st, msgs := Prepared(name, [], []), [];
      var sent := conn.Flush();
      if !sent { return Failed(SendError), st, []; }
      var fields;
      r, fields, msgs := DescribeLoop();
      if r.Fine? {
        st := st.(formats := ResultFormats(fields));
        st := st.(plan := seq(|fields|, i requires 0 <= i < |fields| => Column(fields[i].name, pick(fields[i].typeOid, FormatOf(st.formats, |fields|, i)))));
      }
    }

    // The message loop of prepareAndDescribe.
    method DescribeLoop() returns (r: Outcome, fields: seq<FieldDesc>, ghost msgs: seq<Msg>)
      modifies conn`input
      ensures old(conn.input) == msgs + conn.input
      ensures r.Fine? ==> Response(msgs) && ErrorIn(msgs).None? && LastDescription(msgs).Some? && Describe(LastDescription(msgs).value) == Ok(fields)
      ensures r.Fine? ==> forall i :: 0 <= i < |msgs| - 1 ==> Prelim(msgs[i])
      ensures r.Failed? ==> DescribeFails(r.error, msgs, conn.input)
    {
      hide *;
      r, fields, msgs := Fine, [], [];
      var planned := false;
      var pgError: Option<string> := None;
      ghost var inp := conn.input;
      NothingDescribed();
      while true
        invariant inp == msgs + conn.input && Describing(msgs, pgError, planned, fields)
        decreases |conn.input|
      {
        var m := conn.ReadMessage();
        if m.None? {
          DescribeCut(msgs, pgError, planned, fields);
          return Failed(WireError), [], msgs;
        }
        ghost var was := msgs;
        assert inp == (msgs + [m.value]) + conn.input;
        msgs := msgs + [m.value];
        DescribeMore(was, pgError, planned, fields, m.value);
        DescribeEnds(was, pgError, planned, fields, m.value, conn.input);
        match m.value
        case ParseComplete | ParameterDescription | CloseComplete | NoData | NoticeResponse | ParameterStatus =>
        case RowDescription(body) =>
          var d := ParseRowDescription(body);
          if d.Err? { return Failed(BadDescription), [], msgs; }
          fields, planned := d.value, true;
        case ErrorResponse(code) =>
          pgError := Some(code);
        case ReadyForQuery =>
          if pgError.Some? { return Failed(PgError(pgError.value)), [], msgs; }
          if !planned { return Failed(NoRowDescription), [], msgs; }
          return;
        case _ =>
          return Failed(Unexpected), [], msgs;
      }
    }

    method BindExecute(out: OutWriter, mode: Mode, st: Prepared, args: seq<Arg>)
      returns (r: Outcome, plan: Plan, ghost ran: bool, ghost t: Trace, ghost drained: seq<Msg>, ghost rows: seq<PlannedRow>)
      requires out.Fresh()
      modifies conn, out, out.sink
      ensures t.start == Some(st.plan) && t.compile == Compiler(st.formats)
      ensures old(conn.input) == t.msgs + drained + conn.input
      ensures ran ==> conn.requests == old(conn.requests) + 1 && Ended(r, true, cfg, mode, t, drained, rows, out, conn.input)
      ensures Answered(r, old(out.sink.torn), old(out.sink.refused), out.sink)
      ensures conn.reliable && Wire.UnsupportedArg !in args ==> ran
      ensures !ran ==> out.sink.torn == old(out.sink.torn) && out.sink.refused == old(out.sink.refused)
      ensures !ran ==> (r == Failed(ArgError) || r == Failed(SendError)) && out.Fresh() && conn.requests == old(conn.requests)
      ensures r == Failed(ArgError) <==> Wire.UnsupportedArg in args
      ensures (r == Failed(SendError) ==> !conn.reliable) && r != Failed(Rejected)
      // What an unsupported argument leaves in the write buffer (`Wire.ExecuteThenPrepare`).
      ensures conn.unfinished <==> r == Failed(ArgError)
      ensures ran && Settled(r) ==> Some(plan) == PlanOf(t)
    {
      ran, plan, t, drained, rows := false, st.plan, Trace(Some(st.plan), Compiler(st.formats), []), [], [];
      for i := 0 to |args|
        invariant Wire.UnsupportedArg !in args[..i]
      {
        if args[i].UnsupportedArg? {
          conn.unfinished := true;
          NotRefused(Failed(ArgError), out.sink);
          return Failed(ArgError), plan, ran, t, drained, rows;
        }
      }
      hide Ended, Answered;
      var sent := conn.Flush();
      if !sent {
        NotRefused(Failed(SendError), out.sink);
        return Failed(SendError), plan, ran, t, drained, rows;
      }
      var newPlan;
      r, newPlan, t, drained, rows := MessageLoop(true, cfg, Compiler(st.formats), Some(st.plan), conn, out, mode);
      EndedNoArg(r, true, cfg, mode, t, drained, rows, out, conn.input);
      plan, ran := newPlan.value, true;
    }

    /** The cached statement for sql, or a new one. On the cache this is a hit, or a miss as the
        client and its backends see it (`Statements.Next`). */
    method Statement(sql: string) returns (r: Outcome, st: Prepared, fromCache: bool, ghost msgs: seq<Msg>, ghost a: Action)
      modifies conn, stmts
      ensures fromCache <==> sql in old(stmts.byKey)
      ensures old(conn.input) == msgs + conn.input
      ensures old(conn.requests) <= conn.requests <= old(conn.requests) + 1 && !Capped(r)
      ensures fromCache ==> r.Fine? && st == old(stmts.byKey)[sql] && msgs == [] && conn.requests == old(conn.requests)
      ensures !fromCache && Synced(r) ==> conn.requests == old(conn.requests) + 1 && Response(msgs)
      ensures !fromCache && r.Fine? ==> Describes(st, msgs)
      ensures r.Failed? ==> (!conn.reliable && r.error.SendError?) || DescribeFails(r.error, msgs, conn.input)
      ensures r.Failed? ==> !r.error.SinkError? && (r.error.PgError? ==> ErrorIn(msgs) == Some(r.error.code))
      ensures fromCache ==> stmts.Value() == old(stmts.Value()) && conn.unfinished == old(conn.unfinished)
      ensures !fromCache ==> !conn.unfinished && r != Failed(ArgError)
      ensures !fromCache ==>
                && a.Miss? && a.sql == sql && a.ok == r.Fine? && (a.ok ==> a.served && a.accepted && Evicts(old(stmts.Value()), a.victim))
                && stmts.Value() == MissCache(old(stmts.Value()), NameOf(old(stmts.counter) + 1), a)
                && (a.ok ==> st == Prepared(NameOf(old(stmts.counter) + 1), a.plan, a.formats))
    {
      hide Response, Describes, NameOf, ErrorIn, LastDescription;
      a := Hit(sql);
      var got := stmts.Get(sql);
      fromCache := got.Some?;
      if fromCache { return Fine, got.value, true, [], a; }
      r, st, msgs := PrepareAndDescribe(sql);
      ghost var victim := None;
      if r.Failed? {
        stmts.Invalidate(sql);
      } else {
        victim := stmts.Put(sql, st);
      }
      a := Miss(sql, st.plan, st.formats, r.Fine?, r.Fine?, r.Fine?, victim);
    }

    // One pass of runCached's loop.
    method Attempt(out: OutWriter, mode: Mode, sql: string, args: seq<Arg>) returns (r: Outcome, fromCache: bool, ghost log: Log)
      requires out.Fresh()
      modifies conn, stmts, out, out.sink
      ensures fromCache <==> sql in old(stmts.byKey)
      ensures Concluded(r, true, cfg, mode, log, out, Origin(old(conn.input), old(out.sink.torn), old(out.sink.refused)), conn.requests - old(conn.requests), conn.input)
      ensures log.retries == [] && (SinkFailed(r) ==> log.ran)
      ensures r.Fine? || r.error.SinkError? || (fromCache && r.error.PgError?) ==> log.ran
      ensures old(conn.requests) <= conn.requests <= old(conn.requests) + (if fromCache then 1 else 2)
      ensures log.ran ==> log.t.start == Some(log.st.plan) && log.t.compile == Compiler(log.st.formats)
      ensures log.ran && fromCache ==> Straight(r, log, old(stmts.byKey)[sql], conn.requests - old(conn.requests))
      ensures r.Fine? && !fromCache ==> |log.segments| == 2 && Describes(log.st, log.segments[0])
      ensures log.ran && Settled(r) ==> sql in stmts.byKey && PlanOf(log.t) == Some(stmts.byKey[sql].plan)
      ensures fromCache ==> sql in stmts.byKey && (conn.reliable && Wire.UnsupportedArg !in args ==> log.ran)
      ensures conn.unfinished <==> r == Failed(ArgError)
      ensures log.ran ==> Opens(log, false, Lookup(old(stmts.byKey), sql))
      ensures (conn.reliable ==> r != Failed(SendError)) && (r == Failed(ArgError) ==> Wire.UnsupportedArg in args) && r != Failed(Rejected)
    {
      hide *;
      ghost var from, base := Origin(conn.input, out.sink.torn, out.sink.refused), conn.requests;
      ghost var msgs, a;
      var st;
      r, st, fromCache, msgs, a := Statement(sql);
      SettledIs(r);
      if r.Failed? {
        FailsToDescribe(r.error, msgs, conn.input);
        log := NotRun(r, true, cfg, mode, st, out, from, msgs, conn.requests - base, conn.input);
        return;
      }
      NonEmptyResponse(msgs);
      ghost var segments := StatementSync(from.input, fromCache, msgs, conn.input);
      r, log := Execute(out, mode, sql, st, args, from, msgs, segments, conn.requests - base);
      if log.ran {
        LookupIs(old(stmts.byKey), sql);
        OpensIs(log, st, msgs, if fromCache then Some(st) else None);
        if fromCache { StraightIs(r, log, st); }
      }
    }

    // bindExecute with the statement st, which keeps the plan of a new description.
    method Execute(out: OutWriter, mode: Mode, sql: string, st: Prepared, args: seq<Arg>,
                   ghost from: Origin, ghost prelude: seq<Msg>, ghost segments: seq<seq<Msg>>, ghost sent: int)
      returns (r: Outcome, ghost log: Log)
      requires out.Fresh() && InSync(from.input, segments, sent, conn.input) && segments == if prelude == [] then [] else [prelude]
      requires from.torn == out.sink.torn && from.refused == out.sink.refused
      modifies conn, stmts, out, out.sink
      ensures Concluded(r, true, cfg, mode, log, out, from, sent + conn.requests - old(conn.requests), conn.input)
      ensures log.retries == [] && (SinkFailed(r) ==> log.ran) && log.st == st && (log.ran ==> log.prelude == prelude)
      ensures r.Fine? || r.error.SinkError? || r.error.PgError? ==> log.ran
      ensures conn.requests == old(conn.requests) + (if log.ran then 1 else 0)
      ensures log.ran ==> log.t.start == Some(st.plan) && log.t.compile == Compiler(st.formats)
      ensures log.ran ==> log.segments ==
                          if Settled(r) then segments + [log.t.msgs]
                          else if Capped(r) && Response(log.t.msgs + log.drained) then segments + [log.t.msgs + log.drained] else segments
      ensures sql in stmts.byKey && (log.ran && Settled(r) ==> PlanOf(log.t) == Some(stmts.byKey[sql].plan))
      ensures conn.reliable && Wire.UnsupportedArg !in args ==> log.ran
      ensures conn.unfinished <==> r == Failed(ArgError)
      ensures (conn.reliable ==> r != Failed(SendError)) && (r == Failed(ArgError) ==> Wire.UnsupportedArg in args) && r != Failed(Rejected)
    {
      hide *;
      ghost var ran, t, drained, rows;
      var plan;
      r, plan, ran, t, drained, rows := BindExecute(out, mode, st, args);
      SettledIs(r);
      stmts.byKey := stmts.byKey[sql := st.(plan := plan)];
      if ran {
        log := ExecutionConcludes(r, true, cfg, mode, st, t, drained, rows, out, from, prelude, segments, sent, conn.input);
      } else {
        log := NotStarted(r, true, cfg, mode, st, out, from, sent, conn.input);
      }
    }

    /** runCached: an error with SQLSTATE 26000 for a cached name, the server's or the writer's,
        prepares it afresh, once, if nothing was committed. The return after its loop is never
        reached. */
    method RunCached(out: OutWriter, mode: Mode, sql: string, args: seq<Arg>) returns (r: Outcome, ghost log: Log, ghost retried: bool)
      requires out.Fresh()
      modifies conn, stmts, out, out.sink
      ensures Concluded(r, true, cfg, mode, log, out, Origin(old(conn.input), old(out.sink.torn), old(out.sink.refused)), conn.requests - old(conn.requests), conn.input)
      ensures SinkFailed(r) ==> log.ran
      ensures old(conn.requests) <= conn.requests <= old(conn.requests) + 3
      ensures log.ran ==> log.t.start == Some(log.st.plan) && log.t.compile == Compiler(log.st.formats)
      ensures r.Fine? && |log.segments| == 1 ==> sql in old(stmts.byKey) && log.st == old(stmts.byKey)[sql]
      ensures r.Fine? && |log.segments| != 1 ==> |log.segments| >= 2 && Describes(log.st, log.segments[|log.segments| - 2])
      // It retries exactly what looks stale: a cached name, 26000, nothing committed.
      ensures retried ==> sql in old(stmts.byKey) && |log.retries| == 1 && StateOf(log.retries[0].error) == Some("26000")
      ensures !retried ==> log.retries == []
      ensures sql in old(stmts.byKey) && r.Failed? && StateOf(r.error) == Some("26000") && !out.committed ==> retried
      ensures !retried && sql in old(stmts.byKey) ==>
                && conn.requests <= old(conn.requests) + 1 && sql in stmts.byKey
                && (log.ran ==> Straight(r, log, old(stmts.byKey)[sql], conn.requests - old(conn.requests)))
                && (conn.reliable && Wire.UnsupportedArg !in args ==> log.ran)
      ensures log.ran && Settled(r) ==> sql in stmts.byKey && PlanOf(log.t) == Some(stmts.byKey[sql].plan)
      ensures conn.unfinished <==> r == Failed(ArgError)
      ensures log.ran && !retried ==> Opens(log, false, Lookup(old(stmts.byKey), sql))
      ensures sql in old(stmts.byKey) ==> Direct(r, log)
      ensures (conn.reliable ==> r != Failed(SendError)) && (r == Failed(ArgError) ==> Wire.UnsupportedArg in args) && r != Failed(Rejected)
    {
      hide *;
      retried := false;
      ghost var from, base := Origin(conn.input, out.sink.torn, out.sink.refused), conn.requests;
      ghost var segments: seq<seq<Msg>>, retries: seq<Retry> := [], [];
      ghost var st0 := if sql in stmts.byKey then stmts.byKey[sql] else Prepared("", [], []);
      NothingRetried(from, mode, out.threshold);
      var attempt := 0;
      while attempt < 2
        invariant attempt <= 1 && |segments| == attempt == |retries| == conn.requests - base
        invariant out.Fresh() && Retried(from, segments, retries, mode, out.threshold, attempt, Origin(conn.input, out.sink.torn, out.sink.refused))
        invariant attempt == 0 ==> Origin(conn.input, out.sink.torn, out.sink.refused) == from && stmts.byKey == old(stmts.byKey)
        invariant attempt == 1 ==> sql !in stmts.byKey && sql in old(stmts.byKey) && StateOf(retries[0].error) == Some("26000")
        invariant attempt == 1 ==> segments[0] == retries[0].t.msgs
        invariant retried == (attempt == 1)
      {
        ghost var now, nowSent := Origin(conn.input, out.sink.torn, out.sink.refused), conn.requests;
        var fromCache;
        r, fromCache, log := Attempt(out, mode, sql, args);
        SettledIs(r);
        var again := r.Failed? && attempt == 0 && fromCache && StateOf(r.error) == Some("26000") && !out.committed;
        if again {
          StateIs(r.error);
          stmts.Invalidate(sql);
          ghost var w := LooksStale(r, true, cfg, mode, log, out, from, conn.requests - nowSent, conn.input, st0);
          out.Reset();
          segments, retries, retried := log.segments, [w], true;
          attempt := attempt + 1;
          continue;
        }
        if fromCache && log.ran && r.Fine? { StraightSays(r, log, st0); }
        if attempt == 0 && fromCache { DirectIs(r, log, st0); }
        if attempt == 1 {
          log := Second(r, true, cfg, mode, log, out, now, conn.requests - nowSent, conn.input, from, segments, retries);
        }
        if attempt == 1 { DirectLater(r, log); }
        return;
      }
      assert false;
    }

    // A stale cached statement: one execution, for one request, given up.
    lemma LooksStale(r: Outcome, extended: bool, cfg: Config, mode: Mode, log: Log, out: OutWriter, from: Origin, sent: int, rest: seq<Msg>, st: Prepared)
      returns (w: Retry)
      requires Concluded(r, extended, cfg, mode, log, out, from, sent, rest) && r.Failed? && StateOf(r.error) == Some("26000")
      requires !out.committed && log.ran && log.retries == [] && Straight(r, log, st, sent)
      ensures out.Booked() && w.error == r.error && sent == 1 && |log.segments| == 1 && log.segments[0] == w.t.msgs
      ensures Retried(from, log.segments, [w], mode, out.threshold, 1, Origin(rest, out.sink.bytes, out.sink.refused))
    {
      hide *;
      RetriedStates();
      StateIs(r.error);
      w := RetryOf(r, extended, cfg, mode, log, out, from, sent, rest);
      OneSegment(log, w);
      StraightSays(r, log, st);
    }

    // The execution after it.
    lemma Second(r: Outcome, extended: bool, cfg: Config, mode: Mode, was: Log, out: OutWriter, now: Origin, sent: int, rest: seq<Msg>,
                 from: Origin, segments: seq<seq<Msg>>, retries: seq<Retry>)
      returns (log: Log)
      requires Concluded(r, extended, cfg, mode, was, out, now, sent, rest) && was.retries == []
      requires Retried(from, segments, retries, mode, out.threshold, 1, now) && |segments| == 1
      ensures log.ran == was.ran && log.st == was.st && log.t == was.t && log.retries == retries
      ensures Concluded(r, extended, cfg, mode, log, out, from, 1 + sent, rest)
      ensures |log.segments| == 1 + |was.segments|
      ensures |was.segments| == 2 ==> log.segments[|log.segments| - 2] == was.segments[0]
      ensures log.segments[0] == segments[0]
    {
      hide *;
      log := was.(segments := segments + was.segments, retries := retries + was.retries);
      Rebase(r, extended, cfg, mode, was, out, now, sent, rest, from, segments, retries, 1);
      Prepended(segments, was.segments);
      assert retries + was.retries == retries;
    }

    method RunSimple(out: OutWriter, mode: Mode, sql: string) returns (r: Outcome, ghost log: Log)
      requires out.Fresh()
      modifies conn, out, out.sink
      ensures Concluded(r, false, cfg, mode, log, out, Origin(old(conn.input), old(out.sink.torn), old(out.sink.refused)),
                        conn.requests - old(conn.requests), conn.input)
      ensures log.retries == [] && (SinkFailed(r) ==> log.ran)
      ensures old(conn.requests) <= conn.requests <= old(conn.requests) + 1
      ensures log.ran ==> log.t.start == None && log.t.compile == Compiler([]) && log.prelude == []
      ensures Direct(r, log)
      ensures !conn.unfinished && r != Failed(ArgError) && (conn.reliable ==> log.ran && r != Failed(SendError)) && r != Failed(Rejected)
    {
      hide *;
      ghost var from := Origin(conn.input, out.sink.torn, out.sink.refused);
      ghost var none := Prepared("", [], []);
      NothingRead(from.input);
      var sent := conn.Flush();
      if !sent {
        log := NotStarted(Failed(SendError), false, cfg, mode, none, out, from, 0, conn.input);
        SettledIs(Failed(SendError));
        DirectUnsent(Failed(SendError), log);
        return Failed(SendError), log;
      }
      var plan;
      ghost var t, drained, rows;
      r, plan, t, drained, rows := MessageLoop(false, cfg, Compiler([]), None, conn, out, mode);
      EndedNoArg(r, false, cfg, mode, t, drained, rows, out, conn.input);
      log := ExecutionConcludes(r, false, cfg, mode, none, t, drained, rows, out, from, [], [], 0, conn.input);
      StraightIs(r, log, none);
      DirectIs(r, log, none);
    }

    /** runQuery: up to three executions, retried on SQLSTATEs 40001 and 40P01, the server's or the
        writer's, as long as nothing is committed. selectOk stands for rejectNonSelect's verdict;
        the context of a live caller never ends. */
    method RunQuery(out: OutWriter, mode: Mode, sql: string, selectOk: bool, args: seq<Arg>, live: bool)
      returns (r: Outcome, ghost log: Log, ghost abandoned: seq<Outcome>, ghost cancelled: bool)
      requires out.Fresh()
      modifies conn, stmts, out, out.sink
      ensures Concluded(r, !Simple(args), cfg, mode, log, out, Origin(old(conn.input), old(out.sink.torn), old(out.sink.refused)),
                        conn.requests - old(conn.requests), conn.input)
      ensures old(conn.requests) <= conn.requests <= old(conn.requests) + 3 * (|abandoned| + 1)
      // Only serialization failures and deadlocks are abandoned, twice at most, and they are
      // whenever that is configured, nothing is committed and the caller has not given up.
      ensures |abandoned| <= 2 && (abandoned != [] ==> cfg.retrySerialization) && (live ==> !cancelled)
      ensures AllSerialization(abandoned)
      ensures cfg.retrySerialization && Serialization(r) && !out.committed && !cancelled ==> |abandoned| == 2
      ensures r != Failed(Rejected) ==> (conn.unfinished <==> r == Failed(ArgError))
      ensures log.ran ==> StartsFrom(log, Simple(args))
      // With a cached statement that is not found stale, every execution takes one request.
      ensures live && selectOk && Plain(sql in old(stmts.byKey), args) && NeverStale(log.retries) ==>
                OneEach(log, |abandoned|, conn.requests - old(conn.requests), old(stmts.byKey)[sql])
      // In so many words: which errors are retried, and which protocol is used.
      ensures forall i :: 0 <= i < |abandoned| ==> abandoned[i] in RETRIABLE
      ensures cfg.retrySerialization && !out.committed && !cancelled && |abandoned| < 2 ==> r !in RETRIABLE
      ensures log.ran ==> (log.t.start.None? <==> cfg.cacheSize < 0 && args == [])
      ensures selectOk && live ==> r != Failed(Rejected)
      ensures Simple(args) || sql in old(stmts.byKey) ==> Led(log.segments, log.retries)
      ensures r != Failed(Rejected) && log.retries == [] ==>
                Starts(r, log, Simple(args), Lookup(old(stmts.byKey), sql), args)
    {
      hide *;
      abandoned, cancelled := [], false;
      var ctxDone: bool := *;
      if !selectOk || (ctxDone && !live) {
        NoneAbandoned();
        NoneLed();
        r := Failed(Rejected);
        log := NotStarted(r, !Simple(args), cfg, mode, Prepared("", [], []), out, Origin(conn.input, out.sink.torn, out.sink.refused), 0, conn.input);
        SerializationIs(r);
        StateIs(r.error);
        Spelt(r, abandoned);
        return;
      }
      r, log, abandoned, cancelled := RetryLoop(out, mode, sql, args, live);
      Spelt(r, abandoned);
      if log.ran { Protocol(log, args); }
    }

    lemma Protocol(log: Log, args: seq<Arg>)
      requires StartsFrom(log, Simple(args))
      ensures log.t.start.None? <==> cfg.cacheSize < 0 && args == []
    {
    }

    // Its loop.
    method RetryLoop(out: OutWriter, mode: Mode, sql: string, args: seq<Arg>, live: bool)
      returns (r: Outcome, ghost log: Log, ghost abandoned: seq<Outcome>, ghost cancelled: bool)
      requires out.Fresh()
      modifies conn, stmts, out, out.sink
      ensures Concluded(r, !Simple(args), cfg, mode, log, out, Origin(old(conn.input), old(out.sink.torn), old(out.sink.refused)),
                        conn.requests - old(conn.requests), conn.input)
      ensures old(conn.requests) <= conn.requests <= old(conn.requests) + 3 * (|abandoned| + 1)
      ensures |abandoned| <= 2 && (abandoned != [] ==> cfg.retrySerialization) && (live ==> !cancelled)
      ensures AllSerialization(abandoned)
      ensures cfg.retrySerialization && Serialization(r) && !out.committed && !cancelled ==> |abandoned| == 2
      ensures conn.unfinished <==> r == Failed(ArgError)
      ensures log.ran ==> StartsFrom(log, Simple(args))
      ensures live && Plain(sql in old(stmts.byKey), args) && NeverStale(log.retries) ==>
                OneEach(log, |abandoned|, conn.requests - old(conn.requests), old(stmts.byKey)[sql])
      ensures log.retries == [] ==> Starts(r, log, Simple(args), Lookup(old(stmts.byKey), sql), args)
      ensures r != Failed(Rejected)
      ensures Simple(args) || sql in old(stmts.byKey) ==> Led(log.segments, log.retries)
    {
      hide *;
      ghost var from := Origin(conn.input, out.sink.torn, out.sink.refused);
      ghost var base: int := conn.requests;
      ghost var segments: seq<seq<Msg>>, retries: seq<Retry> := [], [];
      ghost var st0 := if sql in stmts.byKey then stmts.byKey[sql] else Prepared("", [], []);
      SteadySays();
      NothingRetried(from, mode, out.threshold);
      NoneStale();
      NoneAbandoned();
      PlainIs(sql in stmts.byKey, args);
      NoneLed();
      abandoned := [];
      var attempt := 0;
      while true
        invariant attempt <= 2 && base <= conn.requests <= base + 3 * attempt
        invariant attempt > 0 ==> cfg.retrySerialization
        invariant |abandoned| == attempt && AllSerialization(abandoned)
        invariant out.Fresh() && Retried(from, segments, retries, mode, out.threshold, conn.requests - base, Origin(conn.input, out.sink.torn, out.sink.refused))
        invariant Plain(sql in old(stmts.byKey), args) && NeverStale(retries) ==> sql in stmts.byKey && Steady(segments, retries, attempt, conn.requests - base)
        invariant if attempt == 0 then stmts.byKey == old(stmts.byKey) && retries == [] else retries != []
        invariant Simple(args) || sql in old(stmts.byKey) ==> Led(segments, retries)
        decreases 3 - attempt
      {
        var done;
        PlainIs(sql in stmts.byKey, args);
        done, r, log, segments, retries, cancelled := Round(out, mode, sql, args, live, attempt, from, segments, retries, conn.requests - base, st0);
        if done { return; }
        MoreSerialization(abandoned, r);
        abandoned := abandoned + [r];
        attempt := attempt + 1;
      }
    }

    // A cached statement, on a connection and with arguments that do not fail.
    ghost predicate Plain(cached: bool, args: seq<Arg>) { !Simple(args) && cached && conn.reliable && Wire.UnsupportedArg !in args }

    lemma PlainIs(cached: bool, args: seq<Arg>)
      ensures Plain(cached, args) <==> !Simple(args) && cached && conn.reliable && Wire.UnsupportedArg !in args
    {
    }

    // One pass of that loop: an execution, and whether it is the last.
    method Round(out: OutWriter, mode: Mode, sql: string, args: seq<Arg>, live: bool, attempt: nat,
                 ghost from: Origin, ghost segments: seq<seq<Msg>>, ghost retries: seq<Retry>, ghost sent: int, ghost st0: Prepared)
      returns (done: bool, r: Outcome, ghost log: Log, ghost segments': seq<seq<Msg>>, ghost retries': seq<Retry>, ghost cancelled: bool)
      requires attempt <= 2 && out.Fresh()
      requires Retried(from, segments, retries, mode, out.threshold, sent, Origin(conn.input, out.sink.torn, out.sink.refused))
      requires attempt == 0 && sql in stmts.byKey ==> st0 == stmts.byKey[sql]
      modifies conn, stmts, out, out.sink
      ensures old(conn.requests) <= conn.requests <= old(conn.requests) + 3 && r != Failed(Rejected) && (live ==> !cancelled)
      ensures done ==> Concluded(r, !Simple(args), cfg, mode, log, out, from, sent + (conn.requests - old(conn.requests)), conn.input)
      ensures done ==> (log.ran ==> StartsFrom(log, Simple(args))) && (conn.unfinished <==> r == Failed(ArgError))
      ensures done && cfg.retrySerialization && Serialization(r) && !out.committed && !cancelled ==> attempt == 2
      ensures done && log.retries == [] ==> retries == [] && Starts(r, log, Simple(args), Lookup(old(stmts.byKey), sql), args)
      ensures done && live && Plain(sql in old(stmts.byKey), args) && NeverStale(log.retries) ==>
                (Steady(segments, retries, attempt, sent) ==> OneEach(log, attempt, sent + (conn.requests - old(conn.requests)), st0))
      ensures !done ==>
                && out.Fresh() && Serialization(r) && attempt < 2 && cfg.retrySerialization && retries' != []
                && Retried(from, segments', retries', mode, out.threshold, sent + (conn.requests - old(conn.requests)),
                           Origin(conn.input, out.sink.torn, out.sink.refused))
      ensures !done && Plain(sql in old(stmts.byKey), args) && NeverStale(retries') ==>
                && sql in stmts.byKey
                && (Steady(segments, retries, attempt, sent) ==> Steady(segments', retries', attempt + 1, sent + (conn.requests - old(conn.requests))))
      ensures NeverStale(if done then log.retries else retries') ==> NeverStale(retries)
      ensures (retries == [] ==> Simple(args) || sql in old(stmts.byKey)) && Led(segments, retries) ==>
                if done then Led(log.segments, log.retries) else Led(segments', retries')
    {
      hide *;
      ghost var now := Origin(conn.input, out.sink.torn, out.sink.refused);
      ghost var was: int := conn.requests;
      ghost var st := if sql in stmts.byKey then stmts.byKey[sql] else st0;
      PlainIs(sql in stmts.byKey, args);
      RetriedStart(from, segments, retries, mode, out.threshold, sent, now);
      segments', retries', cancelled := segments, retries, false;
      r, log := Once(out, mode, sql, args);
      ghost var spent := conn.requests - was;
      SerializationIs(r);
      var stop: bool := *;  // the caller's context is done
      stop := stop && !live;
      if r.Fine? || !cfg.retrySerialization || attempt + 1 >= 3 || !Serialization(r) || out.committed || stop {
        ghost var once := log;
        log := Leave(r, !Simple(args), cfg, mode, log, out, now, spent, conn.input, from, segments, retries, sent, attempt, st, st0);
        SameStart(log, once, Simple(args));
        LedOn(segments, retries, r, once);
        if log.retries == [] { SameStarts(r, log, once, Simple(args), Lookup(old(stmts.byKey), sql), args); }
        return true, r, log, segments', retries', stop;
      }
      StateIs(r.error);
      ghost var w;
      w, segments', retries' := Abandon(r, !Simple(args), cfg, mode, log, out, now, spent, conn.input, from, segments, retries, sent, attempt, st);
      LedAgain(segments, retries, r, log, w);
      out.Reset();
      stop := *;  // or becomes done during the backoff
      stop := stop && !live;
      done := stop;
      if stop {
        log := GivenUp(r, !Simple(args), cfg, mode, log, w, out, from, segments', retries', sent + spent, conn.input);
        cancelled := true;
      }
    }

    // The body of that loop: the simple protocol, or the cached statement.
    method Once(out: OutWriter, mode: Mode, sql: string, args: seq<Arg>) returns (r: Outcome, ghost log: Log)
      requires out.Fresh()
      modifies conn, stmts, out, out.sink
      ensures Concluded(r, !Simple(args), cfg, mode, log, out, Origin(old(conn.input), old(out.sink.torn), old(out.sink.refused)),
                        conn.requests - old(conn.requests), conn.input)
      ensures SinkFailed(r) ==> log.ran
      ensures old(conn.requests) <= conn.requests <= old(conn.requests) + 3
      ensures conn.unfinished <==> r == Failed(ArgError)
      ensures log.ran ==> StartsFrom(log, Simple(args))
      ensures !Simple(args) && sql in old(stmts.byKey) && conn.reliable && Wire.UnsupportedArg !in args && NeverStale(log.retries) ==>
                sql in stmts.byKey && Smooth(r, log, old(stmts.byKey)[sql], conn.requests - old(conn.requests))
      ensures log.retries == [] ==> Starts(r, log, Simple(args), Lookup(old(stmts.byKey), sql), args)
      ensures r != Failed(Rejected)
      ensures Simple(args) || sql in old(stmts.byKey) ==> Direct(r, log)
    {
      hide *;
      if Simple(args) {
        ghost var entry := Lookup(stmts.byKey, sql);
        r, log := RunSimple(out, mode, sql);
        StartsFromIs(log);
        if log.ran { OpensIs(log, log.st, [], entry); }
        StartsIs(r, log, true, entry, args);
      } else {
        ghost var retried;
        ghost var entry := Lookup(stmts.byKey, sql);
        r, log, retried := RunCached(out, mode, sql, args);
        StartsFromIs(log);
        LookupIs(old(stmts.byKey), sql);
        if !retried { StartsIs(r, log, false, entry, args); }
        if retried { NotNeverStale(log.retries); } else { SmoothIs(r, log); }
      }
    }

    // Where the first execution comes from: a statement that needs no preparation, a cached one, or
    // one that the messages read before it describe.
    ghost predicate Opens(log: Log, simple: bool, entry: Option<Prepared>)
    {
      if simple then log.prelude == []
      else if entry.Some? then log.prelude == [] && log.st == entry.value
      else Describes(log.st, log.prelude)
    }

    lemma OpensIs(log: Log, st: Prepared, msgs: seq<Msg>, entry: Option<Prepared>)
      requires log.st == st && log.prelude == msgs
      ensures msgs == [] && entry == Some(st) ==> Opens(log, false, entry)
      ensures entry == None && Describes(st, msgs) ==> Opens(log, false, entry)
      ensures msgs == [] ==> Opens(log, true, entry)
    {
    }

    // How a call without retries begins; only a connection or an argument that fails, or a
    // statement that cannot be prepared, keeps it from its execution.
    ghost predicate Starts(r: Outcome, log: Log, simple: bool, entry: Option<Prepared>, args: seq<Arg>)
    {
      && (log.ran ==> Opens(log, simple, entry))
      && (conn.reliable ==> r != Failed(SendError)) && (r == Failed(ArgError) ==> Wire.UnsupportedArg in args)
      && (conn.reliable && Wire.UnsupportedArg !in args && (simple || entry.Some?) ==> log.ran)
    }

    lemma StartsIs(r: Outcome, log: Log, simple: bool, entry: Option<Prepared>, args: seq<Arg>)
      requires log.ran ==> Opens(log, simple, entry)
      requires (conn.reliable ==> r != Failed(SendError)) && (r == Failed(ArgError) ==> Wire.UnsupportedArg in args)
      requires conn.reliable && Wire.UnsupportedArg !in args && (simple || entry.Some?) ==> log.ran
      ensures Starts(r, log, simple, entry, args)
    {
    }

    lemma SameStarts(r: Outcome, log: Log, was: Log, simple: bool, entry: Option<Prepared>, args: seq<Arg>)
      requires Starts(r, was, simple, entry, args) && log.ran == was.ran && log.st == was.st && log.prelude == was.prelude
      ensures Starts(r, log, simple, entry, args)
    {
    }

    // The plan of the last execution: none before a description, or the prepared statement's.
    ghost predicate StartsFrom(log: Log, simple: bool)
    {
      if simple then log.t.start == None && log.t.compile == Compiler([])
      else log.t.start == Some(log.st.plan) && log.t.compile == Compiler(log.st.formats)
    }

    lemma StartsFromIs(log: Log)
      ensures log.t.start == None && log.t.compile == Compiler([]) ==> StartsFrom(log, true)
      ensures log.t.start == Some(log.st.plan) && log.t.compile == Compiler(log.st.formats) ==> StartsFrom(log, false)
    {
    }

    lemma SameStart(log: Log, was: Log, simple: bool)
      requires log.ran == was.ran && log.st == was.st && log.t == was.t && (was.ran ==> StartsFrom(was, simple))
      ensures log.ran ==> StartsFrom(log, simple)
    {
    }

    // What a retry hands on to the next execution, before the writer is reset.
    lemma Abandon(r: Outcome, extended: bool, cfg: Config, mode: Mode, log: Log, out: OutWriter, now: Origin, nowSent: int, rest: seq<Msg>,
                  from: Origin, segments: seq<seq<Msg>>, retries: seq<Retry>, sent: int, attempt: nat, st: Prepared)
      returns (w: Retry, segments': seq<seq<Msg>>, retries': seq<Retry>)
      requires Concluded(r, extended, cfg, mode, log, out, now, nowSent, rest) && Retried(from, segments, retries, mode, out.threshold, sent, now)
      requires Serialization(r) && !out.committed && (SinkFailed(r) ==> log.ran)
      ensures r.Failed? && out.Booked() && retries' != [] && retries'[|retries'| - 1] == w && w.error == r.error && StateOf(r.error) in RETRIED
      ensures segments' == segments + log.segments && retries' == retries + (log.retries + [w]) && w.t == log.t
      ensures segments' != [] && segments'[|segments'| - 1] == w.t.msgs
      ensures Retried(from, segments', retries', mode, out.threshold, sent + nowSent, Origin(rest, out.sink.bytes, out.sink.refused))
      ensures NeverStale(retries') ==> NeverStale(retries) && NeverStale(log.retries)
      ensures Steady(segments, retries, attempt, sent) && Smooth(r, log, st, nowSent) ==> Steady(segments', retries', attempt + 1, sent + nowSent)
    {
      hide *;
      SerializationIs(r);
      StateIs(r.error);
      w := RetryOf(r, extended, cfg, mode, log, out, now, nowSent, rest);
      segments', retries' := segments + log.segments, retries + (log.retries + [w]);
      RetriedOn(from, segments, retries, mode, out.threshold, sent, now, log.segments, log.retries + [w], nowSent, Origin(rest, out.sink.bytes, out.sink.refused));
      StraightSays(r, log, st);
      SmoothIs(r, log);
      MsgsSnoc(segments, retries, log, w, attempt, sent);
    }

    // Without a statement cache, queries without arguments take the simple protocol.
    predicate Simple(args: seq<Arg>) { cfg.cacheSize < 0 && args == [] }
  }

  // A message that may answer Parse and Describe.
  predicate Prelim(m: Msg)
  {
    || m.ParseComplete? || m.ParameterDescription? || m.CloseComplete? || m.NoData? || m.NoticeResponse? || m.ParameterStatus?
    || (m.RowDescription? && Describe(m.body).Ok?)
  }

  // What that loop knows.
  ghost predicate Describing(msgs: seq<Msg>, pgError: Option<string>, planned: bool, fields: seq<FieldDesc>)
  {
    && NoReady(msgs) && pgError == ErrorIn(msgs) && planned == LastDescription(msgs).Some?
    && (planned ==> Describe(LastDescription(msgs).value) == Ok(fields))
    && (pgError.None? ==> forall i :: 0 <= i < |msgs| ==> Prelim(msgs[i]))
  }

  lemma NothingDescribed()
    ensures Describing([], None, false, [])
  {
  }

  lemma DescribeCut(msgs: seq<Msg>, pgError: Option<string>, planned: bool, fields: seq<FieldDesc>)
    requires Describing(msgs, pgError, planned, fields)
    ensures DescribeFails(WireError, msgs, [])
  {
  }

  // One more message that does not end it.
  lemma DescribeMore(msgs: seq<Msg>, pgError: Option<string>, planned: bool, fields: seq<FieldDesc>, m: Msg)
    requires Describing(msgs, pgError, planned, fields)
    ensures m.ParseComplete? || m.ParameterDescription? || m.CloseComplete? || m.NoData? || m.NoticeResponse? || m.ParameterStatus? ==>
              Describing(msgs + [m], pgError, planned, fields)
    ensures m.RowDescription? && Describe(m.body).Ok? ==> Describing(msgs + [m], pgError, true, Describe(m.body).value)
    ensures m.ErrorResponse? ==> Describing(msgs + [m], Some(m.code), planned, fields)
  {
    hide Describe, NoReady, ErrorIn, LastDescription;
    Snoc(None, _ => None, msgs, m);
  }

  // Or one that does.
  lemma DescribeEnds(msgs: seq<Msg>, pgError: Option<string>, planned: bool, fields: seq<FieldDesc>, m: Msg, rest: seq<Msg>)
    requires Describing(msgs, pgError, planned, fields)
    ensures m.RowDescription? && Describe(m.body).Err? ==> DescribeFails(BadDescription, msgs + [m], rest)
    ensures m.ReadyForQuery? && pgError.Some? ==> DescribeFails(PgError(pgError.value), msgs + [m], rest)
    ensures m.ReadyForQuery? && pgError.None? && !planned ==> DescribeFails(NoRowDescription, msgs + [m], rest)
    ensures m.ReadyForQuery? && pgError.None? && planned ==>
              && Response(msgs + [m]) && ErrorIn(msgs + [m]).None? && LastDescription(msgs + [m]).Some?
              && Describe(LastDescription(msgs + [m]).value) == Ok(fields) && forall i :: 0 <= i < |msgs| ==> Prelim((msgs + [m])[i])
    ensures m.BindComplete? || m.DataRow? || m.CommandComplete? || m.EmptyQueryResponse? || m.PortalSuspended? || m.OtherMsg? ==>
              DescribeFails(Unexpected, msgs + [m], rest)
  {
    hide Describe, NoReady, Response, ErrorIn, LastDescription, Prelim;
    Snoc(None, _ => None, msgs, m);
  }

  lemma StatementSync(inp: seq<Msg>, fromCache: bool, msgs: seq<Msg>, rest: seq<Msg>) returns (segments: seq<seq<Msg>>)
    requires inp == msgs + rest && (if fromCache then msgs == [] else Response(msgs))
    ensures segments == if fromCache then [] else [msgs]
    ensures InSync(inp, segments, if fromCache then 0 else 1, rest)
  {
    hide Response;
    segments := if fromCache then [] else [msgs];
    NothingRead(inp);
    if !fromCache {
      OneMore(inp, [], 0, msgs, rest);
      assert [] + [msgs] == [msgs];
    }
  }

  lemma NonEmptyResponse(msgs: seq<Msg>)
    ensures Response(msgs) ==> msgs != []
  {
  }

  lemma FailsToDescribe(e: Error, msgs: seq<Msg>, rest: seq<Msg>)
    ensures DescribeFails(e, msgs, rest) ==> !e.SendError? && !e.ArgError? && !e.Rejected?
  {
  }

  lemma NothingRead(inp: seq<Msg>)
    ensures InSync(inp, [], 0, inp)
  {
  }

  // A call that failed while preparing its statement.
  lemma NotRun(r: Outcome, extended: bool, cfg: Config, mode: Mode, st: Prepared, out: OutWriter, from: Origin, msgs: seq<Msg>, sent: int, rest: seq<Msg>)
    returns (log: Log)
    requires r.Failed? && out.Fresh() && !Capped(r) && !SinkFailed(r) && from.input == msgs + rest
    requires from.torn == out.sink.torn && from.refused == out.sink.refused
    requires Synced(r) ==> sent == 1 && Response(msgs)
    requires r.error.PgError? ==> ErrorIn(msgs) == Some(r.error.code)
    requires r.error.SendError? || DescribeFails(r.error, msgs, rest)
    ensures !log.ran && log.retries == [] && Concluded(r, extended, cfg, mode, log, out, from, sent, rest)
  {
    log := Log(if Synced(r) then [msgs] else [], [], false, st, [], Trace(None, _ => None, msgs), [], []);
    assert from.torn + [] == from.torn && from.refused + [] == from.refused;
    hide Response, NoReady, ErrorIn, DescribeFails;
    if Synced(r) {
      var _ := StatementSync(from.input, false, msgs, rest);
      StandsIs(from.input, [msgs], 1, rest);
    }
  }

  lemma NotStarted(r: Outcome, extended: bool, cfg: Config, mode: Mode, st: Prepared, out: OutWriter, from: Origin, sent: int, rest: seq<Msg>)
    returns (log: Log)
    requires out.Fresh() && (r == Failed(SendError) || r == Failed(ArgError) || r == Failed(Rejected))
    requires from.torn == out.sink.torn && from.refused == out.sink.refused
    ensures !log.ran && log.retries == [] && log.segments == [] && log.st == st && Concluded(r, extended, cfg, mode, log, out, from, sent, rest)
  {
    assert from.torn + [] == from.torn && from.refused + [] == from.refused;
    log := Log([], [], false, st, [], Trace(None, _ => None, []), [], []);
  }

  // One execution of the statement st, for one request.
  ghost predicate Straight(r: Outcome, log: Log, st: Prepared, requests: int)
  {
    log.st == st && requests == 1 && |log.segments| <= 1 && (Settled(r) ==> log.segments == [log.t.msgs])
  }

  lemma StraightIs(r: Outcome, log: Log, st: Prepared)
    requires log.st == st
    requires log.segments == if Settled(r) then [] + [log.t.msgs] else if Capped(r) && Response(log.t.msgs + log.drained) then [] + [log.t.msgs + log.drained] else []
    ensures Straight(r, log, st, 1)
  {
    hide Response;
  }

  lemma StraightSays(r: Outcome, log: Log, st: Prepared)
    ensures forall requests :: Straight(r, log, st, requests) ==> log.st == st && requests == 1 && |log.segments| <= 1
    ensures forall requests :: Straight(r, log, st, requests) && (r.Fine? || r.error.PgError? || r.error.SinkError?) ==> log.segments == [log.t.msgs]
  {
  }

  // An execution without retries of its own.
  ghost predicate Smooth(r: Outcome, log: Log, st: Prepared, requests: int)
  {
    log.ran && log.retries == [] && Straight(r, log, st, requests)
  }

  lemma SmoothIs(r: Outcome, log: Log)
    ensures forall st, requests :: Smooth(r, log, st, requests) <==> log.ran && log.retries == [] && Straight(r, log, st, requests)
  {
  }

  lemma OneSegment(log: Log, w: Retry)
    requires log.retries == []
    ensures log.retries + [w] == [w]
  {
  }

  lemma Prepended(a: seq<seq<Msg>>, b: seq<seq<Msg>>)
    ensures a == [] ==> a + b == b
    ensures |b| >= 2 ==> (a + b)[|a + b| - 2] == b[|b| - 2]
  {
  }

  lemma EndedNoArg(r: Outcome, extended: bool, cfg: Config, mode: Mode, t: Trace, drained: seq<Msg>, rows: seq<PlannedRow>,
                   out: OutWriter, rest: seq<Msg>)
    requires Ended(r, extended, cfg, mode, t, drained, rows, out, rest)
    ensures r.Failed? ==> !r.error.ArgError? && !r.error.SendError? && !r.error.NoRowDescription? && !r.error.Rejected?
  {
  }

  // Without preparation, the first request is the first execution's.
  ghost predicate Led(segments: seq<seq<Msg>>, retries: seq<Retry>)
  {
    retries != [] ==> segments != [] && segments[0] == retries[0].t.msgs
  }

  ghost predicate Direct(r: Outcome, log: Log)
  {
    && Led(log.segments, log.retries)
    && (log.retries == [] && (r.Fine? || r.error.PgError? || r.error.SinkError?) ==> log.segments == [log.t.msgs])
  }

  lemma RetriedStart(from: Origin, segments: seq<seq<Msg>>, retries: seq<Retry>, mode: Mode, threshold: int, sent: int, now: Origin)
    requires Retried(from, segments, retries, mode, threshold, sent, now)
    ensures retries == [] ==> segments == []
  {
    hide Stands, Linked, RetriesOk, Taken, Refusals, Early;
  }

  lemma NoneLed()
    ensures Led([], [])
  {
  }

  lemma DirectIs(r: Outcome, log: Log, st: Prepared)
    requires log.retries == [] && if log.ran then exists n :: Straight(r, log, st, n) else r.Failed? && !r.error.PgError? && !r.error.SinkError?
    ensures Direct(r, log)
  {
  }

  lemma DirectUnsent(r: Outcome, log: Log)
    requires log.retries == [] && r == Failed(SendError)
    ensures Direct(r, log)
  {
  }

  lemma DirectLater(r: Outcome, log: Log)
    requires log.retries != [] && log.segments != [] && log.segments[0] == log.retries[0].t.msgs
    ensures Direct(r, log)
  {
  }

  lemma LedOn(segments: seq<seq<Msg>>, retries: seq<Retry>, r: Outcome, log: Log)
    ensures Led(segments, retries) && (retries == [] ==> segments == [] && Direct(r, log)) ==> Led(segments + log.segments, retries + log.retries)
  {
  }

  lemma LedAgain(segments: seq<seq<Msg>>, retries: seq<Retry>, r: Outcome, log: Log, w: Retry)
    requires r.Failed? && (r.error.PgError? || r.error.SinkError?) && w.t == log.t
    ensures Led(segments, retries) && (retries == [] ==> segments == [] && Direct(r, log)) ==> Led(segments + log.segments, retries + (log.retries + [w]))
  {
    var all := retries + (log.retries + [w]);
    assert all[0] == if retries != [] then retries[0] else if log.retries != [] then log.retries[0] else w;
  }

  // isRetryableSerialization
  predicate Serialization(r: Outcome) { r.Failed? && (StateOf(r.error) == Some("40001") || StateOf(r.error) == Some("40P01")) }

  // Spelt out: serialization_failure and deadlock_detected, from the server or from the writer.
  const RETRIABLE: set<Outcome> :=
    {Failed(PgError("40001")), Failed(PgError("40P01")), Failed(SinkError(Some("40001"))), Failed(SinkError(Some("40P01")))}

  predicate AllSerialization(abandoned: seq<Outcome>) { forall i :: 0 <= i < |abandoned| ==> Serialization(abandoned[i]) }

  lemma NoneAbandoned()
    ensures AllSerialization([])
  {
  }

  lemma MoreSerialization(abandoned: seq<Outcome>, r: Outcome)
    requires AllSerialization(abandoned) && Serialization(r)
    ensures AllSerialization(abandoned + [r])
  {
    hide Serialization;
  }

  lemma Spelt(r: Outcome, abandoned: seq<Outcome>)
    requires AllSerialization(abandoned)
    ensures forall i :: 0 <= i < |abandoned| ==> abandoned[i] in RETRIABLE
    ensures r in RETRIABLE ==> Serialization(r)
  {
  }

  lemma SerializationIs(r: Outcome)
    ensures Serialization(r) ==> r.Failed? && StateOf(r.error).Some? && StateOf(r.error) in RETRIED
  {
  }

  // No execution was given up because its cached statement looked stale.
  predicate NeverStale(retries: seq<Retry>)
  {
    forall i :: 0 <= i < |retries| ==> StateOf(retries[i].error) != Some("26000")
  }

  lemma NoneStale()
    ensures NeverStale([]) && MsgsOf([]) == []
  {
  }

  lemma NotNeverStale(retries: seq<Retry>)
    requires |retries| == 1 && StateOf(retries[0].error) == Some("26000")
    ensures !NeverStale(retries)
  {
  }

  // With a cached statement that is not found stale: every execution so far took one request.
  ghost predicate Steady(segments: seq<seq<Msg>>, retries: seq<Retry>, attempt: int, requests: int)
  {
    segments == MsgsOf(retries) && |retries| == attempt == requests
  }

  lemma SteadySays()
    ensures Steady([], [], 0, 0)
  {
  }

  lemma MsgsSnoc(segments: seq<seq<Msg>>, retries: seq<Retry>, log: Log, w: Retry, attempt: nat, sent: int)
    ensures NeverStale(retries + (log.retries + [w])) ==> NeverStale(retries) && NeverStale(log.retries)
    ensures Steady(segments, retries, attempt, sent) && log.retries == [] && log.segments == [w.t.msgs] ==>
              Steady(segments + log.segments, retries + (log.retries + [w]), attempt + 1, sent + 1)
  {
    hide StateOf;
    var all := retries + (log.retries + [w]);
    assert forall i :: 0 <= i < |retries| ==> all[i] == retries[i];
    assert forall i :: 0 <= i < |log.retries| ==> all[|retries| + i] == log.retries[i];
    assert log.retries == [] ==> all == retries + [w];
  }

  // The last of n + 1 executions of the cached statement st, one request each.
  ghost predicate OneEach(log: Log, n: int, requests: int, st: Prepared)
  {
    && log.ran && |log.retries| == n && requests == n + 1
    && |log.segments| <= n + 1 && MsgsOf(log.retries) <= log.segments
    && (log.retries == [] ==> log.st == st)
  }

  lemma SteadyEnds(segments: seq<seq<Msg>>, retries: seq<Retry>, attempt: nat, sent: int, r: Outcome, log: Log, st: Prepared, nowSent: int, st0: Prepared)
    requires attempt == 0 ==> st == st0
    ensures NeverStale(retries + log.retries) ==> NeverStale(retries) && NeverStale(log.retries)
    ensures Steady(segments, retries, attempt, sent) && log.ran && log.retries == [] && Straight(r, log, st, nowSent) ==>
              OneEach(log.(segments := segments + log.segments, retries := retries + log.retries), attempt, sent + nowSent, st0)
  {
    hide StateOf, Settled;
    var all := retries + log.retries;
    assert forall i :: 0 <= i < |retries| ==> all[i] == retries[i];
    assert forall i :: 0 <= i < |log.retries| ==> all[|retries| + i] == log.retries[i];
    assert log.retries == [] ==> all == retries;
  }

  // The conclusion of the last execution, after the retries.
  lemma Leave(r: Outcome, extended: bool, cfg: Config, mode: Mode, was: Log, out: OutWriter, now: Origin, nowSent: int, rest: seq<Msg>,
              from: Origin, segments: seq<seq<Msg>>, retries: seq<Retry>, sent: int, attempt: nat, st: Prepared, st0: Prepared)
    returns (log: Log)
    requires Concluded(r, extended, cfg, mode, was, out, now, nowSent, rest) && Retried(from, segments, retries, mode, out.threshold, sent, now)
    requires attempt == 0 ==> st == st0
    ensures log.ran == was.ran && log.st == was.st && log.t == was.t && log.prelude == was.prelude && log.retries == retries + was.retries
    ensures log.retries == [] ==> retries == [] && was.retries == []
    ensures log.segments == segments + was.segments
    ensures Concluded(r, extended, cfg, mode, log, out, from, sent + nowSent, rest)
    ensures NeverStale(log.retries) ==> NeverStale(retries) && NeverStale(was.retries)
    ensures Steady(segments, retries, attempt, sent) && Smooth(r, was, st, nowSent) ==> OneEach(log, attempt, sent + nowSent, st0)
  {
    hide *;
    SmoothIs(r, was);
    log := was.(segments := segments + was.segments, retries := retries + was.retries);
    Rebase(r, extended, cfg, mode, was, out, now, nowSent, rest, from, segments, retries, sent);
    SteadyEnds(segments, retries, attempt, sent, r, was, st, nowSent, st0);
  }

  // Retries on top of retries.
  lemma RetriedOn(from: Origin, segments: seq<seq<Msg>>, retries: seq<Retry>, mode: Mode, threshold: int, sent: int, now: Origin,
                  segments': seq<seq<Msg>>, retries': seq<Retry>, sent': int, then_: Origin)
    requires Retried(from, segments, retries, mode, threshold, sent, now) && Retried(now, segments', retries', mode, threshold, sent', then_)
    ensures Retried(from, segments + segments', retries + retries', mode, threshold, sent + sent', then_)
  {
    hide Stands, AllResponses, AllFull, RetryOk, Taken, Refusals;
    StandsConcat(from.input, segments, sent, now.input, segments', sent', then_.input);
    FullConcat(retries, retries');
    RetriesConcat(retries, retries');
    Assoc(from.torn, Taken(retries), Taken(retries'));
    Assoc(from.refused, Refusals(retries), Refusals(retries'));
  }

  // Giving up after the reset leaves a conclusion too.
  lemma GivenUp(r: Outcome, extended: bool, cfg: Config, mode: Mode, was: Log, w: Retry, out: OutWriter, from: Origin, segments: seq<seq<Msg>>,
                retries: seq<Retry>, sent: int, rest: seq<Msg>)
    returns (log: Log)
    requires r.Failed? && StateOf(r.error) in RETRIED && out.Fresh() && retries != [] && retries[|retries| - 1] == w && w.error == r.error
    requires segments != [] && segments[|segments| - 1] == w.t.msgs
    requires Retried(from, segments, retries, mode, out.threshold, sent, Origin(rest, out.sink.torn, out.sink.refused))
    ensures !log.ran && log.retries == retries && log.segments == segments && Concluded(r, extended, cfg, mode, log, out, from, sent, rest)
  {
    hide *;
    log := Log(segments, retries, false, was.st, [], Trace(None, _ => None, w.t.msgs), [], []);
    LastRetried(from, segments, retries, w, mode, out.threshold, sent, rest, out.sink.torn, out.sink.refused);
    GivenUpPlaced(r, log, w, from.input, sent, rest);
    GivenUpLeaves(r, log, w, mode, out);
    NotRefused(Fine, out.sink);
    ConcludesUnrun(r, extended, cfg, mode, log, out, from, sent, rest);
  }

  lemma ConcludesUnrun(r: Outcome, extended: bool, cfg: Config, mode: Mode, log: Log, out: OutWriter, from: Origin, sent: int, rest: seq<Msg>)
    requires !log.ran && NotRunning(r, log, out) && RetriesOk(log.retries, log.segments, mode, out.threshold) && Placed(r, log, from.input, sent, rest)
    requires Answered(Fine, from.torn + Taken(log.retries), from.refused + Refusals(log.retries), out.sink)
    requires log.retries != [] && Early(log.segments, log.retries[0])
    ensures Concluded(r, extended, cfg, mode, log, out, from, sent, rest)
  {
    hide NotRunning, RetriesOk, Placed, Answered, Taken, Refusals, Ended, Early;
  }

  lemma LastRetried(from: Origin, segments: seq<seq<Msg>>, retries: seq<Retry>, w: Retry, mode: Mode, threshold: int, sent: int, rest: seq<Msg>,
                    torn: bytes, refused: seq<Refusal>)
    requires Retried(from, segments, retries, mode, threshold, sent, Origin(rest, torn, refused)) && retries != [] && retries[|retries| - 1] == w
    ensures Stands(from.input, segments, sent, rest) && Linked(segments, retries, true) && RetriesOk(retries, segments, mode, threshold)
    ensures torn == from.torn + Taken(retries) && refused == from.refused + Refusals(retries) && RetryOk(w, mode, threshold)
    ensures Early(segments, retries[0])
  {
    hide Stands, Linked, Taken, Refusals, RetryOk, Early;
  }

  lemma GivenUpPlaced(r: Outcome, log: Log, w: Retry, before: seq<Msg>, sent: int, rest: seq<Msg>)
    requires r.Failed? && StateOf(r.error) in RETRIED && !log.ran && Stands(before, log.segments, sent, rest) && Linked(log.segments, log.retries, true)
    requires log.segments != [] && log.segments[|log.segments| - 1] == w.t.msgs == log.t.msgs
    ensures Placed(r, log, before, sent, rest)
  {
    hide Stands, Response, NoReady, AllResponses, AllFull, Concat;
    StandsPrefix(before, log.segments, sent, rest);
  }

  lemma GivenUpLeaves(r: Outcome, log: Log, w: Retry, mode: Mode, out: OutWriter)
    requires r.Failed? && StateOf(r.error) in RETRIED && out.Fresh() && log.retries != [] && log.retries[|log.retries| - 1] == w
    requires w.error == r.error && RetryOk(w, mode, out.threshold) && log.t.msgs == w.t.msgs
    ensures NotRunning(r, log, out)
  {
    hide Response, NoReady, ErrorIn, Rendered, AllPrintable, RowsOf, PlanOf, Asked, Answers;
  }

  lemma SyncOn(before: seq<Msg>, earlier: seq<seq<Msg>>, sentEarlier: int, mid: seq<Msg>, later: seq<seq<Msg>>, sent: int, rest: seq<Msg>)
    requires InSync(before, earlier, sentEarlier, mid) && InSync(mid, later, sent, rest)
    ensures InSync(before, earlier + later, sentEarlier + sent, rest)
  {
    hide Response;
    ConcatSplit(earlier, later);
  }
}
