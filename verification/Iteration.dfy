/** The row iterator of pg2json/iter.go: lazy reading of one response, and the drain that brings
    the connection back whatever the caller did. */
module Iteration {
  import opened Bytes
  import opened Rows
  import opened Rendering
  import opened Output
  import opened Statements
  import opened Executions
  import opened Retries
  import opened Engine
  import Wire

  // What NextRaw returns.
  datatype Item = RowBody(body: bytes) | Eof | Broken(error: Error)

  // The messages NextRaw knows.
  predicate IterAccepts(m: Msg) { Accepts(true, m) && !m.BindComplete? }

  lemma {:induction false} DataRowsPrefix(msgs: seq<Msg>, k: nat)
    requires k <= |msgs|
    ensures DataRows(msgs[..k]) <= DataRows(msgs)
  {
    if k == |msgs| {
      assert msgs[..k] == msgs;
    } else {
      DataRowsPrefix(msgs[..|msgs| - 1], k);
      assert msgs[..|msgs| - 1][..k] == msgs[..k];
    }
  }

  lemma OneRead(inp: seq<Msg>, was: seq<Msg>, msgs: seq<Msg>, m: Msg, rest: seq<Msg>)
    requires inp == msgs + ([m] + rest)
    ensures inp == (msgs + [m]) + rest && was + msgs + [m] == was + (msgs + [m])
  {
  }

  lemma NextMessage(msgs: seq<Msg>, m: Msg)
    requires NoReady(msgs)
    ensures ErrorIn(msgs + [m]) == if m.ErrorResponse? then Some(m.code) else ErrorIn(msgs)
    ensures if m.ReadyForQuery? then Response(msgs + [m]) else NoReady(msgs + [m])
  {
    Snoc(None, _ => None, msgs, m);
  }

  lemma Longer(inp: seq<Msg>, msgs: seq<Msg>, more: seq<Msg>, rest: seq<Msg>)
    requires inp == msgs + (more + rest)
    ensures inp == msgs + more + rest
  {
  }

  lemma NotAccepted(m: Msg)
    requires m.BindComplete? || m.ParseComplete? || m.ParameterDescription? || m.NoData? || m.OtherMsg?
    ensures !IterAccepts(m)
  {
  }

  // Why reading on was impossible.
  ghost predicate Breaks(compile: Compile, e: Error, msgs: seq<Msg>, read: seq<Msg>, rest: seq<Msg>)
  {
    match e
    case PgError(code) => Response(read) && ErrorIn(read) == Some(code)
    case WireError => NoReady(read) && rest == []
    case BadDescription =>
      && NoReady(read) && msgs != []
      && msgs[|msgs| - 1].RowDescription? && compile(msgs[|msgs| - 1].body).None?
    case Unexpected => NoReady(read) && msgs != [] && !IterAccepts(msgs[|msgs| - 1])
    case _ => false
  }

  // What may come before BindComplete.
  predicate Before(compile: Compile, m: Msg) { m.ParameterStatus? || m.NoticeResponse? || (m.RowDescription? && compile(m.body).Some?) }

  predicate AllBefore(compile: Compile, msgs: seq<Msg>) { forall i :: 0 <= i < |msgs| ==> Before(compile, msgs[i]) }

  // The messages up to BindComplete.
  predicate Binds(compile: Compile, msgs: seq<Msg>)
  {
    msgs != [] && msgs[|msgs| - 1].BindComplete? && AllBefore(compile, msgs[..|msgs| - 1])
  }

  // Why BindComplete was not reached.
  predicate BindFails(compile: Compile, e: Error, msgs: seq<Msg>, rest: seq<Msg>)
  {
    match e
    case PgError(code) => Response(msgs) && ErrorIn(msgs) == Some(code) && exists n :: 0 <= n < |msgs| && msgs[n].ErrorResponse? && AllBefore(compile, msgs[..n])
    case WireError => rest == [] && (AllBefore(compile, msgs) || exists n :: 0 <= n < |msgs| && msgs[n].ErrorResponse? && AllBefore(compile, msgs[..n]))
    case BadDescription => msgs != [] && AllBefore(compile, msgs[..|msgs| - 1]) && msgs[|msgs| - 1].RowDescription? && compile(msgs[|msgs| - 1].body).None?
    case Unexpected =>
      && msgs != [] && AllBefore(compile, msgs[..|msgs| - 1])
      && var m := msgs[|msgs| - 1];
         !m.BindComplete? && !m.ParameterStatus? && !m.NoticeResponse? && !m.RowDescription? && !m.ErrorResponse?
    case _ => false
  }

  lemma NothingBefore(compile: Compile)
    ensures AllBefore(compile, [])
  {
  }

  lemma BindCut(compile: Compile, msgs: seq<Msg>)
    requires AllBefore(compile, msgs)
    ensures BindFails(compile, WireError, msgs, [])
  {
  }

  lemma BindMore(compile: Compile, msgs: seq<Msg>, m: Msg, rest: seq<Msg>)
    requires AllBefore(compile, msgs)
    ensures m.BindComplete? ==> Binds(compile, msgs + [m])
    ensures m.ParameterStatus? || m.NoticeResponse? || (m.RowDescription? && compile(m.body).Some?) ==> AllBefore(compile, msgs + [m])
    ensures m.RowDescription? && compile(m.body).None? ==> BindFails(compile, BadDescription, msgs + [m], rest)
    ensures !m.BindComplete? && !m.ParameterStatus? && !m.NoticeResponse? && !m.RowDescription? && !m.ErrorResponse? ==>
              BindFails(compile, Unexpected, msgs + [m], rest)
  {
    hide Before;
    assert (msgs + [m])[..|msgs|] == msgs;
    assert Before(compile, m) <==> (m.ParameterStatus? || m.NoticeResponse? || (m.RowDescription? && compile(m.body).Some?)) by { BeforeIs(compile, m); }
  }

  lemma BeforeIs(compile: Compile, m: Msg)
    ensures Before(compile, m) <==> m.ParameterStatus? || m.NoticeResponse? || (m.RowDescription? && compile(m.body).Some?)
  {
  }

  lemma BindRefused(compile: Compile, msgs: seq<Msg>, m: Msg, more: seq<Msg>, r: Outcome, rest: seq<Msg>)
    requires AllBefore(compile, msgs) && m.ErrorResponse?
    requires (r.Failed? && r.error.PgError? && Response(msgs + [m] + more) && ErrorIn(msgs + [m] + more) == Some(r.error.code))
             || (r == Failed(WireError) && rest == [])
    ensures BindFails(compile, r.error, msgs + [m] + more, rest)
  {
    hide Before, Response, ErrorIn;
    var all := msgs + [m] + more;
    assert all[..|msgs|] == msgs && all[|msgs|] == m;
  }

  /** Executing a statement reaches its rows exactly when the answer starts with BindComplete, apart
      from notices, parameters and descriptions that parse. */
  lemma BindExact(compile: Compile, r: Outcome, msgs: seq<Msg>, rest: seq<Msg>, bind: seq<Msg>, more: seq<Msg>)
    requires if r.Fine? then Binds(compile, msgs) else BindFails(compile, r.error, msgs, rest)
    requires msgs + rest == bind + more && Binds(compile, bind)
    ensures r.Fine? && msgs == bind && rest == more
  {
    hide Response, ErrorIn;
    var all, n := bind + more, |bind| - 1;
    assert all[..|msgs|] == msgs && all[|msgs|..] == rest && all[..|bind|] == bind && all[|bind|..] == more;
    assert all[..n] == bind[..n] && all[n] == bind[n];
    forall k | 0 <= k < |msgs| && AllBefore(compile, msgs[..k]) && !Before(compile, msgs[k]) ensures k == n {
      assert all[..k] == msgs[..k] && all[k] == msgs[k];
      FirstOdd(compile, all, k, n);
    }
  }

  lemma FirstOdd(compile: Compile, all: seq<Msg>, i: nat, j: nat)
    requires i < |all| && j < |all| && AllBefore(compile, all[..i]) && AllBefore(compile, all[..j])
    requires !Before(compile, all[i]) && !Before(compile, all[j])
    ensures i == j
  {
    hide Before;
  }

  class Iterator {
    const conn: Conn
    const pid: int
    const compile: Compile
    const start: Plan
    var plan: Plan
    var done: bool
    var err: Option<Error>
    var pgErr: Option<string>
    var rowCount: nat
    ghost var read: seq<Msg>       // every message of the response so far
    ghost var yielded: seq<bytes>  // the rows handed to the caller
    ghost var drained: bool        // the rest was thrown away

    constructor (conn: Conn, pid: int, compile: Compile, plan: Plan)
      ensures this.conn == conn && this.pid == pid && this.compile == compile && start == plan
      ensures Active() && read == [] && yielded == []
    {
      this.conn, this.pid, this.compile, this.start, this.plan := conn, pid, compile, plan, plan;
      done, err, pgErr, rowCount, read, yielded, drained := false, None, None, 0, [], [], false;
    }

    ghost predicate Valid()
      reads this
    {
      && rowCount == |yielded| && (!drained ==> yielded == DataRows(read))
      && (!drained && err != Some(BadDescription) ==> PlanAfter(Some(start), compile, read) == Some(plan))
      && (!done ==> NoReady(read) && pgErr == ErrorIn(read) && !drained)
      && (done && !drained ==> Response(read) && pgErr == ErrorIn(read) && err == (if pgErr.Some? then Some(PgError(pgErr.value)) else None))
    }

    // Rows may still be read.
    ghost predicate Active()
      reads this
    {
      Valid() && !done && err.None?
    }

    method NextRaw() returns (r: Item, ghost msgs: seq<Msg>)
      requires Valid()
      modifies this, conn`input
      ensures Valid() && old(conn.input) == msgs + conn.input && read == old(read) + msgs && drained == old(drained)
      // Once it has ended, it stays ended, and touches nothing.
      ensures !old(Active()) ==> msgs == [] && r == (if old(err).Some? then Broken(old(err).value) else Eof)
                                 && done == old(done) && err == old(err) && pgErr == old(pgErr) && yielded == old(yielded)
      ensures old(Active()) && r.RowBody? ==> Active() && yielded == old(yielded) + [r.body]
      ensures old(Active()) && r.Eof? ==> !Active() && err.None? && Response(read) && ErrorIn(read).None? && yielded == old(yielded)
      ensures old(Active()) && r.Broken? ==>
                !Active() && err == Some(r.error) && yielded == old(yielded) && Breaks(compile, r.error, msgs, read, conn.input)
    {
      r, msgs := Eof, [];
      if done {
        if err.Some? { r := Broken(err.value); }
        return;
      }
      if err.Some? { return Broken(err.value), []; }
      r, msgs := Pull();
    }

    // The message loop of NextRaw.
    method Pull() returns (r: Item, ghost msgs: seq<Msg>)
      requires Active()
      modifies this, conn`input
      ensures Valid() && old(conn.input) == msgs + conn.input && read == old(read) + msgs && drained == old(drained)
      ensures r.RowBody? ==> Active() && yielded == old(yielded) + [r.body]
      ensures r.Eof? ==> !Active() && err.None? && Response(read) && ErrorIn(read).None? && yielded == old(yielded)
      ensures r.Broken? ==>
                !Active() && err == Some(r.error) && yielded == old(yielded) && Breaks(compile, r.error, msgs, read, conn.input)
    {
      hide NoReady, Response, ErrorIn, DataRows, RowsIn, PlanAfter, LastDescription, Accepts;
      r, msgs := Eof, [];
      ghost var inp, was := conn.input, read;
      ghost var given := yielded;
      while true
        invariant inp == msgs + conn.input && read == was + msgs && Active() && yielded == given && !drained
        decreases |conn.input|
      {
        var m := conn.ReadMessage();
        if m.None? {
          err := Some(WireError);
          return Broken(WireError), msgs;
        }
        OneRead(inp, was, msgs, m.value, conn.input);
        msgs := msgs + [m.value];
        var item := Take(m.value);
        if item.Some? { return item.value, msgs; }
      }
    }

    // One message of that loop; None means read on.
    method Take(m: Msg) returns (r: Option<Item>)
      requires Active() && !drained
      modifies this
      ensures Valid() && read == old(read) + [m] && !drained
      ensures r.None? ==> Active() && yielded == old(yielded)
      ensures r.Some? && r.value.RowBody? ==> Active() && yielded == old(yielded) + [r.value.body]
      ensures r.Some? && r.value.Eof? ==> !Active() && err.None? && Response(read) && ErrorIn(read).None? && yielded == old(yielded)
      ensures r.Some? && r.value.Broken? ==> !Active() && err == Some(r.value.error) && yielded == old(yielded)
      ensures r.Some? && r.value.Broken? ==> forall msgs, rest :: Breaks(compile, r.value.error, msgs + [m], read, rest)
    {
      hide NoReady, Response, ErrorIn, DataRows, RowsIn, PlanAfter, LastDescription, Accepts;
      Snoc(Some(start), compile, read, m);
      DataRowsSnoc(read, m);
      read := read + [m];
      match m
      case DataRow(body) =>
        rowCount, yielded := rowCount + 1, yielded + [body];
        return Some(RowBody(body));
      case CommandComplete | EmptyQueryResponse | PortalSuspended | CloseComplete | ParameterStatus | NoticeResponse =>
        return None;
      case RowDescription(body) =>
        var newPlan := compile(body);
        if newPlan.None? {
          err := Some(BadDescription);
          return Some(Broken(BadDescription));
        }
        plan := newPlan.value;
        return None;
      case ErrorResponse(code) =>
        pgErr := Some(code);
        return None;
      case ReadyForQuery =>
        done := true;
        if pgErr.Some? {
          err := Some(PgError(pgErr.value));
          return Some(Broken(PgError(pgErr.value)));
        }
        return Some(Eof);
      case _ =>
        err := Some(Unexpected);
        NotAccepted(m);
        return Some(Broken(Unexpected));
    }

    /** Close: cancels and reads on to the ReadyForQuery; harmless when already finished. */
    method Close() returns (r: Outcome, ghost msgs: seq<Msg>)
      requires Valid()
      modifies this, conn`input
      ensures Valid() && done && old(conn.input) == msgs + conn.input && read == old(read) + msgs && yielded == old(yielded)
      ensures old(done) ==> r == Fine && msgs == [] && err == old(err) && drained == old(drained)
      ensures !old(done) ==> Drained(read, conn.input)
      ensures !old(done) && Response(read) && ErrorIn(read).None? ==> r == Fine
      ensures !old(done) && Response(read) && ErrorIn(read).Some? ==>
                r == if pid != 0 && ErrorIn(read) == Some("57014") then Fine else Failed(PgError(ErrorIn(read).value))
      ensures !old(done) && !Response(read) ==> r == Failed(WireError)
    {
      hide NoReady, Response, ErrorIn, DataRows;
      if done { return Fine, []; }
      r, msgs := DrainUntilReady();
      if r == Failed(PgError("57014")) && pid != 0 { r := Fine; }
    }

    // What an unfinished iterator knows.
    lemma NotYet()
      requires Valid() && !done
      ensures NoReady(read) && pgErr == ErrorIn(read) && rowCount == |yielded|
    {
    }

    lemma DrainedIsValid()
      requires done && drained && rowCount == |yielded|
      ensures Valid()
    {
    }

    method DrainUntilReady() returns (r: Outcome, ghost msgs: seq<Msg>)
      requires Valid() && !done
      modifies this, conn`input
      ensures Valid() && done && drained && old(conn.input) == msgs + conn.input && read == old(read) + msgs && yielded == old(yielded)
      ensures if Response(read) then r == (if ErrorIn(read).Some? then Failed(PgError(ErrorIn(read).value)) else Fine)
              else r == Failed(WireError) && conn.input == [] && NoReady(read)
      ensures pgErr == ErrorIn(read) && (old(pgErr).Some? ==> pgErr.Some?)
    {
      hide *;
      msgs := [];
      NotYet();
      ghost var inp, was := conn.input, read;
      ghost var given := yielded;
      assert was + [] == was;
      while true
        invariant inp == msgs + conn.input && read == was + msgs && NoReady(read) && pgErr == ErrorIn(read)
        invariant yielded == given && rowCount == |yielded| && (old(pgErr).Some? ==> pgErr.Some?)
        decreases |conn.input|
      {
        var m := conn.ReadMessage();
        if m.None? {
          err, done, drained := Some(WireError), true, true;
          NotBoth(read);
          DrainedIsValid();
          return Failed(WireError), msgs;
        }
        NextMessage(read, m.value);
        OneRead(inp, was, msgs, m.value, conn.input);
        msgs, read := msgs + [m.value], read + [m.value];
        if m.value.ReadyForQuery? {
          done, drained := true, true;
          DrainedIsValid();
          return if pgErr.Some? then Failed(PgError(pgErr.value)) else Fine, msgs;
        }
        if m.value.ErrorResponse? { pgErr := Some(m.value.code); }
      }
    }

    // The bind phase of startRawExecute.
    method Pump() returns (r: Outcome, bound: bool, ghost msgs: seq<Msg>)
      requires Active() && read == [] && yielded == []
      modifies this, conn`input
      ensures old(conn.input) == msgs + conn.input && read == msgs && yielded == []
      ensures r.Fine? ==> bound && Active() && msgs != [] && msgs[|msgs| - 1].BindComplete?
      ensures r.Failed? && r.error.PgError? ==> Response(msgs) && ErrorIn(msgs) == Some(r.error.code)
      ensures r.Fine? ==> Binds(compile, msgs)
      ensures r.Failed? ==> BindFails(compile, r.error, msgs, conn.input)
    {
      hide *;
      r, bound, msgs := Fine, false, [];
      ghost var inp := conn.input;
      NothingBefore(compile);
      while !bound
        invariant inp == msgs + conn.input && read == msgs && yielded == [] && Active() && r.Fine?
        invariant bound ==> msgs != [] && msgs[|msgs| - 1].BindComplete?
        invariant if bound then Binds(compile, msgs) else AllBefore(compile, msgs)
        decreases |conn.input|, !bound
      {
        var m := conn.ReadMessage();
        if m.None? {
          BindCut(compile, msgs);
          return Failed(WireError), false, msgs;
        }
        OneRead(inp, [], msgs, m.value, conn.input);
        ghost var was := msgs;
        msgs := msgs + [m.value];
        bound, r := TakeBind(m.value);
        BindMore(compile, was, m.value, conn.input);
        if r.Failed? && r.error.PgError? {
          ghost var more;
          r, more := DrainUntilReady();
          Longer(inp, msgs, more, conn.input);
          BindRefused(compile, was, m.value, more, r, conn.input);
          msgs := msgs + more;
          return;
        }
        if r.Failed? { return; }
      }
    }

    // One message of that loop. A server error is still to be followed by the rest of its response.
    method TakeBind(m: Msg) returns (bound: bool, r: Outcome)
      requires Active() && yielded == []
      modifies this
      ensures read == old(read) + [m] && yielded == [] && (bound ==> m.BindComplete? && r.Fine?)
      ensures r.Fine? ==> Active()
      ensures bound <==> m.BindComplete?
      ensures r == match m
                   case BindComplete => Fine
                   case ParameterStatus => Fine
                   case NoticeResponse => Fine
                   case RowDescription(body) => if compile(body).Some? then Fine else Failed(BadDescription)
                   case ErrorResponse(code) => Failed(PgError(code))
                   case _ => Failed(Unexpected)
      ensures r.Failed? && r.error.PgError? ==> Valid() && !done && pgErr.Some?
    {
      hide NoReady, Response, ErrorIn, DataRows, RowsIn, PlanAfter, LastDescription;
      Snoc(Some(start), compile, read, m);
      DataRowsSnoc(read, m);
      read := read + [m];
      bound, r := false, Fine;
      match m
      case BindComplete =>
        bound := true;
      case RowDescription(body) =>
        var newPlan := compile(body);
        if newPlan.None? { return false, Failed(BadDescription); }
        plan := newPlan.value;
      case ParameterStatus | NoticeResponse =>
      case ErrorResponse(code) =>
        pgErr := Some(code);
        r := Failed(PgError(code));
      case _ =>
        r := Failed(Unexpected);
    }
  }

  // ---- Starting ----

  // startRawExecute: Bind, Execute and Sync, then read up to BindComplete.
  method StartRawExecute(c: Client, pid: int, st: Prepared, args: seq<Arg>)
    returns (r: Outcome, it: Option<Iterator>, ghost msgs: seq<Msg>)
    modifies c.conn
    ensures old(c.conn.input) == msgs + c.conn.input
    ensures r.Fine? ==> it.Some? && it.value.Active() && fresh(it.value) && it.value.conn == c.conn && it.value.read == msgs && it.value.yielded == []
    ensures r.Fine? ==> it.value.pid == pid && it.value.start == st.plan && it.value.compile == c.Compiler(st.formats)
    ensures r.Fine? || (r.Failed? && r.error.PgError?) ==> c.conn.requests == old(c.conn.requests) + 1
    ensures r.Failed? && r.error.PgError? ==> Response(msgs) && ErrorIn(msgs) == Some(r.error.code)
    ensures old(c.conn.requests) <= c.conn.requests <= old(c.conn.requests) + 1
    ensures r.Failed? ==> !r.error.NoRowDescription? && !Capped(r)
    ensures r == Failed(ArgError) <==> Wire.UnsupportedArg in args
    ensures c.conn.unfinished <==> r == Failed(ArgError)
    ensures r.Fine? ==> msgs != [] && msgs[|msgs| - 1].BindComplete? && Binds(c.Compiler(st.formats), msgs)
    ensures r.Failed? ==> r == Failed(ArgError) || (!c.conn.reliable && r == Failed(SendError)) || BindFails(c.Compiler(st.formats), r.error, msgs, c.conn.input)
  {
    hide NoReady, Response, ErrorIn, DataRows, RowsIn, PlanAfter, LastDescription, Binds;
    it, msgs := None, [];
    for i := 0 to |args|
      invariant Wire.UnsupportedArg !in args[..i]
    {
      if args[i].UnsupportedArg? {
        c.conn.unfinished := true;
        return Failed(ArgError), None, [];
      }
    }
    var sent := c.conn.Flush();
    if !sent { return Failed(SendError), None, []; }
    var started := new Iterator(c.conn, pid, c.Compiler(st.formats), st.plan);
    var bound;
    r, bound, msgs := started.Pump();
    if r.Fine? { it := Some(started); }
  }

  lemma SyncCount(before: seq<Msg>, segments: seq<seq<Msg>>, sent: int, rest: seq<Msg>)
    requires InSync(before, segments, sent, rest)
    ensures |segments| == sent
  {
  }

  // The iterator has the statement's own plan, and compiles new descriptions in its formats.
  ghost predicate Iterates(c: Client, pid: int, it: Iterator, st: Prepared)
  {
    it.pid == pid && it.start == st.plan && it.compile == c.Compiler(st.formats)
  }

  lemma IteratesIs(c: Client, pid: int, it: Iterator, st: Prepared)
    requires it.pid == pid && it.start == st.plan && it.compile == c.Compiler(st.formats)
    ensures Iterates(c, pid, it, st)
  {
  }

  lemma SyncedIs(r: Outcome)
    ensures Synced(r) <==> r.Fine? || r.error.PgError? || r.error.NoRowDescription?
  {
  }

  // One pass of RawQuery's loop.
  method RawAttempt(c: Client, pid: int, sql: string, args: seq<Arg>)
    returns (r: Outcome, it: Option<Iterator>, fromCache: bool, ghost batches: seq<seq<Msg>>, ghost st: Prepared)
    modifies c.conn, c.stmts
    ensures fromCache <==> sql in old(c.stmts.byKey)
    ensures old(c.conn.requests) <= c.conn.requests <= old(c.conn.requests) + (if fromCache then 1 else 2)
    ensures r.Fine? ==>
              && it.Some? && it.value.Active() && fresh(it.value) && it.value.conn == c.conn && it.value.yielded == []
              && InSync(old(c.conn.input), batches, c.conn.requests - old(c.conn.requests) - 1, it.value.read + c.conn.input)
    ensures r.Failed? && Synced(r) ==> InSync(old(c.conn.input), batches, c.conn.requests - old(c.conn.requests), c.conn.input)
    ensures r.Failed? && r.error.PgError? ==> c.conn.requests > old(c.conn.requests)
    ensures r.Fine? ==> Iterates(c, pid, it.value, st) && if fromCache then batches == [] && st == old(c.stmts.byKey)[sql] else |batches| == 1 && c.Describes(st, batches[0])
  {
    hide *;
    ghost var inp := c.conn.input;
    batches, it := [], None;
    ghost var msgs, a;
    var prepared;
    r, prepared, fromCache, msgs, a := c.Statement(sql);
    st := prepared;
    SyncedIs(r);
    if fromCache || Synced(r) {
      batches := StatementSync(inp, fromCache, msgs, c.conn.input);
    }
    if r.Failed? { return; }
    ghost var more;
    r, it, more := StartRawExecute(c, pid, prepared, args);
    if r.Fine? { IteratesIs(c, pid, it.value, st); }
    SyncedIs(r);
    if r.Failed? && r.error.PgError? {
      OneMore(inp, batches, |batches|, more, c.conn.input);
      batches := batches + [more];
    }
  }

  /** RawQuery: prepare or take from the cache, start, and once retry a stale cached name. An
      iterator stands inside the answer to the last request; a server error leaves the connection
      in sync. */
  method RawQuery(c: Client, pid: int, sql: string, selectOk: bool, args: seq<Arg>)
    returns (r: Outcome, it: Option<Iterator>, ghost batches: seq<seq<Msg>>, ghost st: Prepared)
    modifies c.conn, c.stmts
    ensures r.Fine? ==>
              && it.Some? && Iterates(c, pid, it.value, st)
              && if batches == [] then sql in old(c.stmts.byKey) && st == old(c.stmts.byKey)[sql] else c.Describes(st, batches[|batches| - 1])
    ensures r.Fine? ==>
              && it.Some? && it.value.Active() && fresh(it.value) && it.value.conn == c.conn && it.value.yielded == []
              && InSync(old(c.conn.input), batches, c.conn.requests - old(c.conn.requests) - 1, it.value.read + c.conn.input)
    ensures r.Failed? && Synced(r) ==> InSync(old(c.conn.input), batches, c.conn.requests - old(c.conn.requests), c.conn.input)
    ensures r == Failed(PgError("26000")) && sql in old(c.stmts.byKey) ==> c.conn.requests >= old(c.conn.requests) + 2
    ensures c.conn.requests <= old(c.conn.requests) + 3
  {
    hide *;
    ghost var inp, base := c.conn.input, c.conn.requests;
    NothingRead(inp);
    batches, it, st := [], None, Prepared("", [], []);
    SyncedIs(Failed(Rejected));
    if !selectOk { return Failed(Rejected), None, [], st; }
    var attempt := 0;
    while attempt < 2
      invariant 0 <= attempt <= 1 && c.conn.requests == base + attempt && InSync(inp, batches, attempt, c.conn.input)
      invariant attempt == 0 ==> c.stmts.byKey == old(c.stmts.byKey)
      invariant attempt == 1 ==> sql !in c.stmts.byKey
    {
      ghost var mid, more := c.conn.input, [];
      var fromCache;
      r, it, fromCache, more, st := RawAttempt(c, pid, sql, args);
      SyncedIs(r);
      ghost var sent := c.conn.requests - base - attempt;
      if r.Fine? {
        SyncOn(inp, batches, attempt, mid, more, sent - 1, it.value.read + c.conn.input);
        SyncCount(inp, batches, attempt, mid);
        assert |more| == 1 ==> (batches + more)[|batches + more| - 1] == more[0];
        batches := batches + more;
        return;
      }
      if Synced(r) {
        SyncOn(inp, batches, attempt, mid, more, sent, c.conn.input);
        batches := batches + more;
      }
      if !(attempt == 0 && fromCache && r.error == PgError("26000")) { return; }
      c.stmts.Invalidate(sql);
      attempt := attempt + 1;
    }
    assert false;
  }

  // ---- Whole iterations ----

  // A message that the iterator can read.
  predicate Readable(compile: Compile, m: Msg)
  {
    || m.DataRow? || m.CommandComplete? || m.EmptyQueryResponse? || m.PortalSuspended? || m.CloseComplete? || m.ParameterStatus?
    || m.NoticeResponse? || m.ErrorResponse? || m.ReadyForQuery? || (m.RowDescription? && compile(m.body).Some?)
  }

  predicate Clean(compile: Compile, msgs: seq<Msg>) { forall i :: 0 <= i < |msgs| ==> Readable(compile, msgs[i]) }

  // The n-th item of a response.
  function ItemAt(response: seq<Msg>, n: nat): Item
  {
    var rows := DataRows(response);
    if n < |rows| then RowBody(rows[n])
    else if ErrorIn(response).Some? then Broken(PgError(ErrorIn(response).value))
    else Eof
  }

  lemma LastIsClean(compile: Compile, response: seq<Msg>, was: seq<Msg>, msgs: seq<Msg>)
    requires |was| <= |response| && Clean(compile, response[|was|..]) && msgs != []
    requires |was + msgs| <= |response| && was + msgs == response[..|was + msgs|]
    ensures var m := msgs[|msgs| - 1]; IterAccepts(m) && (m.RowDescription? ==> compile(m.body).Some?)
  {
    assert msgs[|msgs| - 1] == (was + msgs)[|was + msgs| - 1] == response[|was|..][|msgs| - 1];
    assert Readable(compile, response[|was|..][|msgs| - 1]);
  }

  // What one call on an active iterator returns, and where it then stands.
  lemma NextItem(compile: Compile, response: seq<Msg>, rest: seq<Msg>, was: seq<Msg>, msgs: seq<Msg>, input: seq<Msg>, r: Item)
    requires Response(response) && NoReady(was) && response + rest == was + msgs + input
    requires |was| <= |response| && Clean(compile, response[|was|..])
    requires r.RowBody? ==> NoReady(was + msgs) && DataRows(was + msgs) == DataRows(was) + [r.body]
    requires r.Eof? ==> Response(was + msgs) && ErrorIn(was + msgs).None? && DataRows(was + msgs) == DataRows(was)
    requires r.Broken? ==> Breaks(compile, r.error, msgs, was + msgs, input) && DataRows(was + msgs) == DataRows(was)
    ensures r == ItemAt(response, |DataRows(was)|)
    ensures r.RowBody? ==> |was + msgs| < |response| && was + msgs == response[..|was + msgs|] && input == response[|was + msgs|..] + rest
    ensures !r.RowBody? ==> was + msgs == response && input == rest && r == ItemAt(response, |DataRows(was)| + 1)
  {
    hide Response, NoReady, ErrorIn, DataRows, IterAccepts;
    Inside(response, rest, was + msgs, input);
    if msgs != [] { LastIsClean(compile, response, was, msgs); }
    var k := |was + msgs|;
    if r.RowBody? {
      DataRowsPrefix(response, k);
    } else if r.Broken? && !r.error.PgError? {
      assert false;
    }
  }

  /** Any number of NextRaw calls on a clean response gives exactly its DataRow bodies in order,
      then end-of-file or the server's error again and again; and Close then leaves the stream
      just past the response, however far the caller got. */
  method ReadThenClose(it: Iterator, calls: nat, ghost response: seq<Msg>, ghost rest: seq<Msg>) returns (items: seq<Item>)
    requires it.Active() && it.yielded == [] && Response(response) && it.read + it.conn.input == response + rest
    requires |it.read| <= |response| && Clean(it.compile, response[|it.read|..])
    modifies it, it.conn`input
    ensures |items| == calls && forall n :: 0 <= n < calls ==> items[n] == ItemAt(response, n)
    ensures it.conn.input == rest && it.done
  {
    items := [];
    hide Response, NoReady, ErrorIn, DataRows, Clean, ItemAt, Breaks;
    Inside(response, rest, it.read, it.conn.input);
    for n := 0 to calls
      invariant it.Valid() && !it.drained && response + rest == it.read + it.conn.input && |items| == n
      invariant forall i :: 0 <= i < n ==> items[i] == ItemAt(response, i)
      invariant it.Active() ==> |it.yielded| == n && |it.read| <= |response| && Clean(it.compile, response[|it.read|..])
      invariant !it.Active() ==> it.done && it.read == response && it.conn.input == rest && n > |it.yielded|
    {
      var r := Call(it, response, rest);
      items := items + [r];
    }
    ghost var more;
    var closed;
    closed, more := it.Close();
    assert it.read + it.conn.input == response + rest;
    Inside(response, rest, it.read, it.conn.input);
  }

  // One call of that loop.
  method Call(it: Iterator, ghost response: seq<Msg>, ghost rest: seq<Msg>) returns (r: Item)
    requires it.Valid() && !it.drained && Response(response) && response + rest == it.read + it.conn.input
    requires it.Active() ==> |it.read| <= |response| && Clean(it.compile, response[|it.read|..])
    requires !it.Active() ==> it.done && it.read == response && it.conn.input == rest
    modifies it, it.conn`input
    ensures it.Valid() && !it.drained && response + rest == it.read + it.conn.input
    ensures old(it.Active()) ==> r == ItemAt(response, |old(it.yielded)|)
    ensures !old(it.Active()) ==> it.yielded == old(it.yielded) && forall n :: n > |it.yielded| ==> r == ItemAt(response, n)
    ensures it.Active() ==> old(it.Active()) && |it.yielded| == |old(it.yielded)| + 1
                            && |it.read| <= |response| && Clean(it.compile, response[|it.read|..])
    ensures !it.Active() ==> it.done && it.read == response && it.conn.input == rest && |it.yielded| == |old(it.yielded)|
  {
    hide Response, NoReady, ErrorIn, DataRows, Clean, Breaks;
    ghost var was, msgs := it.read, [];
    ghost var active := it.Active();
    r, msgs := it.NextRaw();
    if active {
      NextItem(it.compile, response, rest, was, msgs, it.conn.input, r);
      CleanTail(it.compile, response, |was|, |it.read|);
      NotBoth(it.read);
    }
  }

  lemma CleanTail(compile: Compile, response: seq<Msg>, i: nat, j: nat)
    requires i <= j <= |response| && Clean(compile, response[i..])
    ensures Clean(compile, response[j..])
  {
    assert forall k :: 0 <= k < |response| - j ==> response[j..][k] == response[i..][k + (j - i)];
  }
}
