/** When the caller's own writer fails with an error that the retry loops take for the server's:
    two calls that succeed although their output is not exactly-once, or the stream not in sync. */
module WriterRetries {
  import opened Bytes
  import opened Rows
  import opened Rendering
  import opened Output
  import opened Statements
  import opened Executions
  import opened Retries
  import opened Engine
  import opened Guarantees
  import Wire

  // A stream of at least two answers without errors, notices or descriptions.
  predicate Calm(input: seq<Msg>)
  {
    && Readys(input) >= 2
    && forall i :: 0 <= i < |input| ==> input[i].BindComplete? || input[i].DataRow? || input[i].CommandComplete? || input[i].ReadyForQuery?
  }

  const REFUSED: Option<string> := Some("40001")

  // A streaming writer whose downstream answers the first Write with a serialization failure.
  ghost predicate RefusedOnce(out: OutWriter, taken: nat)
    reads out
  {
    out.streaming && out.sink.script == [Some(Refuse(taken, REFUSED))]
  }

  // What RunQuery says about a live caller's cached, supported query on a reliable connection,
  // with n executions given up, one request each.
  ghost predicate Reported(r: Outcome, cfg: Config, log: Log, out: OutWriter, input: seq<Msg>, sent: int, rest: seq<Msg>, n: nat, st: Prepared)
    reads out, out.sink
  {
    && Concluded(r, true, cfg, ModeArray, log, out, Origin(input, [], []), sent, rest)
    && (NeverStale(log.retries) ==> OneEach(log, n, sent, st))
    && (Serialization(r) && !out.committed ==> n == 2)
  }

  // ---- No error comes from the server ----

  lemma {:induction false} InConcat(segments: seq<seq<Msg>>, part: seq<Msg>)
    requires part in segments
    ensures forall i :: 0 <= i < |part| ==> part[i] in Concat(segments)
  {
    if part != segments[0] {
      InConcat(segments[1..], part);
    }
  }

  lemma CalmPart(input: seq<Msg>, segments: seq<seq<Msg>>, part: seq<Msg>)
    requires Calm(input) && Concat(segments) <= input && part in segments
    ensures ErrorIn(part).None?
  {
    hide Readys;
    InConcat(segments, part);
    if ErrorIn(part).Some? {
      ErrorShows(part);
    }
  }

  // The parts of a conclusion that are needed here.
  lemma Facts(r: Outcome, cfg: Config, mode: Mode, log: Log, out: OutWriter, input: seq<Msg>, sent: int, rest: seq<Msg>)
    requires Concluded(r, true, cfg, mode, log, out, Origin(input, [], []), sent, rest)
    ensures RetriesOk(log.retries, log.segments, mode, out.threshold) && Concat(log.segments) <= input && out.Booked()
    ensures |out.sink.refused| == |Refusals(log.retries)| + (if log.ran && SinkFailed(r) then 1 else 0)
    ensures log.ran && SinkFailed(r) ==> out.sink.failed && out.sink.refused[|out.sink.refused| - 1].code == r.error.state
    ensures out.sink.torn == Taken(log.retries) && (forall i :: 0 <= i < |Refusals(log.retries)| ==> out.sink.refused[i] == Refusals(log.retries)[i])
  {
    hide RetriesOk, Taken, Refusals, Body, Printable, AllPrintable, RowBoundary, Rendered, RowsOf, PlanOf, ErrorIn, AllResponses, AllFull, Asked,
         Answers, Stands, Accepts, Linked;
    assert [] + Refusals(log.retries) == Refusals(log.retries) && [] + Taken(log.retries) == Taken(log.retries);
  }

  lemma WhyRetried(w: Retry, segments: seq<seq<Msg>>, mode: Mode, threshold: int, input: seq<Msg>)
    requires RetryOk(w, mode, threshold) && w.t.msgs in segments && Calm(input) && Concat(segments) <= input
    ensures w.error.SinkError?
  {
    hide Response, NoReady, Rendered, AllPrintable, Calm, Concat;
    CalmPart(input, segments, w.t.msgs);
    StateIs(w.error);
    RetriedStates();
  }

  // So every retry is the writer's doing.
  lemma OnlyWriter(r: Outcome, cfg: Config, mode: Mode, log: Log, out: OutWriter, input: seq<Msg>, sent: int, rest: seq<Msg>, taken: nat)
    requires Concluded(r, true, cfg, mode, log, out, Origin(input, [], []), sent, rest) && Calm(input) && RefusedOnce(out, taken)
    ensures forall i :: 0 <= i < |log.retries| ==> log.retries[i].error == SinkError(REFUSED)
    ensures NeverStale(log.retries)
  {
    hide Concluded, RetryOk, Calm, Concat;
    Facts(r, cfg, mode, log, out, input, sent, rest);
    forall i | 0 <= i < |log.retries| ensures log.retries[i].error == SinkError(REFUSED) {
      WhyRetried(log.retries[i], log.segments, mode, out.threshold, input);
      FromScript(r, true, cfg, mode, log, out, Origin(input, [], []), sent, rest, i);
    }
  }

  // ---- The writer refuses once ----

  lemma {:induction false} RefusalCount(retries: seq<Retry>)
    requires forall i :: 0 <= i < |retries| ==> retries[i].error.SinkError?
    ensures |Refusals(retries)| == |retries|
    ensures forall i :: 0 <= i < |retries| ==> Refusals(retries)[i] == Refusal(retries[i].taken, retries[i].error.state)
  {
    if retries != [] { RefusalCount(retries[..|retries| - 1]); }
  }

  lemma {:induction false} AskedOnce(answer: Refuse, n: nat)
    ensures Asked([Some(answer)], n) == if n == 0 then [] else [answer]
  {
    if n > 0 { AskedOnce(answer, n - 1); }
  }

  lemma Counted(r: Outcome, cfg: Config, mode: Mode, log: Log, out: OutWriter, input: seq<Msg>, sent: int, rest: seq<Msg>, taken: nat)
    requires Concluded(r, true, cfg, mode, log, out, Origin(input, [], []), sent, rest) && Calm(input) && RefusedOnce(out, taken)
    ensures |log.retries| + (if log.ran && SinkFailed(r) then 1 else 0) == |out.sink.refused| == (if out.sink.calls == 0 then 0 else 1)
    ensures log.ran && SinkFailed(r) ==> r.error.state == REFUSED && !out.committed
    ensures out.sink.sent != [] ==> out.sink.calls > 0
    ensures log.retries != [] ==> (log.retries[0].taken == [] <==> taken == 0) && |log.retries[0].taken| <= taken
  {
    hide Concluded, Calm, RetriesOk, Concat, Taken;
    Facts(r, cfg, mode, log, out, input, sent, rest);
    OnlyWriter(r, cfg, mode, log, out, input, sent, rest, taken);
    RefusalCount(log.retries);
    AskedOnce(Refuse(taken, REFUSED), out.sink.calls);
    hide Asked, Refusals;
  }

  // ---- How the call ends ----

  lemma NotTheWriter(r: Outcome, cfg: Config, log: Log, out: OutWriter, input: seq<Msg>, sent: int, rest: seq<Msg>, n: nat, st: Prepared, taken: nat)
    requires Reported(r, cfg, log, out, input, sent, rest, n, st) && Calm(input) && RefusedOnce(out, taken)
    ensures OneEach(log, n, sent, st) && n <= 1 && log.ran && !SinkFailed(r)
    ensures r.Fine? ==> n == 1
  {
    hide Concluded, Calm, NeverStale;
    OnlyWriter(r, cfg, ModeArray, log, out, input, sent, rest, taken);
    Counted(r, cfg, ModeArray, log, out, input, sent, rest, taken);
    if r.Fine? { SomethingSent(cfg, log, out, input, sent, rest); }
  }

  lemma SomethingSent(cfg: Config, log: Log, out: OutWriter, input: seq<Msg>, sent: int, rest: seq<Msg>)
    requires Concluded(Fine, true, cfg, ModeArray, log, out, Origin(input, [], []), sent, rest) && out.streaming && log.ran
    ensures out.sink.sent != []
  {
  }

  // The ways to fail, with an extended request, no caps and no failing writer.
  ghost predicate Failing(e: Error, log: Log, input: seq<Msg>, sent: int, rest: seq<Msg>)
  {
    if e.PgError? then ErrorIn(log.t.msgs).Some? && log.t.msgs in log.segments && Concat(log.segments) <= input
    else
      && Stands(input, log.segments, sent - 1, log.t.msgs + rest) && NoReady(log.t.msgs)
      && if e.WireError? then rest == []
         else
           && log.t.msgs != []
           && var last := log.t.msgs[|log.t.msgs| - 1];
              last.RowDescription? || !Accepts(true, last) || (last.DataRow? && UnprintableEnd(log.t))
  }

  ghost predicate UnprintableEnd(t: Trace) { RowsOf(t) != [] && !Printable(ModeArray, RowsOf(t)[|RowsOf(t)| - 1]) }

  lemma WhyFailed(r: Outcome, cfg: Config, log: Log, out: OutWriter, input: seq<Msg>, sent: int, rest: seq<Msg>)
    requires Concluded(r, true, cfg, ModeArray, log, out, Origin(input, [], []), sent, rest) && r.Failed? && !SinkFailed(r) && log.ran
    requires cfg.maxRows == 0 && cfg.maxBytes == 0
    ensures Failing(r.error, log, input, sent, rest)
  {
    hide RetriesOk, Taken, Refusals, Body, Printable, AllPrintable, RowBoundary, Rendered, RowsOf, PlanOf, ErrorIn, AllResponses, AllFull, Asked,
         Answers, Stands, Accepts, Linked, Delivered, Response, NoReady;
    assert log.t.msgs + [] + rest == log.t.msgs + rest;
  }

  // What stays is a row that cannot be printed.
  lemma FailsAtRow(e: Error, log: Log, input: seq<Msg>, sent: int, rest: seq<Msg>)
    requires Failing(e, log, input, sent, rest) && sent <= 2 && Calm(input)
    ensures Stands(input, log.segments, sent - 1, log.t.msgs + rest) && NoReady(log.t.msgs) && log.t.msgs != []
    ensures log.t.msgs[|log.t.msgs| - 1].DataRow? && UnprintableEnd(log.t)
  {
    hide UnprintableEnd, NoReady, Response, Concat, ErrorIn, Readys;
    if e.PgError? {
      CalmPart(input, log.segments, log.t.msgs);
    } else if e.WireError? {
      ReadysOf(log.segments);
      assert log.t.msgs + [] == log.t.msgs;
      ReadysConcat(Concat(log.segments), log.t.msgs);
      ReadysIn(log.t.msgs);
    } else {
      var k := |Concat(log.segments)| + |log.t.msgs| - 1;
      assert input[k] == log.t.msgs[|log.t.msgs| - 1];
    }
  }

  // ---- Torn bytes before the document ----

  const EMPTY_ANSWER: seq<Msg> := [BindComplete, CommandComplete, ReadyForQuery]

  lemma {:induction false} NoRowsWithoutData(t: Trace)
    requires forall i :: 0 <= i < |t.msgs| ==> !t.msgs[i].DataRow?
    ensures RowsOf(t) == []
    decreases |t.msgs|
  {
    if t.msgs != [] { NoRowsWithoutData(t.(msgs := t.msgs[..|t.msgs| - 1])); }
  }

  lemma EmptyArray(t: Trace)
    requires forall i :: 0 <= i < |t.msgs| ==> !t.msgs[i].DataRow?
    ensures AllPrintable(ModeArray, RowsOf(t)) && RenderedOf(ModeArray, t) == [OPEN_BRACKET, CLOSE_BRACKET]
  {
    NoRowsWithoutData(t);
  }

  lemma TwoAnswers(answer: seq<Msg>)
    requires Response(answer) && forall i :: 0 <= i < |answer| ==> answer[i].BindComplete? || answer[i].DataRow? || answer[i].CommandComplete? || answer[i].ReadyForQuery?
    ensures Calm(answer + answer) && Concat([answer, answer]) == answer + answer && AllResponses([answer, answer])
  {
    ReadysConcat(answer, answer);
    ReadysIn(answer);
    ConcatSnoc([answer], answer);
    ConcatSnoc([], answer);
    assert [answer] + [answer] == [answer, answer] && [] + [answer] == [answer];
    hide Readys, Response;
  }

  // Two executions, the first given up for the writer.
  lemma SecondSucceeds(r: Outcome, cfg: Config, log: Log, out: OutWriter, input: seq<Msg>, sent: int, rest: seq<Msg>, n: nat, st: Prepared, taken: nat)
    returns (w: Retry)
    requires Reported(r, cfg, log, out, input, sent, rest, n, st) && Calm(input) && RefusedOnce(out, taken) && r.Fine?
    ensures sent == 2 && log.retries == [w] && log.segments == [w.t.msgs, log.t.msgs] && input == w.t.msgs + log.t.msgs + rest
    ensures w.error.SinkError? && RetryOk(w, ModeArray, out.threshold) && (w.taken == [] <==> taken == 0) && |w.taken| <= taken
    ensures Response(log.t.msgs) && AllPrintable(ModeArray, RowsOf(log.t)) && out.buf == []
    ensures out.sink.bytes == w.taken + RenderedOf(ModeArray, log.t)
  {
    hide *;
    NotTheWriter(r, cfg, log, out, input, sent, rest, n, st, taken);
    ReportedIs(r, cfg, log, out, input, sent, rest, n, st);
    Counted(r, cfg, ModeArray, log, out, input, sent, rest, taken);
    OnlyWriter(r, cfg, ModeArray, log, out, input, sent, rest, taken);
    Facts(r, cfg, ModeArray, log, out, input, sent, rest);
    ExactlyOnce(true, cfg, ModeArray, log, out, Origin(input, [], []), sent, rest);
    w := OneRetry(log, n, sent, st);
    OneRetryOk(log.retries, w, log.segments, out.threshold);
    TwoSegments(input, log.segments, w, log.t, sent, rest);
    GainedAll(input, out);
    Streams(out, taken);
    assert w.taken + RenderedOf(ModeArray, log.t) == Taken(log.retries) + RenderedOf(ModeArray, log.t);
  }

  lemma ReportedIs(r: Outcome, cfg: Config, log: Log, out: OutWriter, input: seq<Msg>, sent: int, rest: seq<Msg>, n: nat, st: Prepared)
    requires Reported(r, cfg, log, out, input, sent, rest, n, st)
    ensures Concluded(r, true, cfg, ModeArray, log, out, Origin(input, [], []), sent, rest)
  {
  }

  lemma OneRetry(log: Log, n: nat, sent: int, st: Prepared) returns (w: Retry)
    requires OneEach(log, n, sent, st) && n == 1
    ensures log.retries == [w] && sent == 2 && |log.segments| <= 2 && log.segments != [] && log.segments[0] == w.t.msgs && Taken(log.retries) == w.taken
  {
    w := log.retries[0];
    assert MsgsOf(log.retries)[0] == w.t.msgs;
    RetriesSnoc([], w);
    assert [] + [w] == [w] && [] + w.taken == w.taken;
  }

  lemma OneRetryOk(retries: seq<Retry>, w: Retry, segments: seq<seq<Msg>>, threshold: int)
    requires retries == [w] && RetriesOk(retries, segments, ModeArray, threshold)
    ensures RetryOk(w, ModeArray, threshold)
  {
    hide RetryOk;
    assert retries[0] == w;
  }

  lemma TwoSegments(input: seq<Msg>, segments: seq<seq<Msg>>, w: Retry, t: Trace, sent: int, rest: seq<Msg>)
    requires Stands(input, segments, sent, rest) && sent == 2 && segments[0] == w.t.msgs && segments[sent - 1] == t.msgs
    ensures segments == [w.t.msgs, t.msgs] && input == w.t.msgs + t.msgs + rest
  {
    hide Response, NoReady;
    assert segments == [w.t.msgs, t.msgs];
    ConcatSnoc([w.t.msgs], t.msgs);
    ConcatSnoc([], w.t.msgs);
    assert [w.t.msgs] + [t.msgs] == segments && [] + [w.t.msgs] == [w.t.msgs];
  }

  lemma Streams(out: OutWriter, taken: nat)
    requires RefusedOnce(out, taken)
    ensures out.streaming
  {
  }

  lemma GainedAll(input: seq<Msg>, out: OutWriter)
    ensures out.buf == [] ==> Gained(Origin(input, [], []), out) == out.sink.bytes
  {
  }

  // A failing call fails at a row.
  lemma AtRow(r: Outcome, cfg: Config, log: Log, out: OutWriter, input: seq<Msg>, sent: int, rest: seq<Msg>, n: nat, st: Prepared, taken: nat)
    requires Reported(r, cfg, log, out, input, sent, rest, n, st) && Calm(input) && RefusedOnce(out, taken) && cfg.maxRows == cfg.maxBytes == 0
    requires r.Failed?
    ensures Stands(input, log.segments, sent - 1, log.t.msgs + rest) && NoReady(log.t.msgs) && log.t.msgs != [] && OneEach(log, n, sent, st)
    ensures log.t.msgs[|log.t.msgs| - 1].DataRow? && UnprintableEnd(log.t)
    ensures input != [] && exists k :: 0 <= k < |input| && input[k].DataRow?
  {
    hide *;
    NotTheWriter(r, cfg, log, out, input, sent, rest, n, st, taken);
    ReportedIs(r, cfg, log, out, input, sent, rest, n, st);
    WhyFailed(r, cfg, log, out, input, sent, rest);
    AtMostTwo(log, n, sent, st);
    FailsAtRow(r.error, log, input, sent, rest);
    RowInStream(input, log.segments, sent - 1, log.t.msgs, rest);
  }

  lemma AtMostTwo(log: Log, n: nat, sent: int, st: Prepared)
    requires OneEach(log, n, sent, st) && n <= 1
    ensures sent <= 2
  {
  }

  lemma RowInStream(input: seq<Msg>, segments: seq<seq<Msg>>, sent: int, msgs: seq<Msg>, rest: seq<Msg>)
    requires Stands(input, segments, sent, msgs + rest) && msgs != [] && msgs[|msgs| - 1].DataRow?
    ensures exists k :: 0 <= k < |input| && input[k].DataRow?
  {
    hide Response, NoReady, Concat;
    assert input[|Concat(segments)| + |msgs| - 1] == msgs[|msgs| - 1];
  }

  // What a failed Write of an execution without rows took, if it was one byte.
  lemma OneByte(w: Retry, threshold: int)
    requires RetryOk(w, ModeArray, threshold) && w.error.SinkError? && |w.taken| <= 1 && w.taken != []
    requires forall i :: 0 <= i < |w.t.msgs| ==> !w.t.msgs[i].DataRow?
    ensures w.taken == [OPEN_BRACKET]
  {
    EmptyArray(w.t);
    assert w.taken[0] == OPEN_BRACKET;
  }

  /** Under the flush threshold, a final Write that takes a byte and fails with 40001 is retried
      and the call succeeds, but an unmatched bracket comes before the document. */
  lemma TornBytes(r: Outcome, cfg: Config, log: Log, out: OutWriter, sent: int, rest: seq<Msg>, n: nat, st: Prepared)
    requires Reported(r, cfg, log, out, EMPTY_ANSWER + EMPTY_ANSWER, sent, rest, n, st) && RefusedOnce(out, 1) && cfg.maxRows == cfg.maxBytes == 0
    ensures r.Fine? && out.sink.bytes == [OPEN_BRACKET] + [OPEN_BRACKET, CLOSE_BRACKET]
  {
    hide *;
    var input := EMPTY_ANSWER + EMPTY_ANSWER;
    NoDataInIt();
    if r.Failed? {
      AtRow(r, cfg, log, out, input, sent, rest, n, st, 1);
    } else {
      var w := SecondSucceeds(r, cfg, log, out, input, sent, rest, n, st, 1);
      assert forall i :: 0 <= i < |w.t.msgs| ==> w.t.msgs[i] == input[i];
      assert forall i :: 0 <= i < |log.t.msgs| ==> log.t.msgs[i] == input[|w.t.msgs| + i];
      OneByte(w, out.threshold);
      EmptyArray(log.t);
    }
  }

  lemma NoDataInIt()
    ensures Calm(EMPTY_ANSWER + EMPTY_ANSWER)
    ensures forall i :: 0 <= i < |EMPTY_ANSWER + EMPTY_ANSWER| ==> !(EMPTY_ANSWER + EMPTY_ANSWER)[i].DataRow?
  {
    TwoAnswers(EMPTY_ANSWER);
  }

  // ---- A lost row and an answer left over ----

  function RowAnswer(body: bytes): seq<Msg> { [BindComplete, DataRow(body), CommandComplete, ReadyForQuery] }

  // The part of a stream of row answers that ends with its first row, or with its first response.
  lemma UpToRow(body: bytes, msgs: seq<Msg>, after: seq<Msg>)
    requires RowAnswer(body) + RowAnswer(body) == msgs + after
    ensures NoReady(msgs) && msgs != [] && msgs[|msgs| - 1].DataRow? ==> msgs == RowAnswer(body)[..2]
    ensures Response(msgs) ==> exists i :: 0 <= i < |msgs| && msgs[i].DataRow?
  {
    var all := RowAnswer(body) + RowAnswer(body);
    assert all[..|msgs|] == msgs;
    assert Response(RowAnswer(body));
    FirstResponse(RowAnswer(body), RowAnswer(body), |msgs|);
    if Response(msgs) { assert msgs[1] == all[1]; }
    if NoReady(msgs) && msgs != [] && msgs[|msgs| - 1].DataRow? { assert msgs[|msgs| - 1] == all[|msgs| - 1]; }
  }

  // A writer that flushes every row was refused there.
  lemma GivenUpAtRow(body: bytes, w: Retry, threshold: int, after: seq<Msg>)
    requires RetryOk(w, ModeArray, threshold) && w.error.SinkError? && threshold <= 1
    requires RowAnswer(body) + RowAnswer(body) == w.t.msgs + after
    ensures w.t.msgs == RowAnswer(body)[..2] && after == RowAnswer(body)[2..] + RowAnswer(body)
  {
    hide Response, NoReady, Rendered, AllPrintable, RowsOf, PlanOf, ErrorIn;
    UpToRow(body, w.t.msgs, after);
    assert w.t.msgs == RowAnswer(body)[..2];
    assert after == (w.t.msgs + after)[2..];
  }

  // What the second execution reads as its answer.
  lemma RestOfAnswer(body: bytes, msgs: seq<Msg>, rest: seq<Msg>)
    requires RowAnswer(body)[2..] + RowAnswer(body) == msgs + rest
    ensures Response(msgs) ==> msgs == [CommandComplete, ReadyForQuery] && rest == RowAnswer(body)
    ensures NoReady(msgs) && msgs != [] ==> !msgs[|msgs| - 1].DataRow?
  {
    var first := RowAnswer(body)[2..];
    var all := first + RowAnswer(body);
    assert all[..|msgs|] == msgs && rest == all[|msgs|..];
    assert first == [CommandComplete, ReadyForQuery] && Response(first);
    FirstResponse(first, RowAnswer(body), |msgs|);
    if NoReady(msgs) && msgs != [] { assert msgs[|msgs| - 1] == all[|msgs| - 1] == CommandComplete; }
  }

  lemma RowPrinted(body: bytes, t: Trace, plan: Plan)
    requires t.msgs == RowAnswer(body)[..2] && t.start == Some(plan) && Printable(ModeArray, PlannedRow(Some(plan), body))
    ensures !UnprintableEnd(t)
  {
    hide Printable;
    Snoc(t.start, t.compile, [], BindComplete);
    Snoc(t.start, t.compile, [BindComplete], DataRow(body));
    assert [] + [BindComplete] == [BindComplete] && [BindComplete] + [DataRow(body)] == t.msgs;
  }

  // Neither execution can fail.
  lemma RowDoesNotFail(r: Outcome, cfg: Config, log: Log, out: OutWriter, sent: int, rest: seq<Msg>, n: nat, st: Prepared, body: bytes)
    requires Reported(r, cfg, log, out, RowAnswer(body) + RowAnswer(body), sent, rest, n, st) && RefusedOnce(out, 0) && cfg.maxRows == cfg.maxBytes == 0
    requires out.threshold <= 1 && Printable(ModeArray, PlannedRow(Some(st.plan), body)) && (log.ran ==> log.t.start == Some(log.st.plan))
    ensures r.Fine?
  {
    hide *;
    var input := RowAnswer(body) + RowAnswer(body);
    CalmRows(body);
    if r.Failed? {
      AtRow(r, cfg, log, out, input, sent, rest, n, st, 0);
      NotTheWriter(r, cfg, log, out, input, sent, rest, n, st, 0);
      if n == 0 {
        FirstOf(log, sent, st, input, rest);
        UpToRow(body, log.t.msgs, rest);
        RowPrinted(body, log.t, st.plan);
      } else {
        ReportedIs(r, cfg, log, out, input, sent, rest, n, st);
        OnlyWriter(r, cfg, ModeArray, log, out, input, sent, rest, 0);
        Facts(r, cfg, ModeArray, log, out, input, sent, rest);
        var w := OneRetry(log, n, sent, st);
        OneRetryOk(log.retries, w, log.segments, out.threshold);
        assert log.retries[0] == w;
        SecondOf(log, sent, w, input, rest);
        GivenUpAtRow(body, w, out.threshold, log.t.msgs + rest);
        RestOfAnswer(body, log.t.msgs, rest);
      }
    }
  }

  lemma FirstOf(log: Log, sent: int, st: Prepared, input: seq<Msg>, rest: seq<Msg>)
    requires OneEach(log, 0, sent, st) && Stands(input, log.segments, sent - 1, log.t.msgs + rest)
    ensures input == log.t.msgs + rest && log.st == st
  {
  }

  lemma SecondOf(log: Log, sent: int, w: Retry, input: seq<Msg>, rest: seq<Msg>)
    requires sent == 2 && log.segments != [] && log.segments[0] == w.t.msgs && Stands(input, log.segments, sent - 1, log.t.msgs + rest)
    ensures input == w.t.msgs + (log.t.msgs + rest)
  {
    hide Response, NoReady;
    ConcatSnoc([], w.t.msgs);
    assert log.segments == [] + [w.t.msgs];
    assert Concat(log.segments) == w.t.msgs;
  }

  lemma CalmRows(body: bytes)
    ensures Calm(RowAnswer(body) + RowAnswer(body))
  {
    TwoAnswers(RowAnswer(body));
  }

  /** When every row is flushed and the first Write fails with 40001, the retry takes the rest of
      the first answer for its own: the call succeeds with no row, and the second answer, to a
      request already counted as served, is left for the next call to read. */
  lemma LostRow(r: Outcome, cfg: Config, log: Log, out: OutWriter, sent: int, rest: seq<Msg>, n: nat, st: Prepared, body: bytes)
    requires Reported(r, cfg, log, out, RowAnswer(body) + RowAnswer(body), sent, rest, n, st) && RefusedOnce(out, 0) && cfg.maxRows == cfg.maxBytes == 0
    requires out.threshold <= 1 && Printable(ModeArray, PlannedRow(Some(st.plan), body)) && (log.ran ==> log.t.start == Some(log.st.plan))
    ensures r.Fine? && sent == 2 && out.sink.bytes == [OPEN_BRACKET, CLOSE_BRACKET] && rest == RowAnswer(body)
  {
    hide *;
    var input := RowAnswer(body) + RowAnswer(body);
    CalmRows(body);
    RowDoesNotFail(r, cfg, log, out, sent, rest, n, st, body);
    var w := SecondSucceeds(r, cfg, log, out, input, sent, rest, n, st, 0);
    Assoc(w.t.msgs, log.t.msgs, rest);
    GivenUpAtRow(body, w, out.threshold, log.t.msgs + rest);
    RestOfAnswer(body, log.t.msgs, rest);
    EmptyArray(log.t);
    assert [] + [OPEN_BRACKET, CLOSE_BRACKET] == [OPEN_BRACKET, CLOSE_BRACKET];
  }

  // ---- The calls themselves ----

  // A client that retries serialization failures, with sql cached as st on a reliable connection.
  method Retrying(pick: Picker, hasBinary: int -> bool, sql: string, st: Prepared, input: seq<Msg>) returns (c: Client)
    ensures fresh(c) && fresh(c.conn) && fresh(c.stmts) && c.stmts.byKey == map[sql := st] && c.cfg == Config(0, 0, 256, true) && !c.Simple([])
    ensures c.conn.input == input && c.conn.reliable && c.conn.requests == 0
  {
    var conn := new Conn(input, true);
    c := new Client(Config(0, 0, 256, true), pick, hasBinary, {}, conn);
    c.stmts.byKey := map[sql := st];
  }

  method Refusing(threshold: int, taken: nat) returns (out: OutWriter)
    ensures fresh(out) && fresh(out.sink) && out.Fresh() && out.threshold == threshold && out.streaming && out.sink.script == [Some(Refuse(taken, REFUSED))]
    ensures out.sink.torn == [] && out.sink.refused == []
  {
    var sink := new Sink([Some(Refuse(taken, REFUSED))]);
    out := new OutWriter(true, threshold, false, sink);
  }

  lemma ToReport(r: Outcome, cfg: Config, log: Log, out: OutWriter, input: seq<Msg>, sent: int, rest: seq<Msg>, n: nat, st: Prepared, taken: nat)
    requires Concluded(r, true, cfg, ModeArray, log, out, Origin(input, [], []), sent, rest) && (NeverStale(log.retries) ==> OneEach(log, n, sent, st))
    requires Serialization(r) && !out.committed ==> n == 2
    requires out.streaming && out.sink.script == [Some(Refuse(taken, REFUSED))]
    ensures Reported(r, cfg, log, out, input, sent, rest, n, st) && RefusedOnce(out, taken)
  {
    hide Concluded, NeverStale, OneEach;
  }

  method TornCall(pick: Picker, hasBinary: int -> bool, sql: string, st: Prepared) returns (r: Outcome, out: OutWriter)
    ensures r.Fine? && out.sink.bytes == [OPEN_BRACKET, OPEN_BRACKET, CLOSE_BRACKET]
  {
    hide *;
    var c := Retrying(pick, hasBinary, sql, st, EMPTY_ANSWER + EMPTY_ANSWER);
    out := Refusing(1000, 1);
    ghost var log, abandoned, cancelled;
    c.PlainIs(true, []);
    r, log, abandoned, cancelled := c.RunQuery(out, ModeArray, sql, true, [], true);
    ToReport(r, c.cfg, log, out, EMPTY_ANSWER + EMPTY_ANSWER, c.conn.requests, c.conn.input, |abandoned|, st, 1);
    TornBytes(r, c.cfg, log, out, c.conn.requests, c.conn.input, |abandoned|, st);
  }

  method LostCall(pick: Picker, hasBinary: int -> bool, sql: string, st: Prepared, body: bytes) returns (r: Outcome, out: OutWriter, conn: Conn)
    requires Printable(ModeArray, PlannedRow(Some(st.plan), body))
    ensures r.Fine? && out.sink.bytes == [OPEN_BRACKET, CLOSE_BRACKET] && conn.requests == 2 && conn.input == RowAnswer(body)
  {
    hide *;
    var c := Retrying(pick, hasBinary, sql, st, RowAnswer(body) + RowAnswer(body));
    out := Refusing(1, 0);
    conn := c.conn;
    ghost var log, abandoned, cancelled;
    c.PlainIs(true, []);
    r, log, abandoned, cancelled := c.RunQuery(out, ModeArray, sql, true, [], true);
    ToReport(r, c.cfg, log, out, RowAnswer(body) + RowAnswer(body), c.conn.requests, c.conn.input, |abandoned|, st, 0);
    StartIs(c, log);
    LostRow(r, c.cfg, log, out, c.conn.requests, c.conn.input, |abandoned|, st, body);
  }

  lemma StartIs(c: Client, log: Log)
    ensures c.StartsFrom(log, false) ==> log.t.start == Some(log.st.plan)
  {
  }
}
