/** What a call to the query engine guarantees, for every server and every writer: exactly-once
    output, delivery at row boundaries and a stream in sync, each with the exact condition. */
module Guarantees {
  import opened Bytes
  import opened Rows
  import opened Headers
  import opened Rendering
  import opened Output
  import opened Executions
  import opened Retries

  // Everything this call has given the caller's writer or holds for the caller.
  ghost function Gained(from: Origin, out: OutWriter): bytes
    requires from.torn <= out.sink.bytes
    reads out, out.sink
  {
    out.sink.bytes[|from.torn|..] + out.buf
  }

  // What the execution t prints in full.
  ghost function RenderedOf(mode: Mode, t: Trace): bytes
    requires AllPrintable(mode, RowsOf(t))
  {
    Rendered(mode, PlanOf(t), RowsOf(t))
  }

  /** Success: the last execution read one error-free response, stayed under both caps, and what
      it delivered (or buffered) is the rendering of that response alone, behind whatever failed
      writes of abandoned executions had taken. So the call is exactly-once and in sync iff every
      retry came after its response was read in full and its failed Write took nothing. */
  lemma ExactlyOnce(extended: bool, cfg: Config, mode: Mode, log: Log, out: OutWriter, from: Origin, sent: int, rest: seq<Msg>)
    requires Concluded(Fine, extended, cfg, mode, log, out, from, sent, rest)
    ensures Stands(from.input, log.segments, sent, rest) && sent > 0
    ensures var last := log.segments[sent - 1];
            var rows := RowsOf(log.t);
            && last == log.t.msgs && Response(last) && ErrorIn(last).None? && AllPrintable(mode, rows)
            && from.torn <= out.sink.bytes && (out.streaming ==> out.buf == [])
            && (cfg.maxRows > 0 ==> |rows| < cfg.maxRows)
            && (cfg.maxBytes > 0 && rows != [] ==> |Body(mode, rows)| < cfg.maxBytes)
    ensures var whole := RenderedOf(mode, log.t);
            && Gained(from, out) == Taken(log.retries) + whole
            && (if out.streaming then out.sink.sent else out.buf) == whole
            && (InSync(from.input, log.segments, sent, rest) && Gained(from, out) == whole <==> AllClean(log.retries))
  {
    hide Printable, Body, Rendered, RowBoundary, RowsIn, PlanAfter, ErrorIn, Response, NoReady, Asked, Answers, Taken, Refusals, AllClean, AllFull, AllResponses;
    StandsIs(from.input, log.segments, sent, rest);
    CleanIs(log.retries);
    ContentBehind(from.torn, Taken(log.retries), out);
  }

  lemma ContentBehind(torn: bytes, taken: bytes, out: OutWriter)
    requires out.sink.bytes == out.sink.torn + out.sink.sent && out.sink.torn == torn + taken
    ensures torn <= out.sink.bytes && out.sink.bytes[|torn|..] + out.buf == taken + (out.sink.sent + out.buf)
    ensures out.sink.bytes[|torn|..] == taken + out.sink.sent
    ensures [] + out.buf == out.buf && out.sink.sent + [] == out.sink.sent
  {
    assert out.sink.bytes == torn + (taken + out.sink.sent);
  }

  lemma CleanIs(retries: seq<Retry>)
    ensures AllClean(retries) <==> AllFull(retries) && Taken(retries) == []
  {
    hide Response;
    TakenNothing(retries);
    if AllFull(retries) && Taken(retries) == [] {
      assert forall i :: 0 <= i < |retries| ==> Clean(retries[i]);
    }
  }

  lemma {:induction false} TakenNothing(retries: seq<Retry>)
    ensures Taken(retries) == [] <==> forall i :: 0 <= i < |retries| ==> retries[i].taken == []
  {
    if retries != [] {
      var front, w := retries[..|retries| - 1], retries[|retries| - 1];
      TakenNothing(front);
      assert Taken(retries) == Taken(front) + w.taken;
      hide Taken;
      assert forall i :: 0 <= i < |front| ==> front[i] == retries[i];
      assert Taken(retries) == [] <==> Taken(front) == [] && w.taken == [];
    }
  }

  // A writer whose own errors carry none of the SQLSTATEs that are retried.
  ghost predicate PlainWriter(script: seq<Option<Refuse>>)
  {
    forall i :: 0 <= i < |script| && script[i].Some? ==> script[i].value.code !in RETRIED
  }

  /** With a plain writer every retry is the server's doing, after its whole response and with
      nothing taken: a successful call is exactly-once and in sync. */
  lemma PlainWriterIsClean(r: Outcome, extended: bool, cfg: Config, mode: Mode, log: Log, out: OutWriter, from: Origin, sent: int, rest: seq<Msg>)
    requires Concluded(r, extended, cfg, mode, log, out, from, sent, rest) && PlainWriter(out.sink.script)
    ensures AllClean(log.retries)
  {
    hide *;
    ConcludedRetries(r, extended, cfg, mode, log, out, from, sent, rest);
    forall i | 0 <= i < |log.retries| ensures Clean(log.retries[i]) {
      FromScript(r, extended, cfg, mode, log, out, from, sent, rest, i);
      NotTheWriters(log.retries[i], mode, out.threshold, out.sink.script);
    }
    AllCleanIs(log.retries);
  }

  lemma AllCleanIs(retries: seq<Retry>)
    requires forall i :: 0 <= i < |retries| ==> Clean(retries[i])
    ensures AllClean(retries)
  {
    hide Clean;
  }

  lemma ConcludedRetries(r: Outcome, extended: bool, cfg: Config, mode: Mode, log: Log, out: OutWriter, from: Origin, sent: int, rest: seq<Msg>)
    requires Concluded(r, extended, cfg, mode, log, out, from, sent, rest)
    ensures forall i :: 0 <= i < |log.retries| ==> RetryOk(log.retries[i], mode, out.threshold)
  {
    hide Placed, Ended, Taken, Refusals, RetryOk, NotRunning, Answered;
  }

  lemma NotTheWriters(w: Retry, mode: Mode, threshold: int, script: seq<Option<Refuse>>)
    requires RetryOk(w, mode, threshold) && PlainWriter(script)
    requires w.error.SinkError? ==> exists k :: 0 <= k < |script| && script[k].Some? && script[k].value.code == w.error.state
    ensures Clean(w)
  {
    hide Response, ErrorIn, NoReady, Rendered, AllPrintable, RowsOf, PlanOf;
    StateIs(w.error);
    RetriedStates();
  }

  // An execution given up for the writer's error was answered so by the writer's script.
  lemma FromScript(r: Outcome, extended: bool, cfg: Config, mode: Mode, log: Log, out: OutWriter, from: Origin, sent: int, rest: seq<Msg>, i: nat)
    requires Concluded(r, extended, cfg, mode, log, out, from, sent, rest) && i < |log.retries|
    ensures log.retries[i].error.SinkError? ==>
              exists k :: 0 <= k < |out.sink.script| && out.sink.script[k].Some? && out.sink.script[k].value.code == log.retries[i].error.state
  {
    hide Printable, Body, Rendered, RowBoundary, RowsOf, PlanOf, ErrorIn, Response, NoReady, Asked, Taken, Refusals, AllResponses, Stands, AllPrintable, Placed;
    assert out.sink.Honest();
    var w := log.retries[i];
    if w.error.SinkError? {
      var j := RefusalOf(log.retries, i);
      assert out.sink.refused[|from.refused| + j] == Refusal(w.taken, w.error.state);
      var _ := AskedFrom(out.sink.script, out.sink.calls, |from.refused| + j);
    }
  }

  lemma {:induction false} AskedFrom(script: seq<Option<Refuse>>, n: nat, i: nat) returns (k: nat)
    requires i < |Asked(script, n)|
    ensures k < |script| && script[k] == Some(Asked(script, n)[i])
  {
    if i < |Asked(script, n - 1)| {
      k := AskedFrom(script, n - 1, i);
    } else {
      k := n - 1;
    }
  }

  lemma {:induction false} RefusalOf(retries: seq<Retry>, i: nat) returns (j: nat)
    requires i < |retries| && retries[i].error.SinkError?
    ensures j < |Refusals(retries)| && Refusals(retries)[j] == Refusal(retries[i].taken, retries[i].error.state)
  {
    var n := |retries| - 1;
    if i == n {
      j := |Refusals(retries[..n])|;
    } else {
      j := RefusalOf(retries[..n], i);
    }
  }

  /** Failure: the bytes that the last execution has delivered end after a whole row of its
      response, Committed says whether there are any, and there are none if no DataRow came. */
  lemma FailureEndsAtRow(r: Outcome, extended: bool, cfg: Config, mode: Mode, log: Log, out: OutWriter, from: Origin, sent: int, rest: seq<Msg>)
    requires Concluded(r, extended, cfg, mode, log, out, from, sent, rest) && r.Failed? && !out.sink.failed
    ensures out.sink.bytes == from.torn + Taken(log.retries) + out.sink.sent
    ensures out.committed <==> out.sink.sent != []
    ensures out.committed ==>
              && log.ran && log.rows <= RowsOf(log.t) && AllPrintable(mode, log.rows)
              && exists k :: 1 <= k <= |log.rows| && out.sink.sent == Body(mode, log.rows[..k])
    ensures !log.ran || RowsOf(log.t) == [] ==> !out.committed
    ensures Capped(r) ==> r.error.committed == (out.sink.sent != [])
  {
    hide Printable, Body, Rendered, RowBoundary, RowsIn, PlanAfter, ErrorIn, Response, NoReady, Accepts, Stands, Asked, Answers, Taken, Refusals, Placed;
    if log.ran { DeliveredEndsAtRow(mode, PlanOf(log.t), log.rows, out); }
  }

  // ---- Against a server that answers every request with one response ----

  /** The stream is left just past the answer to the last request sent, and what was read are the
      answers so far, iff no retry (and no final failure of the writer) left a response unread. */
  lemma Resynchronised(r: Outcome, extended: bool, cfg: Config, mode: Mode, log: Log, out: OutWriter, from: Origin,
                       responses: seq<seq<Msg>>, sent: int, rest: seq<Msg>)
    requires Concluded(r, extended, cfg, mode, log, out, from, sent, rest)
    requires from.input == Concat(responses) && AllResponses(responses) && sent <= |responses|
    requires Settled(r) || Capped(r)
    ensures 0 <= sent == |log.segments|
    ensures rest == Concat(responses[sent..]) <==> AllFull(log.retries) && (SinkFailed(r) && log.ran ==> Response(log.t.msgs))
    ensures rest == Concat(responses[sent..]) <==> log.segments == responses[..sent]
  {
    ConcludedPlaced(r, extended, cfg, mode, log, out, from, sent, rest);
    hide *;
    WherePlaced(r, log, responses, sent, rest);
  }

  lemma ConcludedPlaced(r: Outcome, extended: bool, cfg: Config, mode: Mode, log: Log, out: OutWriter, from: Origin, sent: int, rest: seq<Msg>)
    requires Concluded(r, extended, cfg, mode, log, out, from, sent, rest)
    ensures Placed(r, log, from.input, sent, rest) && (Capped(r) ==> log.ran)
  {
    hide Placed, Ended, Taken, Refusals, RetryOk;
  }

  lemma WherePlaced(r: Outcome, log: Log, responses: seq<seq<Msg>>, sent: int, rest: seq<Msg>)
    requires Placed(r, log, Concat(responses), sent, rest) && (Settled(r) || (Capped(r) && log.ran))
    requires AllResponses(responses) && sent <= |responses|
    ensures 0 <= sent == |log.segments|
    ensures rest == Concat(responses[sent..]) <==> AllFull(log.retries) && (SinkFailed(r) && log.ran ==> Response(log.t.msgs))
    ensures rest == Concat(responses[sent..]) <==> log.segments == responses[..sent]
  {
    hide Response, NoReady, Stands, AllFull, AllResponses;
    if Settled(r) || Response(log.t.msgs + log.drained) {
      AnswersRead(responses, log.segments, sent, rest);
    } else {
      TooFewRead(responses, log.segments, sent, log.t.msgs + log.drained, rest);
    }
  }

  /** After a success: the stream in place and the output exactly the rendering of the answer to
      the last request sent, iff every retry was clean. */
  lemma SuccessExact(extended: bool, cfg: Config, mode: Mode, log: Log, out: OutWriter, from: Origin, responses: seq<seq<Msg>>, sent: int, rest: seq<Msg>)
    requires Concluded(Fine, extended, cfg, mode, log, out, from, sent, rest)
    requires from.input == Concat(responses) && AllResponses(responses) && sent <= |responses|
    ensures sent > 0 && from.torn <= out.sink.bytes
    ensures var answer := responses[sent - 1];
            var rows := RowsOf(log.t.(msgs := answer));
            && rest == Concat(responses[sent..]) && AllPrintable(mode, rows)
            && Gained(from, out) == RenderedOf(mode, log.t.(msgs := answer))
            <==> AllClean(log.retries)
  {
    hide *;
    SettledIs(Fine);
    ExactlyOnce(extended, cfg, mode, log, out, from, sent, rest);
    Resynchronised(Fine, extended, cfg, mode, log, out, from, responses, sent, rest);
    CleanIs(log.retries);
    assert log.segments == responses[..sent] ==> log.segments[sent - 1] == responses[sent - 1] && log.t.(msgs := responses[sent - 1]) == log.t;
    SameLength(Taken(log.retries), Gained(from, out));
  }

  lemma SameLength(a: bytes, b: bytes)
    ensures forall c: bytes :: b == a + c && b == c ==> a == []
    ensures forall c: bytes :: b == a + c && a == [] ==> b == c
  {
    forall c: bytes | b == a + c && b == c ensures a == [] {
      assert |b| == |a| + |c|;
    }
  }

  function Readys(msgs: seq<Msg>): nat
  {
    if msgs == [] then 0 else (if msgs[0].ReadyForQuery? then 1 else 0) + Readys(msgs[1..])
  }

  lemma {:induction false} ReadysConcat(a: seq<Msg>, b: seq<Msg>)
    ensures Readys(a + b) == Readys(a) + Readys(b)
  {
    if a == [] {
      assert a + b == b;
    } else {
      assert (a + b)[1..] == a[1..] + b;
      ReadysConcat(a[1..], b);
    }
  }

  lemma {:induction false} ReadysIn(msgs: seq<Msg>)
    ensures NoReady(msgs) ==> Readys(msgs) == 0
    ensures Response(msgs) ==> Readys(msgs) == 1
  {
    if msgs != [] {
      ReadysIn(msgs[1..]);
      if |msgs| == 1 { assert msgs[1..] == []; }
    }
  }

  // One ReadyForQuery in each whole response, so their number tells whether there are any others.
  lemma {:induction false} ReadysOf(segments: seq<seq<Msg>>)
    requires forall i :: 0 <= i < |segments| ==> Response(segments[i]) || NoReady(segments[i])
    ensures Readys(Concat(segments)) <= |segments|
    ensures Readys(Concat(segments)) == |segments| <==> AllResponses(segments)
  {
    if segments != [] {
      hide Response, NoReady, Readys;
      ReadysOf(segments[1..]);
      ReadysConcat(segments[0], Concat(segments[1..]));
      ReadysIn(segments[0]);
      NotBoth(segments[0]);
      assert AllResponses(segments) <==> Response(segments[0]) && AllResponses(segments[1..]);
    } else {
      assert Readys([]) == 0;
    }
  }

  lemma AnswersRead(responses: seq<seq<Msg>>, segments: seq<seq<Msg>>, sent: int, rest: seq<Msg>)
    requires AllResponses(responses) && Stands(Concat(responses), segments, sent, rest) && sent <= |responses|
    ensures 0 <= sent == |segments|
    ensures rest == Concat(responses[sent..]) <==> AllResponses(segments)
    ensures rest == Concat(responses[sent..]) <==> segments == responses[..sent]
  {
    hide Response, NoReady, Readys, Concat;
    var left := responses[sent..];
    if AllResponses(segments) { ReadResponsesAreFirst(responses, segments, rest); }
    if rest == Concat(left) {
      ReadysOf(responses);
      ReadysOf(left);
      ReadysOf(segments);
      ReadysConcat(Concat(segments), rest);
    }
    assert AllResponses(responses[..sent]);
  }

  lemma TooFewRead(responses: seq<seq<Msg>>, segments: seq<seq<Msg>>, sent: int, tail: seq<Msg>, rest: seq<Msg>)
    requires AllResponses(responses) && Stands(Concat(responses), segments, sent - 1, tail + rest) && rest == [] && NoReady(tail)
    ensures sent > |responses|
  {
    hide Response, NoReady, Readys, Concat;
    ReadysOf(responses);
    ReadysOf(segments);
    ReadysConcat(Concat(segments), tail + rest);
    assert tail + rest == tail;
    ReadysIn(tail);
  }
}
