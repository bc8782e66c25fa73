/** The history of a call to the query engine: what was read after each request, which executions
    were given up for another, and what they left downstream. */
module Retries {
  import opened Bytes
  import opened Rows
  import opened Headers
  import opened Rendering
  import opened Output
  import opened Statements
  import opened Executions

  // ---- Where the connection stands ----

  // Since `before`, whole responses have been read, one for each request sent.
  ghost predicate InSync(before: seq<Msg>, segments: seq<seq<Msg>>, sent: int, rest: seq<Msg>)
  {
    AllResponses(segments) && before == Concat(segments) + rest && |segments| == sent
  }

  lemma OneMore(before: seq<Msg>, segments: seq<seq<Msg>>, sent: int, read: seq<Msg>, rest: seq<Msg>)
    requires InSync(before, segments, sent, read + rest) && Response(read)
    ensures InSync(before, segments + [read], sent + 1, rest)
  {
    hide Response;
    ConcatSnoc(segments, read);
  }

  // What was read after each request: up to a ReadyForQuery, or less when the caller's writer
  // failed before it.
  ghost predicate Stands(before: seq<Msg>, segments: seq<seq<Msg>>, sent: int, rest: seq<Msg>)
  {
    && (forall i :: 0 <= i < |segments| ==> Response(segments[i]) || NoReady(segments[i]))
    && before == Concat(segments) + rest && |segments| == sent
  }

  lemma StandsIs(before: seq<Msg>, segments: seq<seq<Msg>>, sent: int, rest: seq<Msg>)
    ensures InSync(before, segments, sent, rest) <==> Stands(before, segments, sent, rest) && AllResponses(segments)
  {
    hide Response, NoReady;
  }

  lemma StandsPrefix(before: seq<Msg>, segments: seq<seq<Msg>>, sent: int, rest: seq<Msg>)
    ensures Stands(before, segments, sent, rest) ==> Concat(segments) <= before
  {
    hide Response, NoReady;
  }

  lemma StandsMore(before: seq<Msg>, segments: seq<seq<Msg>>, sent: int, read: seq<Msg>, rest: seq<Msg>)
    requires Stands(before, segments, sent, read + rest) && (Response(read) || NoReady(read))
    ensures Stands(before, segments + [read], sent + 1, rest)
    ensures AllResponses(segments + [read]) <==> AllResponses(segments) && Response(read)
  {
    hide Response, NoReady;
    ConcatSnoc(segments, read);
    assert (segments + [read])[|segments|] == read;
    assert forall i :: 0 <= i < |segments| ==> (segments + [read])[i] == segments[i];
  }

  // ---- Retries ----

  // The SQLSTATE that the retry loops see in an error; the caller's writer may supply one too.
  function StateOf(e: Error): Option<string>
  {
    match e
    case PgError(code) => Some(code)
    case SinkError(state) => state
    case _ => None
  }

  const RETRIED: seq<Option<string>> := [Some("26000"), Some("40001"), Some("40P01")]

  /** An execution given up for another: why, what had been read of its response, and what its
      failed Write had taken. */
  datatype Retry = Retry(error: Error, t: Trace, taken: bytes)

  ghost predicate RetryOk(w: Retry, mode: Mode, threshold: int)
  {
    && StateOf(w.error) in RETRIED
    && (w.error.PgError? ==> Response(w.t.msgs) && ErrorIn(w.t.msgs) == Some(w.error.code) && w.taken == [])
    && (w.error.SinkError? ==>
          && (Response(w.t.msgs) || (NoReady(w.t.msgs) && w.t.msgs != [] && w.t.msgs[|w.t.msgs| - 1].DataRow?))
          && (Response(w.t.msgs) && threshold <= 1 ==> forall i :: 0 <= i < |w.t.msgs| ==> !w.t.msgs[i].DataRow?)
          && AllPrintable(mode, RowsOf(w.t)) && w.taken <= Rendered(mode, PlanOf(w.t), RowsOf(w.t)))
  }

  ghost predicate RetriesOk(retries: seq<Retry>, segments: seq<seq<Msg>>, mode: Mode, threshold: int)
  {
    forall i :: 0 <= i < |retries| ==> RetryOk(retries[i], mode, threshold) && retries[i].t.msgs in segments
  }

  // The response was read in full, and nothing of the output had been taken.
  predicate Clean(w: Retry) { Response(w.t.msgs) && w.taken == [] }

  predicate AllFull(retries: seq<Retry>) { forall i :: 0 <= i < |retries| ==> Response(retries[i].t.msgs) }

  predicate AllClean(retries: seq<Retry>) { forall i :: 0 <= i < |retries| ==> Clean(retries[i]) }

  // Everything that failed writes of abandoned executions took.
  function Taken(retries: seq<Retry>): bytes
  {
    if retries == [] then [] else Taken(retries[..|retries| - 1]) + retries[|retries| - 1].taken
  }

  // The writer's failures among the retries.
  function Refusals(retries: seq<Retry>): seq<Refusal>
  {
    if retries == [] then []
    else
      var w := retries[|retries| - 1];
      Refusals(retries[..|retries| - 1]) + (if w.error.SinkError? then [Refusal(w.taken, w.error.state)] else [])
  }

  function MsgsOf(retries: seq<Retry>): seq<seq<Msg>> { seq(|retries|, i requires 0 <= i < |retries| => retries[i].t.msgs) }

  lemma {:induction false} RetriesConcat(a: seq<Retry>, b: seq<Retry>)
    ensures Taken(a + b) == Taken(a) + Taken(b)
    ensures Refusals(a + b) == Refusals(a) + Refusals(b)
  {
    if b == [] {
      assert a + b == a;
      hide *;
      NoneTaken(a);
    } else {
      hide *;
      var n := |b| - 1;
      var w := b[n];
      RetriesConcat(a, b[..n]);
      RetriesSnoc(a + b[..n], w);
      RetriesSnoc(b[..n], w);
      BackTogether(a, b);
      Assoc(Taken(a), Taken(b[..n]), w.taken);
      Assoc(Refusals(a), Refusals(b[..n]), if w.error.SinkError? then [Refusal(w.taken, w.error.state)] else []);
    }
  }

  lemma NoneTaken(a: seq<Retry>)
    ensures Taken(a) + Taken([]) == Taken(a) && Refusals(a) + Refusals([]) == Refusals(a)
  {
  }

  lemma BackTogether<T>(a: seq<T>, b: seq<T>)
    requires b != []
    ensures a + b[..|b| - 1] + [b[|b| - 1]] == a + b && b[..|b| - 1] + [b[|b| - 1]] == b
  {
  }

  // ---- Calls ----

  /** The history of a call: what was read after each request, the executions given up, then for
      the last execution (if any was started) what was read to prepare its statement, what it read,
      what it dropped over a cap, and the rows it printed. */
  datatype Log = Log(segments: seq<seq<Msg>>, retries: seq<Retry>, ran: bool, st: Prepared, prelude: seq<Msg>, t: Trace, drained: seq<Msg>,
                     rows: seq<PlannedRow>)

  // What a call finds: the stream, and what the caller's writer has been through.
  datatype Origin = Origin(input: seq<Msg>, torn: bytes, refused: seq<Refusal>)

  // Only whole responses have been read, unless a retry followed an unread one.
  ghost predicate Linked(segments: seq<seq<Msg>>, retries: seq<Retry>, also: bool)
  {
    AllResponses(segments) <==> AllFull(retries) && also
  }

  // Outcomes after which every request has its segment.
  predicate Settled(r: Outcome) { Synced(r) || SinkFailed(r) }

  ghost predicate Placed(r: Outcome, log: Log, before: seq<Msg>, sent: int, rest: seq<Msg>)
  {
    && Concat(log.segments) <= before
    && if Settled(r) then
      && Stands(before, log.segments, sent, rest)
      && Linked(log.segments, log.retries, SinkFailed(r) && log.ran ==> Response(log.t.msgs))
      && (log.ran || (r.Failed? && r.error.PgError?) ==> log.segments != [] && log.segments[|log.segments| - 1] == log.t.msgs)
    else if Capped(r) && Response(log.t.msgs + log.drained) then
      Stands(before, log.segments, sent, rest) && Linked(log.segments, log.retries, true)
    else log.ran ==>
      && Stands(before, log.segments, sent - 1, log.t.msgs + log.drained + rest) && Linked(log.segments, log.retries, true)
      && (Capped(r) ==> NoReady(log.t.msgs + log.drained) && rest == [])
  }

  // No execution was started, or none after the last retry was decided on.
  ghost predicate NotRunning(r: Outcome, log: Log, out: OutWriter)
    reads out, out.sink
  {
    && r.Failed? && out.Fresh() && !Capped(r)
    && (r.error.PgError? ==> Response(log.t.msgs) && ErrorIn(log.t.msgs) == Some(r.error.code))
    && (r.error.SinkError? ==> log.retries != [] && log.retries[|log.retries| - 1].error == r.error)
  }

  // Why a statement could not be prepared, after reading msgs.
  predicate DescribeFails(e: Error, msgs: seq<Msg>, rest: seq<Msg>)
  {
    match e
    case PgError(code) => Response(msgs) && ErrorIn(msgs) == Some(code)
    case NoRowDescription => Response(msgs) && ErrorIn(msgs).None? && LastDescription(msgs).None?
    case WireError => NoReady(msgs) && rest == []
    case BadDescription => NoReady(msgs) && msgs != [] && msgs[|msgs| - 1].RowDescription? && Describe(msgs[|msgs| - 1].body).Err?
    case Unexpected =>
      && NoReady(msgs) && msgs != []
      && var m := msgs[|msgs| - 1];
         m.BindComplete? || m.DataRow? || m.CommandComplete? || m.EmptyQueryResponse? || m.PortalSuspended? || m.OtherMsg?
    case _ => false
  }

  // Nothing was sent, or nothing more after the statement was prepared.
  predicate Unsent(e: Error) { e.SendError? || e.ArgError? || e.Rejected? }

  // The first execution given up was the first one started.
  ghost predicate Early(segments: seq<seq<Msg>>, w: Retry)
  {
    (|segments| >= 1 && segments[0] == w.t.msgs) || (|segments| >= 2 && Response(segments[0]) && segments[1] == w.t.msgs)
  }

  // What came first: a statement prepared if need be, and its execution; or why there was none.
  ghost predicate First(r: Outcome, log: Log, before: seq<Msg>, rest: seq<Msg>)
  {
    if log.retries != [] then Early(log.segments, log.retries[0])
    else
      && |log.segments| <= 2 && (|log.segments| == 2 ==> Response(log.segments[0]))
      && if log.ran then before == log.prelude + (log.t.msgs + log.drained + rest)
         else r.Failed? && (Unsent(r.error) || (before == log.t.msgs + rest && DescribeFails(r.error, log.t.msgs, rest)))
  }

  lemma FirstFurtherBack(r: Outcome, log: Log, now: Origin, rest: seq<Msg>, from: Origin, segments: seq<seq<Msg>>, retries: seq<Retry>)
    requires First(r, log, now.input, rest)
    requires if retries == [] then segments == [] && now == from else Early(segments, retries[0])
    ensures First(r, log.(segments := segments + log.segments, retries := retries + log.retries), from.input, rest)
  {
    hide DescribeFails;
    if retries == [] { assert segments + log.segments == log.segments && retries + log.retries == log.retries; }
  }

  // What a call to the engine guarantees, for every server and every writer.
  ghost predicate Concluded(r: Outcome, extended: bool, cfg: Config, mode: Mode, log: Log, out: OutWriter, from: Origin, sent: int, rest: seq<Msg>)
    reads out, out.sink
  {
    && (if log.ran then Ended(r, extended, cfg, mode, log.t, log.drained, log.rows, out, rest) else NotRunning(r, log, out))
    && Answered(if log.ran then r else Fine, from.torn + Taken(log.retries), from.refused + Refusals(log.retries), out.sink)
    && RetriesOk(log.retries, log.segments, mode, out.threshold)
    && Placed(r, log, from.input, sent, rest) && First(r, log, from.input, rest)
  }

  // One execution, begun in sync, concludes.
  lemma ExecutionConcludes(r: Outcome, extended: bool, cfg: Config, mode: Mode, st: Prepared, t: Trace, drained: seq<Msg>,
                           rows: seq<PlannedRow>, out: OutWriter, from: Origin, prelude: seq<Msg>, segments: seq<seq<Msg>>, sent: int, rest: seq<Msg>)
    returns (log: Log)
    requires Ended(r, extended, cfg, mode, t, drained, rows, out, rest) && Answered(r, from.torn, from.refused, out.sink)
    requires InSync(from.input, segments, sent, t.msgs + drained + rest) && segments == if prelude == [] then [] else [prelude]
    ensures log.ran && log.st == st && log.prelude == prelude && log.t == t && log.rows == rows && log.drained == drained && log.retries == []
    ensures Concluded(r, extended, cfg, mode, log, out, from, sent + 1, rest)
    ensures log.segments == if Settled(r) then segments + [t.msgs] else if Capped(r) && Response(t.msgs + drained) then segments + [t.msgs + drained] else segments
  {
    log := Log(if Settled(r) then segments + [t.msgs] else if Capped(r) && Response(t.msgs + drained) then segments + [t.msgs + drained] else segments,
               [], true, st, prelude, t, drained, rows);
    hide *;
    EndedPlace(r, extended, cfg, mode, t, drained, rows, out, rest);
    StandsIs(from.input, segments, sent, t.msgs + drained + rest);
    ExecutionPlaced(r, log, from.input, segments, sent, rest);
    ExecutionFirst(r, log, from.input, segments, sent, rest);
    NothingTaken(from);
    ConcludesRun(r, extended, cfg, mode, log, out, from, sent + 1, rest);
  }

  lemma ExecutionFirst(r: Outcome, log: Log, before: seq<Msg>, segments: seq<seq<Msg>>, sent: int, rest: seq<Msg>)
    requires log.ran && log.retries == [] && Stands(before, segments, sent, log.t.msgs + log.drained + rest)
    requires segments == (if log.prelude == [] then [] else [log.prelude]) && AllResponses(segments)
    requires segments <= log.segments && |log.segments| <= |segments| + 1
    ensures First(r, log, before, rest)
  {
    hide Response, NoReady;
    OnePrelude(log.prelude);
  }

  lemma NothingTaken(from: Origin)
    ensures from.torn + Taken([]) == from.torn && from.refused + Refusals([]) == from.refused
  {
  }

  lemma ConcludesRun(r: Outcome, extended: bool, cfg: Config, mode: Mode, log: Log, out: OutWriter, from: Origin, sent: int, rest: seq<Msg>)
    requires log.ran && log.retries == [] && Ended(r, extended, cfg, mode, log.t, log.drained, log.rows, out, rest)
    requires Answered(r, from.torn + Taken(log.retries), from.refused + Refusals(log.retries), out.sink)
    requires Placed(r, log, from.input, sent, rest) && First(r, log, from.input, rest)
    ensures Concluded(r, extended, cfg, mode, log, out, from, sent, rest)
  {
    hide Ended, Answered, Placed, First, Taken, Refusals;
  }

  lemma OnePrelude(prelude: seq<Msg>)
    ensures Concat(if prelude == [] then [] else [prelude]) == prelude
  {
    ConcatSnoc([], prelude);
    assert [] + [prelude] == [prelude];
  }

  lemma ExecutionPlaced(r: Outcome, log: Log, before: seq<Msg>, segments: seq<seq<Msg>>, sent: int, rest: seq<Msg>)
    requires log.ran && log.retries == [] && Stands(before, segments, sent, log.t.msgs + log.drained + rest) && AllResponses(segments)
    requires Synced(r) ==> Response(log.t.msgs)
    requires SinkFailed(r) ==> Response(log.t.msgs) || NoReady(log.t.msgs)
    requires !Capped(r) ==> log.drained == []
    requires Capped(r) ==> Response(log.t.msgs + log.drained) || (NoReady(log.t.msgs + log.drained) && rest == [])
    requires log.segments ==
             if Settled(r) then segments + [log.t.msgs]
             else if Capped(r) && Response(log.t.msgs + log.drained) then segments + [log.t.msgs + log.drained] else segments
    ensures Placed(r, log, before, sent + 1, rest)
  {
    hide Response, NoReady, Stands, AllResponses;
    if Settled(r) {
      assert log.t.msgs + log.drained + rest == log.t.msgs + rest;
      StandsMore(before, segments, sent, log.t.msgs, rest);
      StandsPrefix(before, log.segments, sent + 1, rest);
    } else if Capped(r) && Response(log.t.msgs + log.drained) {
      StandsMore(before, segments, sent, log.t.msgs + log.drained, rest);
      StandsPrefix(before, log.segments, sent + 1, rest);
    } else {
      StandsPrefix(before, segments, sent, log.t.msgs + log.drained + rest);
    }
  }

  // What an ending says about how far the execution read.
  lemma EndedPlace(r: Outcome, extended: bool, cfg: Config, mode: Mode, t: Trace, drained: seq<Msg>, rows: seq<PlannedRow>,
                   out: OutWriter, rest: seq<Msg>)
    requires Ended(r, extended, cfg, mode, t, drained, rows, out, rest)
    ensures Synced(r) ==> Response(t.msgs)
    ensures SinkFailed(r) ==> Response(t.msgs) || NoReady(t.msgs)
    ensures !Capped(r) ==> drained == []
    ensures Capped(r) ==> Response(t.msgs + drained) || (NoReady(t.msgs + drained) && rest == [])
  {
    hide Delivered, Complete, UnderCaps, RowsOf, PlanOf, Body, AllPrintable, Printable, Response, NoReady, ErrorIn, Accepts;
  }

  // Executions given up so far: from `from` to where the next one finds things.
  ghost predicate Retried(from: Origin, segments: seq<seq<Msg>>, retries: seq<Retry>, mode: Mode, threshold: int, sent: int, now: Origin)
  {
    && Stands(from.input, segments, sent, now.input) && Linked(segments, retries, true)
    && now.torn == from.torn + Taken(retries) && now.refused == from.refused + Refusals(retries)
    && RetriesOk(retries, segments, mode, threshold)
    && if retries == [] then segments == [] && now == from else Early(segments, retries[0])
  }

  lemma NothingRetried(from: Origin, mode: Mode, threshold: int)
    ensures Retried(from, [], [], mode, threshold, 0, from)
  {
  }

  lemma StandsConcat(before: seq<Msg>, a: seq<seq<Msg>>, sentA: int, mid: seq<Msg>, b: seq<seq<Msg>>, sentB: int, rest: seq<Msg>)
    requires Stands(before, a, sentA, mid) && Stands(mid, b, sentB, rest)
    ensures Stands(before, a + b, sentA + sentB, rest)
    ensures AllResponses(a + b) <==> AllResponses(a) && AllResponses(b)
  {
    hide Response, NoReady;
    ConcatSplit(a, b);
    assert forall i :: 0 <= i < |a| ==> (a + b)[i] == a[i];
    assert forall i :: 0 <= i < |b| ==> (a + b)[|a| + i] == b[i];
  }

  lemma FullConcat(a: seq<Retry>, b: seq<Retry>)
    ensures AllFull(a + b) <==> AllFull(a) && AllFull(b)
    ensures AllClean(a + b) <==> AllClean(a) && AllClean(b)
  {
    hide Response;
    assert forall i :: 0 <= i < |a| ==> (a + b)[i] == a[i];
    assert forall i :: 0 <= i < |b| ==> (a + b)[|a| + i] == b[i];
  }

  // A conclusion seen from further back.
  lemma Rebase(r: Outcome, extended: bool, cfg: Config, mode: Mode, log: Log, out: OutWriter, now: Origin, sent: int, rest: seq<Msg>,
               from: Origin, segments: seq<seq<Msg>>, retries: seq<Retry>, sentEarlier: int)
    requires Concluded(r, extended, cfg, mode, log, out, now, sent, rest)
    requires Retried(from, segments, retries, mode, out.threshold, sentEarlier, now)
    ensures Concluded(r, extended, cfg, mode, log.(segments := segments + log.segments, retries := retries + log.retries), out, from, sentEarlier + sent, rest)
  {
    RetriesConcat(retries, log.retries);
    Assoc(from.torn, Taken(retries), Taken(log.retries));
    Assoc(from.refused, Refusals(retries), Refusals(log.retries));
    RebasePlaced(r, log, now.input, sent, rest, from.input, segments, retries, sentEarlier);
    LastRetry(r, log, out, segments, retries);
    FirstFurtherBack(r, log, now, rest, from, segments, retries);
    hide First, Ended, Response, NoReady, ErrorIn, RetryOk, Stands, AllResponses, AllFull, Answered, Placed, Linked, Taken, Refusals, NotRunning;
  }

  lemma LastRetry(r: Outcome, log: Log, out: OutWriter, segments: seq<seq<Msg>>, retries: seq<Retry>)
    ensures NotRunning(r, log, out) ==> NotRunning(r, log.(segments := segments + log.segments, retries := retries + log.retries), out)
  {
  }

  lemma FurtherBack(before: seq<Msg>, segments: seq<seq<Msg>>, sent: int, mid: seq<Msg>, later: seq<seq<Msg>>)
    requires Stands(before, segments, sent, mid) && Concat(later) <= mid
    ensures Concat(segments + later) <= before
  {
    hide Response, NoReady;
    ConcatSplit(segments, later);
    assert mid == Concat(later) + mid[|Concat(later)|..];
    Assoc(Concat(segments), Concat(later), mid[|Concat(later)|..]);
  }

  lemma RebasePlaced(r: Outcome, log: Log, mid: seq<Msg>, sent: int, rest: seq<Msg>, before: seq<Msg>, segments: seq<seq<Msg>>,
                     retries: seq<Retry>, sentEarlier: int)
    requires Placed(r, log, mid, sent, rest) && Stands(before, segments, sentEarlier, mid) && Linked(segments, retries, true)
    ensures Placed(r, log.(segments := segments + log.segments, retries := retries + log.retries), before, sentEarlier + sent, rest)
  {
    hide Response, NoReady, Stands, AllResponses, AllFull;
    FullConcat(retries, log.retries);
    FurtherBack(before, segments, sentEarlier, mid, log.segments);
    if Settled(r) || (Capped(r) && Response(log.t.msgs + log.drained)) {
      StandsConcat(before, segments, sentEarlier, mid, log.segments, sent, rest);
    } else if log.ran {
      StandsConcat(before, segments, sentEarlier, mid, log.segments, sent - 1, log.t.msgs + log.drained + rest);
    }
  }

  /** An error that may be retried, with nothing committed: what the retry leaves behind. */
  lemma RetryOf(r: Outcome, extended: bool, cfg: Config, mode: Mode, log: Log, out: OutWriter, from: Origin, sent: int, rest: seq<Msg>)
    returns (w: Retry)
    requires Concluded(r, extended, cfg, mode, log, out, from, sent, rest) && r.Failed? && StateOf(r.error) in RETRIED
    requires !out.committed && (SinkFailed(r) ==> log.ran)
    ensures out.Booked() && w.error == r.error && w.t == log.t
    ensures log.segments != [] && log.segments[|log.segments| - 1] == w.t.msgs
    ensures Retried(from, log.segments, log.retries + [w], mode, out.threshold, sent, Origin(rest, out.sink.bytes, out.sink.refused))
  {
    w := Retry(r.error, log.t, if SinkFailed(r) then out.sink.sent else []);
    LastWrite(r, extended, cfg, mode, log, out, from, sent, rest, w);
    hide Concluded, Response, NoReady, ErrorIn, Stands, RetryOk, AllResponses, AllFull, Linked, Taken, Refusals, Retried;
    EarlyOf(r, extended, cfg, mode, log, out, from, sent, rest, w);
    RetriedMore(from, log.segments, log.retries, w, mode, out.threshold, sent, Origin(rest, out.sink.bytes, out.sink.refused));
  }

  lemma RetriedMore(from: Origin, segments: seq<seq<Msg>>, retries: seq<Retry>, w: Retry, mode: Mode, threshold: int, sent: int, now: Origin)
    requires Stands(from.input, segments, sent, now.input) && Linked(segments, retries, Response(w.t.msgs))
    requires RetryOk(w, mode, threshold) && RetriesOk(retries, segments, mode, threshold) && w.t.msgs in segments && Early(segments, (retries + [w])[0])
    requires now.torn == from.torn + Taken(retries) + w.taken
    requires now.refused == from.refused + Refusals(retries) + (if w.error.SinkError? then [Refusal(w.taken, w.error.state)] else [])
    ensures Retried(from, segments, retries + [w], mode, threshold, sent, now)
  {
    hide *;
    RetriesSnoc(retries, w);
    FullConcat(retries, [w]);
    FullOne(w);
    Assoc(from.torn, Taken(retries), w.taken);
    Assoc(from.refused, Refusals(retries), if w.error.SinkError? then [Refusal(w.taken, w.error.state)] else []);
    RetriedIs(from, segments, retries, w, mode, threshold, sent, now);
  }

  lemma RetriesSnoc(retries: seq<Retry>, w: Retry)
    ensures Taken(retries + [w]) == Taken(retries) + w.taken
    ensures Refusals(retries + [w]) == Refusals(retries) + (if w.error.SinkError? then [Refusal(w.taken, w.error.state)] else [])
  {
    assert (retries + [w])[..|retries|] == retries;
  }

  lemma RetriedIs(from: Origin, segments: seq<seq<Msg>>, retries: seq<Retry>, w: Retry, mode: Mode, threshold: int, sent: int, now: Origin)
    requires Stands(from.input, segments, sent, now.input) && Linked(segments, retries, Response(w.t.msgs))
    requires AllFull(retries + [w]) <==> AllFull(retries) && Response(w.t.msgs)
    requires RetryOk(w, mode, threshold) && RetriesOk(retries, segments, mode, threshold) && w.t.msgs in segments && Early(segments, (retries + [w])[0])
    requires now.torn == from.torn + Taken(retries + [w]) && now.refused == from.refused + Refusals(retries + [w])
    ensures Retried(from, segments, retries + [w], mode, threshold, sent, now)
  {
    hide Stands, Response, RetryOk, AllResponses, AllFull, Taken, Refusals;
  }

  lemma FullOne(w: Retry)
    ensures AllFull([w]) <==> Response(w.t.msgs)
  {
    assert [w][0] == w;
  }

  // The state of the writer and of the stream when an execution may be retried.
  lemma LastWrite(r: Outcome, extended: bool, cfg: Config, mode: Mode, log: Log, out: OutWriter, from: Origin, sent: int, rest: seq<Msg>, w: Retry)
    requires Concluded(r, extended, cfg, mode, log, out, from, sent, rest) && r.Failed? && StateOf(r.error) in RETRIED
    requires !out.committed && (SinkFailed(r) ==> log.ran)
    requires w == Retry(r.error, log.t, if SinkFailed(r) then out.sink.sent else [])
    ensures out.Booked() && RetryOk(w, mode, out.threshold) && RetriesOk(log.retries, log.segments, mode, out.threshold)
    ensures Stands(from.input, log.segments, sent, rest) && Linked(log.segments, log.retries, SinkFailed(r) ==> Response(w.t.msgs))
    ensures log.segments != [] && log.segments[|log.segments| - 1] == w.t.msgs && (!SinkFailed(r) ==> Response(w.t.msgs))
    ensures out.sink.bytes == from.torn + Taken(log.retries) + w.taken
    ensures out.sink.refused == from.refused + Refusals(log.retries) + (if SinkFailed(r) then [Refusal(w.taken, r.error.state)] else [])
  {
    if log.ran && SinkFailed(r) { NoRowsNoData(log.t); }
    hide First, AllKnown, Stands, Body, Printable, AllPrintable, RowBoundary, Rendered, RowsOf, ErrorIn, AllResponses, AllFull, Asked, Answers;
  }

  lemma EarlyOf(r: Outcome, extended: bool, cfg: Config, mode: Mode, log: Log, out: OutWriter, from: Origin, sent: int, rest: seq<Msg>, w: Retry)
    requires Concluded(r, extended, cfg, mode, log, out, from, sent, rest) && log.segments != [] && log.segments[|log.segments| - 1] == w.t.msgs
    ensures Early(log.segments, (log.retries + [w])[0])
  {
    hide Ended, NotRunning, RetriesOk, Placed, Answered, Taken, Refusals, Response, DescribeFails;
  }

  lemma NoRowsNoData(t: Trace)
    ensures RowsOf(t) == [] ==> forall i :: 0 <= i < |t.msgs| ==> !t.msgs[i].DataRow?
  {
    NoDataRows(t.start, t.compile, t.msgs);
  }

  lemma {:induction false} NoDataRows(start: Option<Plan>, compile: Compile, msgs: seq<Msg>)
    ensures RowsIn(start, compile, msgs) == [] ==> forall i :: 0 <= i < |msgs| ==> !msgs[i].DataRow?
    decreases |msgs|
  {
    if msgs != [] { NoDataRows(start, compile, msgs[..|msgs| - 1]); }
  }

  lemma SettledIs(r: Outcome)
    ensures Synced(r) <==> r.Fine? || r.error.PgError? || r.error.NoRowDescription?
    ensures Settled(r) <==> Synced(r) || (r.Failed? && r.error.SinkError?)
    ensures SinkFailed(r) <==> r.Failed? && r.error.SinkError?
    ensures Capped(r) <==> r.Failed? && (r.error.RowsCap? || r.error.BytesCap?)
  {
  }

  lemma StateIs(e: Error)
    ensures StateOf(e).Some? ==> e.PgError? || e.SinkError?
    ensures e.PgError? ==> StateOf(e) == Some(e.code)
    ensures e.SinkError? ==> StateOf(e) == e.state
  {
  }

  lemma RetriedStates()
    ensures forall s :: s in RETRIED <==> s == Some("26000") || s == Some("40001") || s == Some("40P01")
  {
  }
}
