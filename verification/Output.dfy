/** The output writers of pg2json/stream.go and the row, header and footer writers of
    pg2json/query.go. The clock and the downstream writer are nondeterministic. */
module Output {
  import opened Bytes
  import opened Rows
  import opened Headers
  import opened Rendering

  // How the caller's writer answers one Write: it takes everything (None), or only some bytes and
  // returns an error, which may carry a SQLSTATE when the writer itself talks to PostgreSQL.
  datatype Refuse = Refuse(taken: nat, code: Option<string>)

  // What a failed Write did.
  datatype Refusal = Refusal(taken: bytes, code: Option<string>)

  // The refusals among the first n answers.
  function Asked(script: seq<Option<Refuse>>, n: nat): seq<Refuse>
  {
    if n == 0 then []
    else Asked(script, n - 1) + (if n <= |script| && script[n - 1].Some? then [script[n - 1].value] else [])
  }

  predicate Answers(refused: seq<Refusal>, asked: seq<Refuse>)
  {
    |refused| == |asked| &&
    forall i :: 0 <= i < |asked| ==> refused[i].code == asked[i].code && (refused[i].taken == [] <==> asked[i].taken == 0) && |refused[i].taken| <= asked[i].taken
  }

  /** The caller's io.Writer, answering as its script says and taking everything past its end. torn
      are the bytes that failed writes of executions given up for a retry have left; sent is what
      has come since. cuts records the length of sent after each successful Write, so it lists
      every state the downstream side has been left in. */
  class Sink {
    const script: seq<Option<Refuse>>
    var bytes: bytes
    var calls: nat
    ghost var torn: bytes
    ghost var sent: bytes
    ghost var cuts: seq<nat>
    ghost var refused: seq<Refusal>
    ghost var failed: bool

    constructor (script: seq<Option<Refuse>>)
      ensures this.script == script && Honest() && bytes == [] && sent == [] && torn == [] && cuts == [] && refused == [] && !failed
    {
      this.script, bytes, calls, torn, sent, cuts, refused, failed := script, [], 0, [], [], [], [], false;
    }

    ghost predicate Honest()
      reads this
    {
      && bytes == torn + sent && calls == |cuts| + |refused| && Answers(refused, Asked(script, calls))
      && (failed ==> 0 < calls <= |script| && script[calls - 1].Some?)
    }

    method Write(p: bytes) returns (r: Outcome)
      requires !failed && Honest() && p != []
      modifies this
      ensures Honest() && Answered(r, old(torn), old(refused), this) && (r.Failed? ==> SinkFailed(r))
      ensures r.Fine? ==> !failed && sent == old(sent) + p && cuts == old(cuts) + [|sent|]
      ensures r.Failed? ==>
                && failed && cuts == old(cuts) && |refused| > 0
                && sent == old(sent) + refused[|refused| - 1].taken && refused[|refused| - 1].taken <= p
    {
      var answer := if calls < |script| then script[calls] else None;
      calls := calls + 1;
      if answer.None? {
        sent, bytes := sent + p, bytes + p;
        cuts := cuts + [|sent|];
        return Fine;
      }
      var k := if answer.value.taken <= |p| then answer.value.taken else |p|;
      sent, bytes, failed := sent + p[..k], bytes + p[..k], true;
      refused := refused + [Refusal(p[..k], answer.value.code)];
      return Failed(SinkError(answer.value.code));
    }
  }

  /** bufWriter (streaming false: nothing is ever flushed) and flushingWriter. */
  class OutWriter {
    const streaming: bool
    const threshold: int
    const timed: bool
    const sink: Sink
    var buf: bytes
    var committed: bool
    var written: nat

    constructor (streaming: bool, threshold: int, timed: bool, sink: Sink)
      requires sink.Honest() && sink.sent == [] && sink.cuts == [] && !sink.failed
      ensures this.streaming == streaming && this.threshold == threshold && this.timed == timed && this.sink == sink && Fresh()
    {
      this.streaming, this.threshold, this.timed, this.sink := streaming, threshold, timed, sink;
      buf, committed, written := [], false, 0;
    }

    // The bookkeeping agrees with what has gone downstream, also after a failed write, whose bytes
    // it does not count.
    ghost predicate Booked()
      reads this, sink
    {
      && sink.Honest() && (committed <==> sink.cuts != []) && (!streaming ==> sink.sent == [] && !sink.failed)
      && written == (if sink.cuts == [] then 0 else sink.cuts[|sink.cuts| - 1]) && (sink.cuts != [] ==> written > 0)
      && (if sink.failed then
            sink.refused != [] && written + |sink.refused[|sink.refused| - 1].taken| == |sink.sent|
            && sink.sent[written..] == sink.refused[|sink.refused| - 1].taken
          else written == |sink.sent|)
    }

    ghost predicate Valid()
      reads this, sink
    {
      Booked() && !sink.failed
    }

    // Nothing printed, nothing delivered: how every attempt starts.
    ghost predicate Fresh()
      reads this, sink
    {
      Valid() && buf == [] && sink.sent == []
    }

    ghost function Content(): bytes
      reads this, sink
    {
      sink.sent + buf
    }

    function BytesOut(): nat
      reads this
    {
      written + |buf|
    }

    method Append(p: bytes)
      requires Valid()
      modifies this
      ensures Valid() && Content() == old(Content()) + p && committed == old(committed) && (|buf| >= |old(buf)|)
      ensures buf == old(buf) + p
    {
      assert sink.sent + (buf + p) == sink.sent + buf + p;
      buf := buf + p;
    }

    method Flush() returns (r: Outcome)
      requires Valid()
      modifies this, sink
      ensures Booked() && Answered(r, old(sink.torn), old(sink.refused), sink)
      ensures r.Fine? ==> Valid() && Content() == old(Content()) && (streaming ==> buf == [])
      ensures r.Fine? ==> (sink.cuts == old(sink.cuts) && sink.sent == old(sink.sent))
                          || (sink.cuts == old(sink.cuts) + [|sink.sent|] && sink.sent == old(Content()) && sink.sent != [])
      ensures r.Failed? ==> SinkFailed(r) && sink.failed && sink.cuts == old(sink.cuts) && sink.sent <= old(Content()) && streaming
    {
      hide Asked, Answers;
      if streaming && |buf| > 0 {
        r := sink.Write(buf);
        if r.Failed? {
          assert sink.sent[written..] == sink.refused[|sink.refused| - 1].taken;
          return;
        }
        committed := true;
        written := written + |buf|;
        buf := [];
      }
      r := Fine;
    }

    // due: the interval has elapsed since the last flush.
    method MaybeFlush(due: bool) returns (r: Outcome)
      requires Valid()
      modifies this, sink
      ensures Booked() && Answered(r, old(sink.torn), old(sink.refused), sink)
      ensures r.Fine? && streaming ==> buf == [] || |buf| < threshold
      ensures r.Fine? && streaming && timed && due ==> buf == []
      ensures |old(buf)| < threshold && !(timed && due) ==> r.Fine? && buf == old(buf) && sink.sent == old(sink.sent)
      ensures r.Fine? ==> Valid() && Content() == old(Content())
      ensures r.Fine? ==> (sink.cuts == old(sink.cuts) && sink.sent == old(sink.sent))
                          || (sink.cuts == old(sink.cuts) + [|sink.sent|] && sink.sent == old(Content()) && sink.sent != [])
      ensures r.Failed? ==> SinkFailed(r) && sink.failed && sink.cuts == old(sink.cuts) && sink.sent <= old(Content()) && streaming
    {
      if |buf| >= threshold || (timed && |buf| > 0 && due) {
        r := Flush();
      } else {
        r := Fine;
      }
    }

    /** With nothing committed the writer is as new, and what a failed write took stays behind. */
    method Reset()
      requires Booked()
      modifies this, sink
      ensures committed == old(committed) && Booked()
      ensures sink.bytes == old(sink.bytes) && sink.refused == old(sink.refused)
      ensures !committed ==> Fresh() && sink.torn == old(sink.bytes)
      ensures committed ==> buf == old(buf) && sink.torn == old(sink.torn) && sink.failed == old(sink.failed)
    {
      if !committed {
        buf := [];
        sink.torn, sink.sent, sink.failed := sink.bytes, [], false;
        assert sink.bytes + [] == sink.bytes;
      }
    }
  }

  // Which refusals a step has met: one if it failed with the writer's error, else none.
  ghost predicate Answered(r: Outcome, torn: bytes, refused: seq<Refusal>, sink: Sink)
    reads sink
  {
    && sink.torn == torn
    && if SinkFailed(r) then
         |sink.refused| == |refused| + 1 && sink.refused[..|refused|] == refused && sink.refused[|refused|].code == r.error.state
       else sink.refused == refused
  }

  predicate SinkFailed(r: Outcome) { r.Failed? && r.error.SinkError? }

  datatype Error =
    | PgError(code: string)
    | RowsCap(limit: int, observed: int, committed: bool)
    | BytesCap(limit: int, observed: int, committed: bool)
    | WireError | SendError | ArgError | RowFailed(row: RowError) | BadDescription | NoRowDescription
    | Unexpected | RowBeforeDescription | SinkError(state: Option<string>) | Rejected

  datatype Outcome = Fine | Failed(error: Error)

  datatype Config = Config(maxRows: int, maxBytes: int, cacheSize: int, retrySerialization: bool)

  // ---- What a finished attempt has left behind ----

  // The bytes downstream have been cut only after whole rows or, once finished, after the
  // footer; where the last write failed they are still a prefix of the rendering.
  ghost predicate Delivered(mode: Mode, plan: Option<Plan>, rows: seq<PlannedRow>, finished: bool, out: OutWriter)
    reads out, out.sink
  {
    && AllPrintable(mode, rows)
    && (forall c :: c in out.sink.cuts ==> RowBoundary(mode, rows, c) || (finished && c == |Rendered(mode, plan, rows)|))
    && out.sink.sent <= Rendered(mode, plan, rows)
    && out.Booked()
  }

  // While rows are being written.
  ghost predicate Shows(mode: Mode, rows: seq<PlannedRow>, out: OutWriter)
    reads out, out.sink
  {
    && AllPrintable(mode, rows) && out.Valid() && out.Content() == Body(mode, rows)
    && (forall c :: c in out.sink.cuts ==> RowBoundary(mode, rows, c))
    && (out.streaming && rows != [] ==> out.buf == [] || |out.buf| < out.threshold)
  }

  lemma BodyInRendered(mode: Mode, plan: Option<Plan>, rows: seq<PlannedRow>)
    requires AllPrintable(mode, rows)
    ensures Body(mode, rows) <= Rendered(mode, plan, rows)
  {
  }

  lemma ShowsDelivered(mode: Mode, plan: Option<Plan>, rows: seq<PlannedRow>, out: OutWriter)
    requires Shows(mode, rows, out)
    ensures Delivered(mode, plan, rows, false, out)
    ensures rows == [] ==> out.sink.sent == [] && out.sink.cuts == []
  {
    BodyInRendered(mode, plan, rows);
  }

  // ---- Caps ----

  function CheckCaps(cfg: Config, out: OutWriter, rowCount: int): Option<Error>
    reads out
  {
    if cfg.maxRows > 0 && rowCount >= cfg.maxRows then Some(RowsCap(cfg.maxRows, rowCount, out.committed))
    else if cfg.maxBytes > 0 && out.BytesOut() >= cfg.maxBytes then Some(BytesCap(cfg.maxBytes, out.BytesOut(), out.committed))
    else None
  }

  // Neither cap has been reached by these rows.
  ghost predicate UnderCaps(cfg: Config, mode: Mode, rows: seq<PlannedRow>)
    requires AllPrintable(mode, rows)
  {
    && (cfg.maxRows > 0 ==> |rows| < cfg.maxRows)
    && (cfg.maxBytes > 0 && rows != [] ==> |Body(mode, rows)| < cfg.maxBytes)
  }

  // ---- Rows ----

  method AppendRow(mode: Mode, plan: Plan, body: bytes) returns (r: RowText)
    ensures r == Row(StyleOf(mode), plan, body)
  {
    if mode.ModeColumnar? {
      r := AppendArray([], body, plan);
    } else if mode.ModeToon? {
      r := AppendToonRow([], body, plan);
    } else {
      r := AppendObject([], body, plan);
    }
    assert forall b: bytes :: [] + b == b;
  }

  lemma RowGrows(mode: Mode, rows: seq<PlannedRow>, row: PlannedRow, text: RowText)
    requires AllPrintable(mode, rows) && row.plan.Some? && text == Row(StyleOf(mode), row.plan.value, row.body)
    ensures Printable(mode, row) <==> text.Ok?
    ensures Body(mode, []) == []
    ensures text.Ok? ==>
              AllPrintable(mode, rows + [row]) &&
              Body(mode, rows + [row]) ==
              (if rows == [] then HeaderText(mode, row.plan) else Body(mode, rows)) + RowPiece(mode, rows == [], text.value)
  {
    hide Row, RowPiece, HeaderText;
    if text.Ok? { BodyGrows(mode, rows, row); }
  }

  // writeHeader when this is the first row, then the encoding half of writeRow.
  method PrintRow(out: OutWriter, mode: Mode, row: PlannedRow, ghost rows: seq<PlannedRow>, first: bool) returns (r: Outcome)
    requires Shows(mode, rows, out) && row.plan.Some? && first == (rows == [])
    modifies out
    ensures out.Valid() && out.Booked()
    ensures r.Fine? ==> Printable(mode, row) && AllPrintable(mode, rows + [row]) && out.Content() == Body(mode, rows + [row])
    ensures r.Failed? ==> r.error.RowFailed? && !Printable(mode, row)
  {
    hide Row, Body, HeaderText, RowPiece, StyleOf, Printable, AllPrintable, RowBoundary;
    var text := AppendRow(mode, row.plan.value, row.body);
    RowGrows(mode, rows, row, text);
    if first {
      out.Append(HeaderText(mode, row.plan));
    }
    if text.Err? { return Failed(RowFailed(text.error)); }
    out.Append(RowPiece(mode, first, text.value));
    r := Fine;
  }

  method WriteRow(out: OutWriter, mode: Mode, row: PlannedRow, ghost rows: seq<PlannedRow>, first: bool) returns (r: Outcome)
    requires Shows(mode, rows, out) && row.plan.Some? && first == (rows == [])
    modifies out, out.sink
    ensures r.Fine? ==> Shows(mode, rows + [row], out)
    ensures Answered(r, old(out.sink.torn), old(out.sink.refused), out.sink)
    ensures r.Failed? ==> r.error.RowFailed? || r.error.SinkError?
    ensures r.Failed? && r.error.RowFailed? ==> !Printable(mode, row) && out.Valid() && forall plan :: Delivered(mode, plan, rows, false, out)
    ensures r.Failed? && r.error.SinkError? ==> out.sink.failed && forall plan :: Delivered(mode, plan, rows + [row], false, out)
  {
    hide *;
    ghost var cuts := out.sink.cuts;
    ShowsCuts(mode, rows, out);
    NothingSent(mode, rows, out);
    r := PrintRow(out, mode, row, rows, first);
    if r.Failed? {
      forall plan ensures Delivered(mode, plan, rows, false, out) {
        BodyInRendered(mode, plan, rows);
        PrefixOf(out.sink.sent, Body(mode, rows), Rendered(mode, plan, rows));
        PartDelivered(mode, plan, rows, out);
      }
      NotRefused(r, out.sink);
      return;
    }
    MoreBoundaries(mode, rows, row, cuts);
    var due: bool := *;
    r := out.MaybeFlush(due);
    if r.Failed? {
      forall plan ensures Delivered(mode, plan, rows + [row], false, out) {
        BodyInRendered(mode, plan, rows + [row]);
        PartDelivered(mode, plan, rows + [row], out);
      }
    } else {
      NowShows(mode, rows + [row], cuts, out);
    }
  }

  lemma NothingSent(mode: Mode, rows: seq<PlannedRow>, out: OutWriter)
    requires Shows(mode, rows, out)
    ensures AllPrintable(mode, rows) && out.sink.sent <= Body(mode, rows)
  {
    hide Body, Printable, RowBoundary;
  }

  lemma PrefixOf(a: bytes, b: bytes, c: bytes)
    requires a <= b <= c
    ensures a <= c
  {
  }

  lemma NotRefused(r: Outcome, sink: Sink)
    requires r.Failed? ==> !r.error.SinkError?
    ensures Answered(r, sink.torn, sink.refused, sink)
  {
  }

  lemma MoreBoundaries(mode: Mode, rows: seq<PlannedRow>, row: PlannedRow, cuts: seq<nat>)
    requires AllPrintable(mode, rows) && Printable(mode, row) && Boundaries(mode, rows, cuts)
    ensures AllPrintable(mode, rows + [row]) && Boundaries(mode, rows + [row], cuts)
    ensures RowBoundary(mode, rows + [row], |Body(mode, rows + [row])|)
  {
    BodyGrows(mode, rows, row);
    hide Printable, Body, RowBoundary;
  }

  lemma NowShows(mode: Mode, rows: seq<PlannedRow>, cuts: seq<nat>, out: OutWriter)
    requires AllPrintable(mode, rows) && out.Valid() && out.Content() == Body(mode, rows) && Boundaries(mode, rows, cuts)
    requires RowBoundary(mode, rows, |Body(mode, rows)|)
    requires out.sink.cuts == cuts || (out.sink.cuts == cuts + [|out.sink.sent|] && out.sink.sent == Body(mode, rows))
    requires out.streaming && rows != [] ==> out.buf == [] || |out.buf| < out.threshold
    ensures Shows(mode, rows, out)
  {
    hide Printable, Body, RowBoundary;
  }

  lemma EmptyBody(mode: Mode)
    ensures Body(mode, []) == []
  {
  }

  // The header if no row has written it, and the footer.
  method PrintEnd(out: OutWriter, mode: Mode, plan: Option<Plan>, headerWritten: bool, ghost rows: seq<PlannedRow>)
    requires Shows(mode, rows, out) && headerWritten == (rows != [])
    modifies out
    ensures AllPrintable(mode, rows) && out.Valid() && out.Content() == Rendered(mode, plan, rows)
  {
    hide Row, Body, HeaderText, FooterText, RowBoundary, Printable;
    EmptyBody(mode);
    if !headerWritten {
      out.Append(HeaderText(mode, plan));
    }
    out.Append(FooterText(mode));
  }

  // The end of a successful attempt: header if no row has written it, footer, final flush.
  method FinishOutput(out: OutWriter, mode: Mode, plan: Option<Plan>, headerWritten: bool, ghost rows: seq<PlannedRow>) returns (r: Outcome)
    requires Shows(mode, rows, out) && headerWritten == (rows != [])
    modifies out, out.sink
    ensures Answered(r, old(out.sink.torn), old(out.sink.refused), out.sink)
    ensures r.Fine? ==> Delivered(mode, plan, rows, true, out) && Complete(mode, plan, rows, out)
    ensures r.Failed? ==> SinkFailed(r) && out.streaming && out.sink.failed && out.sink.cuts == old(out.sink.cuts) && Delivered(mode, plan, rows, false, out)
  {
    hide *;
    ghost var cuts := out.sink.cuts;
    ShowsCuts(mode, rows, out);
    PrintEnd(out, mode, plan, headerWritten, rows);
    FlushesContent(out);
    r := out.Flush();
    if r.Fine? {
      AllDelivered(mode, plan, rows, cuts, out);
    } else {
      PartDelivered(mode, plan, rows, out);
    }
  }

  ghost predicate Boundaries(mode: Mode, rows: seq<PlannedRow>, cuts: seq<nat>)
    requires AllPrintable(mode, rows)
  {
    forall c :: c in cuts ==> RowBoundary(mode, rows, c)
  }

  lemma ShowsCuts(mode: Mode, rows: seq<PlannedRow>, out: OutWriter)
    requires Shows(mode, rows, out)
    ensures AllPrintable(mode, rows) && Boundaries(mode, rows, out.sink.cuts)
  {
  }

  // Without streaming nothing is downstream, so the buffer is the content.
  lemma FlushesContent(out: OutWriter)
    requires out.Valid()
    ensures out.Content() == out.sink.sent + out.buf && (!out.streaming ==> out.sink.sent == [] && out.buf == out.Content())
  {
  }

  lemma AllDelivered(mode: Mode, plan: Option<Plan>, rows: seq<PlannedRow>, cuts: seq<nat>, out: OutWriter)
    requires AllPrintable(mode, rows) && Boundaries(mode, rows, cuts) && out.Valid() && out.Content() == Rendered(mode, plan, rows)
    requires out.streaming ==> out.buf == []
    requires out.sink.cuts == cuts || (out.sink.cuts == cuts + [|out.sink.sent|] && out.sink.sent == Rendered(mode, plan, rows))
    ensures Delivered(mode, plan, rows, true, out) && Complete(mode, plan, rows, out)
  {
    hide Rendered, RowBoundary, Printable, Asked, Answers;
    assert out.sink.sent + [] == out.sink.sent && [] + out.buf == out.buf;
  }

  lemma PartDelivered(mode: Mode, plan: Option<Plan>, rows: seq<PlannedRow>, out: OutWriter)
    requires AllPrintable(mode, rows) && Boundaries(mode, rows, out.sink.cuts) && out.Booked() && out.sink.sent <= Rendered(mode, plan, rows)
    ensures Delivered(mode, plan, rows, false, out)
  {
    hide Rendered, RowBoundary, Printable, Asked, Answers;
  }

  // A writer that flushes every row has delivered something once there is a row.
  lemma FlushedEveryRow(mode: Mode, rows: seq<PlannedRow>, out: OutWriter)
    requires Shows(mode, rows, out) && rows != [] && out.streaming && out.threshold <= 1
    ensures out.sink.cuts != []
  {
    hide Printable, HeaderText, RowBoundary;
    RowsShow(mode, rows);
    assert out.buf == [];
  }

  lemma RowsShow(mode: Mode, rows: seq<PlannedRow>)
    requires AllPrintable(mode, rows) && rows != []
    ensures Body(mode, rows) != []
  {
    hide HeaderText;
    assert PieceOf(mode, |rows| == 1, rows[|rows| - 1]) != [];
  }

  // The whole rendering is there, exactly once, and nothing is left unsent.
  ghost predicate Complete(mode: Mode, plan: Option<Plan>, rows: seq<PlannedRow>, out: OutWriter)
    reads out, out.sink
  {
    && AllPrintable(mode, rows) && out.Valid()
    && (if out.streaming then out.sink.sent == Rendered(mode, plan, rows) && out.buf == []
        else out.buf == Rendered(mode, plan, rows) && out.sink.sent == [])
  }

  /** Whatever a failed attempt delivered ends after a whole row, and Committed tells whether
      that is anything at all; with no row written, nothing was delivered. */
  lemma DeliveredEndsAtRow(mode: Mode, plan: Option<Plan>, rows: seq<PlannedRow>, out: OutWriter)
    requires Delivered(mode, plan, rows, false, out)
    ensures rows == [] ==> out.sink.cuts == []
    ensures !out.sink.failed ==> (out.committed <==> out.sink.sent != [])
    ensures !out.sink.failed && out.committed ==> RowBoundary(mode, rows, |out.sink.sent|)
    ensures !out.sink.failed && out.committed ==>
              exists k :: 1 <= k <= |rows| && out.sink.sent == Body(mode, rows[..k])
  {
    hide Printable, Rendered, Body;
    assert out.sink.cuts != [] ==> out.sink.cuts[0] in out.sink.cuts;
    if !out.sink.failed && out.committed {
      var c := out.sink.cuts[|out.sink.cuts| - 1];
      assert c in out.sink.cuts;
      var k :| 1 <= k <= |rows| && |out.sink.sent| == |Body(mode, rows[..k])|;
      BodyPrefix(mode, rows, k);
      BodyInRendered(mode, plan, rows);
    }
  }

  lemma {:induction false} BodyPrefix(mode: Mode, rows: seq<PlannedRow>, k: nat)
    requires AllPrintable(mode, rows) && k <= |rows|
    ensures Body(mode, rows[..k]) <= Body(mode, rows)
  {
    hide Printable, HeaderText, PieceOf;
    if k == |rows| {
      assert rows[..k] == rows;
    } else {
      var fewer := rows[..|rows| - 1];
      BodyPrefix(mode, fewer, k);
      assert fewer[..k] == rows[..k];
      if |rows| == 1 { assert fewer == []; }
    }
  }
}
