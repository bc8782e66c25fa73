/** What one query attempt prints, as a function of the messages the server sent for it: the
    specification of the message loops of pg2json/query.go. */
module Rendering {
  import opened Bytes
  import opened Rows
  import opened Headers

  // Backend messages; the bodies that the engine looks into are kept.
  datatype Msg =
    | BindComplete | ParseComplete | ParameterDescription | CloseComplete | NoData
    | DataRow(body: bytes) | CommandComplete | EmptyQueryResponse | PortalSuspended
    | RowDescription(body: bytes) | NoticeResponse | ParameterStatus
    | ErrorResponse(code: string) | ReadyForQuery | OtherMsg

  datatype Mode = ModeArray | ModeNdjson | ModeColumnar | ModeToon

  // How a RowDescription body becomes a plan; None when it is malformed.
  type Compile = bytes -> Option<Plan>

  // The column encoders for a type OID and a format code (types.Pick and types.PickBinary).
  type Picker = (int, int) -> Encoder

  // ParseRowDescriptionForFormats: one format for all columns, one each, or text.
  function FormatOf(formats: seq<int>, columns: nat, i: nat): int
    requires i < columns
  {
    if |formats| == 1 then formats[0] else if |formats| == columns then formats[i] else 0
  }

  function CompilePlan(pick: Picker, formats: seq<int>, body: bytes): Option<Plan>
  {
    var d := Describe(body);
    if d.Err? then None
    else Some(seq(|d.value|, i requires 0 <= i < |d.value| =>
                Column(d.value[i].name, pick(d.value[i].typeOid, FormatOf(formats, |d.value|, i)))))
  }

  // A RowDescription body as the server prints it.
  function DescriptionOf(fs: seq<FieldDesc>): bytes { Put16(|fs|) + WireFields(fs, []) }

  predicate SendableFields(fs: seq<FieldDesc>) { |fs| < 0x8000 && forall i :: 0 <= i < |fs| ==> SendableField(fs[i]) }

  /** The plan compiled from a description has the server's columns in order: the name of each, and
      the encoder for its type in the format that applies to it. */
  lemma PlanOfDescription(pick: Picker, formats: seq<int>, fs: seq<FieldDesc>)
    requires SendableFields(fs)
    ensures var plan := CompilePlan(pick, formats, DescriptionOf(fs));
            && plan.Some? && |plan.value| == |fs|
            && forall i :: 0 <= i < |fs| ==>
                 && plan.value[i].name == fs[i].name
                 && plan.value[i].encoder ==
                    pick(fs[i].typeOid, if |formats| == 1 then formats[0] else if |formats| == |fs| then formats[i] else 0)
  {
    assert Describe(DescriptionOf(fs)) == Ok(fs) by { DescribeReadsBack(fs, []); }
    CompiledColumns(pick, formats, DescriptionOf(fs), fs);
    hide *;
  }

  lemma CompiledColumns(pick: Picker, formats: seq<int>, body: bytes, fs: seq<FieldDesc>)
    requires Describe(body) == Ok(fs)
    ensures var plan := CompilePlan(pick, formats, body);
            && plan.Some? && |plan.value| == |fs|
            && forall i :: 0 <= i < |fs| ==>
                 && plan.value[i].name == fs[i].name
                 && plan.value[i].encoder ==
                    pick(fs[i].typeOid, if |formats| == 1 then formats[0] else if |formats| == |fs| then formats[i] else 0)
  {
    hide Describe;
    var plan := CompilePlan(pick, formats, body).value;
    forall i | 0 <= i < |fs| ensures plan[i] == Column(fs[i].name, pick(fs[i].typeOid, FormatOf(formats, |fs|, i))) {
    }
  }

  // ---- What the messages say ----

  // The plan in force after msgs.
  function PlanAfter(start: Option<Plan>, compile: Compile, msgs: seq<Msg>): Option<Plan>
  {
    if msgs == [] then start
    else
      var n := |msgs| - 1;
      if msgs[n].RowDescription? then compile(msgs[n].body) else PlanAfter(start, compile, msgs[..n])
  }

  datatype PlannedRow = PlannedRow(plan: Option<Plan>, body: bytes)

  // The rows, each with the plan in force when it arrived.
  function RowsIn(start: Option<Plan>, compile: Compile, msgs: seq<Msg>): seq<PlannedRow>
  {
    if msgs == [] then []
    else
      var n := |msgs| - 1;
      var before := RowsIn(start, compile, msgs[..n]);
      if msgs[n].DataRow? then before + [PlannedRow(PlanAfter(start, compile, msgs[..n]), msgs[n].body)] else before
  }

  // The bodies of the DataRows, in order.
  function DataRows(msgs: seq<Msg>): seq<bytes>
  {
    if msgs == [] then []
    else
      var n := |msgs| - 1;
      if msgs[n].DataRow? then DataRows(msgs[..n]) + [msgs[n].body] else DataRows(msgs[..n])
  }

  lemma DataRowsSnoc(msgs: seq<Msg>, m: Msg)
    ensures DataRows(msgs + [m]) == if m.DataRow? then DataRows(msgs) + [m.body] else DataRows(msgs)
  {
    assert (msgs + [m])[..|msgs|] == msgs;
  }

  // The last error reported, if any.
  function ErrorIn(msgs: seq<Msg>): Option<string>
  {
    if msgs == [] then None
    else
      var n := |msgs| - 1;
      if msgs[n].ErrorResponse? then Some(msgs[n].code) else ErrorIn(msgs[..n])
  }

  lemma {:induction false} ErrorShows(msgs: seq<Msg>)
    ensures ErrorIn(msgs).Some? <==> exists i :: 0 <= i < |msgs| && msgs[i].ErrorResponse?
  {
    if msgs != [] {
      var n := |msgs| - 1;
      ErrorShows(msgs[..n]);
      assert forall i :: 0 <= i < n ==> msgs[..n][i] == msgs[i];
    }
  }

  // The last row description received.
  function LastDescription(msgs: seq<Msg>): Option<bytes>
  {
    if msgs == [] then None
    else
      var n := |msgs| - 1;
      if msgs[n].RowDescription? then Some(msgs[n].body) else LastDescription(msgs[..n])
  }

  // A response: everything up to and including its single ReadyForQuery.
  predicate Response(msgs: seq<Msg>)
  {
    |msgs| > 0 && msgs[|msgs| - 1].ReadyForQuery? && NoReady(msgs[..|msgs| - 1])
  }

  predicate NoReady(msgs: seq<Msg>) { forall i :: 0 <= i < |msgs| ==> !msgs[i].ReadyForQuery? }

  // ---- What is printed ----

  function StyleOf(mode: Mode): Style
  {
    match mode
    case ModeColumnar => ArrayStyle
    case ModeToon => ToonStyle
    case _ => ObjectStyle
  }

  function NamesOf(plan: Plan): seq<bytes> { seq(|plan|, i requires 0 <= i < |plan| => plan[i].name) }

  // writeHeader; without a plan the simple path prints an empty column list.
  function HeaderText(mode: Mode, plan: Option<Plan>): bytes
  {
    match mode
    case ModeArray => [OPEN_BRACKET]
    case ModeNdjson => []
    case ModeColumnar => ColumnsHeader(if plan.None? then [] else NamesOf(plan.value))
    case ModeToon => if plan.None? then [] else ToonHeader(NamesOf(plan.value))
  }

  function FooterText(mode: Mode): bytes
  {
    match mode
    case ModeArray => [CLOSE_BRACKET]
    case ModeColumnar => [CLOSE_BRACKET, CLOSE_BRACE]
    case _ => []
  }

  function RowPiece(mode: Mode, first: bool, text: bytes): bytes
  {
    match mode
    case ModeNdjson => text + [NEWLINE]
    case ModeToon => text
    case _ => if first then text else [COMMA] + text
  }

  predicate Printable(mode: Mode, row: PlannedRow)
  {
    row.plan.Some? && Row(StyleOf(mode), row.plan.value, row.body).Ok?
  }

  function PieceOf(mode: Mode, first: bool, row: PlannedRow): bytes
    requires Printable(mode, row)
  {
    RowPiece(mode, first, Row(StyleOf(mode), row.plan.value, row.body).value)
  }

  predicate AllPrintable(mode: Mode, rows: seq<PlannedRow>)
  {
    forall i :: 0 <= i < |rows| ==> Printable(mode, rows[i])
  }

  // Header and rows: what has been printed before the footer. The header waits for the first row.
  function Body(mode: Mode, rows: seq<PlannedRow>): bytes
    requires AllPrintable(mode, rows)
  {
    if rows == [] then []
    else
      var n := |rows| - 1;
      (if n == 0 then HeaderText(mode, rows[0].plan) else Body(mode, rows[..n])) + PieceOf(mode, n == 0, rows[n])
  }

  // The complete output of a successful attempt.
  function Rendered(mode: Mode, plan: Option<Plan>, rows: seq<PlannedRow>): bytes
    requires AllPrintable(mode, rows)
  {
    (if rows == [] then HeaderText(mode, plan) else Body(mode, rows)) + FooterText(mode)
  }

  // A length at which the output may be cut: after some whole row.
  ghost predicate RowBoundary(mode: Mode, rows: seq<PlannedRow>, n: nat)
    requires AllPrintable(mode, rows)
  {
    exists k :: 1 <= k <= |rows| && n == |Body(mode, rows[..k])|
  }

  lemma BodyGrows(mode: Mode, rows: seq<PlannedRow>, row: PlannedRow)
    requires AllPrintable(mode, rows) && Printable(mode, row)
    ensures AllPrintable(mode, rows + [row])
    ensures Body(mode, rows + [row]) ==
            (if rows == [] then HeaderText(mode, row.plan) else Body(mode, rows)) + PieceOf(mode, rows == [], row)
    ensures forall n :: RowBoundary(mode, rows, n) ==> RowBoundary(mode, rows + [row], n)
    ensures RowBoundary(mode, rows + [row], |Body(mode, rows + [row])|)
  {
    hide Printable, HeaderText, PieceOf;
    var more := rows + [row];
    assert more[..|rows|] == rows && more[|rows|] == row;
    BoundariesKept(mode, rows, more);
  }

  lemma BoundariesKept(mode: Mode, rows: seq<PlannedRow>, more: seq<PlannedRow>)
    requires AllPrintable(mode, more) && rows <= more && more != []
    ensures forall n :: RowBoundary(mode, rows, n) ==> RowBoundary(mode, more, n)
    ensures RowBoundary(mode, more, |Body(mode, more)|)
  {
    hide Body, Printable;
    forall n | RowBoundary(mode, rows, n) ensures RowBoundary(mode, more, n) {
      var k :| 1 <= k <= |rows| && n == |Body(mode, rows[..k])|;
      assert more[..k] == rows[..k];
    }
    assert more[..|more|] == more;
  }

  // One more message.
  lemma Snoc(start: Option<Plan>, compile: Compile, msgs: seq<Msg>, m: Msg)
    ensures PlanAfter(start, compile, msgs + [m]) == if m.RowDescription? then compile(m.body) else PlanAfter(start, compile, msgs)
    ensures RowsIn(start, compile, msgs + [m]) ==
            if m.DataRow? then RowsIn(start, compile, msgs) + [PlannedRow(PlanAfter(start, compile, msgs), m.body)]
            else RowsIn(start, compile, msgs)
    ensures ErrorIn(msgs + [m]) == if m.ErrorResponse? then Some(m.code) else ErrorIn(msgs)
    ensures LastDescription(msgs + [m]) == if m.RowDescription? then Some(m.body) else LastDescription(msgs)
    ensures NoReady(msgs) && !m.ReadyForQuery? ==> NoReady(msgs + [m])
    ensures NoReady(msgs) && m.ReadyForQuery? ==> Response(msgs + [m])
  {
    assert (msgs + [m])[..|msgs|] == msgs;
  }

  // ---- Where a stream of responses stands ----

  function Concat(responses: seq<seq<Msg>>): seq<Msg>
  {
    if responses == [] then [] else responses[0] + Concat(responses[1..])
  }

  predicate AllResponses(responses: seq<seq<Msg>>) { forall i :: 0 <= i < |responses| ==> Response(responses[i]) }

  lemma NotBoth(msgs: seq<Msg>)
    ensures !(NoReady(msgs) && Response(msgs))
  {
  }

  lemma FirstResponse(a: seq<Msg>, b: seq<Msg>, n: nat)
    requires Response(a) && n <= |a + b|
    ensures Response((a + b)[..n]) ==> n == |a|
    ensures NoReady((a + b)[..n]) ==> n < |a|
  {
    var all := a + b;
    assert all[|a| - 1] == a[|a| - 1];
    assert forall i :: 0 <= i < |a| - 1 ==> all[i] == a[..|a| - 1][i];
    assert forall i :: 0 <= i < n ==> all[i] == all[..n][i];
    assert forall i :: 0 <= i < n - 1 ==> all[i] == all[..n][..n - 1][i];
  }

  // Where a reader stands in a stream that begins with a response.
  lemma Inside(response: seq<Msg>, more: seq<Msg>, msgs: seq<Msg>, rest: seq<Msg>)
    requires Response(response) && msgs + rest == response + more
    ensures Response(msgs) ==> msgs == response && rest == more
    ensures NoReady(msgs) ==> |msgs| < |response| && rest != [] && msgs == response[..|msgs|] && rest == response[|msgs|..] + more
  {
    var all := response + more;
    assert all[..|msgs|] == msgs && all[|msgs|..] == rest;
    FirstResponse(response, more, |msgs|);
    assert all[..|response|] == response && all[|response|..] == more;
  }

  lemma NonEmptyStream(batches: seq<seq<Msg>>, rest: seq<Msg>)
    requires AllResponses(batches) && batches != []
    ensures Concat(batches) + rest != []
  {
    assert Response(batches[0]);
  }

  lemma SameFirst(a: seq<Msg>, afterA: seq<Msg>, b: seq<Msg>, afterB: seq<Msg>)
    requires Response(a) && Response(b) && a + afterA == b + afterB
    ensures a == b && afterA == afterB
  {
    var all := a + afterA;
    assert all[..|b|] == b && all[..|a|] == a;
    FirstResponse(a, afterA, |b|);
    assert afterA == all[|a|..] && afterB == all[|b|..];
  }

  lemma {:induction false} ConcatSnoc(batches: seq<seq<Msg>>, batch: seq<Msg>)
    ensures Concat(batches + [batch]) == Concat(batches) + batch
  {
    if batches == [] {
      assert [batch][1..] == [];
    } else {
      assert (batches + [batch])[1..] == batches[1..] + [batch];
      ConcatSnoc(batches[1..], batch);
    }
  }

  lemma {:induction false} ConcatSplit(a: seq<seq<Msg>>, b: seq<seq<Msg>>)
    ensures Concat(a + b) == Concat(a) + Concat(b)
  {
    if a == [] {
      assert a + b == b;
    } else {
      assert (a + b)[1..] == a[1..] + b;
      ConcatSplit(a[1..], b);
    }
  }

  /** If the server answers each request with one response, then whole responses that have been
      read are the first answers, and the stream stands exactly before the next one. */
  lemma {:induction false} ReadResponsesAreFirst(responses: seq<seq<Msg>>, batches: seq<seq<Msg>>, rest: seq<Msg>)
    requires AllResponses(responses) && AllResponses(batches)
    requires Concat(responses) == Concat(batches) + rest
    ensures |batches| <= |responses| && batches == responses[..|batches|] && rest == Concat(responses[|batches|..])
    decreases |batches|
  {
    if batches == [] {
      assert responses[0..] == responses && Concat(batches) + rest == rest;
    } else {
      hide Response;
      var a, b := responses[0], batches[0];
      NonEmptyStream(batches, rest);
      assert Concat(batches) + rest == b + (Concat(batches[1..]) + rest);
      SameFirst(a, Concat(responses[1..]), b, Concat(batches[1..]) + rest);
      ReadResponsesAreFirst(responses[1..], batches[1..], rest);
      assert responses[|batches|..] == responses[1..][|batches| - 1..];
    }
  }

  /** And a reader still inside an answer cannot have reached the end of such a stream. */
  lemma InsideAnswerNotAtEnd(responses: seq<seq<Msg>>, batches: seq<seq<Msg>>, tail: seq<Msg>)
    requires AllResponses(responses) && AllResponses(batches) && NoReady(tail)
    requires Concat(responses) == Concat(batches) + tail
    ensures |responses| == |batches|
  {
    ReadResponsesAreFirst(responses, batches, tail);
    var left := responses[|batches|..];
    if left != [] {
      assert Concat(left) == left[0] + Concat(left[1..]);
      assert tail[..|tail|] == tail;
      FirstResponse(left[0], Concat(left[1..]), |tail|);
    }
  }
}
