# pg2json in Dafny

pg2json is a PostgreSQL driver for the read path: it sends a query over the v3 protocol and turns
the DataRow stream into JSON, NDJSON, columnar JSON or TOON, into Go structs, or into raw rows.
This project models its hard parts and proves what they promise.

| file | models | main results |
|---|---|---|
| `Engine.dfy`, `Executions.dfy`, `Retries.dfy`, `Guarantees.dfy`, `WriterRetries.dfy` | query engine: message loops, history of a call, retry loops | exactly when output is exactly-once and the stream in sync across both retry loops, row-boundary delivery, caps |
| `Output.dfy`, `Rendering.dfy` | output writers, what a response prints | delivery at row boundaries, complete rendering |
| `Success.dfy` | which answers a call gets through | an execution succeeds exactly on a result, message by message; a call against a healthy server succeeds |
| `Documents.dfy`, `EndToEnd.dfy` | the four output modes, from the server's bytes to a reader | a query for a table of strings succeeds and its output reads back as the names and cells the server sent |
| `Pool.dfy`, `PoolBounds.dfy`, `PoolLimits.dfy`, `PoolWaiting.dfy`, `PoolService.dfy`, `PoolLosses.dfy` | connection pool as a transition system | ownership, one message per channel, accounting, the exact conditions for `open` and live connections within `MaxConns`, for a final Drain, for wake-ups, for a queue that is served and for connections that are not lost |
| `Statements.dfy` | prepared-statement cache and backends | the cache agrees with the server over all runs, exactly when a statement is left behind |
| `Iteration.dfy` | row iterator | exact row sequence, stable end, `Close` resynchronises |
| `Scanning.dfy` | struct scans | batched scan refines plain scan, exactly when a retry repeats rows or leaves the stream out of sync |
| `Wire.dfy` | framing and request batches | framing and Bind round trips, exactly when the next batch is readable |
| `Escape.dfy`, `Rows.dfy`, `RowReaders.dfy`, `Headers.dfy` | escaper, row printers, headers | word trick is exact, printed strings, rows and headers read back |
| `Calendar.dfy`, `Timestamps.dfy`, `Numeric.dfy` | dates, timestamps, numerics | inverses, round trips, exact overflow bound |
| `Arrays.dfy`, `ArrayReaders.dfy` | binary arrays | nested output indexed row-major and read back, slice readers agree |
| `Scram.dfy` | SCRAM-SHA-256 | PBKDF2 is `Hi`, client and server agree |
| `Bytes.dfy`, `Digits.dfy`, `Spelling.dfy` | bytes, big-endian words, decimal digits, constants | every constant spelt as its format defines it |

The server is any finite sequence of messages; a dropped or cancelled connection ends it early. The
clock, the context, the caller's writer with its errors, callbacks and short network writes are
arbitrary.
Code that updates state is a class or a method with loops, proved against a function of its inputs;
the promises are then lemmas about that function.

Some promises do not hold of the code as written. Each such case has a concrete counterexample and
the exact condition under which the promise holds:

| promise | counterexample | holds iff |
|---|---|---|
| a successful call delivers its output exactly once and leaves the connection in sync | `WriterRetries.TornBytes`, `WriterRetries.LostRow`: the caller's own Write fails with 40001, the retry succeeds | `Guarantees.ExactlyOnce`, `Guarantees.SuccessExact`: every retry came after its response was read in full, and its failed Write took nothing; so with every writer whose own errors carry none of 26000, 40001 and 40P01 (`Guarantees.PlainWriterIsClean`) |
| `open <= MaxConns` | `PoolLimits.OpenExceedsMax`: a replacement dial lands in a full pool | `PoolBounds.OpenBoundExact` |
| live connections within `MaxConns` | `PoolLimits.LiveExceedsMax`: a failed replacement dial is charged twice | `PoolBounds.LiveBoundExact` |
| a Drain that returned left nothing in use | `PoolWaiting.DrainReturnsEarly`: a connection is on its way to a waiter | `PoolWaiting.DrainReturnIsFinal` |
| a Drain or WaitIdle wakes up when inUse reaches 0 | `PoolWaiting.DrainSleepsOn`: a failed dial lowers inUse without a broadcast | `PoolWaiting.WakeUpsExact` |
| a queued Acquire has something to wait for | `PoolService.WaiterLeftAlone`: the replacement dial for the waiter before it failed | `PoolService.ServedExact`, and `PoolService.StuckExactly` for what being stuck means |
| ErrClosed means that the pool was stopped | the same run: the first waiter gets ErrClosed from an open pool | `PoolService.ErrClosedExact` |
| no connection is lost | `PoolLosses.ReleasedToNobody`: one is sent to a waiter whose context has just ended, and with MaxConns 1 the pool is dead (`PoolLosses.DeadForGood`) | `PoolLosses.LossExact` |
| every statement on a backend can still be closed | `Statements.UndescribedOrphans`: the server prepared a statement without rows, which the client reports as a failure | `Statements.NoOrphansExact` |
| a retried batched scan hands out no row twice | `Scanning.StaleAfterRowRepeats`, `Scanning.StaleCallbackRepeats`: a batch, or a callback's own 26000, came first | `Scanning.RetryDeliversOnceIff` |
| a retried scan leaves the connection in sync | `Scanning.StaleSetterStopsInside`: a Scanner's own 26000 is retried in the middle of a response | contracts of `Scanning.ScanStruct` and `Scanning.ScanStructBatched` |
| the next batch reaches the server intact | an argument that cannot be encoded leaves a half-built Bind (`Wire.UnfinishedBindIsBogus`) | `Wire.ExecuteThenPrepare`, for messages within 256 MiB |
| every successful call prints a document | an empty query over the simple protocol prints nothing in TOON | `Documents.NoDescriptionReads`: in the other modes always, in TOON iff there was a description |
| a date cell prints as its date | `Timestamps.LastDatePrintsWrong`: 5874897-12-31 prints as 29357-07-04 | `Timestamps.EncodedDateReadsBack` |
| a numeric cell prints as a JSON number | `Numeric.LeadingZerosPrinted`: a cell that prints 00000 | `Numeric.NumericCellIsJson` |

## Model

The results come first; the operations and loops they rest on follow.

| member | source | states |
|---|---|---|
| Engine.Client.RunQuery | pg2json/query.go:132-186 | for every server, writer, flush timing and mix of retries: each execution starts with an empty, uncommitted writer and the call ends in one of the described ways (`Concluded`); the simple protocol is used iff there is no cache and no argument; only 40001 and 40P01, the server's or the writer's, are abandoned for a retry, at most twice, and always so when configured with nothing committed and the context live; at most 3 requests for each execution |
| Guarantees.ExactlyOnce | pg2json/query.go:162-185 | success: the last response was read in full and free of errors, within both caps; what its execution printed is header, rows and footer of that response alone, nothing left unsent, behind what failed Writes of abandoned executions took; so exactly-once and in sync iff every retry was clean |
| Guarantees.SuccessExact | pg2json/query.go:162-185 | if every request gets one response: the stream is just past the answer to the last request and the output is that answer's rendering iff every retry was clean |
| Guarantees.PlainWriterIsClean | pg2json/query.go:203-215 | if no error of the caller's writer carries 26000, 40001 or 40P01, every retry is clean |
| WriterRetries.TornBytes | pg2json/stream.go:111-125 | a call that succeeds with an unmatched bracket before the document: the final Write took a byte and failed with 40001 |
| WriterRetries.LostRow | pg2json/query.go:162-185 | for every cached statement and printable row, a call that succeeds without the row and leaves an answer unread: the first Write failed with 40001 in the middle of the response |
| WriterRetries.TornCall | pg2json/query.go:132-186 | that call to `RunQuery`, from a new client on |
| WriterRetries.LostCall | pg2json/query.go:132-186 | the same for the lost row |
| Guarantees.FailureEndsAtRow | pg2json/query.go:427-471 | failure: what the last execution delivered is the rendering of some whole rows, Committed holds iff there is any, none without a DataRow, and a cap error reports Committed correctly |
| Guarantees.Resynchronised | pg2json/query.go:415-475 | if every request gets one response: after success, server error, cap error or writer error the stream is just past the answer to the last request sent iff no retry and no final writer error left a response unread |
| Engine.Client.RunCached | pg2json/query.go:248-275 | a cached name with error 26000, the server's or the writer's, is prepared afresh exactly once when nothing is committed, and nothing else is retried; the plan used is the cached one or what the preceding response described; the return after the loop is unreachable |
| Success.OutcomeExact | pg2json/query.go:415-540 | for both protocols, by message type: unless the writer fails, an execution succeeds iff its response holds only messages of a result, every description parses, every row can be printed and neither cap is reached; it then has read the response and nothing else |
| Success.CallSucceeds | pg2json/query.go:132-275 | with a connection that works, encodable arguments and a willing writer, a call succeeds on every healthy stream, over the simple protocol, with a cached or with a new statement; it reads its answers and nothing else, and prints the rendering of the result |
| Success.PreludePrepares | pg2json/query.go:315-343 | preparing fails on no answer that describes rows in known messages |
| EndToEnd.TableDelivered | pg2json/query.go:75-117 | in every mode and protocol, a call for a table of strings and NULLs succeeds, and a reader of its output finds the field names and the cells the server sent |
| EndToEnd.QueryTable | pg2json/query.go:132-186 | that call to `RunQuery` |
| EndToEnd.ColumnsMatch | pg2json/query.go:345-396 | the plan has the server's columns in order, each with the encoder for its type in the very format that the server reads from the Bind, binary iff the driver can decode it or the caller asked |
| EndToEnd.DeliveredReadsBack | pg2json/query.go:75-117 | after a successful call, whatever retries it took, reading what the last execution printed gives the described names and the cells of the last response, and so does reading the whole output when every retry was clean |
| Rendering.PlanOfDescription | internal/rows/plan.go:104-149 | the plan compiled from a description has each field's name and the encoder for its type and format, in order |
| Documents.DocumentReadsBack | pg2json/query.go:546-614 | the whole output parses back to the table: in array and NDJSON mode every field under its own column name, in columnar and TOON mode the names in the header and bare fields |
| Documents.NoDescriptionReads | pg2json/query.go:527-535 | without a description the output is an empty document, but nothing at all in TOON |
| Pool.RunKeepsInv | pg2json/pool/pool.go:192-307 | in every state of every interleaving: single ownership, channel discipline, queue discipline, accounting |
| Pool.SendsNeverBlock | pg2json/pool/pool.go:246-307 | every pending channel send is enabled, in every reachable state |
| Pool.OneMessagePerChannel | pg2json/pool/pool.go:246-343 | a waiter channel gets at most one message in a run |
| Pool.LeavesQueueOnce | pg2json/pool/pool.go:222-270 | a waiter channel never returns to the queue |
| Pool.OpenCountsLive | pg2json/pool/pool.go:272-307 | before Close, live connections are open plus failed replacement dials |
| PoolBounds.OpenBoundExact | pg2json/pool/pool.go:272-301 | open stays within MaxConns in a run iff MinIdle fits and every replacement lands while a slot is free |
| PoolBounds.LiveBoundExact | pg2json/pool/pool.go:192-301 | before Close, live connections stay within MaxConns in a run iff MinIdle fits and every dial or landing happens while open plus the failed replacement dials is below it |
| PoolBounds.BoundWithoutReplacement | pg2json/pool/pool.go:192-307 | without replacements and with MinIdle within MaxConns, the bound holds throughout |
| PoolLimits.OpenExceedsMax | pg2json/pool/pool.go:272-301 | a run that ends with open above MaxConns |
| PoolLimits.LiveExceedsMax | pg2json/pool/pool.go:285-301 | a run with open within the bound and more live connections than MaxConns |
| PoolLimits.StoppedForGood | pg2json/pool/pool.go:320-415 | a stopping pool never has a handle out again, in any continuation, iff no task still carries one |
| PoolWaiting.DrainReturnIsFinal | pg2json/pool/pool.go:345-357 | at the return of a Drain, the pool has no handle out in any continuation iff no connection is in transit to somebody who will take it |
| PoolWaiting.DrainReturnsEarly | pg2json/pool/pool.go:320-357 | a run through to the return of Drain with a released connection still on its way to a waiter |
| PoolWaiting.WakeUpsExact | pg2json/pool/pool.go:347-354 | in a run nobody sleeps on idleCond with nothing to wait for iff no failed dial takes inUse from one to zero while somebody is asleep |
| PoolWaiting.WaiterCanReturn | pg2json/pool/pool.go:347-389 | in such a run a Drain or WaitIdle with nothing to wait for can return at once |
| PoolWaiting.BroadcastWakes | pg2json/pool/pool.go:246-415 | after the last release or discard, a Close, or a caller that gives up, whoever slept is awake |
| PoolWaiting.SleepsForever | pg2json/pool/pool.go:348-351 | in a stopped pool a sleeper stays asleep in every continuation without Close and without a caller giving up |
| PoolWaiting.DrainSleepsOn | pg2json/pool/pool.go:210-214 | a run after which Drain sleeps on at inUse 0: the dial it waited for failed, and that path does not broadcast |
| PoolService.ServedExact | pg2json/pool/pool.go:192-307 | in a run whoever is queued has a task that can still serve it iff no Acquire queues behind nothing, no last replacement dial fails and no last connection goes to a waiter that gives up |
| PoolService.StuckExactly | pg2json/pool/pool.go:246-307 | the head of the queue can be reached without a new Acquire iff some task serves; otherwise only Drain, Close or its own context ends the wait |
| PoolService.WaiterLeftAlone | pg2json/pool/pool.go:272-290 | a run with MaxConns 1 that ends with a queued waiter, no connection, no dial and open -1 |
| PoolService.ErrClosedExact | pg2json/pool/pool.go:224-285 | in a run no waiter is told ErrClosed by an open pool iff no failed replacement dial reports to a listening waiter |
| PoolLosses.LossExact | pg2json/pool/pool.go:222-267 | in a run no connection is stranded iff none is sent to a waiter that has given up and none gives up with one in its channel |
| PoolLosses.DeadForGood | pg2json/pool/pool.go:192-270 | an open pool at MaxConns with every connection stranded hands out none in any continuation without Drain or Close |
| PoolLosses.ReleasedToNobody | pg2json/pool/pool.go:261-267 | a run that reaches such a pool |
| Statements.CacheAgreesWithServer | pg2json/stmtcache.go:39-100 | after any run: size within max; names put are exactly the cached, pending and handed-out ones, disjoint; a cached name on any backend holds the SQL it is cached under |
| Statements.ParseNameIsNew | pg2json/stmtcache.go:80-89 | a Parse never reuses a name, no backend holds it yet, and the statement just put survives its own eviction |
| Statements.HitRunsItsOwnSql | pg2json/stmtcache.go:46-50 | a cached name is unknown to the backend or runs the SQL asked for |
| Statements.ClosedForGood | pg2json/stmtcache.go:67-76 | a name handed out for Close is never cached or closed again |
| Statements.NoOrphansExact | pg2json/query.go:290-320 | over a run every statement on every backend is cached or pending Close iff no step loses track of one: a Parse accepted but reported as failed, or a Close that does not reach the backend holding the name |
| Statements.UndescribedOrphans | pg2json/query.go:338-343 | a run that leaves a statement the client no longer knows, on a connection that lives on |
| Iteration.ReadThenClose | pg2json/iter.go:193-303 | any number of calls yields the DataRow bodies in order, then a stable end or error; Close then stands just past the response |
| Iteration.BindExact | pg2json/iter.go:147-181 | executing reaches the rows iff the answer starts with BindComplete, apart from notices, parameters and descriptions that parse |
| Scanning.BatchedRefinesPlain | pg2json/scan.go:382-605 | on the same stream one succeeds iff the other does, unless the callback refuses, and the batches concatenate to the slice |
| Scanning.ScanExact | pg2json/scan.go:382-605 | unless the callback refuses, a scan succeeds iff the response has no error and every message is one it reads, by message type; it then has read the response and nothing else |
| Scanning.TableScanSucceeds | pg2json/scan.go:382-605 | a response that carries a table the setters take scans to its rows |
| Scanning.RetryDeliversOnceIff | pg2json/scan.go:171-178 | for every retry, whether the server, a setter or the callback caused it: no row is repeated iff it was not the callback and fewer rows than one batch had been decoded |
| Scanning.StaleAfterRowRepeats | pg2json/scan.go:171-178 | a response after which the retry repeats a row |
| Scanning.StaleCallbackRepeats | pg2json/scan.go:578-586 | a callback that answers 26000 to its first, partial batch: the retry repeats the row |
| Scanning.StaleSetterStopsInside | pg2json/scan.go:731-733 | a Scanner whose own 26000 ends an execution inside its response and is retried |
| Wire.FrameReadsBack | internal/wire/conn.go:99-149 | a built message reads back, stopping at its end, iff its body is within 256 MiB |
| Wire.PipelineReadsBack | internal/wire/conn.go:176-244 | a pipeline reads back as the same list of messages |
| Wire.BindReadsBack | pg2json/query.go:368-397 | the server reads back the name, every argument and the format codes |
| Wire.PrepareReadsBack | pg2json/query.go:293-311 | the server reads: close each dead statement, parse the query under its name with no parameter types given, describe that statement, sync |
| Wire.ExecuteBatchReadsBack | pg2json/query.go:368-410 | the server reads: bind the unnamed portal, execute it without a row limit, sync |
| Wire.ShorthandMeansFormats | pg2json/query.go:385-396 | one code for all columns means the formats asked for |
| Wire.ExecuteThenPrepare | pg2json/query.go:293-410 | over two calls, the server reads both batches if every argument could be encoded, and otherwise refuses the first thing it reads |
| Escape.SwarDetectsExactly | internal/jsonwriter/escape_swar.go:41-46 | the word test is non-zero iff some byte needs escaping, despite borrows |
| Escape.StringReadsBack | internal/jsonwriter/writer.go:35-71 | a string reader of section 7 of RFC 8259 recovers the bytes and stops after the closing quote |
| Escape.ShortEscapes | internal/jsonwriter/escape_scalar.go:9-46 | the two-character escapes |
| Escape.OtherEscapes | internal/jsonwriter/escape_scalar.go:9-46 | other control characters as \u00XX, all other bytes unchanged |
| Spelling.JsonBytes | internal/jsonwriter/writer.go:35-71 | the structural characters of RFC 8259 |
| Spelling.HeaderTexts | internal/rows/plan.go:160-192 | the fixed parts of both headers |
| Spelling.Epochs | internal/types/binary.go:299-325 | day 0 of the calendar and PostgreSQL's epoch |
| Spelling.NumberBytes | internal/types/binary.go:299-381 | digits, signs and separators |
| Spelling.BigEndian | internal/wire/conn.go:99-235 | words are big-endian two's complement |
| Spelling.Limits | internal/wire/conn.go:99-149 | the message limit |
| Spelling.CacheSize | pg2json/stmtcache.go:39-44 | the size of a cache and its default |
| Spelling.PoolStarts | pg2json/pool/pool.go:97-116 | a pool starts with MinIdle idle connections |
| RowReaders.RowReadsBack | internal/rows/datarow.go:31-105 | a printed row of strings and NULLs reads back as names and cells, in every style |
| RowReaders.WireRowReadsBack | internal/rows/datarow.go:31-105 | the same from the DataRow bytes on |
| Rows.RowsAccepted | internal/rows/datarow.go:31-60 | a row is accepted iff it announces the plan's number of columns and goes on with what the server prints for so many cells |
| Headers.DescribeReadsBack | internal/rows/plan.go:104-149 | a printed descriptor list parses back |
| Headers.DescriptionsAccepted | internal/rows/plan.go:104-149 | a description is accepted iff it is what the server prints for some list of fields |
| Headers.BareNames | internal/rows/plan.go:194-206 | a TOON name is printed bare iff it is not empty and holds none of the reserved characters |
| Headers.ToonHeaderReadsBack | internal/rows/plan.go:177-206 | a header reader recovers the list of names, whatever bytes they hold |
| Headers.ToonHeaderInjective | internal/rows/plan.go:177-206 | distinct name lists have distinct headers |
| Headers.DescribedHeaderReadsBack | internal/rows/plan.go:104-206 | the header printed for a described result names its columns |
| Documents.ColumnsHeaderReadsBack | internal/rows/plan.go:160-171 | the columnar header determines the column names |
| Calendar.SplitTimeCorrect | internal/types/binary.go:342-381 | for every second count a valid date and an in-range time, and counting back returns the seconds |
| Calendar.DateOfDaysCorrect | internal/types/binary.go:352-376 | every day number gives a real Gregorian date whose day number it is |
| Calendar.DateOfDayNumber | internal/types/binary.go:352-376 | and every real date is the one of its day number |
| Calendar.SplitTimeMonotone | internal/types/binary.go:342-381 | later seconds give later moments |
| Calendar.YearLength | internal/types/binary.go:342-381 | the reference calendar follows the leap rule |
| Timestamps.TimestampReadsBack | internal/types/binary.go:299-325 | every microsecond count survives printing and reading |
| Timestamps.TimestampInjective | internal/types/binary.go:299-325 | distinct counts print distinctly |
| Timestamps.TimestampIsRfc3339 | internal/types/binary.go:258-325 | the Z form is a date-time of section 5.6 of RFC 3339 iff the year is 0000 to 9999 |
| Timestamps.EncodedTimestampReadsBack | internal/types/binary.go:239-275 | a non-sentinel cell reads back as its 64-bit count |
| Timestamps.SpecialTimestamps | internal/types/binary.go:239-275 | NULL, the two sentinels and cells of another length, and that all other cells are finite |
| Timestamps.DateReadsBack | internal/types/binary.go:327-336 | a printed date of any year reads back |
| Timestamps.EncodedDateReadsBack | internal/types/binary.go:277-295 | a date cell reads back as its own day iff its microseconds fit in an int64 |
| Timestamps.SpecialDates | internal/types/binary.go:277-295 | the same for dates |
| Timestamps.LastDatePrintsWrong | internal/types/binary.go:277-295 | the cell of 5874897-12-31, the last date PostgreSQL stores, prints as 29357-07-04 |
| Numeric.PrintedIsTruncated | internal/types/numeric_bin.go:60-115 | the printed digits are the value times 10^dscale, rounded down, for any weight and scale |
| Numeric.NumericReadsBack | internal/types/numeric_bin.go:32-115 | sign, number of decimals and truncated magnitude read back |
| Numeric.NumericCellReadsBack | internal/types/numeric_bin.go:32-115 | the same from the wire bytes on |
| Numeric.NumericCellIsJson | internal/types/numeric_bin.go:32-115 | for every cell: the text is a number of section 6 of RFC 8259 iff the cell is plain and does not lead with a zero digit before further integer digits |
| Numeric.SpecialNumerics | internal/types/numeric_bin.go:32-58 | NULL, NaN, the infinities, and malformed cells as the strings they are |
| Numeric.LeadingZerosPrinted | internal/types/numeric_bin.go:89-96 | a cell that prints 00000 |
| Arrays.EntryAtIndex | internal/types/array.go:63-102 | the nested list has an entry exactly within the dimensions, the element at its row-major position |
| Arrays.WireArrayReads | internal/types/array.go:13-24 | for any rank, dimensions and nullable elements, the header and exactly the elements are read |
| Arrays.HeadersAccepted | internal/types/array.go:25-61 | which cells have dimensions, which are empty and which malformed |
| ArrayReaders.NestReadsBack | internal/types/array.go:66-102 | any nested list of strings and NULLs, ragged ones included, reads back from its text, stopping at its end |
| ArrayReaders.ArrayReadsBack | internal/types/array.go:66-102 | the reader finds at every index within the dimensions the element at its row-major position |
| ArrayReaders.WireArrayReadsBack | internal/types/array.go:25-102 | from the wire on: the printed array reads back as the cells the server sent |
| Arrays.SameElements | pg2json/scan.go:1574-1587 | where the slice readers accept the elements the printer reads the same |
| Arrays.Scan1DMatchesText | pg2json/scan.go:1466-1511 | slice and printed list hold the same element at the same index |
| Arrays.Scan2DMatchesText | pg2json/scan.go:1520-1568 | the same at two indices |
| Scram.Agreement | internal/auth/scram.go:70-128 | a server of section 3 of RFC 5802, with its own spelling of every label, recovers the client key and accepts, and the client accepts its signature |
| Scram.AnswersOnly | internal/auth/scram.go:78-92 | the client answers iff the message parses, its nonce extends the client's and its salt decodes |
| Scram.ErrorRefused | internal/auth/scram.go:111-128 | a final message that starts with an error is refused |
| Scram.Pbkdf2 | internal/auth/scram.go:174-203 | for SCRAM's key length exactly `Hi` of section 2.2 of RFC 5802, in general a prefix of the PBKDF2 blocks |
| Scram.XorCancels | internal/auth/scram.go:163-169 | applying it twice gives the first operand back |
| Scram.XorBitAt | internal/auth/scram.go:163-169 | a bit is set iff the operands differ there |
| Scram.HiWrittenOut | internal/auth/scram.go:174-203 | `Hi` as section 2.2 of RFC 5802 writes it out |
| Scram.Spelling | internal/auth/scram.go:56-108 | the labels and prefixes the client uses |
| Engine.Client.Statement | pg2json/query.go:250-260 | the cached statement with the cache untouched, or a new one that the response describes, with exactly the cache change of a `Miss` in `Statements.dfy`, and the connection in sync after a server error |
| Engine.Client.RetryLoop | pg2json/query.go:162-185 | the same for the loop alone, and with a cached statement that is never found stale on a reliable connection every execution takes one request |
| Engine.Client.Round | pg2json/query.go:162-185 | one pass of it: the last one with its conclusion, or one given up with the writer as new |
| Engine.Client.Execute | pg2json/query.go:262-264 | one execution of a statement, whose cache entry then has the plan in force |
| Engine.Client.DescribeLoop | pg2json/query.go:315-343 | success with the fields of the last description, or a failure with its cause, by message type |
| Engine.Client.PrepareAndDescribe | pg2json/query.go:290-365 | the statement has the next name, the formats for the described columns and the plan they compile to; every failure has its cause, by message type |
| Engine.Client.BindExecute | pg2json/query.go:367-476 | an argument error exactly for an unsupported argument, before anything is sent and leaving the Bind unfinished in the write buffer; otherwise one request, ended as `Ended` says, and a clean buffer |
| Engine.Client.RunSimple | pg2json/query.go:219-226 | the same conclusion for the simple protocol, starting without a plan |
| Executions.MessageLoop | pg2json/query.go:411-475 | every exit of the message loop with its cause: what was read, printed, delivered and left unread |
| Executions.AbortOversize | pg2json/query.go:39-61 | reads up to and including the ReadyForQuery, or to the end of the stream |
| Rendering.ReadResponsesAreFirst | pg2json/query.go:39-61 | whole responses that have been read are the first answers, and the stream stands exactly before the next |
| Rendering.InsideAnswerNotAtEnd | pg2json/query.go:44-50 | a drain inside an answer cannot reach the end of a stream in which every request is answered |
| Output.OutWriter.Flush | pg2json/stream.go:111-125 | everything buffered goes downstream in one write and content is preserved, or the write fails with the caller's own error, SQLSTATE included, a prefix is taken and nothing is committed by it |
| Output.Sink.Write | pg2json/stream.go:113-116 | the writer answers as scripted: all bytes taken, or a prefix and its error, recorded in order |
| Output.OutWriter.MaybeFlush | pg2json/stream.go:101-109 | after it a streaming buffer is empty, or below the threshold with no interval elapsed; in the latter case nothing happens; content is kept and at most one cut added |
| Output.OutWriter.Reset | pg2json/stream.go:130-135 | with nothing committed the writer is as new, and what a failed write took stays downstream; otherwise unchanged |
| Output.WriteRow | pg2json/query.go:562-603 | the writer shows exactly one more row, cut only between rows, and buffers less than the threshold; a malformed row delivers nothing |
| Output.FinishOutput | pg2json/query.go:463-471 | the complete rendering is in place, sent if streaming, or the caller's error is returned with whole rows committed |
| Output.DeliveredEndsAtRow | pg2json/stream.go:70-74 | what an unfinished execution delivered is a sequence of whole rows with their header |
| Pool.ChannelsKept | pg2json/pool/pool.go:222-307 | each step keeps: a waiter channel is queued, targeted by one sender, or already has its message |
| Pool.OwnersKept | pg2json/pool/pool.go:192-307 | each step keeps: an entry is in at most one of the idle stack, a handle, a channel or a task |
| Pool.QueuesKept | pg2json/pool/pool.go:192-343 | waiters imply an empty idle stack; once draining or closed both stay empty |
| Pool.CountsKept | pg2json/pool/pool.go:192-307 | each step keeps the equation between open, failed replacements and live connections, and inUse with the handles |
| PoolLimits.EvictIdle | pg2json/pool/pool.go:451-469 | in-place compaction keeps exactly the survivors in order and lowers open by the rest |
| PoolLimits.KeptExactly | pg2json/pool/pool.go:451-469 | only stale entries go, at least MinIdle stay if there are so many, and a stale one stays only among the first MinIdle |
| PoolLimits.KeptInOrder | pg2json/pool/pool.go:451-469 | survivors keep their order |
| Statements.StepKeepsInv | pg2json/query.go:248-311 | every hit, miss, eviction, invalidation, rotation and loss keeps that agreement |
| Statements.StmtCache.Put | pg2json/stmtcache.go:52-65 | evicts one entry exactly when full, queues its name for Close, then stores |
| Statements.StmtCache.Invalidate | pg2json/stmtcache.go:93-100 | the key is gone and its name pending, others untouched |
| Iteration.Iterator.NextRaw | pg2json/iter.go:193-245 | the next DataRow body, or an end that is repeated unchanged without touching the connection |
| Iteration.Iterator.Close | pg2json/iter.go:257-275 | reads to the ReadyForQuery or the end, hides only the cancellation it caused, idempotent |
| Iteration.Iterator.DrainUntilReady | pg2json/iter.go:277-303 | reports the last server error of the response, or the broken wire |
| Iteration.StartRawExecute | pg2json/iter.go:110-183 | an iterator standing after BindComplete with the statement's plan and formats, or a failure with its cause |
| Iteration.RawQuery | pg2json/iter.go:45-106 | an iterator inside the answer to the last request, after one retry of a stale name at most; in sync after a server error |
| Scanning.FillStructRow | pg2json/scan.go:617-735 | the slot becomes what the setters make of the row's cells in column order, or the first refusal with its error |
| Scanning.FilledExactly | pg2json/scan.go:617-735 | a row is refused iff it does not split into one cell for each column or a setter refuses one |
| Scanning.FilledOfWire | pg2json/scan.go:617-735 | the row the server sends for a list of cells fills the slot with them |
| Scanning.PutEach | pg2json/scan.go:640-735 | setters into distinct fields: every field gets the cell of its own column, and nothing else changes |
| Scanning.BindExecuteScan | pg2json/scan.go:382-457 | success: every row of the response, decoded into a zero slot, across doublings |
| Scanning.BindExecuteScanBatched | pg2json/scan.go:503-591 | success: the same rows in batches, all full but the last, none empty; a server error or a setter's 26000 leaves exactly the full batches handed out |
| Scanning.BatchRow | pg2json/scan.go:542-556 | the next slot is zero when it is filled, and a full batch goes out and is cleared |
| Scanning.ScanStruct | pg2json/scan.go:37-92 | success: every row of what the last execution read, through the fields matched to the statement's own plan, after at most one that looked stale; the stream is in sync iff that one did not end inside its response |
| Scanning.ScanStructBatched | pg2json/scan.go:121-182 | success ends with a complete execution, preceded by at most one that looked stale; the stream is in sync iff that one did not end inside its response |
| Wire.Conn.ReadMessage | internal/wire/conn.go:99-149 | both paths, for any buffer size, return the first message of the stream and leave the rest |
| Wire.Conn.Finish | internal/wire/conn.go:227-235 | patching the length makes what was appended a message and changes nothing else |
| Wire.Conn.WriteRaw | internal/wire/conn.go:159-168 | all bytes in order through short writes, or a prefix on error |
| Wire.Conn.Flush | internal/wire/conn.go:193-200 | the whole buffer is sent and emptied |
| Wire.Conn.WritePrepare | pg2json/query.go:293-311 | the buffer gains exactly Close for each dead name, Parse, Describe, Sync |
| Wire.Conn.WriteExecute | pg2json/query.go:368-410 | the buffer gains Bind, Execute, Sync, or an unfinished Bind exactly for an unsupported argument |
| Wire.Conn.WriteQuery | pg2json/query.go:219-224 | the buffer gains one Query message, read as the statement's text |
| Escape.AppendStringBodySwar | internal/jsonwriter/escape_swar.go:59-91 | appends the same escaped text as the scalar loop, for every input |
| Escape.AppendStringBody | internal/jsonwriter/escape_scalar.go:9-46 | appends the byte-by-byte escaped text |
| Rows.AppendObject | internal/rows/datarow.go:31-68 | appends the object row of exactly the bodies that split into the plan's cells, else the split's error |
| Rows.AppendArray | internal/rows/datarow.go:71-105 | the same for array rows |
| Rows.AppendToonRow | internal/rows/toon.go:27-60 | the same for TOON rows: all three accept the same bodies |
| Rows.RowCellsOfWire | internal/rows/datarow.go:31-60 | the wire form of a list of cells splits into that list |
| Headers.ParseRowDescription | internal/rows/plan.go:104-149 | the field descriptors of the body, or which error refuses it |
| Headers.BuildColumnsHeader | internal/rows/plan.go:160-171 | the columnar header of the names |
| Headers.BuildToonHeader | internal/rows/plan.go:177-192 | the TOON header of the names |
| Numeric.EncodeNumeric | internal/types/numeric_bin.go:32-115 | appends the text of the cell, special values and malformed cells included |
| Arrays.AppendArrayDim | internal/types/array.go:66-102 | succeeds iff the body holds an element for every position, consumes exactly those and prints them nested |
| Arrays.EncodeArray | internal/types/array.go:25-61 | the nested list for a well-formed body; each malformed case as the source reports it |
| Arrays.Scan1D | pg2json/scan.go:1466-1511 | the values of the elements in order, or an error exactly when something cannot be read or set |
| Arrays.Scan2D | pg2json/scan.go:1520-1568 | the element at i * inner + j is placed at [i][j] |
| Scram.Block | internal/auth/scram.go:187-199 | the array ends as the exclusive or of all U's |
| Scram.ParseServerFirst | internal/auth/scram.go:130-151 | the last value of each attribute, or nothing when one is missing or the count is bad |
| Scram.LastWins | internal/auth/scram.go:130-151 | of several values for an attribute the last one counts |
| Scram.ServerFirstParses | internal/auth/scram.go:130-151 | a well-formed server-first message gives its nonce, salt and count |
| Scram.Client.ClientFinal | internal/auth/scram.go:78-108 | the proof and the expected signature for any server-first message, or refusal |
| Scram.Client.Verify | internal/auth/scram.go:111-128 | accepts iff the first v= or e= attribute is a v= that decodes to the expected signature |

## Left out

- Dialling, TLS, deadlines, the cancel connection and the context watcher: I/O and timing; a cancellation may end the message stream early or stop a retry.
- Reflection and memory layout in pg2json/scan.go: a row slot is a value of any type, a setter a function of slot and cell; the table of setters and the inline fast paths would only add cases.
- Floats, intervals, uuid, bytea, json and jsonb cells: their encoders appear as arbitrary functions of the cell.
- Observer, counters, parameter status, notices, DSN parsing, the check for non-SELECT statements, md5 and error-field parsing: thin or easy; an error response is its SQLSTATE.
- internal/bufferpool and buffer capacities (GrowForRow, RowsHint, readBuf reuse by callers): a buffer is its contents; that a returned body aliases a buffer is not captured.
- pg2json/stdlib, cmd and benchmarks: adapters.
- Output.OutWriter: bufWriter and flushingWriter are one class with a streaming flag, and the time since the last flush is a nondeterministic bit. A failed Write also gives the buffer back to the pool while a retry goes on using it (pg2json/stream.go:113-116, 159-165); that two owners may then share it is not captured.
- Output.Sink.Write: the writer's answers are a script fixed for the call; a Write that takes everything and still returns an error is the case of a refusal that takes all.
- Executions.MessageLoop: bindExecute and consumeText are one loop with a flag for the messages each knows, and the request bytes of their first half are in `Wire.dfy`.
- Engine.Client.BindExecute: the half-built Bind that an unsupported argument leaves behind is a flag here; its bytes are in `Wire.Conn.WriteExecute` and `Wire.ExecuteThenPrepare`.
- Rows.AppendObject: the cell read that the source writes out in every loop is one function, `FirstCell`.
- Pool.RunKeepsInv: expiry by idle time or lifetime is nondeterministic, so the zero birth time of a replacement entry (pg2json/pool/pool.go:302) has no effect here; fairness is not stated, and the goroutine that a given-up Drain leaves behind is not followed.
- Wire.PrepareReadsBack: for statement text and names without zero bytes, which a C string cannot carry.
- Statements.StmtCache.NextName: the 64-bit counter is unbounded here, so reuse after 2^64 names is not modelled.
- Statements.CacheAgreesWithServer: assumes that a backend holds no statement of another client under these names.
- Scanning.BindExecuteScan: neither the scans nor Iteration.Iterator.NextRaw store the plan of a new RowDescription in the cached statement (pg2json/scan.go:432, pg2json/iter.go:222); Engine.Client.RunCached does so for the printing calls.
- Scanning.BindExecuteScanBatched: the callback may fail at any time but does not keep or change the batch it was given.
- Numeric.PrintedIsTruncated: for digits of 0 to 9999, as the server sends them.
- Scram.Agreement: HMAC, SHA-256 and base64 are parameters; assumed are their sizes, that decoding undoes encoding, and that base64 text has no comma and is empty only for no bytes.
- Scram.Client.ClientFirst: the nonce is given, not random.
