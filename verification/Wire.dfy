/** Message framing of internal/wire/conn.go, and the request batches that pg2json/query.go
    builds with it. */
module Wire {
  import opened Bytes
  import Headers
  import Rendering

  const MAX_MSG: int := 0x1000_0000
  const DEFAULT_READER_BUF: int := 0x2_0000
  const MIN_READ: int := 0x2000

  datatype Frame = Frame(kind: byte, body: bytes)

  datatype WireError = EndOfStream | BogusLength | TooLarge | WriteFailed

  // ---- The format ----

  // One message on the wire: type, length of length and body, body.
  function FrameBytes(f: Frame): bytes { [f.kind] + (Put32(|f.body| + 4) + f.body) }

  // Several messages in one write.
  function Pipeline(fs: seq<Frame>): bytes
  {
    if fs == [] then [] else Pipeline(fs[..|fs| - 1]) + FrameBytes(fs[|fs| - 1])
  }

  type Parsed = Result<(Frame, bytes), WireError>

  // The first message of a stream, and what follows it.
  function FirstFrame(s: bytes): Parsed
  {
    if |s| < 5 then Err(EndOfStream)
    else
      var length := U32(s[1..]);
      if length < 4 then Err(BogusLength)
      else if length - 4 > MAX_MSG then Err(TooLarge)
      else if |s| < length + 1 then Err(EndOfStream)
      else Ok((Frame(s[0], s[5..length + 1]), s[length + 1..]))
  }

  // All messages of a stream; None when some part of it is not a message.
  function AllFrames(s: bytes): Option<seq<Frame>>
    decreases |s|
  {
    if s == [] then Some([])
    else
      var first := FirstFrame(s);
      if first.Err? then None
      else
        var more := AllFrames(first.value.1);
        if more.None? then None else Some([first.value.0] + more.value)
  }

  /** A built message reads back as itself, stopping exactly at its end, if and only if its body
      is at most 256 MiB: beyond that it is refused, or past 4 GiB its length wraps around. */
  lemma FrameReadsBack(f: Frame, rest: bytes)
    ensures FirstFrame(FrameBytes(f) + rest) == Ok((f, rest)) <==> |f.body| <= MAX_MSG
  {
    var s := FrameBytes(f) + rest;
    var word := Put32(|f.body| + 4);
    assert s[1..] == word + (f.body + rest);
    Put32Reads(|f.body| + 4, f.body + rest);
    hide Put32, U32;
    assert s[5..] == f.body + rest by { assert s[5..] == s[1..][4..]; }
    var length := (|f.body| + 4) % TWO_32;
    if |f.body| <= MAX_MSG {
      assert length == |f.body| + 4;
      assert s[5..length + 1] == s[5..][..|f.body|] == f.body;
      assert s[length + 1..] == s[5..][|f.body|..] == rest;
    } else if 4 <= length <= MAX_MSG + 4 {
      WrapsShort(|f.body| + 4);
      assert FirstFrame(s).Ok? ==> |FirstFrame(s).value.0.body| == length - 4;
    }
  }

  lemma WrapsShort(n: nat)
    requires n > MAX_MSG + 4 && n % TWO_32 <= MAX_MSG + 4
    ensures n % TWO_32 < n
  {
  }

  lemma {:induction false} PipelinePrepend(f: Frame, fs: seq<Frame>)
    ensures Pipeline([f] + fs) == FrameBytes(f) + Pipeline(fs)
  {
    hide FrameBytes;
    if fs == [] {
      assert [f] + fs == [f] && [f][..0] == [];
    } else {
      var n := |fs| - 1;
      assert ([f] + fs)[..n + 1] == [f] + fs[..n];
      PipelinePrepend(f, fs[..n]);
    }
  }

  /** A pipeline of any messages within the limit reads back as the same list. */
  lemma {:induction false} PipelineReadsBack(fs: seq<Frame>)
    requires forall i :: 0 <= i < |fs| ==> |fs[i].body| <= MAX_MSG
    ensures AllFrames(Pipeline(fs)) == Some(fs)
  {
    if fs != [] {
      var f, rest := fs[0], fs[1..];
      assert fs == [f] + rest;
      PipelinePrepend(f, rest);
      FrameReadsBack(f, Pipeline(rest));
      PipelineReadsBack(rest);
    }
  }

  lemma PipelineSplit(fs: seq<Frame>, f: Frame)
    ensures Pipeline(fs + [f]) == Pipeline(fs) + FrameBytes(f)
  {
    assert (fs + [f])[..|fs|] == fs;
  }

  // ---- The connection ----

  // The in-flight message: where it starts in the write buffer.
  datatype Builder = Builder(start: nat, typed: bool)

  class Conn {
    const brSize: int
    var incoming: bytes  // what the peer will still send
    var readBuf: array<byte>
    var writeBuf: bytes
    var outgoing: bytes  // what has reached the network

    constructor (incoming: bytes, bufSize: int)
      ensures this.incoming == incoming && writeBuf == [] && outgoing == [] && fresh(readBuf)
    {
      this.incoming, writeBuf, outgoing := incoming, [], [];
      brSize := if bufSize <= 0 then DEFAULT_READER_BUF else bufSize;
      readBuf := new byte[MIN_READ](_ => 0);
    }

    /** Both paths, peeking into a buffer of any size and copying past it, read the same message. */
    method ReadMessage() returns (r: Result<Frame, WireError>)
      modifies this, readBuf
      ensures readBuf == old(readBuf) || fresh(readBuf)
      ensures writeBuf == old(writeBuf) && outgoing == old(outgoing)
      ensures match FirstFrame(old(incoming))
              case Ok((f, rest)) => r == Ok(f) && incoming == rest
              case Err(e) => r == Err(e)
    {
      if |incoming| < 5 { return Err(EndOfStream); }
      var kind, length := incoming[0], U32(incoming[1..5]);
      assert incoming[1..5] == incoming[1..][..4];
      if length < 4 { return Err(BogusLength); }
      var bodyLen := length - 4;
      if bodyLen > MAX_MSG { return Err(TooLarge); }
      var total := 5 + bodyLen;
      if total <= brSize {
        if |incoming| < total { return Err(EndOfStream); }
        var body := incoming[5..total];
        incoming := incoming[total..];
        return Ok(Frame(kind, body));
      }
      incoming := incoming[5..];
      if readBuf.Length < bodyLen {
        var newCap := readBuf.Length * 2;
        if newCap < bodyLen { newCap := bodyLen; }
        readBuf := new byte[newCap](_ => 0);
      }
      var ok := ReadFull(bodyLen);
      if !ok { return Err(EndOfStream); }
      assert old(incoming)[5..][..bodyLen] == old(incoming)[5..length + 1];
      assert old(incoming)[5..][bodyLen..] == old(incoming)[length + 1..];
      r := Ok(Frame(kind, readBuf[..bodyLen]));
    }

    // io.ReadFull into the first n bytes of readBuf, in pieces of any size.
    method ReadFull(n: nat) returns (ok: bool)
      requires n <= readBuf.Length
      modifies this`incoming, readBuf
      ensures ok <==> n <= |old(incoming)|
      ensures ok ==> readBuf[..n] == old(incoming)[..n] && incoming == old(incoming)[n..]
    {
      var got := 0;
      while got < n
        invariant 0 <= got <= n && got <= |old(incoming)|
        invariant incoming == old(incoming)[got..] && readBuf[..got] == old(incoming)[..got]
      {
        if incoming == [] { return false; }
        var k: nat :| 1 <= k <= |incoming| && got + k <= n;
        forall i | 0 <= i < k { readBuf[got + i] := incoming[i]; }
        incoming := incoming[k..];
        assert readBuf[..got + k] == old(incoming)[..got + k];
        got := got + k;
      }
      ok := true;
    }

    method Begin(kind: byte) returns (b: Builder)
      modifies this`writeBuf
      ensures b == Builder(|old(writeBuf)|, true) && writeBuf == old(writeBuf) + [kind, 0, 0, 0, 0]
    {
      b := Builder(|writeBuf|, true);
      writeBuf := writeBuf + [kind] + [0, 0, 0, 0];
    }

    method BeginNoType() returns (b: Builder)
      modifies this`writeBuf
      ensures b == Builder(|old(writeBuf)|, false) && writeBuf == old(writeBuf) + [0, 0, 0, 0]
    {
      b := Builder(|writeBuf|, false);
      writeBuf := writeBuf + [0, 0, 0, 0];
    }

    method Append(p: bytes)
      modifies this`writeBuf
      ensures writeBuf == old(writeBuf) + p
    {
      writeBuf := writeBuf + p;
    }

    /** The length prefix is patched in place and nothing else changes: what was appended since
        Begin becomes the body. */
    method Finish(b: Builder, ghost prior: bytes, ghost kind: byte, ghost body: bytes)
      requires b.start == |prior|
      requires writeBuf == if b.typed then prior + [kind, 0, 0, 0, 0] + body else prior + [0, 0, 0, 0] + body
      modifies this`writeBuf
      ensures b.typed ==> writeBuf == prior + FrameBytes(Frame(kind, body))
      ensures !b.typed ==> writeBuf == prior + (Put32(|body| + 4) + body)
    {
      var at := if b.typed then b.start + 1 else b.start;
      writeBuf := writeBuf[..at] + Put32(|writeBuf| - at) + writeBuf[at + 4..];
    }

    // Everything is written, in as many pieces as the network takes, or an error is reported.
    method WriteRaw(p: bytes) returns (ok: bool)
      modifies this`outgoing
      ensures ok ==> outgoing == old(outgoing) + p
      ensures !ok ==> old(outgoing) <= outgoing <= old(outgoing) + p
    {
      var left := p;
      while left != []
        invariant outgoing + left == old(outgoing) + p && old(outgoing) <= outgoing
        decreases |left|
      {
        var n: nat :| 1 <= n <= |left|;
        var failed: bool := *;
        outgoing := outgoing + left[..n];
        if failed { return false; }
        left := left[n..];
      }
      ok := true;
    }

    method Flush() returns (ok: bool)
      modifies this`writeBuf, this`outgoing
      ensures writeBuf == []
      ensures ok ==> outgoing == old(outgoing) + old(writeBuf)
      ensures !ok ==> old(outgoing) <= outgoing <= old(outgoing) + old(writeBuf)
    {
      if |writeBuf| == 0 { return true; }
      ok := WriteRaw(writeBuf);
      writeBuf := [];
    }

    // A whole message: Begin, append, Finish.
    method Put(kind: byte, body: bytes)
      modifies this`writeBuf
      ensures writeBuf == old(writeBuf) + FrameBytes(Frame(kind, body))
    {
      ghost var prior := writeBuf;
      var b := Begin(kind);
      Append(body);
      Finish(b, prior, kind, body);
    }

    // ---- Request batches ----

    // prepareAndDescribe: Close for each dead statement, Parse, Describe, Sync.
    method WritePrepare(dead: seq<bytes>, name: bytes, sql: bytes)
      modifies this`writeBuf
      ensures writeBuf == old(writeBuf) + Pipeline(PrepareFrames(dead, name, sql))
      ensures Texts(dead) && 0 !in name && 0 !in sql && Fits(PrepareFrames(dead, name, sql)) ==>
                Requests(Pipeline(PrepareFrames(dead, name, sql))) == Some(CloseAll(dead) + [Parse(name, sql, []), DescribeStatement(name), Sync])
    {
      PrepareRequests(dead, name, sql);
      hide FrameBytes, Requests, CloseAll, Fits;
      ghost var fs := [];
      for i := 0 to |dead|
        invariant fs == CloseFrames(dead[..i]) && writeBuf == old(writeBuf) + Pipeline(fs)
      {
        fs := Add(MSG_CLOSE, [STATEMENT] + CStr(dead[i]), old(writeBuf), fs);
        assert dead[..i + 1][..i] == dead[..i];
      }
      assert dead[..|dead|] == dead;
      fs := Add(MSG_PARSE, CStr(name) + CStr(sql) + Put16(0), old(writeBuf), fs);
      fs := Add(MSG_DESCRIBE, [STATEMENT] + CStr(name), old(writeBuf), fs);
      fs := Add(MSG_SYNC, [], old(writeBuf), fs);
      assert fs == PrepareFrames(dead, name, sql);
    }

    /** runSimple: one Query message, which the server reads as the statement's text. */
    method WriteQuery(sql: bytes)
      modifies this`writeBuf
      ensures writeBuf == old(writeBuf) + FrameBytes(Frame(MSG_QUERY, CStr(sql)))
      ensures 0 !in sql ==> ReadRequest(Frame(MSG_QUERY, CStr(sql))) == Some(Query(sql))
    {
      QueryReadsBack(sql);
      Put(MSG_QUERY, CStr(sql));
    }

    // One more message of a pipeline.
    method Add(kind: byte, body: bytes, ghost prior: bytes, ghost fs: seq<Frame>) returns (ghost more: seq<Frame>)
      requires writeBuf == prior + Pipeline(fs)
      modifies this`writeBuf
      ensures more == fs + [Frame(kind, body)] && writeBuf == prior + Pipeline(more)
    {
      hide FrameBytes, Pipeline;
      Put(kind, body);
      more := fs + [Frame(kind, body)];
      PipelineSplit(fs, Frame(kind, body));
    }

    // The Bind of bindExecute; an argument that cannot be encoded leaves it unfinished.
    method WriteBind(name: bytes, args: seq<Arg>, formats: seq<int>) returns (ok: bool, ghost unfinished: bytes)
      modifies this`writeBuf
      ensures ok <==> UnsupportedArg !in args
      ensures ok ==> writeBuf == old(writeBuf) + FrameBytes(Frame(MSG_BIND, BindBody(name, args, formats)))
      ensures !ok ==> writeBuf == old(writeBuf) + ([MSG_BIND, 0, 0, 0, 0] + unfinished)
    {
      hide FrameBytes, ArgBytes, CodesBytes, Put16, Put32, WireFormats;
      ghost var prior := writeBuf;
      var b := Begin(MSG_BIND);
      Append(CStr([]) + CStr(name) + Put16(0) + Put16(|args|));
      ghost var head := CStr([]) + CStr(name) + Put16(0) + Put16(|args|);
      unfinished := head;
      for i := 0 to |args|
        invariant writeBuf == prior + ([MSG_BIND, 0, 0, 0, 0] + unfinished) && unfinished == head + ArgsBytes(args[..i])
        invariant UnsupportedArg !in args[..i]
      {
        if args[i].UnsupportedArg? { return false, unfinished; }
        assert args[..i + 1][..i] == args[..i];
        Append(ArgBytes(args[i]));
        unfinished := unfinished + ArgBytes(args[i]);
      }
      assert args[..|args|] == args;
      Append(Put16(|WireFormats(formats)|) + CodesBytes(WireFormats(formats)));
      assert writeBuf == prior + [MSG_BIND, 0, 0, 0, 0] + BindBody(name, args, formats);
      Finish(b, prior, MSG_BIND, BindBody(name, args, formats));
      ok := true;
    }

    /** bindExecute: Bind, Execute, Sync in one batch, or a half-built Bind left in the buffer. */
    method WriteExecute(name: bytes, args: seq<Arg>, formats: seq<int>) returns (ok: bool, ghost unfinished: bytes)
      modifies this`writeBuf
      ensures ok <==> UnsupportedArg !in args
      ensures ok ==> writeBuf == old(writeBuf) + Pipeline(ExecuteFrames(name, args, formats))
      ensures !ok ==> writeBuf == old(writeBuf) + ([MSG_BIND, 0, 0, 0, 0] + unfinished)
      ensures 0 !in name && Bindable(args, formats) && Fits(ExecuteFrames(name, args, formats)) ==>
                Requests(Pipeline(ExecuteFrames(name, args, formats))) ==
                Some([BindPortal(Bind([], name, [], args, WireFormats(formats))), Execute([], 0), Sync])
    {
      ExecuteBatchRequests(name, args, formats);
      hide FrameBytes, Pipeline, BindBody, Put32, Requests, Bindable, Fits, WireFormats;
      ghost var prior := writeBuf;
      ok, unfinished := WriteBind(name, args, formats);
      if !ok { return; }
      ghost var fs := [Frame(MSG_BIND, BindBody(name, args, formats))];
      OneFrame(fs[0]);
      fs := Add(MSG_EXECUTE, CStr([]) + Put32(0), prior, fs);
      fs := Add(MSG_SYNC, [], prior, fs);
    }
  }

  // Every body is within the limit.
  predicate Fits(fs: seq<Frame>) { forall i :: 0 <= i < |fs| ==> |fs[i].body| <= MAX_MSG }

  lemma {:induction false} PipelineConcat(a: seq<Frame>, b: seq<Frame>)
    ensures Pipeline(a + b) == Pipeline(a) + Pipeline(b)
  {
    hide FrameBytes;
    if b == [] {
      assert a + b == a && Pipeline(a) + [] == Pipeline(a);
    } else {
      var n := |b| - 1;
      assert (a + b)[..|a| + n] == a + b[..n];
      PipelineConcat(a, b[..n]);
    }
  }

  /** Two calls in a row on a fresh buffer: the server reads both batches exactly when every
      argument of the first could be encoded. Otherwise the first thing it reads, once the second
      call flushes, is the unfinished Bind, whose length it refuses. */
  method ExecuteThenPrepare(c: Conn, name: bytes, args: seq<Arg>, formats: seq<int>, dead: seq<bytes>, next: bytes, sql: bytes)
    returns (flushed: bool, ghost sent: bytes)
    requires c.writeBuf == []
    modifies c
    ensures flushed ==> c.outgoing == old(c.outgoing) + sent
    ensures UnsupportedArg in args ==> FirstFrame(sent) == Err(BogusLength) && AllFrames(sent) == None
    ensures UnsupportedArg !in args && Fits(ExecuteFrames(name, args, formats)) && Fits(PrepareFrames(dead, next, sql)) ==>
              AllFrames(sent) == Some(ExecuteFrames(name, args, formats) + PrepareFrames(dead, next, sql))
  {
    ghost var a, b := ExecuteFrames(name, args, formats), PrepareFrames(dead, next, sql);
    ReadBoth(a, b);
    hide ExecuteFrames, PrepareFrames, Pipeline, FirstFrame, AllFrames;
    var ok;
    ghost var unfinished;
    ok, unfinished := c.WriteExecute(name, args, formats);
    flushed := true;
    if ok {
      sent := Pipeline(a) + Pipeline(b);
      assert [] + Pipeline(a) == Pipeline(a);
      flushed := c.Flush();
      assert [] + Pipeline(b) == Pipeline(b);
    } else {
      sent := [MSG_BIND, 0, 0, 0, 0] + unfinished + Pipeline(b);
      assert [] + ([MSG_BIND, 0, 0, 0, 0] + unfinished) == [MSG_BIND, 0, 0, 0, 0] + unfinished;
      UnfinishedBindIsBogus(unfinished, Pipeline(b));
    }
    c.WritePrepare(dead, next, sql);
    var last := c.Flush();
    flushed := flushed && last;
    assert ok && flushed ==> old(c.outgoing) + Pipeline(a) + Pipeline(b) == old(c.outgoing) + sent;
  }

  lemma ReadBoth(a: seq<Frame>, b: seq<Frame>)
    ensures Fits(a) && Fits(b) ==> AllFrames(Pipeline(a) + Pipeline(b)) == Some(a + b)
  {
    PipelineConcat(a, b);
    hide Pipeline, AllFrames;
    if Fits(a) && Fits(b) { PipelineReadsBack(a + b); }
  }

  lemma OneFrame(f: Frame)
    ensures Pipeline([f]) == FrameBytes(f)
  {
    hide FrameBytes;
    assert [f][..0] == [];
  }

  function ExecuteFrames(name: bytes, args: seq<Arg>, formats: seq<int>): seq<Frame>
  {
    [Frame(MSG_BIND, BindBody(name, args, formats))] + [Frame(MSG_EXECUTE, CStr([]) + Put32(0))] + [Frame(MSG_SYNC, [])]
  }

  const MSG_BIND: byte := 0x42
  const MSG_CLOSE: byte := 0x43
  const MSG_DESCRIBE: byte := 0x44
  const MSG_EXECUTE: byte := 0x45
  const MSG_PARSE: byte := 0x50
  const MSG_QUERY: byte := 0x51
  const MSG_SYNC: byte := 0x53
  const STATEMENT: byte := 0x53

  function CStr(s: bytes): bytes { s + [0] }

  function CloseFrames(dead: seq<bytes>): seq<Frame>
  {
    if dead == [] then [] else CloseFrames(dead[..|dead| - 1]) + [Frame(MSG_CLOSE, [STATEMENT] + CStr(dead[|dead| - 1]))]
  }

  function PrepareFrames(dead: seq<bytes>, name: bytes, sql: bytes): seq<Frame>
  {
    CloseFrames(dead) + [Frame(MSG_PARSE, CStr(name) + CStr(sql) + Put16(0))]
    + [Frame(MSG_DESCRIBE, [STATEMENT] + CStr(name))] + [Frame(MSG_SYNC, [])]
  }

  // ---- Bind ----

  datatype Arg = TextArg(text: bytes) | NullArg | UnsupportedArg

  function ArgBytes(a: Arg): bytes
  {
    if a.TextArg? then Put32(|a.text|) + a.text else Put32(-1)
  }

  function ArgsBytes(args: seq<Arg>): bytes
  {
    if args == [] then [] else ArgsBytes(args[..|args| - 1]) + ArgBytes(args[|args| - 1])
  }

  // All binary is sent as one code for all columns.
  function WireFormats(formats: seq<int>): seq<int>
  {
    if formats != [] && (forall i :: 0 <= i < |formats| ==> formats[i] == 1) then [1] else formats
  }

  function CodesBytes(codes: seq<int>): bytes
  {
    if codes == [] then [] else CodesBytes(codes[..|codes| - 1]) + Put16(codes[|codes| - 1])
  }

  function BindBody(name: bytes, args: seq<Arg>, formats: seq<int>): bytes
  {
    CStr([]) + CStr(name) + Put16(0) + Put16(|args|) + ArgsBytes(args)
    + (Put16(|WireFormats(formats)|) + CodesBytes(WireFormats(formats)))
  }

  /** The shorthand means the same: the server gives every column the format asked for. */
  lemma ShorthandMeansFormats(formats: seq<int>, i: nat)
    requires i < |formats|
    ensures Rendering.FormatOf(WireFormats(formats), |formats|, i) == formats[i]
  {
  }

  // ---- The server's reading of Bind ----

  function ReadCStr(b: bytes): Option<(bytes, bytes)>
  {
    var i := Headers.IndexZero(b);
    if i < 0 then None else Some((b[..i], b[i + 1..]))
  }

  function ReadArgs(b: bytes, n: nat): Option<(seq<Arg>, bytes)>
    decreases n
  {
    if n == 0 then Some(([], b))
    else if |b| < 4 then None
    else
      var size := I32(b);
      if size < -1 || (size >= 0 && |b| < 4 + size) then None
      else
        var arg, left := if size < 0 then NullArg else TextArg(b[4..4 + size]), if size < 0 then b[4..] else b[4 + size..];
        var more := ReadArgs(left, n - 1);
        if more.None? then None else Some(([arg] + more.value.0, more.value.1))
  }

  function ReadCodes(b: bytes, n: nat): Option<(seq<int>, bytes)>
    decreases n
  {
    if n == 0 then Some(([], b))
    else if |b| < 2 then None
    else
      var more := ReadCodes(b[2..], n - 1);
      if more.None? then None else Some(([I16(b)] + more.value.0, more.value.1))
  }

  datatype Bind = Bind(portal: bytes, name: bytes, paramCodes: seq<int>, args: seq<Arg>, resultCodes: seq<int>)

  function ReadBind(body: bytes): Option<Bind>
  {
    var portal := ReadCStr(body);
    if portal.None? then None
    else
      var name := ReadCStr(portal.value.1);
      if name.None? || |name.value.1| < 2 then None
      else
        var params := ReadCodes(name.value.1[2..], U16(name.value.1));
        if params.None? || |params.value.1| < 2 then None
        else
          var args := ReadArgs(params.value.1[2..], U16(params.value.1));
          if args.None? || |args.value.1| < 2 then None
          else
            var codes := ReadCodes(args.value.1[2..], U16(args.value.1));
            if codes.None? || codes.value.1 != [] then None
            else Some(Bind(portal.value.0, name.value.0, params.value.0, args.value.0, codes.value.0))
  }

  lemma CStrReads(s: bytes, rest: bytes)
    requires 0 !in s
    ensures ReadCStr(CStr(s) + rest) == Some((s, rest))
  {
    var b := CStr(s) + rest;
    var i := Headers.IndexZero(b);
    assert b[|s|] == 0;
    assert forall k :: 0 <= k < |s| ==> b[k] == s[k] && s[k] in s;
    assert i == |s|;
    assert b[..i] == s && b[i + 1..] == rest;
  }

  lemma {:induction false} ArgsPrepend(a: Arg, args: seq<Arg>)
    ensures ArgsBytes([a] + args) == ArgBytes(a) + ArgsBytes(args)
  {
    hide ArgBytes;
    if args == [] {
      assert [a] + args == [a] && [a][..0] == [];
    } else {
      var n := |args| - 1;
      assert ([a] + args)[..n + 1] == [a] + args[..n];
      ArgsPrepend(a, args[..n]);
    }
  }

  lemma {:induction false} CodesPrepend(c: int, codes: seq<int>)
    ensures CodesBytes([c] + codes) == Put16(c) + CodesBytes(codes)
  {
    hide Put16;
    if codes == [] {
      assert [c] + codes == [c] && [c][..0] == [];
    } else {
      var n := |codes| - 1;
      assert ([c] + codes)[..n + 1] == [c] + codes[..n];
      CodesPrepend(c, codes[..n]);
    }
  }

  // Arguments that the wire can carry.
  predicate Sendable(args: seq<Arg>)
  {
    forall i :: 0 <= i < |args| ==> !args[i].UnsupportedArg? && (args[i].TextArg? ==> |args[i].text| < 0x8000_0000)
  }

  lemma OneArgReads(a: Arg, rest: bytes, n: nat)
    requires Sendable([a]) && n > 0
    ensures var more := ReadArgs(rest, n - 1);
            ReadArgs(ArgBytes(a) + rest, n) == if more.None? then None else Some(([a] + more.value.0, more.value.1))
  {
    assert [a][0] == a;
    hide Put32, U32;
    var b := ArgBytes(a) + rest;
    if a.TextArg? {
      assert b == Put32(|a.text|) + (a.text + rest);
      Put32Reads(|a.text|, a.text + rest);
      assert b[4..4 + |a.text|] == b[4..][..|a.text|] == a.text;
      assert b[4 + |a.text|..] == b[4..][|a.text|..] == rest;
    } else {
      Put32Reads(-1, rest);
    }
  }

  lemma {:induction false} ArgsReadBack(args: seq<Arg>, rest: bytes)
    requires Sendable(args)
    ensures ReadArgs(ArgsBytes(args) + rest, |args|) == Some((args, rest))
  {
    hide ReadArgs, ArgBytes, ArgsBytes;
    if args == [] {
      NoArgs(rest);
    } else {
      var a, more := args[0], args[1..];
      assert args == [a] + more;
      ArgsPrepend(a, more);
      Assoc(ArgBytes(a), ArgsBytes(more), rest);
      OneArgReads(a, ArgsBytes(more) + rest, |args|);
      ArgsReadBack(more, rest);
    }
  }

  lemma NoArgs(rest: bytes)
    ensures ArgsBytes([]) + rest == rest && ReadArgs(rest, 0) == Some(([], rest))
  {
  }

  lemma {:induction false} CodesReadBack(codes: seq<int>, rest: bytes)
    requires forall i :: 0 <= i < |codes| ==> -0x8000 <= codes[i] < 0x8000
    ensures ReadCodes(CodesBytes(codes) + rest, |codes|) == Some((codes, rest))
  {
    if codes == [] {
      assert CodesBytes(codes) + rest == rest;
    } else {
      var c, more := codes[0], codes[1..];
      assert codes == [c] + more;
      CodesPrepend(c, more);
      hide CodesBytes, Put16, U16;
      assert CodesBytes(codes) + rest == Put16(c) + (CodesBytes(more) + rest);
      Put16Reads(c, CodesBytes(more) + rest);
      CodesReadBack(more, rest);
    }
  }

  /** The server reads back the statement name, every argument and format codes that mean the
      formats asked for. */
  lemma BindReadsBack(name: bytes, args: seq<Arg>, formats: seq<int>)
    requires 0 !in name && Sendable(args) && |args| < TWO_16 && |formats| < TWO_16
    requires forall i :: 0 <= i < |formats| ==> -0x8000 <= formats[i] < 0x8000
    ensures ReadBind(BindBody(name, args, formats)) == Some(Bind([], name, [], args, WireFormats(formats)))
  {
    var codes := WireFormats(formats);
    var b4 := Put16(|codes|) + CodesBytes(codes);
    var b3 := Put16(|args|) + (ArgsBytes(args) + b4);
    var b2 := Put16(0) + b3;
    BindShape(name, args, formats);
    CodesFit(formats);
    CountReads(0, b3);
    CountReads(|args|, ArgsBytes(args) + b4);
    CountReads(|codes|, CodesBytes(codes));
    hide *;
    CStrReads([], CStr(name) + b2);
    CStrReads(name, b2);
    NoCodes(b3);
    ArgsReadBack(args, b4);
    AllCodes(codes);
    BindSteps(CStr([]) + (CStr(name) + b2), [], CStr(name) + b2, name, b2, [], b3, args, b4, codes);
  }

  lemma CountReads(n: nat, rest: bytes)
    requires n < TWO_16
    ensures |Put16(n) + rest| >= 2 && U16(Put16(n) + rest) == n && (Put16(n) + rest)[2..] == rest
  {
    Put16Reads(n, rest);
    hide Put16, U16;
  }

  lemma AllCodes(codes: seq<int>)
    requires forall i :: 0 <= i < |codes| ==> -0x8000 <= codes[i] < 0x8000
    ensures ReadCodes(CodesBytes(codes), |codes|) == Some((codes, []))
  {
    CodesReadBack(codes, []);
    assert CodesBytes(codes) + [] == CodesBytes(codes);
    hide *;
  }

  lemma BindShape(name: bytes, args: seq<Arg>, formats: seq<int>)
    ensures BindBody(name, args, formats) ==
            CStr([]) + (CStr(name) + (Put16(0) + (Put16(|args|) + (ArgsBytes(args) + (Put16(|WireFormats(formats)|) + CodesBytes(WireFormats(formats)))))))
  {
    hide CStr, ArgsBytes, CodesBytes, Put16, WireFormats;
    var a, b, c, d, e := CStr([]), CStr(name), Put16(0), Put16(|args|), ArgsBytes(args);
    var f := Put16(|WireFormats(formats)|) + CodesBytes(WireFormats(formats));
    AssocFour(a, b, c, d);
    Assoc(a + (b + (c + d)), e, f);
    Assoc(a, b + (c + d), e + f);
    Assoc(b, c + d, e + f);
    Assoc(c, d, e + f);
  }

  lemma CodesFit(formats: seq<int>)
    requires |formats| < TWO_16 && forall i :: 0 <= i < |formats| ==> -0x8000 <= formats[i] < 0x8000
    ensures |WireFormats(formats)| < TWO_16 && forall i :: 0 <= i < |WireFormats(formats)| ==> -0x8000 <= WireFormats(formats)[i] < 0x8000
  {
  }

  lemma NoCodes(b: bytes)
    ensures ReadCodes(b, 0) == Some(([], b))
  {
  }

  // The reader, one field after the other.
  lemma BindSteps(body: bytes, portal: bytes, b1: bytes, name: bytes, b2: bytes, params: seq<int>, b3: bytes, args: seq<Arg>, b4: bytes, codes: seq<int>)
    requires ReadCStr(body) == Some((portal, b1)) && ReadCStr(b1) == Some((name, b2))
    requires |b2| >= 2 && ReadCodes(b2[2..], U16(b2)) == Some((params, b3))
    requires |b3| >= 2 && ReadArgs(b3[2..], U16(b3)) == Some((args, b4))
    requires |b4| >= 2 && ReadCodes(b4[2..], U16(b4)) == Some((codes, []))
    ensures ReadBind(body) == Some(Bind(portal, name, params, args, codes))
  {
    hide ReadCStr, ReadCodes, ReadArgs, U16;
  }

  /** A batch after an unfinished Bind cannot be read: its length is still zero. */
  lemma UnfinishedBindIsBogus(unfinished: bytes, later: bytes)
    ensures FirstFrame([MSG_BIND, 0, 0, 0, 0] + unfinished + later) == Err(BogusLength)
    ensures AllFrames([MSG_BIND, 0, 0, 0, 0] + unfinished + later) == None
  {
  }

  // ---- The server's reading of a batch ----

  datatype Request =
    | Parse(name: bytes, sql: bytes, oids: seq<int>)
    | DescribeStatement(name: bytes)
    | CloseStatement(name: bytes)
    | BindPortal(bind: Bind)
    | Execute(portal: bytes, limit: int)
    | Sync
    | Query(sql: bytes)

  // Parameter types, four bytes each.
  function ReadOids(b: bytes, n: nat): Option<(seq<int>, bytes)>
    decreases n
  {
    if n == 0 then Some(([], b))
    else if |b| < 4 then None
    else
      var more := ReadOids(b[4..], n - 1);
      if more.None? then None else Some(([U32(b)] + more.value.0, more.value.1))
  }

  function ReadParse(body: bytes): Option<Request>
  {
    var name := ReadCStr(body);
    if name.None? then None
    else
      var sql := ReadCStr(name.value.1);
      if sql.None? || |sql.value.1| < 2 then None
      else
        var oids := ReadOids(sql.value.1[2..], U16(sql.value.1));
        if oids.None? || oids.value.1 != [] then None else Some(Parse(name.value.0, sql.value.0, oids.value.0))
  }

  // The name after the kind: S for a statement.
  function ReadTarget(body: bytes): Option<bytes>
  {
    if body == [] || body[0] != 'S' as int then None
    else
      var name := ReadCStr(body[1..]);
      if name.None? || name.value.1 != [] then None else Some(name.value.0)
  }

  function ReadExecute(body: bytes): Option<Request>
  {
    var portal := ReadCStr(body);
    if portal.None? || |portal.value.1| != 4 then None else Some(Execute(portal.value.0, I32(portal.value.1)))
  }

  // One message, by its type byte (section 55.7 of the PostgreSQL documentation).
  function ReadRequest(f: Frame): Option<Request>
  {
    if f.kind == 'P' as int then ReadParse(f.body)
    else if f.kind == 'D' as int then
      var name := ReadTarget(f.body);
      if name.None? then None else Some(DescribeStatement(name.value))
    else if f.kind == 'C' as int then
      var name := ReadTarget(f.body);
      if name.None? then None else Some(CloseStatement(name.value))
    else if f.kind == 'B' as int then
      var bind := ReadBind(f.body);
      if bind.None? then None else Some(BindPortal(bind.value))
    else if f.kind == 'E' as int then ReadExecute(f.body)
    else if f.kind == 'S' as int && f.body == [] then Some(Sync)
    else if f.kind == 'Q' as int then
      var sql := ReadCStr(f.body);
      if sql.None? || sql.value.1 != [] then None else Some(Query(sql.value.0))
    else None
  }

  function ReadRequests(fs: seq<Frame>): Option<seq<Request>>
  {
    if fs == [] then Some([])
    else
      var n := |fs| - 1;
      var before, last := ReadRequests(fs[..n]), ReadRequest(fs[n]);
      if before.None? || last.None? then None else Some(before.value + [last.value])
  }

  // The requests in a stream of bytes.
  function Requests(sent: bytes): Option<seq<Request>>
  {
    var fs := AllFrames(sent);
    if fs.None? then None else ReadRequests(fs.value)
  }

  lemma RequestsSnoc(fs: seq<Frame>, f: Frame, before: seq<Request>, last: Request)
    requires ReadRequests(fs) == Some(before) && ReadRequest(f) == Some(last)
    ensures ReadRequests(fs + [f]) == Some(before + [last])
  {
    hide ReadRequest;
    assert (fs + [f])[..|fs|] == fs;
  }

  lemma TargetReadsBack(name: bytes)
    requires 0 !in name
    ensures ReadTarget([STATEMENT] + CStr(name)) == Some(name)
  {
    CStrReads(name, []);
    assert CStr(name) + [] == CStr(name) && ([STATEMENT] + CStr(name))[1..] == CStr(name);
    hide CStr, ReadCStr;
  }

  lemma ParseReadsBack(name: bytes, sql: bytes)
    requires 0 !in name && 0 !in sql
    ensures ReadParse(CStr(name) + CStr(sql) + Put16(0)) == Some(Parse(name, sql, []))
  {
    hide *;
    CStrReads(name, CStr(sql) + Put16(0));
    CStrReads(sql, Put16(0));
    Put16Reads(0, []);
    Assoc(CStr(name), CStr(sql), Put16(0));
    assert Put16(0) + [] == Put16(0);
    NoOids([]);
    ParseSteps(CStr(name) + (CStr(sql) + Put16(0)), name, CStr(sql) + Put16(0), sql, Put16(0), []);
  }

  lemma NoOids(b: bytes)
    ensures ReadOids(b, 0) == Some(([], b)) && 0 % TWO_16 == 0
  {
  }

  lemma ParseSteps(body: bytes, name: bytes, b1: bytes, sql: bytes, b2: bytes, oids: seq<int>)
    requires ReadCStr(body) == Some((name, b1)) && ReadCStr(b1) == Some((sql, b2))
    requires |b2| >= 2 && ReadOids(b2[2..], U16(b2)) == Some((oids, []))
    ensures ReadParse(body) == Some(Parse(name, sql, oids))
  {
    hide ReadCStr, ReadOids, U16;
  }

  lemma ExecuteReadsBack()
    ensures ReadExecute(CStr([]) + Put32(0)) == Some(Execute([], 0))
  {
    CStrReads([], Put32(0));
    Put32Reads(0, []);
    assert Put32(0) + [] == Put32(0);
    hide CStr, ReadCStr, Put32, I32;
  }

  lemma QueryReadsBack(sql: bytes)
    ensures 0 !in sql ==> ReadRequest(Frame(MSG_QUERY, CStr(sql))) == Some(Query(sql))
  {
    if 0 !in sql { CStrReads(sql, []); }
    assert CStr(sql) + [] == CStr(sql);
    hide CStr, ReadCStr;
  }

  function CloseAll(dead: seq<bytes>): seq<Request> { seq(|dead|, i requires 0 <= i < |dead| => CloseStatement(dead[i])) }

  predicate Texts(names: seq<bytes>) { forall i :: 0 <= i < |names| ==> 0 !in names[i] }

  // The messages that the batches are made of.
  lemma StatementRequests(name: bytes)
    requires 0 !in name
    ensures ReadRequest(Frame(MSG_CLOSE, [STATEMENT] + CStr(name))) == Some(CloseStatement(name))
    ensures ReadRequest(Frame(MSG_DESCRIBE, [STATEMENT] + CStr(name))) == Some(DescribeStatement(name))
  {
    TargetReadsBack(name);
    hide ReadTarget, CStr;
  }

  lemma ParseRequest(name: bytes, sql: bytes)
    requires 0 !in name && 0 !in sql
    ensures ReadRequest(Frame(MSG_PARSE, CStr(name) + CStr(sql) + Put16(0))) == Some(Parse(name, sql, []))
  {
    ParseReadsBack(name, sql);
    hide ReadParse, CStr, Put16;
  }

  lemma ExecuteRequests()
    ensures ReadRequest(Frame(MSG_EXECUTE, CStr([]) + Put32(0))) == Some(Execute([], 0)) && ReadRequest(Frame(MSG_SYNC, [])) == Some(Sync)
  {
    ExecuteReadsBack();
    hide ReadExecute, CStr, Put32;
  }

  lemma BindRequest(name: bytes, args: seq<Arg>, formats: seq<int>)
    requires 0 !in name && Sendable(args) && |args| < TWO_16 && |formats| < TWO_16
    requires forall i :: 0 <= i < |formats| ==> -0x8000 <= formats[i] < 0x8000
    ensures ReadRequest(Frame(MSG_BIND, BindBody(name, args, formats))) == Some(BindPortal(Bind([], name, [], args, WireFormats(formats))))
  {
    BindReadsBack(name, args, formats);
    hide ReadBind, BindBody, WireFormats;
  }

  lemma ThreeMore(fs: seq<Frame>, rs: seq<Request>, f1: Frame, r1: Request, f2: Frame, r2: Request, f3: Frame, r3: Request)
    requires ReadRequests(fs) == Some(rs) && ReadRequest(f1) == Some(r1) && ReadRequest(f2) == Some(r2) && ReadRequest(f3) == Some(r3)
    ensures ReadRequests(fs + [f1] + [f2] + [f3]) == Some(rs + [r1, r2, r3])
  {
    hide *;
    RequestsSnoc(fs, f1, rs, r1);
    RequestsSnoc(fs + [f1], f2, rs + [r1], r2);
    RequestsSnoc(fs + [f1] + [f2], f3, rs + [r1] + [r2], r3);
    assert rs + [r1] + [r2] + [r3] == rs + [r1, r2, r3];
  }

  lemma {:induction false} ClosesReadBack(dead: seq<bytes>)
    requires Texts(dead)
    ensures ReadRequests(CloseFrames(dead)) == Some(CloseAll(dead))
  {
    if dead == [] {
      assert CloseAll(dead) == [];
    } else {
      var n := |dead| - 1;
      assert CloseFrames(dead) == CloseFrames(dead[..n]) + [Frame(MSG_CLOSE, [STATEMENT] + CStr(dead[n]))];
      assert CloseAll(dead) == CloseAll(dead[..n]) + [CloseStatement(dead[n])];
      assert Texts(dead[..n]) && 0 !in dead[n];
      hide *;
      ClosesReadBack(dead[..n]);
      StatementRequests(dead[n]);
      RequestsSnoc(CloseFrames(dead[..n]), Frame(MSG_CLOSE, [STATEMENT] + CStr(dead[n])), CloseAll(dead[..n]), CloseStatement(dead[n]));
    }
  }

  /** A prepare batch asks the server to close each dead statement, to parse the query under its
      name with every parameter type left open, to describe that statement, and to sync. */
  lemma PrepareReadsBack(dead: seq<bytes>, name: bytes, sql: bytes)
    requires Texts(dead) && 0 !in name && 0 !in sql
    ensures ReadRequests(PrepareFrames(dead, name, sql)) == Some(CloseAll(dead) + [Parse(name, sql, []), DescribeStatement(name), Sync])
  {
    var f1, f2, f3 := Frame(MSG_PARSE, CStr(name) + CStr(sql) + Put16(0)), Frame(MSG_DESCRIBE, [STATEMENT] + CStr(name)), Frame(MSG_SYNC, []);
    assert PrepareFrames(dead, name, sql) == CloseFrames(dead) + [f1] + [f2] + [f3];
    hide *;
    ClosesReadBack(dead);
    ParseRequest(name, sql);
    StatementRequests(name);
    ExecuteRequests();
    ThreeMore(CloseFrames(dead), CloseAll(dead), f1, Parse(name, sql, []), f2, DescribeStatement(name), f3, Sync);
  }

  /** An execute batch binds the unnamed portal to the statement, with every argument as text, asks
      for all of its rows, and syncs. */
  lemma ExecuteBatchReadsBack(name: bytes, args: seq<Arg>, formats: seq<int>)
    requires 0 !in name && Sendable(args) && |args| < TWO_16 && |formats| < TWO_16
    requires forall i :: 0 <= i < |formats| ==> -0x8000 <= formats[i] < 0x8000
    ensures ReadRequests(ExecuteFrames(name, args, formats)) ==
            Some([BindPortal(Bind([], name, [], args, WireFormats(formats))), Execute([], 0), Sync])
  {
    var f1, f2, f3 := Frame(MSG_BIND, BindBody(name, args, formats)), Frame(MSG_EXECUTE, CStr([]) + Put32(0)), Frame(MSG_SYNC, []);
    var r1, r2, r3 := BindPortal(Bind([], name, [], args, WireFormats(formats))), Execute([], 0), Sync;
    assert ExecuteFrames(name, args, formats) == [] + [f1] + [f2] + [f3];
    assert ReadRequests([]) == Some([]);
    hide *;
    BindRequest(name, args, formats);
    ExecuteRequests();
    ThreeMore([], [], f1, r1, f2, r2, f3, r3);
    assert [] + [r1, r2, r3] == [r1, r2, r3];
  }

  // Arguments and formats that a Bind can carry.
  predicate Bindable(args: seq<Arg>, formats: seq<int>)
  {
    Sendable(args) && |args| < TWO_16 && |formats| < TWO_16 && forall i :: 0 <= i < |formats| ==> -0x8000 <= formats[i] < 0x8000
  }

  lemma PrepareRequests(dead: seq<bytes>, name: bytes, sql: bytes)
    ensures Texts(dead) && 0 !in name && 0 !in sql && Fits(PrepareFrames(dead, name, sql)) ==>
              Requests(Pipeline(PrepareFrames(dead, name, sql))) == Some(CloseAll(dead) + [Parse(name, sql, []), DescribeStatement(name), Sync])
  {
    hide *;
    if Texts(dead) && 0 !in name && 0 !in sql && Fits(PrepareFrames(dead, name, sql)) {
      PrepareReadsBack(dead, name, sql);
      BatchReads(PrepareFrames(dead, name, sql));
    }
  }

  lemma ExecuteBatchRequests(name: bytes, args: seq<Arg>, formats: seq<int>)
    ensures 0 !in name && Bindable(args, formats) && Fits(ExecuteFrames(name, args, formats)) ==>
              Requests(Pipeline(ExecuteFrames(name, args, formats))) ==
              Some([BindPortal(Bind([], name, [], args, WireFormats(formats))), Execute([], 0), Sync])
  {
    hide ReadRequests, Pipeline, ExecuteFrames, Requests, WireFormats;
    if 0 !in name && Bindable(args, formats) && Fits(ExecuteFrames(name, args, formats)) {
      ExecuteBatchReadsBack(name, args, formats);
      BatchReads(ExecuteFrames(name, args, formats));
    }
  }

  // The bytes of a batch within the limit, read as requests.
  lemma BatchReads(fs: seq<Frame>)
    requires Fits(fs)
    ensures Requests(Pipeline(fs)) == ReadRequests(fs)
  {
    hide ReadRequests, AllFrames, Pipeline;
    PipelineReadsBack(fs);
  }
}
