/** The streaming response writers: a header that is sent exactly once, and the pull writer that
    holds output back until the image is resolved. */
module Streams {
  import opened Prelude
  import opened Text

  /** What reaches the client.  `json` says whether the content type was set with the status. */
  datatype Output = Header(code: nat, json: bool) | Body(message: Message) | Flush

  datatype Message =
    | Stream(text: string)
    | ErrorDetail(code: nat, text: string)
    | Aux(data: string)
    | PlainError(text: string)

  /** A call on a writer; `encodes` tells whether JSON-encoding its message to the client succeeds. */
  datatype Call =
    | Write(text: string, encodes: bool)
    | WriteError(code: nat, text: string, encodes: bool)
    | WriteAux(data: string, encodes: bool)

  const OK: nat := 200
  const NOT_MODIFIED: nat := 304

  /** The output of one call on a writer that has or has not sent its header. */
  function Emit(started: bool, flushes: bool, c: Call): seq<Output> {
    match c
    case WriteError(code, text, encodes) =>
      if started then (if encodes then [Body(ErrorDetail(code, text))] else [])
      else if code == NOT_MODIFIED then [Header(code, false)]
      else [Header(code, true)] + (if encodes then [Body(PlainError(text))] else [])
    case Write(text, encodes) =>
      (if started then [] else [Header(OK, true)])
        + (if encodes then [Body(Stream(text))] + (if flushes then [Flush] else []) else [])
    case WriteAux(data, encodes) =>
      (if started then [] else [Header(OK, true)])
        + (if encodes then [Body(Aux(data))] + (if flushes then [Flush] else []) else [])
  }

  function Trace(started: bool, flushes: bool, calls: seq<Call>): seq<Output>
    decreases |calls|
  {
    if calls == [] then [] else Emit(started, flushes, calls[0]) + Trace(true, flushes, calls[1..])
  }

  /** The writer itself: `started` is the sync.Once, `out` the response so far. */
  class StreamWriter {
    var started: bool
    var out: seq<Output>
    const flushes: bool

    constructor (flushes: bool)
      ensures !started && out == [] && this.flushes == flushes
    {
      started, out, this.flushes := false, [], flushes;
    }

    method Write(text: string, encodes: bool) returns (n: nat, ok: bool)
      modifies this
      ensures started && out == old(out) + Emit(old(started), flushes, Call.Write(text, encodes))
      ensures out == old(out) + (if old(started) then [] else [Header(200, true)])
                     + (if encodes then [Body(Stream(text))] + (if flushes then [Flush] else []) else [])
      ensures ok == encodes && n == if ok then |text| else 0
    {
      if !started {
        started, out := true, out + [Header(OK, true)];
      }
      if !encodes {
        return 0, false;
      }
      out := out + [Body(Stream(text))];
      if flushes {
        out := out + [Flush];
      }
      return |text|, true;
    }

    method WriteError(code: nat, text: string, encodes: bool) returns (ok: bool)
      modifies this
      ensures started && out == old(out) + Emit(old(started), flushes, Call.WriteError(code, text, encodes))
      ensures old(started) ==> out == old(out) + if encodes then [Body(ErrorDetail(code, text))] else []
      ensures !old(started) && code == 304 ==> out == old(out) + [Header(304, false)]
      ensures !old(started) && code != 304 ==>
        out == old(out) + [Header(code, true)] + if encodes then [Body(PlainError(text))] else []
      ensures ok == (encodes || !old(started))
    {
      var firstMessage := false;
      if !started {
        started := true;
        SendErrorResponse(code, text, encodes);
        firstMessage := true;
      }
      if firstMessage {
        return true;
      }
      if encodes {
        out := out + [Body(ErrorDetail(code, text))];
      }
      return encodes;
    }

    method SendErrorResponse(code: nat, text: string, encodes: bool)
      modifies this`out
      ensures out == old(out) + Emit(false, flushes, Call.WriteError(code, text, encodes))
    {
      if code == NOT_MODIFIED {
        out := out + [Header(code, false)];
      } else {
        out := out + [Header(code, true)];
        if encodes {
          out := out + [Body(PlainError(text))];
        }
      }
    }

    method WriteAux(data: string, encodes: bool) returns (ok: bool)
      modifies this
      ensures started && out == old(out) + Emit(old(started), flushes, Call.WriteAux(data, encodes))
      ensures out == old(out) + (if old(started) then [] else [Header(200, true)])
                     + (if encodes then [Body(Aux(data))] + (if flushes then [Flush] else []) else [])
      ensures ok == encodes
    {
      if !started {
        started, out := true, out + [Header(OK, true)];
      }
      if !encodes {
        return false;
      }
      out := out + [Body(Aux(data))];
      if flushes {
        out := out + [Flush];
      }
      return true;
    }
  }

  /** The pull writer lets a Write through once one of them has mentioned "resolved". */
  predicate Resolves(resolved: bool, c: Call) {
    resolved || (c.Write? && Contains(c.text, "resolved"))
  }

  predicate Passes(resolved: bool, c: Call) {
    !c.Write? || Resolves(resolved, c)
  }

  class PullJobWriter {
    const stream: StreamWriter
    var resolved: bool

    constructor (flushes: bool)
      ensures fresh(stream) && !resolved && !stream.started && stream.out == [] && stream.flushes == flushes
    {
      stream := new StreamWriter(flushes);
      resolved := false;
    }

    /** WriteError and WriteAux are the embedded writer's. */
    method Write(text: string, encodes: bool) returns (n: nat, ok: bool)
      modifies this, stream
      ensures resolved == Resolves(old(resolved), Call.Write(text, encodes))
      ensures resolved == (old(resolved) || Contains(text, "resolved"))
      ensures Passes(old(resolved), Call.Write(text, encodes)) ==>
        stream.started && stream.out == old(stream.out) + Emit(old(stream.started), stream.flushes, Call.Write(text, encodes))
      ensures !Passes(old(resolved), Call.Write(text, encodes)) ==>
        stream.started == old(stream.started) && stream.out == old(stream.out) && n == 0 && ok
    {
      if !resolved {
        if Contains(text, "resolved") {
          resolved := true;
        } else {
          return 0, true;
        }
      }
      n, ok := stream.Write(text, encodes);
    }
  }

  function PullTrace(started: bool, resolved: bool, flushes: bool, calls: seq<Call>): seq<Output>
    decreases |calls|
  {
    if calls == [] then []
    else
      var c := calls[0];
      if Passes(resolved, c)
      then Emit(started, flushes, c) + PullTrace(true, Resolves(resolved, c), flushes, calls[1..])
      else PullTrace(started, resolved, flushes, calls[1..])
  }

  function Headers(out: seq<Output>): nat {
    if out == [] then 0 else (if out[0].Header? then 1 else 0) + Headers(out[1..])
  }

  function Bodies(out: seq<Output>): seq<Message> {
    if out == [] then [] else (if out[0].Body? then [out[0].message] else []) + Bodies(out[1..])
  }

  /** The message of a call: an error that comes first is sent as a plain error, or, with status
      304, without a body. */
  function MessageOf(c: Call, first: bool): seq<Message> {
    if !c.encodes then []
    else match c
      case Write(text, _) => [Stream(text)]
      case WriteAux(data, _) => [Aux(data)]
      case WriteError(code, text, _) =>
        if !first then [ErrorDetail(code, text)] else if code == NOT_MODIFIED then [] else [PlainError(text)]
  }

  function Messages(calls: seq<Call>, first: bool): seq<Message> {
    if calls == [] then [] else MessageOf(calls[0], first) + Messages(calls[1..], false)
  }

  lemma {:induction false} Concatenated(a: seq<Output>, b: seq<Output>)
    ensures Headers(a + b) == Headers(a) + Headers(b) && Bodies(a + b) == Bodies(a) + Bodies(b)
  {
    if a == [] {
      assert a + b == b;
    } else {
      var c := a + b;
      assert c[1..] == a[1..] + b && c[0] == a[0];
      Concatenated(a[1..], b);
      assert Bodies(c) == (if a[0].Body? then [a[0].message] else []) + (Bodies(a[1..]) + Bodies(b));
    }
  }

  lemma EmitOne(started: bool, flushes: bool, c: Call)
    ensures Headers(Emit(started, flushes, c)) == if started then 0 else 1
    ensures Bodies(Emit(started, flushes, c)) == MessageOf(c, !started)
    ensures !started ==> Emit(started, flushes, c)[0].Header? && Emit(started, flushes, c)[0].code == if c.WriteError? then c.code else OK
  {
    var code := if c.WriteError? then c.code else OK;
    var json := !(c.WriteError? && code == NOT_MODIFIED);
    var head := if started then [] else [Header(code, json)];
    var body := if MessageOf(c, !started) == [] then [] else [Body(MessageOf(c, !started)[0])];
    var tail := if c.encodes && flushes && !c.WriteError? then [Flush] else [];
    assert Emit(started, flushes, c) == head + body + tail;
    Concatenated(head + body, tail);
    Concatenated(head, body);
    Single(Header(code, json));
    Single(Flush);
    if body != [] {
      Single(body[0]);
    }
  }

  lemma Single(o: Output)
    ensures Headers([o]) == (if o.Header? then 1 else 0) && Bodies([o]) == if o.Body? then [o.message] else []
  {
    assert [o][1..] == [];
  }

  /** Once started, a writer never sends another header, and its body is its messages in order. */
  lemma {:induction false} StartedTrace(flushes: bool, calls: seq<Call>)
    ensures Headers(Trace(true, flushes, calls)) == 0 && Bodies(Trace(true, flushes, calls)) == Messages(calls, false)
  {
    if calls != [] {
      EmitOne(true, flushes, calls[0]);
      StartedTrace(flushes, calls[1..]);
      Concatenated(Emit(true, flushes, calls[0]), Trace(true, flushes, calls[1..]));
    }
  }

  /** For every non-empty sequence of calls: the status is sent exactly once and first, it is an
      error code only if the first call was an error, and the body is the messages in order. */
  lemma HeaderOnceAndFirst(flushes: bool, calls: seq<Call>)
    requires calls != []
    ensures var out := Trace(false, flushes, calls);
      && out != [] && Headers(out) == 1 && out[0].Header?
      && out[0].code == (if calls[0].WriteError? then calls[0].code else OK)
      && Bodies(out) == Messages(calls, true)
  {
    EmitOne(false, flushes, calls[0]);
    StartedTrace(flushes, calls[1..]);
    Concatenated(Emit(false, flushes, calls[0]), Trace(true, flushes, calls[1..]));
  }

  predicate Streamed(o: Output) {
    o.Body? && (o.message.Stream? || o.message.Aux?)
  }

  /** A flush comes right after every streamed message, and nowhere else. */
  predicate WellFlushed(out: seq<Output>, flushes: bool) {
    && (forall k :: 0 <= k < |out| && out[k].Flush? ==> flushes && k > 0 && Streamed(out[k - 1]))
    && (forall k :: 0 <= k < |out| && flushes && Streamed(out[k]) ==> k + 1 < |out| && out[k + 1].Flush?)
  }

  lemma FlushedAppend(a: seq<Output>, b: seq<Output>, flushes: bool)
    requires WellFlushed(a, flushes) && WellFlushed(b, flushes)
    ensures WellFlushed(a + b, flushes)
  {
    var c := a + b;
    forall k | 0 <= k < |c| && c[k].Flush? ensures flushes && k > 0 && Streamed(c[k - 1]) {
      if k >= |a| {
        assert c[k] == b[k - |a|];
        assert c[k - 1] == b[k - |a| - 1];
      }
    }
    forall k | 0 <= k < |c| && flushes && Streamed(c[k]) ensures k + 1 < |c| && c[k + 1].Flush? {
      if k >= |a| {
        assert c[k] == b[k - |a|];
      }
    }
  }

  lemma EmitFlushed(started: bool, flushes: bool, c: Call)
    ensures WellFlushed(Emit(started, flushes, c), flushes)
    ensures forall k :: 0 <= k < |Emit(started, flushes, c)| && Emit(started, flushes, c)[k].Header? ==>
      (Emit(started, flushes, c)[k].json <==> !(c.WriteError? && c.code == 304))
  {
  }

  /** For every call sequence: each streamed message is flushed at once if the connection can be
      flushed, and the header says JSON unless it is that of a first error 304. */
  lemma {:induction false} FlushedAndTyped(started: bool, flushes: bool, calls: seq<Call>)
    ensures WellFlushed(Trace(started, flushes, calls), flushes)
    ensures forall k :: 0 <= k < |Trace(started, flushes, calls)| && Trace(started, flushes, calls)[k].Header? ==>
      (Trace(started, flushes, calls)[k].json <==> !(calls[0].WriteError? && calls[0].code == 304))
    decreases |calls|
  {
    if calls != [] {
      var head, tail := Emit(started, flushes, calls[0]), Trace(true, flushes, calls[1..]);
      EmitFlushed(started, flushes, calls[0]);
      FlushedAndTyped(true, flushes, calls[1..]);
      FlushedAppend(head, tail, flushes);
      StartedTrace(flushes, calls[1..]);
      NoHeaders(tail);
    }
  }

  lemma {:induction false} NoHeaders(out: seq<Output>)
    requires Headers(out) == 0
    ensures forall k :: 0 <= k < |out| ==> !out[k].Header?
  {
    if out != [] {
      NoHeaders(out[1..]);
      assert out == [out[0]] + out[1..];
    }
  }

  /** The position of the first Write that mentions "resolved", or the number of calls. */
  function FirstResolved(calls: seq<Call>): (k: nat)
    ensures k <= |calls|
  {
    if calls == [] || Resolves(false, calls[0]) then 0 else 1 + FirstResolved(calls[1..])
  }

  function WithoutWrites(calls: seq<Call>): seq<Call> {
    if calls == [] then []
    else (if calls[0].Write? then [] else [calls[0]]) + WithoutWrites(calls[1..])
  }

  lemma {:induction false} ResolvedPullTrace(started: bool, flushes: bool, calls: seq<Call>)
    ensures PullTrace(started, true, flushes, calls) == Trace(started, flushes, calls)
    decreases |calls|
  {
    if calls != [] {
      ResolvedPullTrace(true, flushes, calls[1..]);
    }
  }

  lemma KeptLater(calls: seq<Call>, k: nat)
    requires 0 < k <= |calls|
    ensures WithoutWrites(calls[..k]) + calls[k..] ==
      (if calls[0].Write? then [] else [calls[0]]) + (WithoutWrites(calls[1..][..k - 1]) + calls[1..][k - 1..])
  {
    assert calls[..k][1..] == calls[1..][..k - 1];
    assert calls[1..][k - 1..] == calls[k..];
  }

  lemma TraceFirst(started: bool, flushes: bool, c: Call, rest: seq<Call>)
    ensures Trace(started, flushes, [c] + rest) == Emit(started, flushes, c) + Trace(true, flushes, rest)
  {
    assert ([c] + rest)[1..] == rest;
  }

  /** The pull writer behaves as the plain writer would with every Write before the first
      "resolved" one left out. */
  lemma {:induction false} PullRefinesPlain(started: bool, flushes: bool, calls: seq<Call>)
    ensures PullTrace(started, false, flushes, calls) ==
            Trace(started, flushes, WithoutWrites(calls[..FirstResolved(calls)]) + calls[FirstResolved(calls)..])
    decreases |calls|
  {
    var k := FirstResolved(calls);
    if k == 0 {
      assert WithoutWrites(calls[..0]) + calls[0..] == calls;
      if calls != [] {
        ResolvedPullTrace(true, flushes, calls[1..]);
      }
    } else {
      var rest := WithoutWrites(calls[1..][..k - 1]) + calls[1..][k - 1..];
      KeptLater(calls, k);
      if calls[0].Write? {
        PullRefinesPlain(started, flushes, calls[1..]);
        assert [] + rest == rest;
      } else {
        PullRefinesPlain(true, flushes, calls[1..]);
        TraceFirst(started, flushes, calls[0], rest);
      }
    }
  }
}
